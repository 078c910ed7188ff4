/** String helpers the analyzer relies on: ASCII lower-casing, splitting on
    runs of delimiter characters (the behaviour of a regular-expression split
    on `[...]+`), whitespace trimming and substring containment. */
module Text {

  /** The whitespace characters a split on `\s+` and a trim remove
      (the ASCII subset of the JavaScript whitespace class). */
  predicate IsSpace(c: char) {
    c == ' ' || c == '\t' || c == '\n' || c == '\r' || c == '\U{0B}' || c == '\U{0C}'
  }

  predicate IsUpper(c: char) {
    'A' <= c <= 'Z'
  }

  function LowerChar(c: char): (r: char)
    ensures !IsUpper(r)
    ensures IsUpper(c) ==> 'a' <= r <= 'z' && r as int - 'a' as int == c as int - 'A' as int
    ensures !IsUpper(c) ==> r == c
    ensures IsSpace(r) <==> IsSpace(c)
  {
    if IsUpper(c) then (c as int - 'A' as int + 'a' as int) as char else c
  }

  /** Lower-casing, restricted to ASCII letters. */
  function Lower(s: string): (r: string)
    ensures |r| == |s|
    ensures forall i :: 0 <= i < |s| ==> r[i] == LowerChar(s[i])
    ensures forall i :: 0 <= i < |r| ==> !IsUpper(r[i])
  {
    seq(|s|, i requires 0 <= i < |s| => LowerChar(s[i]))
  }

  /** Splits `s` at every maximal run of characters satisfying `sep`.  As with
      a regular-expression split on `[...]+`, a run at either end yields an empty
      first or last field, and the empty string yields one empty field.  The
      fields hold no delimiter, only the first and last can be empty, and
      putting the removed runs back between them gives `s` again. The
      `Strip` clause is a corollary of that round trip: the fields alone are
      `s` with its delimiters removed. */
  function Split(s: string, sep: char -> bool): (r: seq<string>)
    ensures |r| >= 1
    ensures forall i :: 0 <= i < |r| ==> Clean(r[i], sep)
    ensures forall i :: 0 < i < |r| - 1 ==> r[i] != []
    ensures Concat(r) == Strip(s, sep)
    ensures exists gaps :: Rejoins(s, r, gaps, sep)
  {
    SplitFromShape(s, [], sep);
    SplitFromRejoins(s, [], sep);
    assert [] + s == s;
    SplitFrom(s, [], sep)
  }

  /** Split, where `field` holds the characters of the field read so far. */
  function SplitFrom(s: string, field: string, sep: char -> bool): seq<string>
    decreases |s|
  {
    if s == [] then [field]
    else if sep(s[0]) then
      if |s| > 1 && sep(s[1]) then SplitFrom(s[1..], field, sep)
      else [field] + SplitFrom(s[1..], [], sep)
    else SplitFrom(s[1..], field + [s[0]], sep)
  }

  /** The characters of `s` that are not delimiters, in order. */
  function Strip(s: string, sep: char -> bool): (r: string)
    ensures |r| <= |s|
  {
    if s == [] then []
    else if sep(s[0]) then Strip(s[1..], sep)
    else [s[0]] + Strip(s[1..], sep)
  }

  function Concat(fields: seq<string>): string {
    if fields == [] then [] else fields[0] + Concat(fields[1..])
  }

  lemma {:induction false} ConcatAppend(a: seq<string>, b: seq<string>)
    ensures Concat(a + b) == Concat(a) + Concat(b)
  {
    if a != [] {
      assert (a + b)[1..] == a[1..] + b;
      ConcatAppend(a[1..], b);
    } else {
      assert a + b == b;
    }
  }

  predicate Clean(f: string, sep: char -> bool) {
    forall j :: 0 <= j < |f| ==> !sep(f[j])
  }

  lemma {:induction false} SplitFromShape(s: string, field: string, sep: char -> bool)
    requires Clean(field, sep)
    ensures var r := SplitFrom(s, field, sep);
      |r| >= 1 &&
      (forall i :: 0 <= i < |r| ==> Clean(r[i], sep)) &&
      Concat(r) == field + Strip(s, sep) &&
      (field != [] || (s != [] && !sep(s[0])) ==> r[0] != []) &&
      (forall i :: 0 < i < |r| - 1 ==> r[i] != [])
    decreases |s|
  {
    if s == [] {
      assert Concat([field]) == field + Concat([]);
    } else if sep(s[0]) {
      if |s| > 1 && sep(s[1]) {
        SplitFromShape(s[1..], field, sep);
      } else {
        SplitFromShape(s[1..], [], sep);
        var t := SplitFrom(s[1..], [], sep);
        assert SplitFrom(s, field, sep) == [field] + t;
        ConcatAppend([field], t);
        assert Concat([field]) == field + Concat([]);
        assert s[1..] != [] ==> !sep(s[1..][0]);
      }
    } else {
      assert Clean(field + [s[0]], sep);
      SplitFromShape(s[1..], field + [s[0]], sep);
    }
  }

  /** Every character of `g` is a delimiter. */
  predicate AllSep(g: string, sep: char -> bool) {
    forall j :: 0 <= j < |g| ==> sep(g[j])
  }

  /** The fields with the gaps put back between them: `f0 + g0 + f1 + ... + fn`. */
  function Join(fields: seq<string>, gaps: seq<string>): string
    requires |gaps| + 1 == |fields|
    decreases |gaps|
  {
    if gaps == [] then fields[0] else fields[0] + gaps[0] + Join(fields[1..], gaps[1..])
  }

  /** `gaps` are non-empty runs of delimiters which, put back between the
      fields, give `s`. */
  ghost predicate Rejoins(s: string, fields: seq<string>, gaps: seq<string>, sep: char -> bool) {
    |gaps| + 1 == |fields| &&
    (forall k :: 0 <= k < |gaps| ==> gaps[k] != [] && AllSep(gaps[k], sep)) &&
    Join(fields, gaps) == s
  }

  lemma {:induction false} SplitFromRejoins(s: string, field: string, sep: char -> bool)
    ensures var r := SplitFrom(s, field, sep);
      (exists gaps :: Rejoins(field + s, r, gaps, sep)) &&
      (s != [] && sep(s[0]) ==> |r| >= 2 && r[0] == field)
    decreases |s|
  {
    var r := SplitFrom(s, field, sep);
    if s == [] {
      assert Rejoins(field + s, r, [], sep);
    } else if sep(s[0]) {
      if |s| > 1 && sep(s[1]) {
        SplitFromRejoins(s[1..], field, sep);
        assert r == SplitFrom(s[1..], field, sep);
        assert s[1..][0] == s[1];
        var g :| Rejoins(field + s[1..], r, g, sep);
        RunGrows(s, field, r, g, sep);
        assert exists gaps :: Rejoins(field + s, SplitFrom(s, field, sep), gaps, sep);
      } else {
        var t := SplitFrom(s[1..], [], sep);
        SplitFromRejoins(s[1..], [], sep);
        assert [] + s[1..] == s[1..];
        var g :| Rejoins(s[1..], t, g, sep);
        assert r == [field] + t;
        RunStarts(s, field, t, g, sep);
        assert exists gaps :: Rejoins(field + s, SplitFrom(s, field, sep), gaps, sep);
        assert |r| >= 2 && r[0] == field;
      }
    } else {
      SplitFromRejoins(s[1..], field + [s[0]], sep);
      assert r == SplitFrom(s[1..], field + [s[0]], sep);
      assert field + [s[0]] + s[1..] == field + s;
      var g :| Rejoins(field + s, r, g, sep);
      assert exists gaps :: Rejoins(field + s, SplitFrom(s, field, sep), gaps, sep);
    }
  }

  /** A delimiter in front of a run already found joins the first gap. */
  lemma RunGrows(s: string, field: string, r: seq<string>, g: seq<string>, sep: char -> bool)
    requires |s| > 1 && sep(s[0])
    requires Rejoins(field + s[1..], r, g, sep) && |r| >= 2 && r[0] == field
    ensures Rejoins(field + s, r, [[s[0]] + g[0]] + g[1..], sep)
  {
    var rest := Join(r[1..], g[1..]);
    assert field + g[0] + rest == field + s[1..];
    assert g[0] + rest == s[1..] by {
      assert (field + (g[0] + rest))[|field|..] == g[0] + rest;
      assert (field + s[1..])[|field|..] == s[1..];
    }
    var g' := [[s[0]] + g[0]] + g[1..];
    assert g'[1..] == g[1..];
    assert Join(r, g') == field + ([s[0]] + g[0]) + rest;
    assert [s[0]] + s[1..] == s;
    assert field + ([s[0]] + g[0]) + rest == field + s;
  }

  /** A delimiter followed by a non-delimiter closes the field read so far. */
  lemma RunStarts(s: string, field: string, t: seq<string>, g: seq<string>, sep: char -> bool)
    requires s != [] && sep(s[0])
    requires Rejoins(s[1..], t, g, sep)
    ensures Rejoins(field + s, [field] + t, [[s[0]]] + g, sep)
  {
    var r, g' := [field] + t, [[s[0]]] + g;
    assert r[1..] == t && g'[1..] == g;
    assert Join(r, g') == field + [s[0]] + s[1..];
    assert [s[0]] + s[1..] == s;
  }

  predicate IsBlank(s: string) {
    forall i :: 0 <= i < |s| ==> IsSpace(s[i])
  }

  /** Number of whitespace characters at the start of `s`. */
  function LeadingBlanks(s: string): (n: nat)
    ensures n <= |s|
    ensures forall i :: 0 <= i < n ==> IsSpace(s[i])
    ensures n == |s| || !IsSpace(s[n])
  {
    if s != [] && IsSpace(s[0]) then 1 + LeadingBlanks(s[1..]) else 0
  }

  /** Number of whitespace characters at the end of `s`. */
  function TrailingBlanks(s: string): (n: nat)
    ensures n <= |s|
    ensures forall i :: |s| - n <= i < |s| ==> IsSpace(s[i])
    ensures n == |s| || !IsSpace(s[|s| - n - 1])
  {
    if s != [] && IsSpace(s[|s| - 1]) then 1 + TrailingBlanks(s[..|s| - 1]) else 0
  }

  /** Drops whitespace at both ends: the slice of `s` between its blank
      prefix and its blank suffix, empty or starting and ending with a
      non-space. */
  function Trim(s: string): (r: string)
    ensures var a := LeadingBlanks(s);
      a + |r| <= |s| && r == s[a..a + |r|] &&
      (forall i :: 0 <= i < a ==> IsSpace(s[i])) &&
      (forall i :: a + |r| <= i < |s| ==> IsSpace(s[i])) &&
      (r == [] || (!IsSpace(r[0]) && !IsSpace(r[|r| - 1])))
  {
    var a := LeadingBlanks(s);
    var t := s[a..];
    var b := TrailingBlanks(t);
    assert forall i :: |s| - b <= i < |s| ==> t[i - a] == s[i];
    s[a..|s| - b]
  }

  /** The trimmed string is empty exactly when `s` is blank. */
  lemma TrimEmpty(s: string)
    ensures Trim(s) == [] <==> IsBlank(s)
  {
    var r, a := Trim(s), LeadingBlanks(s);
    if r != [] {
      assert r[0] == s[a];
    }
  }

  /** First `n` characters of `s` (JavaScript `substring(0, n)`). */
  function Prefix(s: string, n: nat): (r: string)
    ensures |r| == if |s| < n then |s| else n
    ensures r == s[..|r|]
  {
    if |s| <= n then s else s[..n]
  }

  /** `p` occurs in `s` at index `i`. */
  ghost predicate OccursAt(s: string, p: string, i: int) {
    0 <= i && i + |p| <= |s| && s[i..i + |p|] == p
  }

  /** Substring test (JavaScript `s.includes(p)`): `p` occurs somewhere in `s`. */
  function Contains(s: string, p: string): (r: bool)
    ensures r <==> exists i :: OccursAt(s, p, i)
    decreases |s|
  {
    OccursStep(s, p);
    |p| <= |s| && (s[..|p|] == p || Contains(s[1..], p))
  }

  /** An occurrence is at the front or, shifted by one, in the rest. */
  lemma OccursStep(s: string, p: string)
    ensures |p| <= |s| && s[..|p|] == p ==> OccursAt(s, p, 0)
    ensures s != [] ==> (exists i :: OccursAt(s[1..], p, i)) ==> exists i :: OccursAt(s, p, i)
    ensures (exists i :: OccursAt(s, p, i)) ==>
      (|p| <= |s| && s[..|p|] == p) || (s != [] && exists i :: OccursAt(s[1..], p, i))
  {
    if s != [] && exists i :: OccursAt(s[1..], p, i) {
      var i :| OccursAt(s[1..], p, i);
      assert s[1..][i..i + |p|] == s[i + 1..i + 1 + |p|];
      assert OccursAt(s, p, i + 1);
    }
    if exists i :: OccursAt(s, p, i) {
      var i :| OccursAt(s, p, i);
      if i != 0 {
        assert s[1..][i - 1..i - 1 + |p|] == s[i..i + |p|];
        assert OccursAt(s[1..], p, i - 1);
      }
    }
  }
}
