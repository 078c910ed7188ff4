/** Key phrases: excerpts of the first three sentences of a document. */
module KeyPhrases {
  import opened Text

  /** The sentence terminators of a split on `[.!?]+`. */
  predicate IsTerminator(c: char) {
    c == '.' || c == '!' || c == '?'
  }

  const MaxPhrases: nat := 3
  const MaxExcerpt: nat := 100
  const Ellipsis: string := "..."

  /** The fields that are not blank, in order. */
  function NonBlank(fields: seq<string>): (r: seq<string>)
    ensures |r| <= |fields|
    ensures forall i :: 0 <= i < |r| ==> !IsBlank(r[i]) && r[i] in fields
    ensures forall f :: f in fields && !IsBlank(f) ==> f in r
    ensures (forall i :: 0 <= i < |fields| ==> !IsBlank(fields[i])) ==> r == fields
  {
    if fields == [] then []
    else if IsBlank(fields[0]) then NonBlank(fields[1..])
    else [fields[0]] + NonBlank(fields[1..])
  }

  lemma {:induction false} NonBlankAppend(a: seq<string>, b: seq<string>)
    ensures NonBlank(a + b) == NonBlank(a) + NonBlank(b)
  {
    if a == [] {
      assert a + b == b;
    } else {
      assert (a + b)[1..] == a[1..] + b;
      NonBlankAppend(a[1..], b);
    }
  }

  /** The sentences of a text: the non-blank pieces between runs of
      terminators, in order. Every sentence has a non-space character and no
      terminator, and every non-blank piece is a sentence. */
  function Sentences(text: string): (r: seq<string>)
    ensures forall i :: 0 <= i < |r| ==> !IsBlank(r[i]) && Clean(r[i], IsTerminator)
    ensures forall f :: f in r <==> f in Split(text, IsTerminator) && !IsBlank(f)
  {
    NonBlank(Split(text, IsTerminator))
  }

  /** One key phrase: the first (at most) 100 characters of the trimmed
      sentence, followed by an ellipsis whether or not anything was cut. */
  function Excerpt(sentence: string): (r: string)
    ensures 3 <= |r| <= MaxExcerpt + 3
    ensures r[|r| - 3..] == Ellipsis
    ensures var body, trimmed := r[..|r| - 3], Trim(sentence);
      |body| == Lesser(MaxExcerpt, |trimmed|) && body == trimmed[..|body|]
  {
    var body := Prefix(Trim(sentence), MaxExcerpt);
    var r := body + Ellipsis;
    assert r[..|r| - 3] == body && r[|r| - 3..] == Ellipsis;
    r
  }

  /** An excerpt of a sentence is 4 to 103 characters long and ends in the
      ellipsis; before it stand the first (at most) 100 characters of the
      trimmed sentence, starting with a non-space and holding no terminator. */
  ghost predicate ExcerptOf(phrase: string, sentence: string) {
    4 <= |phrase| <= MaxExcerpt + 3 &&
    phrase[|phrase| - 3..] == Ellipsis &&
    var body, trimmed := phrase[..|phrase| - 3], Trim(sentence);
    |body| == Lesser(MaxExcerpt, |trimmed|) && body == trimmed[..|body|] &&
    !IsSpace(body[0]) &&
    Clean(body, IsTerminator)
  }

  lemma ExcerptShape(sentence: string)
    requires !IsBlank(sentence) && Clean(sentence, IsTerminator)
    ensures ExcerptOf(Excerpt(sentence), sentence)
  {
    TrimEmpty(sentence);
    var trimmed := Trim(sentence);
    var body := Prefix(trimmed, MaxExcerpt);
    var phrase := Excerpt(sentence);
    assert phrase == body + Ellipsis;
    assert phrase[..|phrase| - 3] == body;
    assert phrase[|phrase| - 3..] == Ellipsis;
    assert body[0] == trimmed[0];
    var a := LeadingBlanks(sentence);
    forall j | 0 <= j < |body| ensures !IsTerminator(body[j]) {
      assert body[j] == trimmed[j] == sentence[a + j];
    }
    assert Clean(body, IsTerminator);
  }

  /** The smaller of two lengths. */
  function Lesser(a: nat, b: nat): nat {
    if a < b then a else b
  }

  /** The excerpts of the first (at most) three sentences, in order; fewer
      than three exactly when the text has fewer than three sentences. */
  function ExtractKeyPhrases(text: string): (r: seq<string>)
    ensures |r| == Lesser(MaxPhrases, |Sentences(text)|)
    ensures |r| < MaxPhrases <==> |Sentences(text)| < MaxPhrases
    ensures forall i :: 0 <= i < |r| ==> r[i] == Excerpt(Sentences(text)[i])
  {
    var sentences := Sentences(text);
    seq(Lesser(MaxPhrases, |sentences|), i requires 0 <= i < |sentences| => Excerpt(sentences[i]))
  }

  /** Every key phrase has the shape of an excerpt of its sentence. */
  lemma KeyPhrasesShape(text: string)
    ensures forall i :: 0 <= i < |ExtractKeyPhrases(text)| ==>
      ExcerptOf(ExtractKeyPhrases(text)[i], Sentences(text)[i])
  {
    forall i | 0 <= i < |ExtractKeyPhrases(text)|
      ensures ExcerptOf(ExtractKeyPhrases(text)[i], Sentences(text)[i])
    {
      ExcerptShape(Sentences(text)[i]);
    }
  }
}
