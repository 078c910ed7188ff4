/** The rule-based sentiment scorer: tokenise, count lexicon hits with a
    positive > negative > neutral priority, turn the counts into percentages,
    decide the label and its confidence, and round. */
module Classifier {
  import opened Text
  import opened Labels
  import KeyPhrases

  /** Three lists of lower-case substrings, one per bucket. */
  datatype Lexicon = Lexicon(positive: seq<string>, negative: seq<string>, neutral: seq<string>)

  /** The analyzer's fixed word lists. */
  const LegalLexicon: Lexicon := Lexicon(
    ["favorable", "successful", "satisfaction", "pleased", "exceptional",
     "outstanding", "invaluable", "confidence", "recommend", "flexibility"],
    ["breach", "dispute", "dismissal", "concern", "losses",
     "urgent", "deterioration", "alleges", "demands", "delays"],
    ["agreement", "establishes", "acknowledges", "revised", "documented",
     "argues", "court", "finds"])

  /** The tokens of a text: its lower-cased characters split at runs of
      whitespace (a leading or trailing run gives an empty token, which
      matches no lexicon word). Tokens hold no whitespace, only the first and
      last can be empty, and with the whitespace runs put back between them
      they give the lower-cased text. */
  function Tokens(text: string): (r: seq<string>)
    ensures forall i :: 0 <= i < |r| ==> Clean(r[i], IsSpace)
    ensures forall i :: 0 < i < |r| - 1 ==> r[i] != []
    ensures exists gaps :: Rejoins(Lower(text), r, gaps, IsSpace)
  {
    Split(Lower(text), IsSpace)
  }

  /** Some word of the list occurs in the token. */
  ghost predicate Mentions(token: string, words: seq<string>) {
    exists i, k :: 0 <= i < |words| && OccursAt(token, words[i], k)
  }

  /** Some word of the list is a substring of the token. */
  predicate HitsAny(token: string, words: seq<string>)
    ensures HitsAny(token, words) <==> Mentions(token, words)
  {
    exists i :: 0 <= i < |words| && Contains(token, words[i])
  }

  /** The bucket a single token adds to, if any. */
  datatype Bucket = PositiveHit | NegativeHit | NeutralHit | NoHit

  /** The first lexicon, in the order positive, negative, neutral, that has a
      word occurring in the token decides its bucket; a token mentioning a
      positive and a negative word is positive only. */
  function Classify(lex: Lexicon, token: string): (r: Bucket)
    ensures r == PositiveHit <==> Mentions(token, lex.positive)
    ensures r == NegativeHit <==> !Mentions(token, lex.positive) && Mentions(token, lex.negative)
    ensures r == NeutralHit <==>
      !Mentions(token, lex.positive) && !Mentions(token, lex.negative) && Mentions(token, lex.neutral)
    ensures r == NoHit <==>
      !Mentions(token, lex.positive) && !Mentions(token, lex.negative) && !Mentions(token, lex.neutral)
  {
    if HitsAny(token, lex.positive) then PositiveHit
    else if HitsAny(token, lex.negative) then NegativeHit
    else if HitsAny(token, lex.neutral) then NeutralHit
    else NoHit
  }

  /** Raw hit counts of the three buckets. */
  datatype Counts = Counts(positive: nat, negative: nat, neutral: nat) {
    function Total(): nat {
      positive + negative + neutral
    }
    function Plus(other: Counts): Counts {
      Counts(positive + other.positive, negative + other.negative, neutral + other.neutral)
    }
  }

  function Bump(c: Counts, b: Bucket): Counts {
    match b
    case PositiveHit => c.(positive := c.positive + 1)
    case NegativeHit => c.(negative := c.negative + 1)
    case NeutralHit => c.(neutral := c.neutral + 1)
    case NoHit => c
  }

  /** The bucket of each token, in order. */
  function Buckets(lex: Lexicon, tokens: seq<string>): (r: seq<Bucket>)
    ensures |r| == |tokens|
    ensures forall i :: 0 <= i < |r| ==> r[i] == Classify(lex, tokens[i])
  {
    seq(|tokens|, i requires 0 <= i < |tokens| => Classify(lex, tokens[i]))
  }

  ghost predicate AllMiss(buckets: seq<Bucket>) {
    forall i :: 0 <= i < |buckets| ==> buckets[i] == NoHit
  }

  ghost predicate AllHit(buckets: seq<Bucket>) {
    forall i :: 0 <= i < |buckets| ==> buckets[i] != NoHit
  }

  /** Counts `c` that fit the buckets `init` still fit them after one more
      bucket. */
  lemma CountStep(c: Counts, init: seq<Bucket>, last: Bucket, b: seq<Bucket>)
    requires b == init + [last]
    requires c.Total() <= |init|
    requires c.Total() == |init| <==> AllHit(init)
    requires c.Total() == 0 <==> AllMiss(init)
    ensures var r := Bump(c, last);
      r.Total() <= |b| && (r.Total() == |b| <==> AllHit(b)) && (r.Total() == 0 <==> AllMiss(b))
  {
    assert b[|init|] == last;
    assert forall i :: 0 <= i < |init| ==> b[i] == init[i];
  }

  lemma BumpTotal(c: Counts, b: Bucket)
    ensures Bump(c, b).Total() == c.Total() + (if b == NoHit then 0 else 1)
  {
  }

  /** The counts after adding the buckets from the first to the last. Each
      bucket adds to at most one counter, so the counts add up to at most the
      number of buckets. */
  function Count(buckets: seq<Bucket>): (r: Counts)
    ensures r.Total() <= |buckets|
  {
    if buckets == [] then Counts(0, 0, 0)
    else
      var init, last := buckets[..|buckets| - 1], buckets[|buckets| - 1];
      BumpTotal(Count(init), last);
      Bump(Count(init), last)
  }

  /** A nonempty sequence is its front followed by its last element. */
  lemma LastSplit(buckets: seq<Bucket>)
    requires buckets != []
    ensures buckets == buckets[..|buckets| - 1] + [buckets[|buckets| - 1]]
  {
  }

  /** The counts add up to the number of buckets exactly when no bucket is a
      miss, and to zero exactly when every bucket is a miss. */
  lemma {:induction false} CountShape(buckets: seq<Bucket>)
    ensures Count(buckets).Total() == |buckets| <==> AllHit(buckets)
    ensures Count(buckets).Total() == 0 <==> AllMiss(buckets)
  {
    if buckets != [] {
      var init, last := buckets[..|buckets| - 1], buckets[|buckets| - 1];
      LastSplit(buckets);
      CountShape(init);
      CountStep(Count(init), init, last, buckets);
    }
  }

  /** Each counter is the number of buckets of its kind: the positive counter
      counts the PositiveHit buckets, and so on. */
  lemma {:induction false} CountValue(buckets: seq<Bucket>)
    ensures Count(buckets) ==
      Counts(multiset(buckets)[PositiveHit], multiset(buckets)[NegativeHit], multiset(buckets)[NeutralHit])
  {
    if buckets != [] {
      var init, last := buckets[..|buckets| - 1], buckets[|buckets| - 1];
      LastSplit(buckets);
      CountValue(init);
      assert multiset(buckets) == multiset(init) + multiset{last};
    }
  }

  /** The counts a sequence of tokens gives: each counter is the number of
      tokens classified into its bucket; at most one per token, one for every
      token exactly when every token hits, and none exactly when every token
      misses. */
  function Tally(lex: Lexicon, tokens: seq<string>): (r: Counts)
    ensures r.positive == multiset(Buckets(lex, tokens))[PositiveHit]
    ensures r.negative == multiset(Buckets(lex, tokens))[NegativeHit]
    ensures r.neutral == multiset(Buckets(lex, tokens))[NeutralHit]
    ensures r.Total() <= |tokens|
    ensures r.Total() == |tokens| <==>
      forall i :: 0 <= i < |tokens| ==> Classify(lex, tokens[i]) != NoHit
    ensures r.Total() == 0 <==>
      forall i :: 0 <= i < |tokens| ==> Classify(lex, tokens[i]) == NoHit
  {
    CountValue(Buckets(lex, tokens));
    CountShape(Buckets(lex, tokens));
    BucketsShape(lex, tokens);
    Count(Buckets(lex, tokens))
  }

  /** Every bucket is a hit (a miss) exactly when every token hits (misses). */
  lemma BucketsShape(lex: Lexicon, tokens: seq<string>)
    ensures AllHit(Buckets(lex, tokens)) <==> forall i :: 0 <= i < |tokens| ==> Classify(lex, tokens[i]) != NoHit
    ensures AllMiss(Buckets(lex, tokens)) <==> forall i :: 0 <= i < |tokens| ==> Classify(lex, tokens[i]) == NoHit
  {
  }

  /** One more bucket adds to the counts. */
  lemma CountSnoc(buckets: seq<Bucket>, i: nat)
    requires i < |buckets|
    ensures Count(buckets[..i + 1]) == Bump(Count(buckets[..i]), buckets[i])
  {
    assert buckets[..i + 1][..i] == buckets[..i];
  }

  /** The last bucket of a nonempty `b` is also the last of `a + b`. */
  lemma CountSnocAppend(a: seq<Bucket>, b: seq<Bucket>)
    requires b != []
    ensures Count(a + b) == Bump(Count(a + b[..|b| - 1]), b[|b| - 1])
    ensures Count(b) == Bump(Count(b[..|b| - 1]), b[|b| - 1])
  {
    assert (a + b)[..|a + b| - 1] == a + b[..|b| - 1];
    assert (a + b)[|a + b| - 1] == b[|b| - 1];
  }

  /** Appending no buckets adds nothing. */
  lemma CountAppendEmpty(a: seq<Bucket>)
    ensures Count(a + []) == Count(a).Plus(Count([]))
  {
    assert a + [] == a;
  }

  /** Counting is additive over concatenation. */
  lemma {:induction false} CountAppend(a: seq<Bucket>, b: seq<Bucket>)
    ensures Count(a + b) == Count(a).Plus(Count(b))
    decreases |b|
  {
    if b == [] {
      CountAppendEmpty(a);
    } else {
      var b', last := b[..|b| - 1], b[|b| - 1];
      CountSnocAppend(a, b);
      CountAppend(a, b');
      BumpPlus(Count(a), Count(b'), last);
    }
  }

  lemma BumpPlus(x: Counts, y: Counts, b: Bucket)
    ensures Bump(x.Plus(y), b) == x.Plus(Bump(y, b))
  {
  }

  /** The counts of two parts of a text add up, and the order in which the
      parts are scanned does not change them. */
  lemma TallyAppend(lex: Lexicon, a: seq<string>, b: seq<string>)
    ensures Tally(lex, a + b) == Tally(lex, a).Plus(Tally(lex, b))
    ensures Tally(lex, a + b) == Tally(lex, b + a)
  {
    assert Buckets(lex, a + b) == Buckets(lex, a) + Buckets(lex, b);
    assert Buckets(lex, b + a) == Buckets(lex, b) + Buckets(lex, a);
    CountAppend(Buckets(lex, a), Buckets(lex, b));
    CountAppend(Buckets(lex, b), Buckets(lex, a));
  }

  /** Exact percentage of `count` in `total`, zero when there is nothing
      to share. A part of a total is between 0 and 100 percent of it, none of
      it 0 percent and all of it 100 percent. */
  function Percent(count: nat, total: nat): (r: real)
    ensures total == 0 ==> r == 0.0
    ensures count <= total ==> 0.0 <= r <= 100.0
    ensures count == 0 ==> r == 0.0
    ensures 0 < count == total ==> r == 100.0
  {
    if total > 0 then
      var k := 100.0 / total as real;
      assert total as real * k == 100.0;
      assert count <= total ==> count as real * k <= total as real * k;
      (count as real / total as real) * 100.0
    else 0.0
  }

  /** Scaling by a positive factor keeps the order. */
  lemma ScaleOrder(x: real, y: real, k: real, xk: real, yk: real)
    requires k > 0.0 && xk == x * k && yk == y * k
    ensures xk > yk <==> x > y
  {
    assert xk - yk == (x - y) * k;
    if x > y {
      assert (x - y) * k > 0.0;
    } else {
      assert (y - x) * k >= 0.0;
    }
  }

  /** Percentages over one total compare as the counts do. */
  lemma PercentCompare(a: nat, b: nat, total: nat)
    requires total > 0
    ensures Percent(a, total) > Percent(b, total) <==> a > b
  {
    var k := 100.0 / total as real;
    assert k > 0.0;
    ScaleOrder(a as real, b as real, k, Percent(a, total), Percent(b, total));
  }

  /** The three percentages of some counts are ordered as the counts are. */
  lemma PercentOrder(c: Counts)
    ensures var t := c.Total();
      var p, n, u := Percent(c.positive, t), Percent(c.negative, t), Percent(c.neutral, t);
      (p > n <==> c.positive > c.negative) && (p > u <==> c.positive > c.neutral) &&
      (n > p <==> c.negative > c.positive) && (n > u <==> c.negative > c.neutral) &&
      (u > p <==> c.neutral > c.positive) && (u > n <==> c.neutral > c.negative)
  {
    var t := c.Total();
    if t > 0 {
      PercentCompare(c.positive, c.negative, t);
      PercentCompare(c.positive, c.neutral, t);
      PercentCompare(c.negative, c.positive, t);
      PercentCompare(c.negative, c.neutral, t);
      PercentCompare(c.neutral, c.positive, t);
      PercentCompare(c.neutral, c.negative, t);
    }
  }

  /** The percentages lie in [0, 100] and add up to 100 when something hit. */
  lemma PercentShares(c: Counts)
    ensures var t := c.Total();
      0.0 <= Percent(c.positive, t) <= 100.0 &&
      0.0 <= Percent(c.negative, t) <= 100.0 &&
      0.0 <= Percent(c.neutral, t) <= 100.0 &&
      (t > 0 ==> Percent(c.positive, t) + Percent(c.negative, t) + Percent(c.neutral, t) == 100.0)
  {
    var t := c.Total();
    if t > 0 {
      PercentSum(c.positive, c.negative, c.neutral);
    }
  }

  lemma PercentSum(a: nat, b: nat, d: nat)
    requires a + b + d > 0
    ensures Percent(a, a + b + d) + Percent(b, a + b + d) + Percent(d, a + b + d) == 100.0
  {
    var t := a + b + d;
    var k := 100.0 / t as real;
    assert t as real * k == 100.0;
    assert Percent(a, t) == a as real * k;
    assert Percent(b, t) == b as real * k;
    assert Percent(d, t) == d as real * k;
    assert a as real * k + b as real * k + d as real * k == (a + b + d) as real * k;
  }

  /** `Math.round`: the nearest integer, halves rounded up. */
  function Round(x: real): (r: int)
    ensures x - 0.5 < r as real <= x + 0.5
  {
    (x + 0.5).Floor
  }

  function Min(a: real, b: real): real {
    if a < b then a else b
  }

  function Max(a: real, b: real): real {
    if a < b then b else a
  }

  function Abs(x: real): real {
    if x < 0.0 then -x else x
  }

  /** A label and its unrounded confidence. */
  datatype Decision = Decision(sentiment: Sentiment, confidence: real)

  /** The decision rule on the three percentages: a label other than Neutral
      needs its percentage strictly above both others, and its confidence
      lies in [85, 95]; a Neutral confidence lies in [65, 80]. */
  function Decide(positive: real, negative: real, neutral: real): (r: Decision)
    ensures r.sentiment == Positive <==> positive > negative && positive > neutral
    ensures r.sentiment == Negative <==> negative > positive && negative > neutral
    ensures r.sentiment != Neutral ==> 85.0 <= r.confidence <= 95.0
    ensures r.sentiment == Neutral ==> 65.0 <= r.confidence <= 80.0
  {
    if positive > negative && positive > neutral then
      Decision(Positive, Min(85.0 + (positive - negative) * 0.5, 95.0))
    else if negative > positive && negative > neutral then
      Decision(Negative, Min(85.0 + (negative - positive) * 0.5, 95.0))
    else
      Decision(Neutral, Max(65.0, 80.0 - Abs(positive - negative) * 0.3))
  }

  /** Rounded percentages of the three buckets. */
  datatype Scores = Scores(positive: int, negative: int, neutral: int)

  /** Rounding three shares of 100 keeps each in [0, 100] and their sum
      in [99, 101]; three zero shares, and only they, round to three zeros. */
  lemma RoundShares(x: real, y: real, z: real, none: bool)
    requires 0.0 <= x <= 100.0 && 0.0 <= y <= 100.0 && 0.0 <= z <= 100.0
    requires none ==> x == 0.0 && y == 0.0 && z == 0.0
    requires !none ==> x + y + z == 100.0
    ensures 0 <= Round(x) <= 100 && 0 <= Round(y) <= 100 && 0 <= Round(z) <= 100
    ensures !none ==> 99 <= Round(x) + Round(y) + Round(z) <= 101
    ensures none <==> Round(x) == 0 && Round(y) == 0 && Round(z) == 0
  {
    if none {
      assert Round(0.0) == 0;
    }
  }

  /** The rounded percentages of some counts: each in [0, 100], all zero
      exactly when nothing hit, and otherwise adding up to 100 give or take
      the rounding of each. */
  function RoundedScores(c: Counts): (s: Scores)
    ensures 0 <= s.positive <= 100 && 0 <= s.negative <= 100 && 0 <= s.neutral <= 100
    ensures c.Total() == 0 <==> s == Scores(0, 0, 0)
    ensures c.Total() > 0 ==> 99 <= s.positive + s.negative + s.neutral <= 101
  {
    var t := c.Total();
    var s := Scores(Round(Percent(c.positive, t)), Round(Percent(c.negative, t)), Round(Percent(c.neutral, t)));
    ScoresOfShares(c, s);
    s
  }

  lemma ScoresOfShares(c: Counts, s: Scores)
    requires var t := c.Total();
      s == Scores(Round(Percent(c.positive, t)), Round(Percent(c.negative, t)), Round(Percent(c.neutral, t)))
    ensures 0 <= s.positive <= 100 && 0 <= s.negative <= 100 && 0 <= s.neutral <= 100
    ensures c.Total() == 0 <==> s == Scores(0, 0, 0)
    ensures c.Total() > 0 ==> 99 <= s.positive + s.negative + s.neutral <= 101
  {
    var t := c.Total();
    PercentShares(c);
    RoundShares(Percent(c.positive, t), Percent(c.negative, t), Percent(c.neutral, t), t == 0);
  }

  /** The label, rounded confidence and rounded scores of some counts. */
  datatype Verdict = Verdict(sentiment: Sentiment, confidence: int, scores: Scores)

  /** Percentages, decision and rounding applied to the counts. The label
      follows the raw counts: Positive when the positive count is strictly
      above both others, Negative when the negative count is, and Neutral
      otherwise, ties included. The rounded confidence lies in [85, 95] for
      Positive and Negative and in [65, 80] for Neutral. */
  function Judge(c: Counts): (v: Verdict)
    ensures v.sentiment == Positive <==> c.positive > c.negative && c.positive > c.neutral
    ensures v.sentiment == Negative <==> c.negative > c.positive && c.negative > c.neutral
    ensures v.sentiment != Neutral ==> 85 <= v.confidence <= 95
    ensures v.sentiment == Neutral ==> 65 <= v.confidence <= 80
    ensures v.scores == RoundedScores(c)
  {
    var t := c.Total();
    PercentOrder(c);
    var d := Decide(Percent(c.positive, t), Percent(c.negative, t), Percent(c.neutral, t));
    Verdict(d.sentiment, Round(d.confidence), RoundedScores(c))
  }

  /** What the analyzer returns for one text. */
  datatype SentimentResult = SentimentResult(
    sentiment: Sentiment,
    confidence: int,
    scores: Scores,
    keyPhrases: seq<string>,
    summary: string)

  /** The result for a text whose counts gave the verdict `v`: the verdict's
      label, confidence and scores, the key phrases of the text and the
      label's canned summary. */
  function Assess(v: Verdict, text: string): (r: SentimentResult)
    ensures Verdict(r.sentiment, r.confidence, r.scores) == v
    ensures r.keyPhrases == KeyPhrases.ExtractKeyPhrases(text)
    ensures r.summary == SummaryText(r.sentiment)
  {
    SummaryOfLabel(text, text, v.sentiment);
    SentimentResult(
      v.sentiment,
      v.confidence,
      v.scores,
      KeyPhrases.ExtractKeyPhrases(text),
      GenerateSummary(text, Name(v.sentiment)).value)
  }

  /** The analysis of a text with the analyzer's fixed lexicon: the verdict
      of its token counts, its key phrases and its label's summary. */
  function Analysis(text: string): (r: SentimentResult)
    ensures Verdict(r.sentiment, r.confidence, r.scores) == Judge(Tally(LegalLexicon, Tokens(text)))
    ensures r.keyPhrases == KeyPhrases.ExtractKeyPhrases(text)
    ensures r.summary == SummaryText(r.sentiment)
  {
    Assess(Judge(Tally(LegalLexicon, Tokens(text))), text)
  }

  /** A result carrying the verdict of counts `c` has the label and the
      confidence range the counts call for. */
  lemma VerdictOf(r: SentimentResult, c: Counts)
    requires Verdict(r.sentiment, r.confidence, r.scores) == Judge(c)
    ensures r.sentiment == Positive <==> c.positive > c.negative && c.positive > c.neutral
    ensures r.sentiment == Negative <==> c.negative > c.positive && c.negative > c.neutral
    ensures r.sentiment != Neutral ==> 85 <= r.confidence <= 95
    ensures r.sentiment == Neutral ==> 65 <= r.confidence <= 80
  {
  }

  /** A text's label is Positive (Negative) exactly when its positive
      (negative) hits outnumber both other kinds; the confidence lies in
      [85, 95] for Positive and Negative and in [65, 80] for Neutral. */
  lemma AnalysisVerdict(text: string)
    ensures var r, c := Analysis(text), Tally(LegalLexicon, Tokens(text));
      (r.sentiment == Positive <==> c.positive > c.negative && c.positive > c.neutral) &&
      (r.sentiment == Negative <==> c.negative > c.positive && c.negative > c.neutral) &&
      (r.sentiment != Neutral ==> 85 <= r.confidence <= 95) &&
      (r.sentiment == Neutral ==> 65 <= r.confidence <= 80)
  {
    VerdictOf(Analysis(text), Tally(LegalLexicon, Tokens(text)));
  }

  /** When nothing hit, the verdict is Neutral with confidence 80 and all
      scores zero; and all scores are zero only then. */
  lemma NoHitVerdict(c: Counts)
    ensures c.Total() == 0 <==> Judge(c).scores == Scores(0, 0, 0)
    ensures c.Total() == 0 ==> Judge(c) == Verdict(Neutral, 80, Scores(0, 0, 0))
  {
    if c.Total() == 0 {
      assert Decide(0.0, 0.0, 0.0) == Decision(Neutral, 80.0);
      assert Round(80.0) == 80;
    }
  }

  /** When every hit falls in one bucket, that bucket wins with the highest
      confidence, 95, and takes a score of 100 while the others score 0; when
      every hit is neutral the label is Neutral with confidence 80. */
  lemma Unanimous(c: Counts)
    requires c.Total() > 0
    ensures c.negative == c.neutral == 0 ==> Judge(c) == Verdict(Positive, 95, Scores(100, 0, 0))
    ensures c.positive == c.neutral == 0 ==> Judge(c) == Verdict(Negative, 95, Scores(0, 100, 0))
    ensures c.positive == c.negative == 0 ==> Judge(c) == Verdict(Neutral, 80, Scores(0, 0, 100))
  {
  }

  /** A text none of whose tokens hits any lexicon is analysed as Neutral
      with confidence 80 and all scores zero, and all scores are zero only
      for such a text. */
  lemma NoHitDefault(text: string)
    ensures var r := Analysis(text);
      (forall i :: 0 <= i < |Tokens(text)| ==> Classify(LegalLexicon, Tokens(text)[i]) == NoHit) <==>
      r.scores == Scores(0, 0, 0)
    ensures var r := Analysis(text);
      r.scores == Scores(0, 0, 0) ==> r.sentiment == Neutral && r.confidence == 80
  {
    NoHitVerdict(Tally(LegalLexicon, Tokens(text)));
  }

  /** The counting pass of the analyzer: three counters, one token at a
      time, each token adding to the first word list it hits. */
  method CountHits(lex: Lexicon, words: seq<string>) returns (counts: Counts)
    ensures counts == Tally(lex, words)
  {
    ghost var buckets := Buckets(lex, words);
    var positiveScore: nat, negativeScore: nat, neutralScore: nat := 0, 0, 0;
    for i := 0 to |words|
      invariant Counts(positiveScore, negativeScore, neutralScore) == Count(buckets[..i])
    {
      var word := words[i];
      ghost var before := Counts(positiveScore, negativeScore, neutralScore);
      if HitsAny(word, lex.positive) {
        positiveScore := positiveScore + 1;
      } else if HitsAny(word, lex.negative) {
        negativeScore := negativeScore + 1;
      } else if HitsAny(word, lex.neutral) {
        neutralScore := neutralScore + 1;
      }
      assert Counts(positiveScore, negativeScore, neutralScore) == Count(buckets[..i + 1]) by {
        assert Counts(positiveScore, negativeScore, neutralScore) == Bump(before, Classify(lex, word));
        CountSnoc(buckets, i);
      }
    }
    assert buckets[..|words|] == buckets;
    counts := Counts(positiveScore, negativeScore, neutralScore);
  }

  /** The analyzer: tokenise, count the hits, then decide on the counts. */
  method AnalyzeSentiment(text: string) returns (r: SentimentResult)
    ensures r == Analysis(text)
  {
    var words := Tokens(text);
    var counts := CountHits(LegalLexicon, words);
    r := Assess(Judge(counts), text);
  }
}
