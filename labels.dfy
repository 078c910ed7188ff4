/** The three sentiment labels and the lookups keyed by a label's name: the
    canned summary, the display colour and the display icon. The source keys
    these tables by the label's string, so each lookup takes a string and has
    an answer (or a fallback) for names outside the three. */
module Labels {

  datatype Option<T> = None | Some(value: T)

  datatype Sentiment = Positive | Negative | Neutral

  /** The label's string as the source spells it. */
  function Name(s: Sentiment): string {
    match s
    case Positive => "Positive"
    case Negative => "Negative"
    case Neutral => "Neutral"
  }

  /** The label a string names, if any. */
  function Parse(name: string): (r: Option<Sentiment>)
    ensures r.Some? ==> Name(r.value) == name
  {
    if name == "Positive" then Some(Positive)
    else if name == "Negative" then Some(Negative)
    else if name == "Neutral" then Some(Neutral)
    else None
  }

  /** Name and Parse are inverse: a string names a label exactly when Parse
      recognises it. */
  lemma ParseName(s: Sentiment, name: string)
    ensures Parse(Name(s)) == Some(s)
    ensures Parse(name) == Some(s) <==> name == Name(s)
  {
  }

  /** The canned summaries of the three labels. */
  const PositiveSummary: string := "Document reflects favorable terms, satisfaction, and positive outcomes with constructive language throughout."
  const NegativeSummary: string := "Document contains concerning elements including disputes, issues, or problematic situations requiring attention."
  const NeutralSummary: string := "Document presents balanced information with standard legal language and neutral tone."

  /** The canned summary of a label. */
  function SummaryText(s: Sentiment): string
  {
    match s
    case Positive => PositiveSummary
    case Negative => NegativeSummary
    case Neutral => NeutralSummary
  }

  /** The summary lookup: keyed by the label's name alone (the text is not
      read) and no summary (None) for a name outside the three labels. */
  function GenerateSummary(text: string, name: string): (r: Option<string>)
    ensures r.Some? <==> Parse(name).Some?
  {
    match Parse(name)
    case Some(s) => Some(SummaryText(s))
    case None => None
  }

  const FallbackColor: string := "text-gray-600 bg-gray-50"
  const FallbackIcon: string := "\U{1F4C4}"

  /** Display colour of a label, grey for any other string. */
  function SentimentColor(name: string): (r: string)
    ensures r == FallbackColor <==> Parse(name).None?
  {
    match Parse(name)
    case Some(Positive) => "text-green-600 bg-green-50"
    case Some(Negative) => "text-red-600 bg-red-50"
    case Some(Neutral) => "text-blue-600 bg-blue-50"
    case None => FallbackColor
  }

  /** Display icon of a label, a document icon for any other string. */
  function SentimentIcon(name: string): (r: string)
    ensures r == FallbackIcon <==> Parse(name).None?
  {
    match Parse(name)
    case Some(Positive) => "\U{1F60A}"
    case Some(Negative) => "\U{1F61F}"
    case Some(Neutral) => "\U{1F610}"
    case None => FallbackIcon
  }

  /** The summary reads only the label: any two texts get the same summary,
      that of the label's own canned text. */
  lemma SummaryOfLabel(text1: string, text2: string, s: Sentiment)
    ensures GenerateSummary(text1, Name(s)) == GenerateSummary(text2, Name(s)) == Some(SummaryText(s))
  {
    ParseName(s, Name(s));
  }

  /** The three labels get three different colours and three different icons. */
  lemma LookupsDistinguishLabels(s: Sentiment, t: Sentiment)
    ensures SentimentColor(Name(s)) == SentimentColor(Name(t)) ==> s == t
    ensures SentimentIcon(Name(s)) == SentimentIcon(Name(t)) ==> s == t
  {
  }
}
