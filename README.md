# Legal document sentiment analyzer — a Dafny model

The analyzer is a single React component. It scores short legal documents with
a rule-based lexical classifier. The steps are:

- lower-case the text and split it at whitespace runs;
- count the tokens that contain a positive, a negative or a neutral lexicon
  word, testing the three lists in that order so each token counts at most once;
- turn the counts into percentages;
- pick a label (Positive, Negative or Neutral) and a confidence with a
  three-way rule;
- round the confidence and the percentages.

Beside the label, each result carries up to three key phrases and a canned
summary keyed by the label. A batch step analyses every loaded document into a
record. The summary view counts the records of each label and shows their share.

The model has five modules:

- `Text`: ASCII lower-casing, splitting at runs of delimiter characters
  (the behaviour of a regular-expression split on `[...]+`), whitespace
  trimming, prefixes and substring containment.
- `Labels`: the three labels, their names, and the lookups keyed by a label's
  name (summary, colour, icon) together with their fallbacks.
- `KeyPhrases`: sentence splitting and the key-phrase excerpts.
- `Classifier`: the per-token classification and the counting. It also holds
  the percentages and the decision rule, the rounded verdict, and the full
  result. The source's three counters and their loop over the tokens are the
  method `CountHits`, proved equal to the functional count `Tally`. The
  imperative scorer `AnalyzeSentiment` calls it and is proved equal to the
  functional specification `Analysis`.
- `Batch`: documents and analysis records, the record map, removal by id, and
  the summary-card aggregation. It also holds the class `Workspace`, whose
  fields `documents` and `results` are the component's two pieces of state
  that these operations replace.

Percentages are exact rationals (`real`), and `Math.round` is `floor(x + 1/2)`.

## Model

| member | source | states |
|---|---|---|
| `Text.LowerChar` | src/LegalSentimentAnalyzer.jsx:40 | A capital letter becomes the lower-case letter at the same position in the alphabet. Any other character is kept. Whitespace stays whitespace. |
| `Text.Lower` | src/LegalSentimentAnalyzer.jsx:40 | Lower-casing keeps the length, maps each character on its own and leaves no upper-case letter. |
| `Text.Split` | src/LegalSentimentAnalyzer.jsx:40 | A split at delimiter runs gives at least one field. No field holds a delimiter, and only the first and last can be empty. Putting non-empty delimiter runs back between the fields rebuilds the input, so the fields break exactly at the runs. |
| `Text.Trim` | src/LegalSentimentAnalyzer.jsx:82-83 | The trimmed string is the slice of the input between a blank prefix and a blank suffix. It is empty or begins and ends with a non-space. |
| `Text.TrimEmpty` | src/LegalSentimentAnalyzer.jsx:82 | A string trims to empty exactly when it is all whitespace. |
| `Text.Prefix` | src/LegalSentimentAnalyzer.jsx:83 | `substring(0, n)` gives the first `min(n, length)` characters of the string. |
| `Text.Contains` | src/LegalSentimentAnalyzer.jsx:46-48 | `includes` holds exactly when the word occurs at some position of the token. |
| `Labels.Parse` | src/LegalSentimentAnalyzer.jsx:87-91 | A string is recognised as a label only when it is that label's name. |
| `Labels.ParseName` | src/LegalSentimentAnalyzer.jsx:87-91 | Name and Parse are inverse: a string parses to a label exactly when it is that label's name. |
| `Labels.GenerateSummary` | src/LegalSentimentAnalyzer.jsx:86-93 | The lookup has an answer exactly for the three label names. It has none for any other name, apart from the inherited property names listed under Left out. |
| `Labels.SummaryOfLabel` | src/LegalSentimentAnalyzer.jsx:86-93 | The summary ignores the text: any two texts with the same label get that label's canned summary. |
| `Labels.SentimentColor` | src/LegalSentimentAnalyzer.jsx:143-150 | The grey fallback colour is returned exactly for names that are not a label name, apart from the inherited property names listed under Left out. |
| `Labels.SentimentIcon` | src/LegalSentimentAnalyzer.jsx:152-159 | The document-icon fallback is returned exactly for names that are not a label name, apart from the inherited property names listed under Left out. |
| `Labels.LookupsDistinguishLabels` | src/LegalSentimentAnalyzer.jsx:143-159 | Different labels get different colours and different icons. |
| `KeyPhrases.NonBlank` | src/LegalSentimentAnalyzer.jsx:82 | The filter keeps exactly the non-blank pieces: each kept piece is non-blank and from the input, and every non-blank piece of the input is kept. It keeps everything when nothing is blank. |
| `KeyPhrases.NonBlankAppend` | src/LegalSentimentAnalyzer.jsx:82 | Filtering keeps order: filtering a concatenation is concatenating the filtered parts. |
| `KeyPhrases.Sentences` | src/LegalSentimentAnalyzer.jsx:82 | Every sentence has a non-space character and no `.`, `!` or `?`. A string is a sentence exactly when it is a non-blank field of the split at terminator runs. |
| `KeyPhrases.Excerpt` | src/LegalSentimentAnalyzer.jsx:83 | An excerpt is 3 to 103 characters long and ends in `...`. Before the `...` stand the first `min(100, length)` characters of the trimmed sentence. |
| `KeyPhrases.ExcerptShape` | src/LegalSentimentAnalyzer.jsx:82-83 | The excerpt of a sentence is at least 4 characters long. Its text starts with a non-space and holds no terminator. |
| `KeyPhrases.ExtractKeyPhrases` | src/LegalSentimentAnalyzer.jsx:81-84 | The phrases are the excerpts of the first `min(3, number of sentences)` sentences, in order. There are fewer than three exactly when the text has fewer than three sentences. |
| `KeyPhrases.KeyPhrasesShape` | src/LegalSentimentAnalyzer.jsx:81-84 | Every key phrase has the excerpt shape with respect to its own sentence. |
| `Classifier.Tokens` | src/LegalSentimentAnalyzer.jsx:40 | Tokens hold no whitespace, and only the first and last can be empty. Putting non-empty whitespace runs back between them rebuilds the lower-cased text. |
| `Classifier.HitsAny` | src/LegalSentimentAnalyzer.jsx:46-48 | `some(... includes ...)` holds exactly when some word of the list occurs in the token. |
| `Classifier.Classify` | src/LegalSentimentAnalyzer.jsx:45-49 | A token goes to the first list, in the order positive, negative, neutral, that has a word occurring in it. It goes nowhere when none has, so a token with a positive and a negative word is positive only. |
| `Classifier.Count` | src/LegalSentimentAnalyzer.jsx:41-49 | Each token adds to at most one counter, so the counters add up to at most the number of tokens. |
| `Classifier.CountValue` | src/LegalSentimentAnalyzer.jsx:41-49 | Each counter is the number of buckets of its kind. The positive counter counts the PositiveHit buckets, i.e. the tokens whose first hit is a positive word. The negative and neutral counters count their own kinds in the same way. |
| `Classifier.CountShape` | src/LegalSentimentAnalyzer.jsx:41-49 | The counters add up to the number of tokens exactly when every token hits. They are all zero exactly when every token misses. |
| `Classifier.Tally` | src/LegalSentimentAnalyzer.jsx:40-51 | Each counter is the number of tokens classified into its bucket. The counters add up to at most the number of tokens, to exactly that number iff every token hits, and to zero iff every token misses. |
| `Classifier.CountAppend` | src/LegalSentimentAnalyzer.jsx:45-49 | The counting is additive over concatenation. |
| `Classifier.TallyAppend` | src/LegalSentimentAnalyzer.jsx:45-49 | The counts of two pieces of text add up, and scanning them in either order gives the same counts. |
| `Classifier.CountHits` | src/LegalSentimentAnalyzer.jsx:41-49 | The loop's three counters end equal to `Tally` of the tokens, so each is the number of tokens classified into its bucket. |
| `Classifier.Percent` | src/LegalSentimentAnalyzer.jsx:52-54 | A part's percentage lies in [0, 100]. It is 0 for a zero count or a zero total, and 100 for the whole. |
| `Classifier.PercentCompare` | src/LegalSentimentAnalyzer.jsx:52-60 | Over one positive total, percentages compare as the counts do. |
| `Classifier.PercentOrder` | src/LegalSentimentAnalyzer.jsx:52-60 | The three percentages of some counts are ordered exactly as the counts are, also when nothing hit. |
| `Classifier.PercentSum` | src/LegalSentimentAnalyzer.jsx:51-54 | The three percentages of a positive total add up to exactly 100. |
| `Classifier.PercentShares` | src/LegalSentimentAnalyzer.jsx:51-54 | Each of the three percentages lies in [0, 100], and they add up to 100 when something hit. |
| `Classifier.Round` | src/LegalSentimentAnalyzer.jsx:70-74 | `Math.round` gives an integer within one half of its argument, halves rounding up. |
| `Classifier.Decide` | src/LegalSentimentAnalyzer.jsx:56-66 | The label is Positive iff the positive share is strictly above both others, and Negative iff the negative share is. It is Neutral otherwise, ties included. The confidence lies in [85, 95] for Positive and Negative and in [65, 80] for Neutral. |
| `Classifier.RoundShares` | src/LegalSentimentAnalyzer.jsx:72-74 | Rounding three shares of 100 keeps each in [0, 100] and their sum in [99, 101]. |
| `Classifier.RoundedScores` | src/LegalSentimentAnalyzer.jsx:71-75 | Every score lies in [0, 100]. All three are zero exactly when nothing hit. Otherwise they add up to 100 give or take rounding. |
| `Classifier.Judge` | src/LegalSentimentAnalyzer.jsx:51-75 | The label follows the raw counts: Positive iff the positive count is strictly above both others, Negative iff the negative count is, Neutral otherwise. The rounded confidence lies in [85, 95] for Positive and Negative and in [65, 80] for Neutral. The scores are the rounded percentages. |
| `Classifier.NoHitVerdict` | src/LegalSentimentAnalyzer.jsx:51-66 | With no hits the verdict is Neutral, confidence 80, scores all zero. All scores are zero only then. |
| `Classifier.Unanimous` | src/LegalSentimentAnalyzer.jsx:51-75 | When all hits are positive, the result is Positive with confidence 95 and scores 100/0/0. When all are negative, it is Negative with 95 and 0/100/0. When all are neutral, it is Neutral with 80 and 0/0/100. |
| `Classifier.Assess` | src/LegalSentimentAnalyzer.jsx:68-78 | The result carries the verdict's label, confidence and scores, the key phrases of the text, and the canned summary of its own label. |
| `Classifier.Analysis` | src/LegalSentimentAnalyzer.jsx:34-79 | The analysis of a text is the verdict on the counts of its tokens under the fixed lexicon, with the text's key phrases and its label's summary. |
| `Classifier.AnalysisVerdict` | src/LegalSentimentAnalyzer.jsx:34-79 | A text is Positive iff its positive count beats both others, and Negative iff its negative count does. Its confidence lies in [85, 95] for Positive and Negative and in [65, 80] for Neutral. |
| `Classifier.NoHitDefault` | src/LegalSentimentAnalyzer.jsx:40-79 | A text none of whose tokens hits any lexicon is analysed as Neutral, confidence 80, scores all zero. All scores are zero only for such a text. |
| `Classifier.AnalyzeSentiment` | src/LegalSentimentAnalyzer.jsx:34-79 | Tokenising, the three-counter loop and the decision compute exactly the specified analysis of the text. |
| `Batch.Record` | src/LegalSentimentAnalyzer.jsx:127-133 | A record copies its document's id, name and type, holds the analysis of that document's content, and carries the timestamp. |
| `Batch.AnalyzeAll` | src/LegalSentimentAnalyzer.jsx:127-133 | There is one record per document, in order, and each is the record of its own document alone. |
| `Batch.AnalyzeAllAppend` | src/LegalSentimentAnalyzer.jsx:127-133 | Analysing a concatenation of batches is concatenating their analyses, so no record depends on another document. |
| `Batch.RemoveById` | src/LegalSentimentAnalyzer.jsx:140 | A document remains exactly when it was there and its id differs. Nothing changes when no document has the id. |
| `Batch.RemoveByIdAppend` | src/LegalSentimentAnalyzer.jsx:140 | Removal keeps order: filtering a concatenation is concatenating the filtered parts. |
| `Batch.RemoveByIdIdempotent` | src/LegalSentimentAnalyzer.jsx:140 | Removing the same id a second time changes nothing. |
| `Batch.CountLabel` | src/LegalSentimentAnalyzer.jsx:346 | A label's count is the number of times the label occurs among the records' labels, and so at most the number of records. |
| `Batch.LabelCountsPartition` | src/LegalSentimentAnalyzer.jsx:345-346 | The three label counts add up to the number of records. |
| `Batch.LabelPercentage` | src/LegalSentimentAnalyzer.jsx:347 | With records, the share is the rounded percentage of the label's count in their number. It is 0 with no records, and it lies in [0, 100]: 0 when no record has the label, 100 when every record has it. |
| `Batch.LabelShares` | src/LegalSentimentAnalyzer.jsx:345-347 | With any records, the three rounded shares add up to 99 to 101. |
| `Batch.SummaryCards` | src/LegalSentimentAnalyzer.jsx:345-347 | There are three cards, in the order Positive, Negative, Neutral. Each card shows its own label's count and share. The counts add up to the number of records, and with any records the shares sum to 99 to 101. |
| `Batch.Workspace.constructor` | src/LegalSentimentAnalyzer.jsx:5-7 | The component starts with no documents and no results. |
| `Batch.Workspace.AddDocument` | src/LegalSentimentAnalyzer.jsx:107 | A loaded document is appended. The results are untouched. |
| `Batch.Workspace.RunAnalysis` | src/LegalSentimentAnalyzer.jsx:118-137 | With no documents it returns at once and leaves the results as they were. Otherwise the results become the record map of the documents. The documents are untouched. |
| `Batch.Workspace.RemoveDocument` | src/LegalSentimentAnalyzer.jsx:139-141 | The documents become those whose id differs. The results are untouched. |

## Left out

- File upload through `FileReader` (lines 95-111) is browser I/O. `AddDocument` takes the finished document, and the CSV/Text type detection on the MIME type is not modelled.
- The `uploadedAt` timestamp a loaded document gets (line 105) is not part of `Document`. The component never reads it.
- The `setTimeout` delay inside `runAnalysis` is left out. So are the `isAnalyzing` and `activeTab` flags and all rendering. None of them affects the data.
- The CSV export (lines 161-174) is browser I/O and is not modelled.
- `loadSampleData` only replaces the documents with a fixed list. It is not modelled.
- Identifiers drawn from `Date.now() + Math.random()` are not computed: a document's id is whatever the caller gives. The `processedAt` timestamp from `toLocaleString()` is a parameter.
- Classifier.Count: its own ensures gives only the bound on the total. Which counter each bucket adds to is stated by the lemma `CountValue` beside it, because Count's contract is instantiated at every step of the counting loop's proof and must stay small.
- Batch.AnalyzeAll: takes one timestamp for the whole batch, while the source reads the clock once per record.
- Text.Lower: lower-cases only ASCII letters, not the full Unicode mapping of `toLowerCase`.
- Text.IsSpace covers the ASCII whitespace characters only, not the full `\s` class.
- Strings are sequences of characters rather than UTF-16 code units, so `substring(0, 100)` never splits a surrogate pair here.
- Arithmetic is exact over the rationals, not IEEE-754 doubles. A floating-point percentage landing just beside a `.5` rounding boundary is not modelled.
- `extractKeyPhrases` takes a label argument that it never reads. The model drops that argument.
- Labels.GenerateSummary: treats every name other than the three label names as unknown and returns no summary. In the source the lookup is a plain object, so a name such as `constructor` finds an inherited property instead. Every caller passes a label the classifier chose, so this never arises.
- Labels.SentimentColor: treats every name other than the three label names as unknown and returns the grey fallback. In the source an inherited property name such as `toString` finds a function, which is truthy, so there is no fallback. No caller passes such a name.
- Labels.SentimentIcon: treats every name other than the three label names as unknown and returns the document icon. In the source an inherited property name such as `toString` escapes the fallback in the same way. No caller passes such a name.
- The result record spreads the analysis fields into the record. The model keeps them as one nested `analysis` field with the same contents.
