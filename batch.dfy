/** Running the analyzer over the component's documents, removing a
    document, and the per-label counts shown on the summary cards. */
module Batch {
  import opened Labels
  import opened Classifier

  /** A document as the component holds it. Identifiers are numbers the
      caller assigns (or draws from the clock and a random source). */
  datatype Document = Document(id: real, name: string, content: string, docType: string)

  /** The analysis of one document joined with the document's identity and
      the time it was processed. */
  datatype AnalysisRecord = AnalysisRecord(
    id: real,
    documentName: string,
    documentType: string,
    analysis: SentimentResult,
    processedAt: string)

  /** The record of one document: the document's identity, the analysis of
      its content and the processing time. */
  function Record(doc: Document, processedAt: string): (r: AnalysisRecord)
    ensures r.id == doc.id && r.documentName == doc.name && r.documentType == doc.docType
    ensures r.analysis == Analysis(doc.content) && r.processedAt == processedAt
  {
    AnalysisRecord(doc.id, doc.name, doc.docType, Analysis(doc.content), processedAt)
  }

  /** One record per document, in the documents' order, each carrying its
      document's identity and the analysis of its content alone. */
  function AnalyzeAll(docs: seq<Document>, processedAt: string): (r: seq<AnalysisRecord>)
    ensures |r| == |docs|
    ensures forall i :: 0 <= i < |docs| ==> r[i] == Record(docs[i], processedAt)
  {
    seq(|docs|, i requires 0 <= i < |docs| => Record(docs[i], processedAt))
  }

  /** Analysing a batch is analysing its parts: no document's record depends
      on the other documents, so the batch can be split and processed in any
      grouping. */
  lemma AnalyzeAllAppend(a: seq<Document>, b: seq<Document>, processedAt: string)
    ensures AnalyzeAll(a + b, processedAt) == AnalyzeAll(a, processedAt) + AnalyzeAll(b, processedAt)
  {
    var whole, left, right := AnalyzeAll(a + b, processedAt), AnalyzeAll(a, processedAt), AnalyzeAll(b, processedAt);
    forall i | 0 <= i < |a + b| ensures whole[i] == (left + right)[i] {
      if i < |a| {
        assert whole[i] == Record(a[i], processedAt) == left[i];
      } else {
        assert whole[i] == Record(b[i - |a|], processedAt) == right[i - |a|];
      }
    }
    assert whole == left + right;
  }

  /** The documents whose id differs from `id`, in their order. */
  function RemoveById(docs: seq<Document>, id: real): (r: seq<Document>)
    ensures |r| <= |docs|
    ensures forall d :: d in r <==> d in docs && d.id != id
    ensures (forall i :: 0 <= i < |docs| ==> docs[i].id != id) ==> r == docs
  {
    if docs == [] then []
    else if docs[0].id == id then RemoveById(docs[1..], id)
    else [docs[0]] + RemoveById(docs[1..], id)
  }

  /** Removal keeps the order of what remains: filtering two parts and
      joining them is filtering the whole. */
  lemma {:induction false} RemoveByIdAppend(a: seq<Document>, b: seq<Document>, id: real)
    ensures RemoveById(a + b, id) == RemoveById(a, id) + RemoveById(b, id)
  {
    if a == [] {
      assert a + b == b;
    } else {
      assert (a + b)[1..] == a[1..] + b;
      RemoveByIdAppend(a[1..], b, id);
    }
  }

  /** Removing the same id twice changes nothing the second time. */
  lemma RemoveByIdIdempotent(docs: seq<Document>, id: real)
    ensures RemoveById(RemoveById(docs, id), id) == RemoveById(docs, id)
  {
    var r := RemoveById(docs, id);
    assert forall i :: 0 <= i < |r| ==> r[i] in r;
  }

  /** The label of each record, in order. */
  function LabelsOf(results: seq<AnalysisRecord>): (r: seq<Sentiment>)
    ensures |r| == |results|
    ensures forall i :: 0 <= i < |r| ==> r[i] == results[i].analysis.sentiment
  {
    seq(|results|, i requires 0 <= i < |results| => results[i].analysis.sentiment)
  }

  /** Number of records with the given label: how often the label occurs
      among the records' labels. */
  function CountLabel(results: seq<AnalysisRecord>, s: Sentiment): (n: nat)
    ensures n <= |results|
    ensures n == multiset(LabelsOf(results))[s]
  {
    if results == [] then 0
    else
      assert LabelsOf(results) == [results[0].analysis.sentiment] + LabelsOf(results[1..]);
      (if results[0].analysis.sentiment == s then 1 else 0) + CountLabel(results[1..], s)
  }

  /** Every record has exactly one of the three labels, so the three counts
      add up to the number of records. */
  lemma {:induction false} LabelCountsPartition(results: seq<AnalysisRecord>)
    ensures CountLabel(results, Positive) + CountLabel(results, Negative) + CountLabel(results, Neutral)
      == |results|
  {
    if results != [] {
      LabelCountsPartition(results[1..]);
    }
  }

  /** Rounded share of the records that have the label; zero when there are
      no records. */
  function LabelPercentage(results: seq<AnalysisRecord>, s: Sentiment): (p: int)
    ensures 0 <= p <= 100
    ensures |results| == 0 ==> p == 0
    ensures |results| > 0 ==> p == Round(Percent(CountLabel(results, s), |results|))
    ensures CountLabel(results, s) == |results| > 0 ==> p == 100
    ensures CountLabel(results, s) == 0 ==> p == 0
  {
    if |results| > 0 then Round(Percent(CountLabel(results, s), |results|)) else 0
  }

  /** One summary card: a label, how many records have it and their share. */
  datatype SummaryCard = SummaryCard(sentiment: Sentiment, count: nat, percentage: int)

  /** The three shares add up to 100 give or take the rounding of each. */
  lemma LabelShares(results: seq<AnalysisRecord>)
    ensures |results| > 0 ==>
      (99 <= LabelPercentage(results, Positive) + LabelPercentage(results, Negative) +
        LabelPercentage(results, Neutral) <= 101)
  {
    if |results| > 0 {
      LabelCountsPartition(results);
      var c := Counts(CountLabel(results, Positive), CountLabel(results, Negative), CountLabel(results, Neutral));
      assert c.Total() == |results|;
      ScoresOfShares(c, Scores(LabelPercentage(results, Positive), LabelPercentage(results, Negative),
        LabelPercentage(results, Neutral)));
    }
  }

  /** The labels in the order the summary cards show them. */
  const CardOrder: seq<Sentiment> := [Positive, Negative, Neutral]

  /** The three summary cards, in the order Positive, Negative, Neutral, each
      with its label's count and rounded share; the counts add up to the
      number of records and the shares to 100 give or take rounding. */
  function SummaryCards(results: seq<AnalysisRecord>): (cards: seq<SummaryCard>)
    ensures |cards| == 3
    ensures forall i :: 0 <= i < 3 ==>
      cards[i].sentiment == CardOrder[i] &&
      cards[i].count == CountLabel(results, cards[i].sentiment) &&
      cards[i].percentage == LabelPercentage(results, cards[i].sentiment)
    ensures cards[0].count + cards[1].count + cards[2].count == |results|
    ensures |results| > 0 ==> 99 <= cards[0].percentage + cards[1].percentage + cards[2].percentage <= 101
  {
    LabelCountsPartition(results);
    LabelShares(results);
    seq(3, i requires 0 <= i < 3 =>
      SummaryCard(CardOrder[i], CountLabel(results, CardOrder[i]), LabelPercentage(results, CardOrder[i])))
  }

  /** The component's state: the loaded documents and the latest results. */
  class Workspace {
    var documents: seq<Document>
    var results: seq<AnalysisRecord>

    constructor ()
      ensures documents == [] && results == []
    {
      documents := [];
      results := [];
    }

    /** Appends a document read from an uploaded file. */
    method AddDocument(doc: Document)
      modifies this
      ensures documents == old(documents) + [doc]
      ensures results == old(results)
    {
      documents := documents + [doc];
    }

    /** Replaces the results by one record per document; with no documents,
        returns at once and leaves the results as they were. */
    method RunAnalysis(processedAt: string)
      modifies this
      ensures documents == old(documents)
      ensures old(documents) == [] ==> results == old(results)
      ensures old(documents) != [] ==> results == AnalyzeAll(old(documents), processedAt)
    {
      if |documents| == 0 {
        return;
      }
      results := AnalyzeAll(documents, processedAt);
    }

    /** Drops every document with the given id; the results are kept. */
    method RemoveDocument(id: real)
      modifies this
      ensures documents == RemoveById(old(documents), id)
      ensures results == old(results)
    {
      documents := RemoveById(documents, id);
    }
  }
}
