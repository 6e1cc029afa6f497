/**
 The classification step of the feedback analyzer: the threshold rule that
 turns a polarity score into a category (`classify_feedback`), and the
 enrichment of every uploaded row with a "Sentiment Score" and a "Category"
 column.

 The lexicon-based scorer is not modelled: every operation takes it as a
 parameter `scorer: string -> real`, a total and deterministic function.
 */
module Classify {

  /** The three feedback categories. */
  datatype Category = Compliment | Complaint | Suggestion

  /** A cell of the "Feedback" column. Pandas yields a Python string for text
      and some other value (a missing value, a number) otherwise; `shown` is
      that other value's `str()` rendering, which is what the score column
      is computed on. */
  datatype FeedbackValue = Text(text: string) | NonText(shown: string)

  /** One uploaded row, restricted to the columns the analyzer reads. */
  datatype FeedbackRow = FeedbackRow(trainer: string, batch: string, topic: string, feedback: FeedbackValue)

  /** An uploaded row with the two columns the analyzer adds. */
  datatype EnrichedRow = EnrichedRow(
    trainer: string,
    batch: string,
    topic: string,
    feedback: FeedbackValue,
    score: real,
    category: Category)

  /** A score at or above this is a compliment. */
  const ComplimentThreshold: real := 0.3
  /** A score at or below this (and under the compliment threshold) is a complaint. */
  const ComplaintThreshold: real := -0.2

  /** Position of a category on the polarity axis: complaints below
      suggestions below compliments. */
  function Rank(c: Category): int {
    match c
    case Complaint => 0
    case Suggestion => 1
    case Compliment => 2
  }

  /** The threshold rule, checked in order: compliment, then complaint, then
      suggestion. Each category holds on exactly one interval of scores, and
      both boundaries belong to the outer categories. */
  function Categorize(score: real): (c: Category)
    ensures c == Compliment <==> ComplimentThreshold <= score
    ensures c == Complaint <==> score <= ComplaintThreshold
    ensures c == Suggestion <==> ComplaintThreshold < score < ComplimentThreshold
  {
    if score >= ComplimentThreshold then Compliment
    else if score <= ComplaintThreshold then Complaint
    else Suggestion
  }

  /** A higher score never yields a lower category. */
  lemma CategorizeMonotone(a: real, b: real)
    requires a <= b
    ensures Rank(Categorize(a)) <= Rank(Categorize(b))
  {
  }

  /** The boundary values themselves fall in the outer categories; values just
      inside them fall in the middle one. */
  lemma CategorizeBoundaries()
    ensures Categorize(0.3) == Compliment
    ensures Categorize(0.2999) == Suggestion
    ensures Categorize(-0.2) == Complaint
    ensures Categorize(-0.1999) == Suggestion
  {
  }

  /** The per-value classifier: a non-text value is a suggestion outright;
      text is scored and the threshold rule applied to its score. */
  function ClassifyFeedback(scorer: string -> real, value: FeedbackValue): (c: Category)
    ensures value.NonText? ==> c == Suggestion
    ensures value.Text? ==> c == Categorize(scorer(value.text))
    ensures c != Suggestion ==> value.Text?
  {
    match value
    case NonText(_) => Suggestion
    case Text(t) => Categorize(scorer(t))
  }

  /** A non-text value is classified without consulting the scorer: any two
      scorers give the same category. */
  lemma NonTextIgnoresScorer(s1: string -> real, s2: string -> real, shown: string)
    ensures ClassifyFeedback(s1, NonText(shown)) == ClassifyFeedback(s2, NonText(shown)) == Suggestion
  {
  }

  /** The text the score column is computed on: `str()` of the cell. */
  function Shown(value: FeedbackValue): string {
    match value
    case Text(t) => t
    case NonText(s) => s
  }

  /** One row with its two derived columns. The other columns are copied;
      for text feedback the category is the threshold rule applied to the
      recorded score. */
  function Enrich(scorer: string -> real, row: FeedbackRow): (e: EnrichedRow)
    ensures e.trainer == row.trainer && e.batch == row.batch
    ensures e.topic == row.topic && e.feedback == row.feedback
    ensures e.category == ClassifyFeedback(scorer, row.feedback)
    ensures row.feedback.Text? ==> e.score == scorer(row.feedback.text) && e.category == Categorize(e.score)
  {
    EnrichedRow(row.trainer, row.batch, row.topic, row.feedback,
                scorer(Shown(row.feedback)), ClassifyFeedback(scorer, row.feedback))
  }

  /** The whole frame, enriched row by row. */
  function EnrichAll(scorer: string -> real, rows: seq<FeedbackRow>): (out: seq<EnrichedRow>)
    ensures |out| == |rows|
    ensures forall i :: 0 <= i < |rows| ==> out[i] == Enrich(scorer, rows[i])
  {
    if |rows| == 0 then []
    else [Enrich(scorer, rows[0])] + EnrichAll(scorer, rows[1..])
  }

  /** Enriching a frame in two pieces and gluing the results gives the
      enrichment of the whole frame: no row's result depends on its
      neighbours. */
  lemma EnrichAllAppend(scorer: string -> real, a: seq<FeedbackRow>, b: seq<FeedbackRow>)
    ensures EnrichAll(scorer, a + b) == EnrichAll(scorer, a) + EnrichAll(scorer, b)
  {
  }

  /** The frame as the analyzer builds it: one pass over the "Feedback"
      column computing the score column, then a second pass computing the
      category column, then both columns attached to the rows. The result
      is the row-by-row enrichment. */
  method ClassifyFrame(scorer: string -> real, rows: seq<FeedbackRow>) returns (out: seq<EnrichedRow>)
    ensures out == EnrichAll(scorer, rows)
  {
    var scores: seq<real> := [];
    var i := 0;
    while i < |rows|
      invariant 0 <= i <= |rows|
      invariant |scores| == i
      invariant forall k :: 0 <= k < i ==> scores[k] == scorer(Shown(rows[k].feedback))
    {
      scores := scores + [scorer(Shown(rows[i].feedback))];
      i := i + 1;
    }
    var categories: seq<Category> := [];
    i := 0;
    while i < |rows|
      invariant 0 <= i <= |rows|
      invariant |categories| == i
      invariant forall k :: 0 <= k < i ==> categories[k] == ClassifyFeedback(scorer, rows[k].feedback)
    {
      categories := categories + [ClassifyFeedback(scorer, rows[i].feedback)];
      i := i + 1;
    }
    out := [];
    i := 0;
    while i < |rows|
      invariant 0 <= i <= |rows|
      invariant |out| == i
      invariant forall k :: 0 <= k < i ==> out[k] == Enrich(scorer, rows[k])
    {
      var r := rows[i];
      out := out + [EnrichedRow(r.trainer, r.batch, r.topic, r.feedback, scores[i], categories[i])];
      i := i + 1;
    }
  }
}
