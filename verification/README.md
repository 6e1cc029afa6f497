# Training Feedback Analyzer — classification and aggregation model

The Training Feedback Analyzer reads a frame of training-feedback rows
(trainer, batch, topic, free-text feedback). It classifies each feedback
value as a `Compliment`, a `Complaint` or a `Suggestion`, adds a
"Sentiment Score" and a "Category" column, and draws count tables from the
enriched rows:

- a Topic × Trainer heatmap restricted to one category, shown for the
  selected category and saved once per category for the report;
- a Topic × Category table that drives the stacked bar chart.

This Dafny project models that step. It has four modules:

- `Classify` (`classify.dfy`): the categories, the feedback cell (text or
  non-text), the threshold rule, the per-value classifier, and the
  enrichment of rows and of the whole frame.
- `Counting` (`counting.dfy`): selecting rows by a key value (the
  boolean-mask selection), columns, `unique()` with first-appearance order,
  and sums of counts over lists of distinct keys.
- `CrossTabs` (`crosstab.dfy`): a generic count table. Its row and column
  keys are the observed values, and it is dense over them with zero fill.
  This matches both a count pivot table with `fill_value=0` and a
  cross-tabulation.
- `Aggregate` (`aggregate.dfy`): the category-filtered Topic × Trainer
  table, the Topic × Category table, the report loop that builds one
  heatmap per category, and the partition and total properties.

The sentiment scorer is a parameter `scorer: string -> real`. It is total
and deterministic, and its internals are not modelled. Every score
threshold is an exact `real`.

The model follows the code in three places a reader might not expect:

- A non-text feedback value still gets a score: the score column is
  computed on `str()` of the cell, while its category is `Suggestion`
  without consulting that score. The model records
  `scorer(Shown(value))` and states nothing about its value.
- The Topic × Category table has a column only for each category that
  occurs. A category no row has gets no column.
- The library sorts the keys of a pivot table or cross-tabulation, and the
  model keeps them as sets. The order of `unique()`, which decides
  the selector's choices and the order of the report's heatmaps, *is*
  modelled.

## Model

The table-building functions carry no contract of their own; lemmas state their meaning. `CrossTabs.Tabulate` is the generic count table. `Aggregate.CategoryPivot` models the `pivot_table` call (app.py:45-53, 75-77), and `CategoryPivotKeys`, `CategoryPivotCell` and `CategoryPivotsPartition` state what it holds. `Aggregate.TopicCategoryCrosstab` models the `crosstab` call (app.py:62), and `CrosstabKeys`, `CrosstabCell`, `CrosstabRowSum` and `CrosstabTotal` state what it holds.

| member | source | states |
|---|---|---|
| Classify.Categorize | app.py:29-34 | a score is a compliment iff it is at least 0.3, a complaint iff it is at most -0.2, and a suggestion iff it lies strictly between; the boundaries belong to the outer categories |
| Classify.CategorizeMonotone | app.py:29-34 | a higher score never gives a lower category (complaint < suggestion < compliment) |
| Classify.CategorizeBoundaries | app.py:29-32 | an illustration of the interval rule at its edges: 0.3 is a compliment, 0.2999 a suggestion, -0.2 a complaint, -0.1999 a suggestion |
| Classify.ClassifyFeedback | app.py:25-34 | a non-text value is a suggestion; a text value gets the threshold rule applied to its score; only text can be a compliment or a complaint |
| Classify.NonTextIgnoresScorer | app.py:26-27 | the category of a non-text value is the same under any two scorers, so the scorer is not consulted for it |
| Classify.Enrich | app.py:36-37 | an enriched row keeps the row's columns, and its category is the classifier's result; for text feedback the score is the text's score and the category is the threshold rule applied to that score |
| Classify.EnrichAll | app.py:36-37 | the enriched frame has one row per input row, and row i is the enrichment of input row i alone |
| Classify.EnrichAllAppend | app.py:36-37 | enriching two pieces and concatenating gives the enrichment of the concatenation, so no row depends on its neighbours |
| Classify.ClassifyFrame | app.py:36-37 | building the score column, then the category column, then attaching both gives exactly the row-by-row enrichment |
| Counting.Where | app.py:45 | every selected row has the key value, and there are no more selected rows than input rows |
| Counting.WhereMembers | app.py:45 | a row is selected iff it is an input row with the key value |
| Counting.WhereCount | app.py:45 | the selection keeps each row with the key value exactly as many times as it occurs in the input, and no other row |
| Counting.Unique | app.py:43 | the distinct values are listed without repeats, and a value is listed iff it occurs |
| Counting.UniqueFirstAppearance | app.py:43 | the distinct values are listed in order of their first occurrence |
| CrossTabs.TabulateKeys | app.py:47-53 | the table's row and column keys are the observed keys, and it has a cell for every pair of them |
| CrossTabs.TabulateAt | app.py:47-53 | every cell reads the number of rows with that pair of keys; unobserved pairs read 0 |
| CrossTabs.RowSumIsRowCount | app.py:62 | summing a row over the distinct observed column keys gives the number of rows with that row key |
| CrossTabs.TotalIsRowCount | app.py:62 | summing every cell over the distinct observed keys gives the number of rows |
| Aggregate.Categories | app.py:43 | the distinct categories have no repeats, a category is listed iff some row has it, and they are listed in order of their first occurrence in the category column |
| Aggregate.SelectCategory | app.py:45 | the selected rows are exactly the rows of that category, each with its multiplicity in the frame, and their number is that category's count |
| Aggregate.CategoryPivotKeys | app.py:45-53 | the heatmap's topics and trainers are exactly those of the rows of that category, and it has a cell for each of their pairs |
| Aggregate.CategoryPivotCell | app.py:45-53 | a heatmap cell is the number of rows with that category, topic and trainer; pairs never seen read 0 |
| Aggregate.CrosstabKeys | app.py:62 | the bar table's topics are the observed topics, its columns are the categories that occur, and it has a cell for each pair |
| Aggregate.CrosstabCell | app.py:62 | a bar-table cell is the number of rows with that topic and category |
| Aggregate.CrosstabRowSum | app.py:62 | a topic's cells summed over the occurring categories give that topic's number of rows |
| Aggregate.CrosstabTotal | app.py:62 | all cells of the bar table add up to the number of rows |
| Aggregate.CategoryPivotsPartition | app.py:74-77 | summing a (topic, trainer) cell over the per-category heatmaps gives the number of rows with that topic and trainer, so each row is counted in exactly one heatmap |
| Aggregate.HeatmapTables | app.py:74-77 | the report loop builds one heatmap per occurring category, in first-appearance order and labelled with its category, and the heatmaps' cells partition the rows |
| Aggregate.AtMostThreeCategories | app.py:43 | at most three categories occur, so at most three heatmaps are saved |

## Left out

- The sentiment scorer (app.py:9-14, 28, 36) is a foreign lexicon library computing in floating point. It is the parameter `scorer`, a total deterministic function to `real`. Its range of [-1, 1] is not assumed.
- Floating-point comparison: the thresholds 0.3 and -0.2 are exact reals. The nearest binary double is not modelled.
- CSV upload and parsing (app.py:19-22) is I/O. Rows arrive as a `seq<FeedbackRow>`. A frame missing any of the Trainer, Batch, Topic or Feedback columns stops the analyzer with a KeyError (app.py:36-47); the model's rows always have all four. A cell that pandas yields as a non-string is `NonText(shown)`.
- Streamlit widgets (app.py:16-17, 39-44, 55, 61, 124-127) are presentation. The category selector's choice is the `cat` argument of `CategoryPivot`.
- Chart rendering and PNG files (app.py:56-58, 63-66, 71-87) are presentation. The model keeps the tables those charts draw.
- HTML templating, file writes and PDF conversion (app.py:90-119) are I/O.
- Pandas key ordering: pivot tables and cross-tabulations sort their keys. The model keeps keys as sets.
- Pandas drops missing (NaN) topic and trainer keys. The model's topics and trainers are always strings, so no key is dropped.
- The structured-text extraction in `image into text/app.py` and `image into text/main.py` belongs to separate OCR tools, not to the analyzer.

