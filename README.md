# Job-application funnel: a Dafny model

This project models the decision core of a job-hunting Sankey generator. The
program reads a table of job applications, one row per application. Each row
has an `Outcome`, a `Who Applied?` value, and optional `Screening Date`,
`First Interview` and `Second Interview` cells. It turns the table into a
weighted funnel: Application → Screening → First Interview → Second Interview
→ outcome. The output is SankeyMATIC-style markup lines (`Source [n] Target`)
and the source/target/value columns handed to the diagram renderer.

The model starts from rows that are already loaded. A missing cell is `None`,
and a date cell is a flag for "present". The model covers:

- **Normalisation** (`records.dfy`, `title_case.dfy`). `Outcome` is
  title-cased and a missing outcome becomes "Pending". `Who Applied?` is
  title-cased. Rows whose outcome is "Diary Update" are dropped. In pandas a
  non-empty column whose cells are all missing is read as a float column, and
  `.str` then raises, which ends the run. The model returns that as an error
  (`Records.ColumnError`). The `Outcome` update runs first, so its error is
  the one reported when both columns are empty.
- **Exit classification** (`transitions.dfy`). There are four hard-coded
  boundaries. At each one a row exits either to the next stage, when it has
  that stage's marker, or to its outcome. The last boundary always exits to
  the outcome.
- **Aggregation** (`funnel.dfy`, `value_counts.dfy`, `string_order.dfy`).
  `value_counts().sort_index()` becomes `ValueCounts.Tally`, which inserts
  labels into a table kept strictly sorted by a lexicographic string order.
  `ValueCounts.IsCountTable` gives an independent description of that table
  and is proved to determine it uniquely. Each boundary's summary counts only
  the rows that reached the boundary's stage.
- **Output** (`markup.dfy`, `decimal.dfy`). `final_output` is modelled as a
  function. `create_sankey_df` is modelled as a method that builds its three
  columns with loops. A lemma proves the markup's edge lines are exactly the
  rendered edges of that edge list.
- **Worked examples** (`scenarios.dfy`): small tables and the edges or lines the pipeline gives for them.

The timestamp header is a parameter (`header`), because it comes from the
wall clock.

The model follows the code on two points where one might expect otherwise:

- Only missing outcomes (NaN) are filled with "Pending". An empty but present
  string is not filled. In the model only `None` becomes "Pending".
- There are exactly three stage markers and four boundaries, with no
  configurable funnel depth. The model keeps them hard-coded.

## Model

| member | source | states |
|---|---|---|
| `TitleCase.Title` | main.py:37-38 | title-casing keeps the length and the letters up to case; a letter comes out upper-case exactly when it starts a word, that is, when it is first or follows an uncased character |
| `TitleCase.TitleIdempotent` | main.py:37-38 | title-casing an already title-cased cell changes nothing |
| `TitleCase.TitleIgnoresCase` | main.py:37-41 | cells that differ only in letter case title-case to the same value, so "diary update" in any case is caught by the filter |
| `Records.NormaliseRow` | main.py:37-38 | a missing outcome becomes "Pending" and a present one is title-cased; `Who Applied?` is title-cased and stays missing when missing; the stage markers are untouched |
| `Records.TitleColumns` | main.py:37-38 | the column updates fail exactly when a non-empty table has an all-missing `Outcome` or `Who Applied?` column, report the `Outcome` error exactly when that column is the empty one, and otherwise give one normalised row per input row |
| `Records.DropDiaryUpdates` | main.py:41 | no kept row has outcome "Diary Update"; a row is kept exactly when it is an input row with another outcome |
| `Records.DropDiaryUpdatesKeepsOrder` | main.py:41 | the kept rows are a subsequence of the input rows, in their original order |
| `Records.DropDiaryUpdatesAppend` | main.py:41 | the filter works row by row: filtering a concatenation concatenates the filtered parts |
| `Records.DiaryRowDropped` | main.py:37-41 | a row whose raw outcome reads "diary update" in any letter case is dropped |
| `Records.Normalise` | main.py:37-41 | normalisation fails exactly when the column updates do, with their error; otherwise no remaining row is "Diary Update", the remaining rows are a subsequence of the normalised rows, and every normalised row with another outcome remains as many times as it occurs |
| `Records.DropDiaryUpdatesCounts` | main.py:41 | the filter keeps every row other than "Diary Update" as many times as it occurs, and no "Diary Update" row |
| `Records.DuplicateRowsKept` | main.py:41 | two identical rows that pass the filter both remain |
| `Records.NormaliseIdempotent` | main.py:37-41 | reloading a normalised table raises exactly when rows remain and none has a `Who Applied?` value; otherwise normalising it again gives it back unchanged |
| `Records.RenormaliseCanRaise` | main.py:37-41 | a table whose only `Who Applied?` value sits on a "Diary Update" row normalises, but its reloaded result then raises on the `Who Applied?` column |
| `Transitions.DetermineTransition` | main.py:55-62 | the Application exit is "Screening" or the outcome, it is "Screening" whenever the row has a screening date, and for an outcome not spelled "Screening" it is "Screening" exactly when the date is present |
| `Transitions.ScreeningExit` | main.py:63-64 | the Screening exit is "First Interview" or the outcome, and is "First Interview" exactly when the row has a first interview (for an outcome not spelled that way) |
| `Transitions.FirstInterviewExit` | main.py:65-66 | the First Interview exit is "Second Interview" or the outcome, and is "Second Interview" exactly when the row has a second interview (for an outcome not spelled that way) |
| `Transitions.SecondInterviewExit` | main.py:67 | the Second Interview exit is always the outcome |
| `Transitions.ExitRule` | main.py:55-67 | at each of the four boundaries the exit is the next stage's name when that stage's marker is present and the outcome otherwise; the Second Interview boundary always exits to the outcome |
| `Transitions.ExitIsStageOrOutcome` | main.py:55-67 | an exit label is the row's outcome or one of the stage names Screening, First Interview, Second Interview |
| `StringOrder.LessIrreflexive` | main.py:70-76 | no label sorts before itself |
| `StringOrder.LessTransitive` | main.py:70-76 | the label order used to sort the summaries is transitive |
| `StringOrder.LessTotal` | main.py:70-76 | any two different labels are ordered one way or the other |
| `StringOrder.LessAsymmetric` | main.py:70-76 | two labels never sort before each other |
| `ValueCounts.Tally` | main.py:70-76 | the tally of a column is strictly sorted by label, has every count at least 1, records for each label its number of occurrences, and its counts sum to the column length |
| `ValueCounts.CountTableLabels` | main.py:70-76 | a sorted count table lists each label occurring in the column, and only those, with its number of occurrences |
| `ValueCounts.CountTableUnique` | main.py:70-76 | two sorted, positive tables recording the same counts are equal |
| `ValueCounts.TallyUnique` | main.py:70-76 | any sorted frequency table of a column is the one the tally builds |
| `ValueCounts.InsertCount` | main.py:70-76 | adding one occurrence of a label raises that label's count by one and leaves the others alone |
| `Funnel.ExitColumn` | main.py:62-76 | the exit column a summary counts holds one label per row that reached the boundary's stage, each the exit of such a row |
| `Funnel.CountReached` | main.py:71-76 | the number of rows reaching a stage never exceeds the row count, and every row reaches Application |
| `Funnel.ExitColumnCount` | main.py:62-76 | a label occurs in the exit column as often as reached rows have it as their exit |
| `Funnel.Summary` | main.py:70-76 | each summary is strictly sorted with positive counts, counts for each label the reached rows with that exit, and totals the rows reaching the stage (all rows for Application, never more than all rows for the others) |
| `Funnel.UnreachedNotCounted` | main.py:71-76 | a row without a stage's marker leaves that boundary's summary unchanged |
| `Funnel.FlowConserved` | main.py:62-76 | when progress is monotone and no outcome is spelled like a stage, the count on the edge into a stage equals the total of the edges out of it |
| `Funnel.WhoValues` | main.py:79 | one counted `Who Applied?` value per row that has one, each the value of some row |
| `Funnel.WhoValuesCount` | main.py:79 | a value occurs among the counted values as often as rows carry it |
| `Funnel.WhoTotals` | main.py:79 | the who-applied totals are a count table of the counted values, record for each value its number of rows, and sum to the rows that have a value |
| `Markup.WhoLine` | main.py:80-81 | a who-applied line begins "I applied to them [" exactly when the value is "Me" and "They applied to me [" otherwise, ends with "] Application", and its bracketed number reads back as the count |
| `Markup.WhoAppliedSummary` | main.py:80-81 | one line per total, in the totals' order, each saying "I applied to them" exactly when its value is "Me" |
| `Markup.WhoAppliedLines` | main.py:79-81 | one who-applied line per distinct value, each with its number of rows (at least 1), counts summing to the rows that have a value |
| `Markup.BoundaryLines` | main.py:86-90 | one line per summary entry, each beginning with the boundary's stage and " [", ending with "] " and the entry's label, with digits between the brackets that read back as the entry's count |
| `Markup.FinalOutput` | main.py:84-91 | the markup begins with the header line |
| `Markup.MarkupOf` | main.py:37-91 | the run stops exactly when the column updates raise, with their error; otherwise it gives the markup of the normalised rows, header first |
| `Markup.AppendEdges` | main.py:101-104 | one loop of `create_sankey_df` appends the summary's edges to the three columns |
| `Markup.CreateSankeyDf` | main.py:94-124 | the three columns are the funnel edge list block by block in boundary order, with length the sum of the four summary lengths and the counts copied unchanged |
| `Markup.MarkupMatchesSankey` | main.py:84-124 | the markup is the header, then the who-applied lines, then exactly the rendered edges of the edge list `create_sankey_df` builds |
| `Markup.FinalOutputLayout` | main.py:84-91 | the header comes first, then the who-applied lines, then one line per summary entry in boundary order |
| `Markup.FunnelEdgesPositive` | main.py:70-124 | no edge of the funnel has weight 0 |
| `Markup.BoundaryWeights` | main.py:70-76 | the weights of the edges leaving a stage sum to the rows that reached it; for Application, to all rows left after filtering |
| `Markup.EmptyInputHeaderOnly` | main.py:37-91 | when every row is a "Diary Update" row the `Outcome` update cannot fail; the run stops if no row has a `Who Applied?` value and otherwise gives the header alone with an empty edge list |
| `Decimal.NatToString` | main.py:80-90 | a printed count is a non-empty run of digits with no leading zero except for 0 itself |
| `Decimal.ParseNatToString` | main.py:80-90 | the decimal count printed in a line reads back as the count |
| `Decimal.NatToStringInjective` | main.py:80-90 | different counts print differently |
| `Scenarios.HiredAfterFirstInterview` | main.py:37-124 | a hired row applied for by the candidate, with screening and first interview, normalises to one record and gives Application→Screening, Screening→First Interview, First Interview→Hired, each weight 1 |
| `Scenarios.RejectedBeforeScreening` | main.py:37-124 | a rejected row with no markers gives the single edge Application→Rejected |
| `Scenarios.BothDirections` | main.py:37-81 | values "me" and "them" give one "I applied to them" and one "They applied to me" line, each with count 1 |
| `Scenarios.EmptyColumnsStop` | main.py:37-38 | an all-missing `Who Applied?` column stops the run with its error, and an all-missing `Outcome` column stops it with the `Outcome` error even when `Who Applied?` is also missing |
| `Scenarios.TallyOrder` | main.py:70 | exits Rejected, Ghosted, Rejected are tallied as Ghosted 1, Rejected 2 |

## Left out

- Choosing and reading the CSV file (main.py:9-24, 33-34) is interactive file I/O. The model starts from loaded rows. A cell that is not a string is not modelled.
- The timestamp header (main.py:28-30) depends on the clock. It is the `header` parameter.
- The title-casing of pre-existing `*Exit` columns (main.py:43-50) is not modelled. Lines 62-67 overwrite those columns, so the values it computes are never used. The step can still end the run. The column's type is fixed when the file is read, before the filter. So `.str` raises when an `*Exit` column in a non-empty loaded table has every cell missing. A column with text only on "Diary Update" rows stays a text column and does not raise. The model does not carry those input columns, so it does not model that abort.
- A table that lacks one of the columns `Outcome`, `Who Applied?`, `Screening Date`, `First Interview` or `Second Interview` raises `KeyError` (main.py:37, 38, 56, 64, 66, 71-76). The `Row` type always has all five fields, so such a table cannot be expressed and that error is not modelled.
- `generate_sankey_image` (main.py:127-155) is a call into a plotting library plus image-file writing. Its node indices come from iterating a set, whose order is unspecified.
- `output_picker` (main.py:158-187) is a console menu and file output.
- `TitleCase.Title` models title casing for ASCII letters only. Every other character is kept unchanged and counts as uncased. Unicode case mappings are not modelled.
- `Funnel.WhoTotals` lists the who-applied totals in ascending value order. The source orders them by count, descending, with ties in an unspecified order (main.py:79). On its own terms it claims only the content and sum of the totals. Any claim that places the who-applied lines in the whole markup holds for the program only up to their order, as the next four lines say.
- `Markup.MarkupMatchesSankey` fixes the who-applied block as `WhoAppliedSummary(WhoTotals(recs))`, in ascending value order. For the program it holds only up to the order of the who-applied lines.
- `Markup.FinalOutputLayout` has the same limit: the who-applied block it places after the header is in the model's order, which can differ from the program's order.
- `Markup.MarkupOf` gives the markup with the who-applied lines in ascending value order. For the program its result holds only up to the order of those lines.
- `Scenarios.BothDirections` lists the "Me" line first. The program prints the two count-1 lines in an unspecified order.
- `Markup.FinalOutput` states only that the header comes first; its full layout is stated by `Markup.FinalOutputLayout` and `Markup.MarkupMatchesSankey`.
- `StringOrder.Less` compares labels by code point, as string comparison does. Labels of mixed types are not modelled.
- The type inference of `read_csv` is modelled only as far as the raising column updates need it: a column whose cells are all missing counts as non-text. A column of text with some missing cells is text, as in pandas.
