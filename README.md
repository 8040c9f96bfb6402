# d3-timeline: transformMarks in Dafny

This project models `transformMarks` of the d3-timeline plugin
(`d3-timeline/src/App.js`, lines 13-85) and proves what it computes. The
function turns the plugin configuration (`marks`, `entries`, `percentile`),
the host's columnar data (column id to an array of cells) and the column
metadata (column id to a display name) into the groups of series and the
colour domain that the timeline chart draws:

1. **Aggregation** (`aggregation.dfy`, lines 20-29): every mark column with a
   value array gets one percentile. The callback `v == null ? 0 : v` is given
   to `filter`, not `map`, so null/undefined cells and zeros are dropped, not
   turned into 0. `Aggregate` is the loop; `KeepTruthy` is the filter.
2. **Span pairing** (`span_names.dfy`, `span_pairing.dfy`, lines 13-14 and
   30-50): display names ending in `StartTime` / `EndTime` are classified as
   `Start(prefix)` / `End(prefix)` / `NoMatch`. An insertion-ordered table
   label -> `[start, end]` (seeded with `[0, 0]`) is filled, and a domain
   seeded with `[0, 0]` is widened by `min` over starts and `max` over ends.
   `PairSpans` is the loop, with the domain as a two-element array updated
   in place; `Pass` is its specification.
3. **Entries** (`entries.dfy`, lines 52-67): each entries column's single
   cell is decoded (any other row count means no records), and the records
   are grouped by `name`, with names in first-seen order and points in input
   order. `GroupByName` is the reduce; `Grouped` is its specification.
4. **Output** (`transform.dfy`, lines 69-84): the `"marks"` group (one
   single-point series per label, `val = end - start`), then the entries
   groups. `TransformMarks` runs the four parts in the source's order, and
   `Transform` is its specification.

`first_seen.dfy` holds first-occurrence order. A JavaScript object enumerates
its string keys in that order, and both the span table and the entry
grouping depend on it. `timeline_types.dfy` holds the data model.
`wrappers.dfy` holds `Option` and `Result`.

Two collaborators are parameters, not code. The percentile library is a
function `pct: (seq<real>, real) -> real` whose properties are not assumed.
`JSON.parse` together with the reduce's failure cases is a function
`decode: Cell -> Option<seq<EntryRecord>>`. `None` stands for a payload on
which the source throws. That exception escapes `transformMarks`, so the
model returns `Failure(MalformedPayload(column))` for the first entries
column whose payload fails.

Where the code and the plugin's documented intent differ, the model follows
the code:
- Null and falsy cells are documented as coerced to 0 before the percentile.
  The code drops them instead, and drops real zeros too (`NullLikeZero`,
  `KeepTruthy`).
- The captured label keeps everything before the suffix. The columns
  "X StartTime" and "X EndTime" pair under the label "X " with its trailing
  space, not "X" (`ClassifySpacedNames`).
- A malformed entries payload is documented as an open question. The code
  throws, so the model returns a failure.
- Adding a mark column that has no data is documented as changing nothing.
  That holds only when the marks list is already non-empty
  (`TransformSkipsMissingColumn`). From no marks at all, the result changes
  from `[[], [0, 1]]` to a `"marks"` group with no series and domain
  `[0, 0]`, and the entries payloads are then decoded, so the call can throw
  (`FirstMarkColumnNotNeutral`).

## Model

| member | source | states |
|---|---|---|
| `SpanNames.MatchSuffix` | d3-timeline/src/App.js:13-14 | a match of `^(.*)Suffix$` captures a single-line prefix that, followed by the suffix, is the whole name |
| `SpanNames.MatchSuffixComplete` | d3-timeline/src/App.js:13-14 | every single-line prefix followed by the suffix matches, and the capture is that prefix |
| `SpanNames.Classify` | d3-timeline/src/App.js:35-43 | a Start(l) classification means name = l + "StartTime"; an End(l) means name = l + "EndTime"; l has no line terminator |
| `SpanNames.ClassifyComplete` | d3-timeline/src/App.js:35-43 | converse: l + "StartTime" is Start(l), and l + "EndTime" is End(l), so NoMatch means neither shape |
| `SpanNames.SuffixesExclusive` | d3-timeline/src/App.js:13-14 | no name is both a start name and an end name, so trying the start pattern first loses nothing |
| `SpanNames.ClassifySpacedNames` | d3-timeline/src/App.js:13-14 | "X StartTime" / "X EndTime" pair under the label "X " |
| `FirstSeen.Firsts` | d3-timeline/src/App.js:38-40 | the first-seen list holds exactly the input's elements, without duplicates |
| `FirstSeen.FirstsOrder` | d3-timeline/src/App.js:58-62 | the first-seen list orders elements by their first occurrence in the input |
| `Aggregation.KeepTruthy` | d3-timeline/src/App.js:26 | the filter keeps only non-zero numbers, each taken from the column, and never grows the column |
| `Aggregation.KeepTruthySingle` | d3-timeline/src/App.js:26 | a single cell is kept, as its number, exactly when it is truthy (a non-zero number) |
| `Aggregation.KeepTruthyAppend` | d3-timeline/src/App.js:26 | the filter works cell by cell in order: filtering a concatenation is concatenating the filtered parts |
| `Aggregation.NullLikeZero` | d3-timeline/src/App.js:26 | replacing a null or undefined cell by 0 leaves the percentile's input unchanged |
| `Aggregation.KeepTruthyNonzero` | d3-timeline/src/App.js:26 | a column of non-zero numbers reaches the percentile unchanged |
| `Aggregation.Aggregate` | d3-timeline/src/App.js:20-29 | a column gets an aggregate iff it is a mark column with data; the aggregate is the percentile of its truthy values |
| `SpanPairing.StepWrites` | d3-timeline/src/App.js:37-49 | one pairing column writes one side of its label's span: a new label is appended with [0, 0] first; the other side and every other label are kept; only the matching domain side moves, outwards, to include the aggregate |
| `SpanPairing.PairSpans` | d3-timeline/src/App.js:30-50 | the loop with the in-place domain array yields the table `Pass`, with lo <= 0 <= hi, lo <= every start aggregate and hi >= every end aggregate |
| `SpanPairing.PassSpans` | d3-timeline/src/App.js:37-49 | the table holds exactly the captured labels; each span is [last start aggregate, last end aggregate], 0 for a side never matched |
| `SpanPairing.PassLabels` | d3-timeline/src/App.js:38-46 | the table's keys are the captured labels in first-discovery order |
| `SpanPairing.PassDomain` | d3-timeline/src/App.js:31-48 | lo <= 0 <= hi; lo is below every start aggregate and is 0 or one of them; hi is above every end aggregate and is 0 or one of them |
| `SpanPairing.PassNoSpans` | d3-timeline/src/App.js:30-50 | with no column that pairs, the table is empty and the domain stays [0, 0] |
| `SpanPairing.PassSkipsUnpaired` | d3-timeline/src/App.js:32-50 | inserting a mark column that does not pair anywhere leaves the table and domain unchanged |
| `Entries.GroupByName` | d3-timeline/src/App.js:57-65 | the reduce with its accumulator object and `push` followed by Object.values yields `Grouped` |
| `Entries.GroupedShape` | d3-timeline/src/App.js:57-65 | one series per distinct name, in first-seen order, each holding that name's points (at least one), and every name gets a series |
| `Entries.PointsNamedVals` | d3-timeline/src/App.js:63 | every point of a series comes from a record of that name, carries its range, and has `val` = range end - start |
| `Entries.GroupedTotal` | d3-timeline/src/App.js:57-65 | the series hold as many points as there are records |
| `Entries.GroupedExample` | d3-timeline/src/App.js:57-65 | A[0,5], A[5,9], B[1,2] group into "A" (durations 5, 4) and "B" (duration 1) |
| `Entries.DecodeRowsNoRecords` | d3-timeline/src/App.js:53-57 | a column missing from `data`, an empty or multi-row column, or a single null cell gives no records; a single undefined or numeric cell always throws; a failure needs a single non-null cell |
| `Entries.EntryGroupsSuccess` | d3-timeline/src/App.js:52-67 | the entries map succeeds iff every column decodes; then group k is named by column k's display name and holds its grouped records |
| `Entries.EntryGroupsFailure` | d3-timeline/src/App.js:54 | a failure names the first column whose single cell does not decode |
| `Entries.CollectEntryGroups` | d3-timeline/src/App.js:52-67 | the loop over entries columns, ending at the first decode failure, yields `EntryGroups` |
| `Transform.TransformMarks` | d3-timeline/src/App.js:16-85 | yields `Transform`; no mark columns gives exactly ([], [0, 1]); otherwise "marks" comes first, then one group per entries column, and lo <= 0 <= hi |
| `Transform.TransformMarksSeries` | d3-timeline/src/App.js:69-81 | the "marks" group has one series per captured label in discovery order, each with the one point [last start, last end] and `val` = end - start |
| `Transform.TransformDomain` | d3-timeline/src/App.js:31-48 | the domain contains 0 and bounds every start/end column's percentile, each end 0 or attained; with no pairing column it is [0, 0] and "marks" is empty |
| `Transform.TransformEntries` | d3-timeline/src/App.js:52-83 | the result succeeds iff every entries payload decodes; group k + 1 is entries column k's group; a failure names the first bad column |
| `Transform.TransformScalarEntryThrows` | d3-timeline/src/App.js:53-57 | with at least one mark column, an entries column holding a single number or `undefined` makes the call throw |
| `Transform.TransformSkipsMissingColumn` | d3-timeline/src/App.js:22-50 | adding a mark column without data to a non-empty marks list, at any position, leaves the result unchanged (such a column does not pair, by `Admissible`) |
| `Transform.FirstMarkColumnNotNeutral` | d3-timeline/src/App.js:17-50 | from an empty marks list, adding one column without data changes the result from ([], [0, 1]) to a "marks" group with no series and domain [0, 0] |

## Left out

- `renderTimeline` (lines 87-113) and `App` (lines 115-138) are not modelled. They are host glue: d3 DOM clearing, the third-party timeline widget, click and zoom callbacks, tooltip formatting, React hooks and the editor panel configuration.
- The percentile library (`aggregatejs/percentile`) is a parameter. Its body is not visible, so nothing is assumed about it. The model claims neither monotonicity in the percentile nor median semantics.
- `JSON.parse` and the reduce's failure cases are a parameter. Payload elements that are not `{ name: string, timeRange: [number, number] }` records are outside the model. The decoder either rejects them or does not produce them.
- Some JavaScript behaviour is excluded by the precondition `Transform.Admissible`, not modelled:
  - column ids, span labels or entry names that `Object.prototype` already holds (`constructor`, `__proto__`, ...);
  - span labels or entry names that are array indices, which objects enumerate first;
  - span-named mark columns with no data, where the source writes `undefined` and the domain becomes NaN;
  - strings in mark columns;
  - a decoder that does not behave as JSON.parse followed by `?.reduce` does on non-text cells: `null` gives no records, `undefined` and a number throw (`JsonDecoder`).
- Numbers are `real`. The model has no floating point, NaN or infinities.
- `data` and `columnInfo` are always maps. The source's handling of an undefined `data` (it would throw at line 23) is not modelled. A `percentile` set to `null` rather than left absent is not modelled either.
- The source stores the same `[start, end]` arrays in the span table and in the output points. The model copies them as values, so any sharing between the two is not represented.
