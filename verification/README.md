# Foundations, modelled and proved in Dafny

A model of the parts of Foundations where behaviour depends on several functions, on
whole runs, or on several threads, with proofs about them. `dafny verify dfyconfig.toml`
checks everything.

- **Metrics to text.** `Proto` is the metric model; `TextGrammar`, `TextParser` and
  `TextRoundTrip` are the printed grammar, a strict parser and the proof that they undo
  each other; `TextItems` says which lines a family stands for, `TextRows` what these say field
  by field, and `TextEncoder` is the imperative printer proved to print them, for any formatter of floats as the one in
  `Formatters`. The grammar is that of OpenMetrics 1.0, section
  "Text format", with the code's deliberate deviations: quoted UTF-8 names, and counters
  printed without a suffix.
- **Validation and collection.** `Validation` (in-place sanitizer and borrowing fast path)
  and `Collect` (service prefix and service label).
- **Metric cells under concurrency.** `RangeGauge`, `AtomicUpdate`, `FamilyCells`,
  `ExemplarCounter`, `ExemplarHistogram` and `TimeHistograms` are step systems: one step per
  atomic or lock operation, any number of threads, any interleaving. Runs are sequences of
  states; the theorems are about every run. Where the source also has a meaning for a single
  thread, a class with the same fields is proved against it.
- **Histograms and grouping.** `Buckets`, `Histograms`, `HistogramTimers`, `FamilyGroups`.
- **Documented YAML.** `SettingsDocs` is the `add_docs` recursion, `YamlLines` how a line is
  read, `SettingsYaml` the key-stack annotator, `SettingsYamlExact` when its lines are the
  documented tree, `SettingsYamlText` the same for text, `SettingsYamlLists` what that means for
  lists, `SettingsYamlChance` a text that is right by chance, `SettingsFields` the table and each
  line of the loop in terms of the settings, `SettingsYamlExample` one of the test data's files.
- **Rewindable writer and logs.** `Rewind`, `LogFields`, `LoggerRuns`.

Three findings are stated as theorems rather than worked around. The list index of the YAML
annotator counts only items printed with a field, and every field line that is not the first
of an item sets it back to zero, so a list item may be looked up under another item's index;
`DocumentedExactly` and, on lists alone, `DocumentedIffListsMatch` give the exact condition under
which no docs are lost or misplaced, `ListsAlikeAreDocumented` a class of settings that always meets it, and
`AbsentThenPresentLosesDocs` a list that does not. A doc of several lines gets a single `#`;
`CommentsCanBeDeleted` says exactly when the comments can still be told from the settings, and
`BlockCommentCannotBeDeleted` shows that they cannot always. And a rewind in a buffer without any
newline removes nothing; `RewindLeavesNoPartialLine` says exactly when a rewind leaves only
complete lines, `FailuresLeaveNoGarbage` when a whole run of metrics does, and `StrandedByte` shows a
run that does not.

## Model

| member | source | states |
|---|---|---|
| TextEncoder.EncodeToText | foundations-metrics/src/encoding/text.rs:19-30 | Whatever strings the families carry, a strict parser recovers from the text exactly the metadata and samples of the sanitized families of known type; each takes one line, and `# EOF` is a line only at the very end, where it always is. |
| TextRows.FamiliesInOrder | foundations-metrics/src/encoding/text.rs:19-30 | The items recovered are those of each sanitized family with a non-empty name without NUL, in order. |
| TextRows.FamilyLines | foundations-metrics/src/encoding/text.rs:32-82 | A family's items, by the wire number of its type: a help line if there is help text, one type line, a unit line if there is a unit, then its rows in order; an unknown type has none. |
| TextRows.CounterRow | foundations-metrics/src/encoding/text.rs:84-101 | A counter row is one sample under the family's name with the counter's value, zero if absent, and its exemplar; none without a counter. |
| TextRows.GaugeRow | foundations-metrics/src/encoding/text.rs:102-114 | A gauge row is one sample with the gauge's value, or nothing. |
| TextRows.UntypedRow | foundations-metrics/src/encoding/text.rs:150-161 | An untyped row is one sample with its value, always with a point or exponent, or nothing. |
| TextRows.SummaryRow | foundations-metrics/src/encoding/text.rs:115-149 | One sample per quantile, in order, whose last label is the quantile and whose value is the quantile's value; then `_sum` and `_count` with the sum and the count. |
| TextRows.HistogramRow | foundations-metrics/src/encoding/text.rs:168-251 | `_sum` and `_count` (`_gsum` and `_gcount` for gauge histograms), one `_bucket` per bucket with its bound, count and exemplar, and one more at `+Inf` with the sample count exactly if no bound is infinite or the largest float; nothing exactly for a native-only histogram or one with positive float counts. |
| TextRows.FloatTokens | foundations-metrics/src/encoding/text.rs:442-470 | NaN and the infinities have their own tokens; a finite float keeps its digits, with `.0` added where there is no point or exponent, or dropped for counters and gauges. |
| TextRows.DecimalDigits | foundations-metrics/src/encoding/text.rs:305-313 | Counts are written in base ten, digit by digit, without leading zeros. |
| TextRows.LegacyNames | foundations-metrics/src/encoding/text.rs:415-434 | A name needs no quotes exactly if it starts with an ASCII letter, underscore or, for metrics, colon, and goes on with those and digits. |
| TextRows.Escapes | foundations-metrics/src/encoding/text.rs:472-481 | Backslash, newline and quote are written as two characters each, every other character as it is. |
| TextRows.MetadataLines | foundations-metrics/src/encoding/text.rs:46-78 | The HELP, TYPE and UNIT lines to the letter, with the type's name for each wire number. |
| TextRows.SampleLine | foundations-metrics/src/encoding/text.rs:285-395 | A sample line to the letter, with labels, time and exemplar: the name in front of the braces, or quoted as first entry inside them. |
| TextRows.BareLine | foundations-metrics/src/encoding/text.rs:285-395 | The same without labels, time and exemplar. |
| TextRoundTrip.DocRoundTrip | foundations-metrics/src/encoding/text.rs:19-481 | Parsing a rendered document gives back its items: names with suffix, ordered labels, value token, timestamp and exemplar, for all strings, legacy or quoted. |
| TextRoundTrip.DocInjective | foundations-metrics/src/encoding/text.rs:19-481 | Two different item lists never print as the same document; in particular legacy and quoted forms never collide. |
| TextRoundTrip.DocLines | foundations-metrics/src/encoding/text.rs:19-481 | Every item is exactly one line of the document, and none of these lines is the end marker. |
| TextRoundTrip.ItemOf | foundations-metrics/src/encoding/text.rs:285-329 | Any one printed metadata or sample line parses back to its item, whatever text follows. |
| TextRoundTrip.HeadOf | foundations-metrics/src/encoding/text.rs:358-395 | The sample name and label set are recovered both from the legacy form and from the form with the quoted name inside the braces. |
| TextRoundTrip.QuotedOf | foundations-metrics/src/encoding/text.rs:436-481 | Escaping of backslash, quote and newline is undone exactly, for any string. |
| TextRoundTrip.MetricNameOf | foundations-metrics/src/encoding/text.rs:397-413 | A metric name is recovered whether it was printed plain or quoted. |
| TextParser.ParseDoc | foundations-metrics/src/encoding/text.rs:19-481 | The parser is strict: whatever it accepts is, character for character, the rendering of the items it returns. |
| TextParser.ParseItem | foundations-metrics/src/encoding/text.rs:285-329 | An accepted line followed by the unparsed rest is the input again. |
| TextGrammar.BodyIsOneLine | foundations-metrics/src/encoding/text.rs:436-481 | No printed item contains a newline, even when its strings do. |
| TextItems.FloatTokenInjective | foundations-metrics/src/encoding/text.rs:442-470 | The token written for an `f64` determines it, special values included, for any formatter that tells `f64` values apart. |
| Formatters.FormatterExists | foundations-metrics/src/encoding/text.rs:442-470 | A formatter meeting all that is asked of the shortest-digits one exists: number characters only, more than `.0`, and different tokens for different `f64` values. |
| TextItems.DecimalRoundTrip | foundations-metrics/src/encoding/text.rs:285-329 | An integer is recovered from its decimal token. |
| TextItems.DocItemsAreItems | foundations-metrics/src/encoding/text.rs:32-251 | Everything the encoder prints for any families is well-formed, given only that the formatter writes number characters: tokens contain no space, quote, brace or newline. |
| TextItems.CleanDocItems | foundations-metrics/src/encoding/text.rs:19-30 | Families that are already clean lose nothing on the way to text. |
| TextEncoder.SuffixKeepsLegacy | foundations-metrics/src/encoding/text.rs:358-413 | Appending `_sum`, `_count`, `_bucket`, `_gsum` or `_gcount` never changes whether a name needs quoting, so testing the bare name is enough. |
| TextEncoder.Encoder.WriteEscaped | foundations-metrics/src/encoding/text.rs:472-481 | Appends exactly the escaped value and touches nothing printed before. |
| TextEncoder.Encoder.WriteLabels | foundations-metrics/src/encoding/text.rs:331-356 | Appends the row's labels in order, then the extra `le` or `quantile` label, comma-separated, with absent names and values as empty strings. |
| TextEncoder.Encoder.WriteSampleNameAndLabels | foundations-metrics/src/encoding/text.rs:358-395 | Appends name, suffix and labels in the legacy form, or with the quoted full name as first entry of the braces. |
| TextEncoder.Encoder.WriteSample | foundations-metrics/src/encoding/text.rs:285-329 | Appends one complete sample line: head, value, optional timestamp, optional exemplar. |
| TextEncoder.Encoder.EncodeHistogram | foundations-metrics/src/encoding/text.rs:168-251 | Appends the histogram's lines: nothing for a native-only or float-count row, else sum, count, every bucket with `f64::MAX` shown as `+Inf`, and one more `+Inf` bucket if none was seen. |
| TextEncoder.Encoder.EncodeSummary | foundations-metrics/src/encoding/text.rs:117-149 | Appends the quantile lines in order, then `_sum` and `_count`. |
| TextEncoder.Encoder.EncodeMetric | foundations-metrics/src/encoding/text.rs:84-166 | Appends what the family's type asks for; a row without a value of that type appends nothing. |
| TextEncoder.Encoder.EncodeFamily | foundations-metrics/src/encoding/text.rs:32-82 | Appends help if there is any text, type, unit if present, then every row; a family of unknown type appends nothing. |
| Validation.FindLabelIssue | foundations-metrics/src/validation.rs:125-146 | No issue is reported if and only if every label name is valid, none repeats and none is reserved. |
| Validation.IssueIsTheFirst | foundations-metrics/src/validation.rs:125-146 | The issue reported is that of the first label that has one, as invalid before duplicate before reserved. |
| Validation.SerializationIssue | foundations-metrics/src/validation.rs:261-270 | Only the one marker label makes a failed serialization, with the error as its value. |
| Validation.FindExemplarIssue | foundations-metrics/src/validation.rs:261-270 | No issue is reported if and only if the exemplar's labels are valid and distinct. |
| Validation.ReservedExemplarUnreachable | foundations-metrics/src/validation.rs:236-259 | The report arm for a reserved exemplar label can never be taken. |
| Validation.SanitizeRows | foundations-metrics/src/validation.rs:87-103 | Keeps, in order, exactly the rows with usable labels, each with only its own bad exemplars removed. |
| Validation.RowsKept | foundations-metrics/src/validation.rs:87-111 | Of a family's rows exactly those stay, in order, whose label names are all present, non-empty, without NUL and distinct, with no `le` in histograms (wire types 4 and 5) and no `quantile` in summaries (2); nothing else of the family changes. |
| Validation.CleanMetricIs | foundations-metrics/src/validation.rs:188-234 | Field by field what is left of a row: everything but exemplars as it was, counter and bucket exemplars exactly if their labels are usable, native ones in order exactly if they also have a timestamp. |
| Validation.SanitizeExemplars | foundations-metrics/src/validation.rs:188-234 | Clears exactly the counter and bucket exemplars with bad labels, drops exactly the native exemplars with bad labels or no timestamp, and changes nothing else. |
| Validation.FamilyCell.Sanitize | foundations-metrics/src/validation.rs:32-50 | A family without a valid name is refused untouched; any other is sanitized in place. |
| Validation.ExemplarsAreValid | foundations-metrics/src/validation.rs:165-186 | The read-only check holds if and only if the in-place sanitizer would change nothing on this row. |
| Validation.RowsAreValid | foundations-metrics/src/validation.rs:80-85 | The fast-path check holds if and only if sanitizing the rows would change nothing. |
| Validation.SanitizedMetricFamily | foundations-metrics/src/validation.rs:52-71 | Borrowed and owned results both equal the in-place sanitizer's result; it borrows if and only if there is nothing to change. |
| Validation.CleanFamilyIdempotent | foundations-metrics/src/validation.rs:32-103 | Sanitizing twice is sanitizing once, and a sanitized family always passes the fast-path check. |
| Collect.Collect | foundations-metrics/src/collect.rs:34-72 | Returns the usable families of every registration not left out, in order; an empty configured label name, or one with a NUL, yields nothing; every family returned takes the borrowing path in both encoders. |
| Collect.CollectedIs | foundations-metrics/src/collect.rs:34-95 | In every mode: a family is collected exactly if its registration is not optional or optional ones are asked for, it has a name, and the name it would have is not empty and has no NUL; in the order of registrations and their families; under the prefix, a single underscore and its name, or with its rows labelled, or just sanitized, as mode and opt-outs say. |
| Collect.CollectRegistered | foundations-metrics/src/collect.rs:47-69 | One registration's families are named or labelled, sanitized, and kept in order if usable. |
| Collect.ApplyServiceName | foundations-metrics/src/collect.rs:74-95 | In place: the prefix and an underscore in front of each present name, or the service label on every row, unless the registration opted out. |
| Collect.ApplyServiceLabel | foundations-metrics/src/collect.rs:97-127 | In place over all families: every row labelled or dropped, names and metadata untouched. |
| Collect.ApplyLabelToRow | foundations-metrics/src/collect.rs:105-125 | A row is dropped exactly when a label of the service label's name on it has another value; otherwise it is unchanged if it has the label, and gets it in front of its own if not. |
| Collect.FinalRowIs | foundations-metrics/src/collect.rs:34-127 | After label mode a row survives if and only if no service label conflicts, the row is valid, and the label name is not reserved for its type; a survivor has exactly one service label, with the service name as value, and its other labels unchanged in order. |
| Collect.FinalRowsInOrder | foundations-metrics/src/collect.rs:34-127 | Labelling then sanitizing acts row by row, so row order is kept. |
| Collect.LabelRowsIdempotent | foundations-metrics/src/collect.rs:97-127 | Applying the service label twice equals applying it once. |
| Collect.CollectedComesFrom | foundations-metrics/src/collect.rs:34-127 | In label mode every collected family comes from one encoded family of an admitted registration; unless that opted out, its rows are the surviving rows in order, each with exactly one service label, valued with the service name. |
| RangeGauge.StepKeepsInv | foundations-metrics/src/metrics/gauge.rs:293-368 | Every atomic step of every thread keeps: the current value is at most max, or a pending `fetch_max` or an owed scrape fix-up will cover it; symmetrically for min; scrapes exclude each other; reports are ordered. |
| RangeGauge.StepKeepsMaxCovered | foundations-metrics/src/metrics/gauge.rs:293-368 | The max half of the invariant, one step at a time. |
| RangeGauge.StepKeepsMinCovered | foundations-metrics/src/metrics/gauge.rs:293-368 | The min half of the invariant, one step at a time. |
| RangeGauge.RunKeepsInv | foundations-metrics/src/metrics/gauge.rs:293-368 | The invariant holds in every state of every run of any number of threads. |
| RangeGauge.BoundsAtRest | foundations-metrics/src/metrics/gauge.rs:340-368 | Whenever no operation is in flight, min <= current <= max. |
| RangeGauge.NoDeadlock | foundations-metrics/src/metrics/gauge.rs:293-368 | In every run updates never wait, a scrape waits only for another one, and whoever is inside an operation can go on. |
| RangeGauge.ReportsAreOrdered | foundations-metrics/src/metrics/gauge.rs:340-368 | Every triple a scrape returns is ordered, and no two scrapes overlap. |
| RangeGauge.ReportedMaxCovers | foundations-metrics/src/metrics/gauge.rs:332-368 | Any max update landing between two consecutive swaps of the max cell, and the first scrape's own reading, is at most what the second swap leaves its scrape holding as max. |
| RangeGauge.ReportedMinCovers | foundations-metrics/src/metrics/gauge.rs:332-368 | Any min update landing between two consecutive swaps of the min cell, and the first scrape's own reading, is at least what the second swap leaves its scrape holding as min. |
| RangeGauge.ReturnedTripleCovers | foundations-metrics/src/metrics/gauge.rs:332-368 | In any run, the triple a scrape returns is what its own two swaps took: its max is at least, its min at most, everything stored there since the previous swap of that cell, and its current value lies between them. |
| RangeGauge.ExtremesWereHeld | foundations-metrics/src/metrics/gauge.rs:332-368 | Every extreme a scrape carries or a cell stores is a value the gauge really held. |
| RangeGauge.StepsRunAlone | foundations-metrics/src/metrics/gauge.rs:293-368 | A thread's operation run to its end without interference has the effect of the sequential operation. |
| RangeGauge.Cell.IncBy | foundations-metrics/src/metrics/gauge.rs:293-297 | Sequentially: returns the previous value, and the bounds stay the exact extremes of the values held since the last scrape. |
| RangeGauge.Cell.DecBy | foundations-metrics/src/metrics/gauge.rs:305-309 | As above, for decreasing. |
| RangeGauge.Cell.Set | foundations-metrics/src/metrics/gauge.rs:312-317 | As above, for setting. |
| RangeGauge.Cell.GetValues | foundations-metrics/src/metrics/gauge.rs:342-368 | Sequentially reports exactly the least, current and greatest value held since the previous scrape, counting the value at that scrape, and resets to the current one. |
| RangeGauge.LeastIsLeast | foundations-metrics/src/metrics/gauge.rs:342-368 | What the sequential report calls least and greatest are members of the held values and bound them all. |
| AtomicUpdate.UpdateF64 | foundations-metrics/src/metrics/mod.rs:53-66 | The retry loop, against any finite run of stores by others and spurious failures: it returns the value held at its successful exchange, stores the function of that value, and retries at most once per disturbance. |
| AtomicUpdate.StepKeepsInv | foundations-metrics/src/metrics/mod.rs:53-66 | Every step of every thread keeps the log of completed updates one chain ending in the cell's content. |
| AtomicUpdate.NoUpdateLost | foundations-metrics/src/metrics/mod.rs:53-66 | In every run each call returns its predecessor's result and the cell is the fold of all completed functions in chain order. |
| AtomicUpdate.OneEntryPerCall | foundations-metrics/src/metrics/mod.rs:53-66 | The chain has exactly one entry per successful exchange, by the thread that made it: what the cell held before, what it holds then, and the thread's function or stored value. |
| AtomicUpdate.AppliesItsCall | foundations-metrics/src/metrics/mod.rs:53-66 | The function a thread applies is the one its call was made with. |
| AtomicUpdate.NeverWaits | foundations-metrics/src/metrics/mod.rs:53-66 | No thread ever waits for another. |
| AtomicUpdate.FailureMeansProgress | foundations-metrics/src/metrics/mod.rs:53-66 | A failure that is not spurious means another update completed since the value was read. |
| AtomicUpdate.AddsAddUp | foundations-metrics/src/metrics/mod.rs:53-66 | When every update adds, the cell is the initial value plus everything added. |
| FamilyCells.StepKeepsInv | foundations-metrics/src/metrics/family.rs:145-209 | Every lock and map step keeps the lock discipline, one cell per key, and each guard on the cell its key maps to. |
| FamilyCells.NeverPanics | foundations-metrics/src/metrics/family.rs:145-191 | The lookup after the insert never fails, and a writer excludes every other guard. |
| FamilyCells.NoDeadlock | foundations-metrics/src/metrics/family.rs:145-209 | In every run no thread is stuck: each can take its next step, or waits for a lock whose holder can. |
| FamilyCells.SameCell | foundations-metrics/src/metrics/family.rs:145-209 | With any number of threads racing, all calls for a label set between two removals yield the same cell. |
| FamilyCells.WorksForItsKey | foundations-metrics/src/metrics/family.rs:145-204 | A thread looks up, inserts and removes the label set its call was made with, and its guard is for that one. |
| FamilyCells.HandleIsOnItsGuards | foundations-metrics/src/metrics/family.rs:194-200 | An owned handle is on the cell of the guard it was cloned from. |
| FamilyCells.DifferentKeysDifferentCells | foundations-metrics/src/metrics/family.rs:145-191 | Guards share a cell if and only if their label sets are equal. |
| FamilyCells.RemovedCellIsGone | foundations-metrics/src/metrics/family.rs:202-209 | After a removal or clear, the old cell is never handed out again. |
| FamilyCells.TotalIsSumOfIncrements | foundations-metrics/src/metrics/family.rs:145-209 | A cell's value changes only by increments through its handles: no other constructor's result replaces it, and handles cloned out count also after removal. |
| FamilyCells.NewCellHoldsInitial | foundations-metrics/src/metrics/family.rs:156-160 | A cell made for a label set that had none is new and starts at what its constructor gave. |
| FamilyCells.HandlesAreCounted | foundations-metrics/src/metrics/family.rs:145-200 | An increment through any guard or owned handle is possible and lands in that cell's total. |
| FamilyGroups.EncodeMetricValue | foundations-metrics/src/metrics/family.rs:243-327 | For any iteration order: the output is the groups of the simple description, names are distinct, the two error counts are the numbers of unserialisable label sets and of families whose metadata differs from the first of their name, and every row is output, dropped for metadata, or of an unserialisable label set. |
| FamilyGroups.GroupIs | foundations-metrics/src/metrics/family.rs:243-327 | A group's rows are, in the order of label sets and their families, those of every family with rows and a serialisable label set that has the group's name, help, type and unit; each row led by that whole label set, otherwise unchanged; name and metadata are those of the first such family with the name. |
| FamilyGroups.Encoding.EncodeEntry | foundations-metrics/src/metrics/family.rs:254-310 | One label set's families extend the groups exactly as described; the countdown never underflows and the labels are moved out only at the last row. |
| FamilyGroups.PrependLabels | foundations-metrics/src/metrics/family.rs:276-287 | Every row starts with the whole label set, goes on with its own labels and is otherwise unchanged; the labels are gone exactly when the countdown reaches zero. |
| FamilyGroups.FileFamily | foundations-metrics/src/metrics/family.rs:289-308 | A family opens a group, extends the one with its name, or is counted as a metadata mismatch against the first seen. |
| FamilyGroups.NamesAreNames | foundations-metrics/src/metrics/family.rs:243-327 | Group names are exactly the contributed names, each once. |
| FamilyGroups.NamesInOrder | foundations-metrics/src/metrics/family.rs:243-327 | Groups come in first-seen order. |
| FamilyGroups.RowsAreConserved | foundations-metrics/src/metrics/family.rs:243-327 | Rows in groups plus rows dropped for metadata are all contributed rows. |
| FamilyGroups.AllRowsAccountedFor | foundations-metrics/src/metrics/family.rs:243-327 | Output rows, rows dropped for metadata and rows of unserialisable label sets add up to all rows. |
| Buckets.PartitionPoint | foundations-metrics/src/metrics/histogram.rs:84-86 | The bisection finds the first bound not below the value. |
| Buckets.FindBucket | foundations-metrics/src/metrics/histogram.rs:364-369 | The linear search over sorted bounds finds the same bucket as the bisection, for every number. |
| Buckets.SortSorts | foundations-metrics/src/metrics/histogram.rs:57-59 | Bounds given in any order, with duplicates, come out sorted and are a permutation of the input. |
| Buckets.CumulativeIsCountAtMost | foundations-metrics/src/metrics/histogram.rs:115-127 | The buckets up to a bound together hold exactly the observations at most that bound, also where bounds repeat. |
| Buckets.CountAtMostMonotone | foundations-metrics/src/metrics/histogram.rs:115-127 | Cumulative counts never decrease along the bounds. |
| Buckets.CountAtMostIs | foundations-metrics/src/metrics/histogram.rs:115-127 | The cumulative count at a bound is the number of positions whose observation is at most it. |
| Buckets.AtMostMaxIsPlaceable | foundations-metrics/src/metrics/histogram.rs:56-94 | What the terminal bucket accumulates is the number of observations that are neither NaN nor +infinity. |
| Histograms.HistogramCell.constructor | foundations-metrics/src/metrics/histogram.rs:56-70 | The bounds are the given ones and `f64::MAX`, sorted, with all counters zero. |
| Histograms.HistogramCell.ObserveAndBucket | foundations-metrics/src/metrics/histogram.rs:75-94 | Every counter stays the wrapped count of the observations so far; a finite value is added to a finite sum; returns the chosen bucket, or none for NaN and values above every bound. |
| Histograms.EncodeSnapshot | foundations-metrics/src/metrics/histogram.rs:114-144 | The encoded cumulative count at a bound is the number of non-NaN observations at most it, modulo 2^64. |
| Histograms.ObserveAll | foundations-metrics/src/metrics/histogram.rs:56-144 | End to end from any bounds and observations to the encoded message; for finite observations the sum encoded is their sum as reals. |
| Histograms.TotalIs | foundations-metrics/src/metrics/histogram.rs:75-78 | The sum is NaN exactly after a NaN or both infinities, infinite exactly after one of them, and otherwise the real sum of the observations. |
| Histograms.RealSumSplits | foundations-metrics/src/metrics/histogram.rs:75-78 | That sum of two runs of observations is the sum of their sums, and of one observation the observation. |
| Histograms.RealSumPermuted | foundations-metrics/src/metrics/histogram.rs:75-78 | It does not depend on the order of the observations. |
| Histograms.CountsAreExact | foundations-metrics/src/metrics/histogram.rs:114-144 | With fewer than 2^64 observations the counts are exact, never decrease, and never exceed the sample count. |
| Histograms.OneInfinityBucket | foundations-metrics/src/encoding/text.rs:213-250 | The text has exactly one `+Inf` bucket, the last, if and only if every given bound is below `f64::MAX`. |
| Histograms.InfinityBucketValue | foundations-metrics/src/encoding/text.rs:213-250 | The `+Inf` bucket shows the number of observations that are neither NaN nor +infinity, which is at most `_count`. |
| Proto.FiniteIsInRange | foundations-metrics/src/metrics/histogram.rs:56-66 | Every finite `f64`, 53 significant bits and its exponents, is at most `f64::MAX` in size: the range the histogram results ask of bounds and observations. |
| Proto.LargestFloat | foundations-metrics/src/metrics/histogram.rs:56-58 | The terminal bound is the largest `f64`: one unit in the last place below two to the 1024th. |
| Proto.FloatOrder | foundations-metrics/src/metrics/histogram.rs:84-86 | Bounds and values are compared as reals between the infinities, and NaN with nothing. |
| Base.WrapIsU64 | foundations-metrics/src/metrics/histogram.rs:78-89 | A counter is exact below 2^64, and 2^64 more additions make no difference. |
| Histograms.TextOfHistogram | foundations-metrics/src/encoding/text.rs:168-251 | The printed row: `_sum` is the encoded sum, `_count` the number of observations, then one bucket per bound in order with the number of observations at most it, the last and no other labelled `+Inf`. |
| TimeHistograms.TimeHistogramCell.ObserveAndBucket | foundations-metrics/src/metrics/histogram.rs:360-378 | Every duration goes to exactly the bucket the locked histogram would choose for its seconds: the first whose bound, times a thousand million, is at least the nanoseconds; there always is one. |
| TimeHistograms.TimeHistogramCell.TakeSnapshot | foundations-metrics/src/metrics/histogram.rs:381-397 | The snapshot's sum, times a thousand million, is the wrapped total of the nanoseconds observed. |
| TimeHistograms.SecondsAreNanos | foundations-metrics/src/metrics/histogram.rs:417-421 | Seconds times a thousand million are the nanoseconds, for every duration. |
| TimeHistograms.StepKeepsInv | foundations-metrics/src/metrics/histogram.rs:360-397 | Every atomic step of observers and readers keeps each counter equal to what the completed and in-flight observations make it. |
| TimeHistograms.CountIsBucketsPlusBetween | foundations-metrics/src/metrics/histogram.rs:360-378 | In every reachable state the count is the sum of the buckets plus the observers between their count and bucket updates. |
| TimeHistograms.AgreesAtRest | foundations-metrics/src/metrics/histogram.rs:323-397 | With no operation in flight count and bucket sum are equal, and count and buckets are those of the locked histogram after the same observations. |
| TimeHistograms.ObservedAreStarted | foundations-metrics/src/metrics/histogram.rs:354-378 | In every run the durations counted and those of observers under way are together exactly those that `observe` was called with; at rest the counted ones alone. |
| TimeHistograms.SnapshotIsBracketed | foundations-metrics/src/metrics/histogram.rs:381-397 | In a snapshot taken while observers run, each bucket holds every observation complete there at the count load and none not complete now; so does the sum, and the count is that of those plus the observers in between. |
| TimeHistograms.ReadsTheSum | foundations-metrics/src/metrics/histogram.rs:381-383 | The sum of a snapshot is what the counter held when the snapshot began. |
| TimeHistograms.ReadsTheCount | foundations-metrics/src/metrics/histogram.rs:383-384 | Its count is what the counter held at the load after that, with so many observations complete and so many observers between their updates. |
| TimeHistograms.NeverWaits | foundations-metrics/src/metrics/histogram.rs:360-397 | No observer or reader ever waits for another. |
| TimeHistograms.AlwaysPlaced | foundations-metrics/src/metrics/histogram.rs:364-377 | The terminal bound is above every `u64` of nanoseconds, so the no-bucket arm is never taken. |
| HistogramTimers.HistogramTimer.Observe | foundations-metrics/src/metrics/histogram.rs:292-304 | The duration returned is exactly the time spent running; the histogram gets it, truncated to `u64`, if asked. |
| HistogramTimers.HistogramTimer.Pause | foundations-metrics/src/metrics/histogram.rs:264-269 | Pausing keeps the running time so far; pausing a paused timer changes nothing. |
| HistogramTimers.HistogramTimer.Resume | foundations-metrics/src/metrics/histogram.rs:274-278 | Resuming a running timer neither loses nor repeats time. |
| HistogramTimers.HistogramTimer.Drop | foundations-metrics/src/metrics/histogram.rs:307-313 | A dropped timer records only if it was not stopped before. |
| HistogramTimers.HistogramTimer.Stop | foundations-metrics/src/metrics/histogram.rs:281-290 | Stopping records at most once, counting the drop that follows. |
| HistogramTimers.TimeIsConserved | foundations-metrics/src/metrics/histogram.rs:260-305 | Running time plus paused time is the whole time, whatever the requests. |
| HistogramTimers.RunningTimeSplits | foundations-metrics/src/metrics/histogram.rs:260-305 | A timer runs from its start; from a resume on it runs, and from a pause on it stands still. |
| ExemplarCounter.StepKeepsInv | foundations-metrics/src/metrics/counter.rs:174-191 | Every step keeps the value equal to all increments, and the stored exemplar the latest labelled increment unless the lock holder is about to store it. |
| ExemplarCounter.CollectionIsAtomic | foundations-metrics/src/metrics/counter.rs:205-222 | In every interleaving with labelled and unlabelled increments and clears, the collected exemplar is the latest labelled increment since the last clear, and the value includes every labelled increment up to it and none later. |
| ExemplarCounter.CollectsTheEvents | foundations-metrics/src/metrics/counter.rs:174-222 | From the events of the run alone: a collection takes the last labelled increment with no clear after it, and the sum of all increments up to then. |
| ExemplarCounter.CountsItsCall | foundations-metrics/src/metrics/counter.rs:174-178 | A labelled increment has the label set and the amount its call was made with. |
| ExemplarCounter.NoDeadlock | foundations-metrics/src/metrics/counter.rs:174-222 | Unlabelled increments never wait; labelled ones, clears and collections wait only for one of them that can go on. |
| ExemplarCounter.PerBucketUnreachable | foundations-metrics/src/metrics/counter.rs:184-186 | The per-bucket arms of the counter are never reached. |
| ExemplarHistogram.StepKeepsInv | foundations-metrics/src/metrics/histogram.rs:146-203 | Every step keeps the stored map equal to the latest labelled observation of each bucket, unless the lock holder is about to store it. |
| ExemplarHistogram.CollectedExemplarsFit | foundations-metrics/src/metrics/histogram.rs:172-203 | In every collected snapshot the exemplar in bucket i is above every earlier bound and at most bound i, that bucket counts at least one, and the map is the latest labelled observation per bucket since the last clear. |
| ExemplarHistogram.CollectsTheEvents | foundations-metrics/src/metrics/histogram.rs:146-203 | From the events of the run alone: per bucket, a collection takes the last labelled observation there with no clear after it, and none if there is none, and the number of all observations there. |
| ExemplarHistogram.ObservesItsCall | foundations-metrics/src/metrics/histogram.rs:148-152 | A labelled observation has the label set and the value its call was made with. |
| ExemplarHistogram.NoDeadlock | foundations-metrics/src/metrics/histogram.rs:146-203 | The same for observations. |
| ExemplarHistogram.LatestIsInItsBucket | foundations-metrics/src/metrics/histogram.rs:146-169 | A bucket's exemplar is one of its own labelled observations, and no later one went to that bucket. |
| ExemplarHistogram.SingleUnreachable | foundations-metrics/src/metrics/histogram.rs:161-183 | The single-exemplar arms of the histogram are never reached. |
| ExemplarHistogram.AttachExemplars | foundations-metrics/src/metrics/histogram.rs:188-200 | Each exemplar lands in the bucket of its index, in any iteration order, and nothing else changes. |
| YamlLines.FieldLine | foundations/src/settings/mod.rs:453-475 | A printed field line is read as that field, at its indentation. |
| YamlLines.ItemFieldLine | foundations/src/settings/mod.rs:453-475 | The first field of a list item is read as that field of an item, and its comments go two columns further in. |
| YamlLines.ItemTextLine | foundations/src/settings/mod.rs:453-475 | An inline item is never read as a plain field. |
| YamlLines.SplitsAsLines | foundations/src/settings/mod.rs:452-452 | Text is split as `str::lines` does: a newline ends a line and takes one carriage return before it along, an unended rest is a line as it stands. |
| SettingsDocs.DocTable.AddDocs | foundations/src/settings/basic_impls.rs:89-139 | Fills the shared table as the built-in, map and generated implementations do, one key pushed and popped per element. |
| SettingsDocs.DocTable.AddMemberDocs | foundations-macros/src/settings.rs:238-296 | One generated field: a flattened one is forwarded under the parent's key, any other adds its value's docs and then its own. |
| SettingsDocs.AddedDocsAreTheFieldsDocs | foundations-macros/src/settings.rs:211-296 | Exactly the keys of documented fields below the parent get those fields' docs, flattened fields under the parent's own key, and every other key is left alone. |
| SettingsDocs.AddedItemsAre | foundations/src/settings/basic_impls.rs:89-108 | The docs of a sequence are found under the decimal index of each element. |
| SettingsDocs.AddedEntriesAre | foundations/src/settings/collections.rs:135-153 | Map entries have no docs of their own; their values' docs are found under their keys. |
| SettingsFields.TableHoldsTheFields | foundations-macros/src/settings.rs:211-296 | By recursion over the settings alone: a key has these docs in the table exactly if there is a field with them there, through structs, flattened structs, options, maps by key and lists by index. |
| SettingsYaml.ToYamlString | foundations/src/settings/mod.rs:427-490 | From the serializer's text: the loop's output is the annotation of its lines, split as `str::lines` does, with the table `add_docs` built. |
| SettingsYaml.ReadLine | foundations/src/settings/mod.rs:453-475 | Reading a line truncates the key stack by indentation and pushes the item index and the name. |
| SettingsFields.AnnotatesField | foundations/src/settings/mod.rs:452-487 | A field's line: the stack keeps one key for every two columns of indentation and gets the name, the list index is zero, and each doc is printed above behind a `#` at the name's column. |
| SettingsFields.AnnotatesItemField | foundations/src/settings/mod.rs:452-487 | The first field of a list item: the stack gets the list index and the name, the index counts on, and the docs stand two columns further in. |
| SettingsFields.AnnotatesOther | foundations/src/settings/mod.rs:452-487 | A line without a colon only shortens the stack and is printed as it is. |
| SettingsYaml.EntriesFollow | foundations/src/settings/mod.rs:452-487 | Over the lines of any struct the key stack and list index follow the tree: names are the true path, indices the running index, and the parent's path is back on the stack afterwards. |
| SettingsYaml.ItemsFollow | foundations/src/settings/mod.rs:452-487 | The same over the lines of any list. |
| SettingsYamlExact.DocumentedExactly | foundations/src/settings/mod.rs:427-490 | Annotating the rendered lines equals printing the tree with each field's docs above it if and only if, all along the tree, the docs found under the running list index are the field's own. |
| SettingsYamlExact.EntriesLookRightIs | foundations/src/settings/mod.rs:452-487 | Checking the tree with the running index is the same as comparing, line by line, the docs found with the docs of the field shown. |
| SettingsYamlText.DocumentedYaml | foundations/src/settings/mod.rs:427-490 | From settings to text: the documented text whenever the annotator looks right along the tree, whatever the docs. |
| SettingsYamlText.TextIsDocumentedExactly | foundations/src/settings/mod.rs:427-490 | For settings with one-line docs the text is the documented text if and only if the annotator looks right along the tree. |
| SettingsYamlChance.RightTextByChance | foundations/src/settings/mod.rs:477-487 | Where a doc prints a line that is no comment, the text can be the documented text by chance although the annotator looks wrong; two records show it. |
| SettingsYamlText.CommentsCanBeDeleted | foundations/src/settings/mod.rs:477-487 | Deleting the comment lines of the text gives back the lines the serializer printed if and only if no doc that is printed has a further line that is not a comment. |
| SettingsYamlText.OneLineDocsCanBeDeleted | foundations/src/settings/mod.rs:477-487 | In particular when no doc contains a newline, as with line comments. |
| SettingsYamlText.OnlyCommentsAreAdded | foundations/src/settings/mod.rs:477-487 | The same for any docs and any input lines: what is left after deleting comments is the input, or longer. |
| SettingsYamlText.BlockCommentCannotBeDeleted | foundations-macros/src/settings.rs:298-320 | A block comment of two lines on a field is one doc; its second line is printed without a `#` and stays. |
| SettingsYamlExact.TableIsTree | foundations-macros/src/settings.rs:211-296 | Looking a key up in the table is walking the tree along it. |
| SettingsYamlLists.ListsAlikeAreDocumented | foundations/src/settings/mod.rs:427-490 | Structs, flattened structs, options and maps nested to any depth, with lists of scalars or of records of one kind, themselves nested to any depth but without further lists: the text is exactly the documented one. |
| SettingsYamlExample.WithVecIsPrinted | foundations/tests/data/serde-yaml/with_vec.yaml:1-15 | A list of two records is printed, line by line, as the test data has it, whatever the docs say. |
| SettingsYamlLists.AbsentThenPresentLosesDocs | foundations/src/settings/mod.rs:464-473 | A list with an absent and then a present record loses the record's docs with either serializer: the second item is looked up under index 0. |
| SettingsYamlLists.LostWithEitherSerializer | foundations/src/settings/mod.rs:464-473 | Both texts an absent option is printed as, `~` and `null`, are such a list. |
| SettingsYamlLists.DocumentedIffListsMatch | foundations/src/settings/mod.rs:427-490 | The exact condition on lists alone: the lines are the documented ones if and only if in every list each item has, place by place, the docs of the item at its running index, or none past the end. Outside lists the lookup is always right. |
| Rewind.RewindState.Activate | foundations/src/telemetry/metrics/rewind.rs:25-34 | Activating an idle state clears any pending request and yields its only writer. |
| Rewind.RewindableWriter.ApplyRewind | foundations/src/telemetry/metrics/rewind.rs:59-69 | A pending request truncates after the last newline, if there is one, and is cleared. |
| Rewind.RewindableWriter.Write | foundations/src/telemetry/metrics/rewind.rs:73-86 | The pending rewind is applied before the bytes are appended. |
| Rewind.RewindableWriter.Flush | foundations/src/telemetry/metrics/rewind.rs:88-91 | A flush applies the pending rewind. |
| Rewind.RewindableWriter.Drop | foundations/src/telemetry/metrics/rewind.rs:94-99 | Dropping applies the pending rewind and deactivates the state. |
| Rewind.RunWriter | foundations/src/telemetry/metrics/rewind.rs:24-99 | Any run of writes, flushes and rewind requests on one writer leaves, after the drop, the buffer that truncating immediately at each request would. |
| Rewind.EagerIs | foundations/src/telemetry/metrics/rewind.rs:59-91 | What that means: bytes are appended, a flush does nothing, a rewind takes off exactly what follows the last newline, and nothing if there is none. |
| Rewind.RepeatedRequestsCountOnce | foundations/src/telemetry/metrics/rewind.rs:42-45 | A second request before the next write changes nothing. |
| Rewind.CompleteLinesSurvive | foundations/src/telemetry/metrics/rewind.rs:59-69 | Every newline-terminated line, once in the buffer, survives any further run. |
| Rewind.OriginalBytesSurvive | foundations/src/telemetry/metrics/rewind.rs:59-69 | A buffer that began empty or newline-terminated keeps all its original bytes. |
| Rewind.RewindLeavesNoPartialLine | foundations/src/telemetry/metrics/rewind.rs:59-69 | A rewind leaves only complete lines if and only if there is a newline or nothing at all; a partial line with no newline before it stays. |
| Rewind.FailuresLeaveNoGarbage | foundations/src/telemetry/metrics/internal.rs:174-196 | Metrics that fail to encode leave exactly their complete lines, and the others all of theirs, if and only if no failed metric writes part of a line before there is a first newline. |
| Rewind.DescriptorsPreventStranding | foundations/src/telemetry/metrics/internal.rs:174-196 | Where every failed metric's bytes contain a newline, as they do once its descriptor lines are written, nothing is stranded and the buffer holds the clean bytes. |
| Rewind.StrandedByte | foundations/src/telemetry/metrics/rewind.rs:59-69 | A run that strands: in an empty buffer a metric that fails after one byte of its first line leaves that byte. |
| Rewind.EncodeRegistry | foundations/src/telemetry/metrics/internal.rs:229-238 | From any buffer: a registry leaves what eager rewinding of its metrics would, with its end marker removed again. |
| Rewind.EncodeRegistries | foundations/src/telemetry/metrics/internal.rs:70-87 | The registries in turn leave one document with no marker between them, clean exactly when no failed metric of any of them strands part of a line. |
| Rewind.TruncateEof | foundations/src/telemetry/metrics/internal.rs:240-245 | Either the buffer was what is left plus the marker, or it is unchanged and did not end with the marker. |
| Rewind.MarkerSpells | foundations/src/telemetry/metrics/internal.rs:240-245 | The marker is `# EOF` and a newline, byte by byte. |
| LogFields.DedupFilter.Filter | foundations/src/telemetry/log/field_dedup.rs:29-37 | Lets exactly the first field of each key through. |
| LogFields.RedactSerializer.Emit | foundations/src/telemetry/log/field_filtering.rs:106-114 | A redacted field is swallowed before the inner filter sees it; any other is passed on. |
| LogFields.LogThroughDrains | foundations/src/telemetry/log/field_filtering.rs:42-68 | Both drains together emit the deduplicated unredacted fields, on the filtering path and on the inactive fast path. |
| LogFields.EmittedAreSurviving | foundations/src/telemetry/log/init.rs:189-196 | The fields emitted are exactly the most recently added of each unredacted key, most recent first. |
| LogFields.EmittedIsTheContext | foundations/src/telemetry/log/init.rs:189-196 | Emitted keys are unique, each with its last written value, and exactly the unredacted keys of the context. |
| LogFields.LastWriteWins | foundations/src/telemetry/log/init.rs:189-196 | By position: a field is emitted exactly if its key is not redacted and no later field has its key, later ones first. |
| LogFields.FiltersCommute | foundations/src/telemetry/log/init.rs:189-196 | Redact-then-dedup equals dedup-then-redact. |
| LogFields.NothingRedacted | foundations/src/telemetry/log/field_redact.rs:30-34 | The inactive path equals filtering with an empty set of keys. |
| LoggerRuns.SharedLog.CheckNestingLevel | foundations/src/telemetry/log/internal.rs:86-113 | Counts every attempt without overflow; proceeds below 1000, reports at 1000, and stays silent beyond. |
| LoggerRuns.SharedLog.AddLogFields | foundations/src/telemetry/log/internal.rs:139-155 | Nests the fields if the logger is unfrozen and below the limit, else changes nothing but the attempt count. |
| LoggerRuns.SharedLog.SetLogVerbosity | foundations/src/telemetry/log/mod.rs:43-65 | Replaces the verbosity over the same fields under the same two checks. |
| LoggerRuns.SharedLog.Fork | foundations/src/telemetry/log/internal.rs:164-172 | A fork is a new logger with the parent's chain and level, unfrozen. |
| LoggerRuns.SharedLog.Emit | foundations/src/telemetry/log/init.rs:189-196 | A record carries the surviving fields of the logger's whole chain, most recent first, also after changes of verbosity. |
| LoggerRuns.SerializedIsReversed | foundations/src/telemetry/log/mod.rs:61-62 | Serializing a chain, through lists kept by `set_verbosity` too, yields everything added, most recent first. |
| LoggerRuns.NestingIsCapped | foundations/src/telemetry/log/internal.rs:86-113 | In every run on any tree of forked loggers each logger nests as deep as it counted attempts, up to 999, and reports the limit at most once, never below 1000 attempts. |
| LoggerRuns.RunIsSound | foundations/src/telemetry/log/internal.rs:86-113 | A logger's real nesting is always its attempt count capped at 999. |
| LoggerRuns.FrozenStays | foundations/src/telemetry/log/internal.rs:56-78 | A frozen logger keeps its chain and level until unfrozen, whatever else happens. |
| LoggerRuns.LimitIsFinal | foundations/src/telemetry/log/internal.rs:86-113 | After the limit nothing is ever nested or reported again on that logger. |
| LoggerRuns.LoggerIsItsLineage | foundations/src/telemetry/log/internal.rs:139-172 | On any tree of forks a logger's fields are exactly those accepted along its lineage, in order, and its verbosity the last accepted there; refused calls and calls on other loggers leave no trace. |
| LoggerRuns.LoggerCountsItsLineage | foundations/src/telemetry/log/internal.rs:56-172 | From the operations alone: there is the root logger and one per fork, each frozen as last asked, and its level is the number of calls made unfrozen along its lineage, up to the `u32` maximum. |

## Left out

- Floats are extended reals with NaN: no rounding, no sign of zero, no payloads. Sums of
  observations are therefore exact, where the code's are rounded.
- Float digit generation: the shortest-digits formatter is a parameter. The encoder asks only for
  number characters and more than `.0`; that different `f64` values get different tokens is asked
  only where tokens are read back as values.
- The wording and rate of diagnostics; error counts are modelled, messages are not.
- Memory orderings: atomics are single sequentially consistent steps.
- AtomicUpdate.UpdateF64: disturbances from other threads and spurious failures are a finite list,
  because the loop need not end otherwise.
- RangeGauge: callers keep the gauge within `u64`, as the source's plain additions in `inc_by` and
  `dec_by` demand.
- The concurrent systems are modelled on values; the mutable cells behind them appear as classes
  only for single-threaded use.
- FamilyCells: fairness. A thread that creates a label set while holding a guard of the same family would
  wait for itself; the model's threads hold at most one guard.
- What `remove` returns: whether the label set was there.
- ExemplarCounter.CollectionIsAtomic: totals are integers modulo 2^64; the floating-point variant of
  the counter is covered by the update loop, not here.
- The label set serializer: a label set either yields a list of pairs or fails.
- Exemplar timestamps and label serialization when an exemplar is encoded.
- Hash map iteration order appears as an arbitrary order of the entries given.
- Native histograms and the protobuf encoder's bytes.
- Registries' global state, sockets, servers and the process-wide log harness.
- HistogramTimers: clock readings are parameters and never go back; overflow of a duration beyond
  2^64 seconds, where the source panics, is not modelled.
- SettingsDocs.AddedDocsAreTheFieldsDocs: asks that no two fields of one struct or map share a name
  after flattening, since the serialized text could not tell them apart either.
- SettingsYamlExact.DocumentedExactly: the settings are a struct or map at the top, keys are plain,
  scalars take one line and do not end in a carriage return, no list stands directly inside a list;
  skipped and renamed fields are absent.
- SettingsYamlText.TextIsDocumentedExactly: asks for docs of one line each. Where docs of several lines print
  as comments only, `TextIsDocumented` compares line by line instead; for other docs only the direction of
  `DocumentedYaml` holds, as `RightTextByChance` shows.
- The YAML serializer itself: only its layout with two spaces a level is modelled, as lines.
- Rewind: vectored writes behave as `write` of the joined slices; failing output streams do not occur,
  since the output is a byte vector.
- Rewind.EncodeRegistries: extra producers append to the same buffer and have their marker removed the
  same way; an encoder that fails outside a metric ends the collection early, and is not modelled.
- Volume metrics, rate limits and level filters around the two log filters.
- Log field values are strings; the many typed emit methods differ only in that type.
- LoggerRuns: the lock is modelled by making each locked operation one step.
