# shiny-tic-toc: a verified model of the measurement core

shiny-tic-toc times a Shiny application in the browser. It listens for four
lifecycle events, an output starting to recalculate, an output receiving its
value, the server turning busy and the server turning idle, and for each it
drops a User Timing mark (`<id>_start`, `<id>_end`). When a cycle ends it asks
`performance.measure` for a `<id>_measurement` entry between the most recent
start and end marks. From the resulting measure entries it builds a console
summary (slowest server computation, slowest output and its label) and a CSV
export whose file name is a zero-padded local timestamp.

The model has seven modules, one per file:

- `Wrappers` (wrappers.dfy): `Option`, `Result`, `Outcome`.
- `Text` (text.dfy): the JavaScript string operations the code relies on:
  `String(int)`, `padStart`, `Array.prototype.join` with one separator, a
  splitter that reads joined text back, and ToNumber for decimal integers.
- `Labels` (labels.dfy): `makeLabel` and its three fixed-suffix variants.
- `UserTiming` (usertiming.dfy): the performance entry buffer, following
  section 3.1.1 (`mark()`) and section 3.1.3 (`measure()`) of W3C User
  Timing Level 3. It is a class `PerformanceTimeline` with an append-only
  `seq` of entries and a `nat` clock. `Measure` resolves each mark name to
  its most recent mark and throws `SyntaxError`, appending nothing, when a
  mark is missing. The queries `getEntries`/`getEntriesByType` return entries
  in chronological order of `startTime`, as the W3C Performance Timeline
  requires. That order is a stable insertion sort on `startTime`, and
  filtering by type is proved to commute with it.
- `TicToc` (tictoc.dfy): the four handlers as methods of a class
  `Instrumentation`. The `setTimeout(…, 0)` in `outputValueHandler` becomes a
  FIFO queue `pending` of output ids, drained one task at a time by
  `RunDeferred`.
- `DateTime` (datetime.dfy): `getCurrentDateTime` over an explicit date
  record, with a reader proving that the format keeps every field.
- `Reporting` (reporting.dfy): `showSummarisedMeasurements` (partition, the
  `Math.max(array)` coercion, first-match label lookup), `exportMeasurements`
  rows, the CSV join of `downloadCsvFile`, and the download file name.

Three places where the code is easy to misread; the model follows the code:

- The CSV header is `["measurement_id", "duration (ms)"]`, with no
  `start_time` column, because that is what `exportMeasurements` writes.
- `Math.max` applied to a filtered array yields 0 for an empty partition,
  the element for one element, and NaN for two or more. This is modelled as
  written (see Findings).
- The three suffixes end differently (`rt`, `nd`, `nt`), so
  `(id, kind) ↦ label` is injective for every id, including ids that contain
  `_start` or `_end`. No label collision can happen with these
  suffixes (`Labels.KindLabelInjective`).

## Model

| member | source | states |
|---|---|---|
| Labels.MakeLabel | shiny-tic-toc.js:1-3 | no contract; Labels.MakeLabelParts and Labels.MakeLabelInjective give its meaning |
| Labels.MakeLabelParts | shiny-tic-toc.js:1-3 | the label is the id, then `_`, then the suffix: length and both slices |
| Labels.MakeLabelInjective | shiny-tic-toc.js:1-3 | for one suffix, equal labels iff equal ids |
| Labels.StartMarkLabel | shiny-tic-toc.js:5-7 | the start label is the Start-kind label of the id |
| Labels.EndMarkLabel | shiny-tic-toc.js:9-11 | the end label is the End-kind label of the id |
| Labels.MeasurementLabel | shiny-tic-toc.js:13-15 | the measurement label is the Measurement-kind label of the id |
| Labels.LabelEnding | shiny-tic-toc.js:5-15 | each kind's label ends in its own two letters (`rt`, `nd`, `nt`) |
| Labels.KindLabelInjective | shiny-tic-toc.js:1-15 | two derived labels are equal iff the ids and the kinds are equal, for all ids |
| UserTiming.LastMarkIndex | shiny-tic-toc.js:37-41 | the index of the most recent mark with the name, with no later match, or none when no mark has it |
| UserTiming.MarkTimestamp | shiny-tic-toc.js:37-41 | none iff no mark has the name; otherwise the timestamp of such a mark |
| UserTiming.MarkTimestampAfterMark | shiny-tic-toc.js:35-41 | a mark just appended is the one a name resolves to |
| UserTiming.MarkTimestampAfterOther | shiny-tic-toc.js:35-41 | appending an entry that is not a mark of that name leaves the name's resolution unchanged |
| UserTiming.ResolveMeasure | shiny-tic-toc.js:37-41 | fails iff either mark is missing; otherwise a measure from the start time lasting the end time minus the start time |
| UserTiming.InsertKeepsOrder | shiny-tic-toc.js:90 | inserting keeps the entries sorted by startTime and adds exactly the one entry |
| UserTiming.InsertIsStable | shiny-tic-toc.js:90 | an inserted entry lands behind every entry with the same startTime and leaves their order alone |
| UserTiming.SortByStartTime | shiny-tic-toc.js:90 | the query order is sorted by startTime and is a permutation of the buffer |
| UserTiming.SortIsStable | shiny-tic-toc.js:90 | the query order is stable: for every startTime, the entries stamped with it come out in the order they were appended |
| UserTiming.GetEntries | shiny-tic-toc.js:146 | `getEntries()` is sorted by startTime and a permutation of the buffer |
| UserTiming.GetEntriesByType | shiny-tic-toc.js:90 | `getEntriesByType(t)` is sorted by startTime and a permutation of the buffer's entries of type t |
| UserTiming.FilterByType | shiny-tic-toc.js:146-147 | the filter never lengthens the sequence |
| UserTiming.FilterByTypeMembers | shiny-tic-toc.js:146-147 | an entry survives the filter iff it is in the buffer and has that entry type |
| UserTiming.FilterAppend | shiny-tic-toc.js:146-147 | filtering distributes over an appended entry |
| UserTiming.InsertAfterLast | shiny-tic-toc.js:90 | inserting an entry earlier than the last one leaves the last one last |
| UserTiming.FilterInsertAtEnd | shiny-tic-toc.js:146-147 | inserting at the end and filtering commute |
| UserTiming.FilterInsert | shiny-tic-toc.js:146-147 | filtering commutes with one stable insertion |
| UserTiming.SortAppend | shiny-tic-toc.js:90 | sorting a buffer with one more entry is inserting it into the sorted rest |
| UserTiming.FilterCommutesWithSort | shiny-tic-toc.js:90 | `getEntries()` filtered to measures equals `getEntriesByType("measure")` |
| UserTiming.PerformanceTimeline.constructor | shiny-tic-toc.js:22 | an empty buffer at time zero |
| UserTiming.PerformanceTimeline.Advance | shiny-tic-toc.js:22 | the clock moves forward and the buffer does not change |
| UserTiming.PerformanceTimeline.Mark | shiny-tic-toc.js:22 | exactly one mark stamped with the current time is appended |
| UserTiming.PerformanceTimeline.Measure | shiny-tic-toc.js:37-41 | on success exactly the resolved measure is appended; on SyntaxError the buffer is unchanged |
| TicToc.Instrumentation.constructor | shiny-tic-toc.js:65-78 | instrumentation over a buffer with nothing pending |
| TicToc.Instrumentation.StartMeasurement | shiny-tic-toc.js:20-22 | appends exactly the id's start mark |
| TicToc.Instrumentation.EndMeasurement | shiny-tic-toc.js:35-41 | appends the end mark, then the measure from the most recent start, or throws SyntaxError after the end mark; a measured duration is non-negative |
| TicToc.Instrumentation.OutputRecalculatingHandler | shiny-tic-toc.js:17-23 | appends exactly one mark, `<id>_start`, and nothing else changes |
| TicToc.Instrumentation.OutputValueHandler | shiny-tic-toc.js:25-43 | appends nothing now and queues the id behind those already pending |
| TicToc.Instrumentation.ServerBusyHandler | shiny-tic-toc.js:45-49 | appends exactly one mark, `server_computation_start` |
| TicToc.Instrumentation.ServerIdleHandler | shiny-tic-toc.js:51-62 | end mark then measure from the most recent server start, duration non-negative, or SyntaxError with no measure |
| TicToc.Instrumentation.RunDeferred | shiny-tic-toc.js:34-42 | runs the oldest queued callback (end mark and measure for that id) and dequeues it; does nothing on an empty queue |
| TicToc.MostRecentStartWins | shiny-tic-toc.js:51-62 | with two starts before an end, the measure runs from the second |
| TicToc.OtherIdsDoNotInterfere | shiny-tic-toc.js:37-41 | a mark of any kind for another id never changes how this id's measurement resolves |
| TicToc.StartThenEnd | shiny-tic-toc.js:17-43 | a start at t and an end at t + dt append exactly the start, end and a measure (t, dt) |
| TicToc.EndWithoutStartThrows | shiny-tic-toc.js:37-41 | with no start mark, ending throws SyntaxError and the buffer gains exactly the end mark |
| Text.DigitChar | shiny-tic-toc.js:116 | a digit character with the given value |
| Text.NatToString | shiny-tic-toc.js:116 | `String(n)` is a non-empty run of digits that starts with `0` only for n = 0 (no leading zero) |
| Text.NatToStringRoundTrip | shiny-tic-toc.js:116 | the digits of `String(n)` read back as n |
| Text.IntToString | shiny-tic-toc.js:128 | `String(i)`: digits, or a minus sign and digits for a negative i |
| Text.ParseIntOfDigits | shiny-tic-toc.js:92-102 | ToNumber of a digit string, with and without a minus sign |
| Text.IntToStringRoundTrip | shiny-tic-toc.js:92-102 | ToNumber of `String(i)` is i |
| Text.PadStart | shiny-tic-toc.js:116-120 | no contract; Text.PadStartShape characterises it |
| Text.PadStartShape | shiny-tic-toc.js:116-120 | `padStart` gives max(width, length) characters: fill characters, then the string |
| Text.Join | shiny-tic-toc.js:128 | a single part joins to itself |
| Text.Split | shiny-tic-toc.js:128 | the reader always yields at least one field |
| Text.SplitWithoutSeparator | shiny-tic-toc.js:128 | text without the separator reads back as one field |
| Text.SplitAtFirstSeparator | shiny-tic-toc.js:128 | the reader cuts at the first separator |
| Text.SplitJoinRoundTrip | shiny-tic-toc.js:128 | splitting a join gives the parts back, when no part holds the separator |
| Text.JoinHasSeparator | shiny-tic-toc.js:128 | two or more parts put the separator right after the first part |
| Text.JoinCharacters | shiny-tic-toc.js:128 | a character in no part, and not the separator, is not in the join |
| DateTime.TwoDigits | shiny-tic-toc.js:116-120 | no contract; DateTime.TwoDigitsOfSmall characterises it for values below 100 |
| DateTime.FormatDateTime | shiny-tic-toc.js:112-125 | no contract; DateTime.FormatDateTimeLayout, DateTime.FormatParseRoundTrip and DateTime.FormatInjective give its meaning |
| DateTime.TwoDigitsOfSmall | shiny-tic-toc.js:116-120 | a value below 100 pads to exactly its tens and units digits |
| DateTime.FieldLayout | shiny-tic-toc.js:122 | each separator-prefixed field is three characters: separator, two digits |
| DateTime.FiveFields | shiny-tic-toc.js:122 | five three-character fields sit at offsets 0, 3, 6, 9 and 12 |
| DateTime.TimeSuffixLayout | shiny-tic-toc.js:115-122 | the part after the year is `_MM_DD-HH_MM_SS`, the month one more than the zero-based month |
| DateTime.TwoDigitsAtField | shiny-tic-toc.js:116-120 | a padded field reads back as its value |
| DateTime.ParseLaidOutFields | shiny-tic-toc.js:115-122 | a laid-out suffix with the year text reads back as the date |
| DateTime.FormatParseRoundTrip | shiny-tic-toc.js:112-125 | the formatted timestamp reads back as the date it was made from |
| DateTime.FormatDateTimeLayout | shiny-tic-toc.js:122 | the timestamp is `String(year)` followed by the 15-character suffix, with `_`, `_`, `-`, `_`, `_` at their places |
| DateTime.FormatInjective | shiny-tic-toc.js:112-125 | two valid dates give the same timestamp iff they are equal |
| Reporting.Named | shiny-tic-toc.js:93-95 | every kept measure has the server label |
| Reporting.NotNamed | shiny-tic-toc.js:99-101 | no kept measure has the server label |
| Reporting.PartitionCons | shiny-tic-toc.js:93-101 | a measure in front lands at the front of exactly one partition |
| Reporting.PartitionConcat | shiny-tic-toc.js:93-101 | both filters keep query order: the part of a prefix comes before the part of the rest |
| Reporting.PartitionCounts | shiny-tic-toc.js:92-102 | the two partitions together hold every measure as often as the query returned it, and their lengths add up |
| Reporting.PartitionCovers | shiny-tic-toc.js:92-102 | the two partitions are disjoint and together hold every measure as often as the query returned it |
| Reporting.Durations | shiny-tic-toc.js:95 | the durations, one per measure, in order |
| Reporting.StringToNumber | shiny-tic-toc.js:92-102 | no contract; Text.IntToStringRoundTrip and Reporting.MathMaxOfArrayValue give its value on the strings that occur |
| Reporting.MathMaxOfArray | shiny-tic-toc.js:92-102 | no contract; Reporting.MathMaxOfArrayValue characterises it |
| Reporting.MathMaxOfArrayValue | shiny-tic-toc.js:92-102 | `Math.max(array)` is 0 for no durations, the duration for one, NaN for two or more |
| Reporting.FirstWithDuration | shiny-tic-toc.js:104-106 | the first measure whose duration `===` the value, none before it; or none at all |
| Reporting.Summarize | shiny-tic-toc.js:88-110 | no contract; Reporting.SummarizeAsWritten characterises it |
| Reporting.ShowSummarisedMeasurements | shiny-tic-toc.js:88-110 | no contract; it is Summarize on `getEntriesByType("measure")`, which Reporting.SummarizeAsWritten characterises |
| Reporting.SummarizeAsWritten | shiny-tic-toc.js:88-106 | each logged maximum by partition size; with NaN no label; the label is the name of the first measure of either partition equal to the output value |
| Reporting.MaxDuration | shiny-tic-toc.js:92-102 | the largest duration, attained and bounding all, none only for no measures |
| Reporting.SlowestIsFirstMaximum | shiny-tic-toc.js:98-106 | the first measure with the largest duration |
| Reporting.NotNamedWithin | shiny-tic-toc.js:99-101 | the output partition holds only measures of the query |
| Reporting.SlowestOfRest | shiny-tic-toc.js:98-106 | the intended slowest output is a query measure without the server label |
| Reporting.IntendedSlowestOutput | shiny-tic-toc.js:98-106 | the intended slowest output is the first maximum of the output partition, "first" in query order (Reporting.PartitionConcat), none only for no outputs |
| Reporting.IntendedSlowestServer | shiny-tic-toc.js:92-96 | the intended server maximum bounds every server measure, none only for no server measures |
| Reporting.ExamplePartition | shiny-tic-toc.js:92-102 | one server and two output measures split as one and two |
| Reporting.ExampleAsWritten | shiny-tic-toc.js:92-106 | two outputs log NaN as slowest output, with no label |
| Reporting.ExampleIntended | shiny-tic-toc.js:92-106 | the intended summary of the same measures reports 50 and the 90 ms output |
| Reporting.LookupCrossesPartitions | shiny-tic-toc.js:104-106 | a server measure as slow as the only output, and earlier, is reported as the slowest output |
| Reporting.ServerLabelReportedAsOutput | shiny-tic-toc.js:104-106 | a concrete pair of measures where the server label is reported as the slowest output |
| Reporting.ExportRows | shiny-tic-toc.js:143-150 | the header, then one `[name, duration]` row per measure in query order; length one more than the number of measures |
| Reporting.ExportRowsCoverEveryMeasure | shiny-tic-toc.js:146-148 | every measure entry of the buffer has its row |
| Reporting.IntHasNoSeparators | shiny-tic-toc.js:128 | a printed duration contains neither `,` nor a newline |
| Reporting.CsvContent | shiny-tic-toc.js:128 | no contract; Reporting.CsvRoundTrip characterises it |
| Reporting.CsvRoundTrip | shiny-tic-toc.js:128 | splitting the CSV at newlines and commas gives every row's cell texts back, when no cell holds a separator |
| Reporting.HeaderIsPlain | shiny-tic-toc.js:144 | the header cells hold no separator |
| Reporting.MeasurementRowIsPlain | shiny-tic-toc.js:148 | a row holds no separator when its name holds none |
| Reporting.ExportedNameIsPlain | shiny-tic-toc.js:146-148 | a queried measure's row holds no separator when no buffer name holds one |
| Reporting.ExportedRowsArePlain | shiny-tic-toc.js:143-150 | every exported row is non-empty and separator-free under the same condition |
| Reporting.ExportRoundTrip | shiny-tic-toc.js:128-152 | the exported CSV reads back row by row |
| Reporting.MeasurementRowTexts | shiny-tic-toc.js:148 | a measure row prints as its name and `String(duration)` |
| Reporting.ExportContentReadsBack | shiny-tic-toc.js:128-152 | the exported CSV reads back as the header and `[name, String(duration)]` per measure, one line per measure |
| Reporting.CsvFileName | shiny-tic-toc.js:132 | no contract; Reporting.CsvFileNameEncodesDate characterises it |
| Reporting.CsvFileNameEncodesDate | shiny-tic-toc.js:132 | the file name ends in `-tictoc.csv` and the date can be read back from the rest |
| Reporting.DownloadCsvFile | shiny-tic-toc.js:127-141 | no contract; Reporting.ExportMeasurementsDelivers characterises it on exported rows |
| Reporting.ExportMeasurements | shiny-tic-toc.js:143-153 | no contract; Reporting.ExportMeasurementsDelivers characterises it |
| Reporting.ExportMeasurementsDelivers | shiny-tic-toc.js:127-152 | the download carries the CSV MIME type, content that reads back line per measure, and a file name encoding the date |

## Left out

- Event registration through jQuery (shiny-tic-toc.js:65-78): the handlers are methods called directly with the output id.
- `showAllMeasurements` (shiny-tic-toc.js:80-86) and the two `console.log` calls (shiny-tic-toc.js:108-109) only print. The summary is the `Summary` value they would print.
- The Blob, object URL and link click of `downloadCsvFile` (shiny-tic-toc.js:130-140) are browser I/O. The model stops at the `Download` value: content, MIME type and file name.
- Reading the clocks: `new Date()` is replaced by a `DateRecord` argument, and the performance clock by `PerformanceTimeline.now`, a `nat` advanced by `Advance`.
- Durations are whole milliseconds (`int`). Floating-point timestamps and the exponent notation of `String(number)` are not modelled.
- Real `setTimeout` scheduling and timer ordering against other host tasks are not modelled. The deferral is the FIFO queue `pending`.
- An exception thrown by the deferred callback is returned as `DeferredRun.Ran(id, Fail(SyntaxError))` instead of being reported to the host's error handler.
- The `SyntaxError` carries no message.
- Treating a `measure()` mark name that is a read-only `PerformanceTiming` attribute as a timing attribute (section 3.1.3 of User Timing Level 3) is not modelled. The ids used here are never such names.
- Text.IntToString: its contract states only the character shape. Its value is given by Text.IntToStringRoundTrip.
- Reporting.StringToNumber: ToNumber is modelled for decimal integers and the empty string only. Other texts are NaN, which agrees with JavaScript for every text `String(array)` produces here.
- The HTML timeline report export: no file of this repository implements it.
- sandbox/www/main.js is demo code (a busy-wait sleep, a debug logger, a DOM text update) and is not part of this model.

## Findings

| source | as written | input that shows it | evidently intended | confidence | as-written member | corrected member |
|---|---|---|---|---|---|---|
| shiny-tic-toc.js:92-102 | `Math.max(array)` coerces the array through its string form, so two or more durations give NaN and the `===` lookup finds nothing | server 0/50, `out1` 10/10, `out2` 20/90: logs 50, NaN, undefined | `Math.max(...durations)`: 50 and 90 (`out2`) | not executed | Reporting.ExampleAsWritten | Reporting.ExampleIntended |
| shiny-tic-toc.js:104-106 | the slowest-output label is looked up among all measures, server included | server 0/5 then `out1` 1/5: logs 5 with label `server_computation_measurement` | look up among the output partition only: `out1_measurement` | not executed | Reporting.ServerLabelReportedAsOutput | Reporting.IntendedSlowestOutput |
