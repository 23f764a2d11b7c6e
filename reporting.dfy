/** The reporting side: `showSummarisedMeasurements` (partition by label and
    the slowest entries) and `exportMeasurements` with `downloadCsvFile` (the
    CSV rows, their join, and the file name). */
module Reporting {
  import opened Wrappers
  import opened Text
  import opened Labels
  import opened UserTiming
  import opened DateTime
  import TicToc

  // ---- Partition by label ----

  /** The measures called `measureName`, in query order. */
  function Named(ms: seq<PerformanceEntry>, measureName: string): (r: seq<PerformanceEntry>)
    ensures forall i :: 0 <= i < |r| ==> r[i].name == measureName
  {
    if |ms| == 0 then []
    else (if ms[0].name == measureName then [ms[0]] else []) + Named(ms[1..], measureName)
  }

  /** The measures not called `measureName`, in query order. */
  function NotNamed(ms: seq<PerformanceEntry>, measureName: string): (r: seq<PerformanceEntry>)
    ensures forall i :: 0 <= i < |r| ==> r[i].name != measureName
  {
    if |ms| == 0 then []
    else (if ms[0].name != measureName then [ms[0]] else []) + NotNamed(ms[1..], measureName)
  }

  /** A measure in front lands at the front of exactly one partition. */
  lemma PartitionCons(e: PerformanceEntry, ms: seq<PerformanceEntry>, measureName: string)
    ensures Named([e] + ms, measureName) == (if e.name == measureName then [e] else []) + Named(ms, measureName)
    ensures NotNamed([e] + ms, measureName) == (if e.name != measureName then [e] else []) + NotNamed(ms, measureName)
  {
    assert ([e] + ms)[1..] == ms;
  }

  /** Both filters keep query order: the measures of a prefix come before
      those of the rest, in each partition. */
  lemma {:induction false} PartitionConcat(a: seq<PerformanceEntry>, b: seq<PerformanceEntry>, measureName: string)
    ensures Named(a + b, measureName) == Named(a, measureName) + Named(b, measureName)
    ensures NotNamed(a + b, measureName) == NotNamed(a, measureName) + NotNamed(b, measureName)
    decreases |a|
  {
    if |a| > 0 {
      assert a + b == [a[0]] + (a[1..] + b);
      assert a == [a[0]] + a[1..];
      PartitionConcat(a[1..], b, measureName);
      PartitionCons(a[0], a[1..] + b, measureName);
      PartitionCons(a[0], a[1..], measureName);
    } else {
      assert a + b == b;
    }
  }

  lemma MultisetStep(a: seq<PerformanceEntry>, b: seq<PerformanceEntry>, c: seq<PerformanceEntry>, x: PerformanceEntry)
    requires multiset(a) + multiset(b) == multiset(c)
    ensures multiset([x] + a) + multiset(b) == multiset([x] + c)
    ensures multiset(a) + multiset([x] + b) == multiset([x] + c)
  {
  }

  lemma {:induction false} PartitionCounts(ms: seq<PerformanceEntry>, measureName: string)
    ensures multiset(Named(ms, measureName)) + multiset(NotNamed(ms, measureName)) == multiset(ms)
    ensures |Named(ms, measureName)| + |NotNamed(ms, measureName)| == |ms|
  {
    if |ms| > 0 {
      var x, rest := ms[0], ms[1..];
      assert ms == [x] + rest;
      PartitionCounts(rest, measureName);
      var a, b := Named(rest, measureName), NotNamed(rest, measureName);
      MultisetStep(a, b, rest, x);
      if x.name == measureName {
        assert Named(ms, measureName) == [x] + a && NotNamed(ms, measureName) == b;
      } else {
        assert Named(ms, measureName) == a && NotNamed(ms, measureName) == [x] + b;
      }
    }
  }

  /** The two partitions are disjoint and together hold every measure exactly
      as often as the query returned it. */
  lemma PartitionCovers(ms: seq<PerformanceEntry>, measureName: string)
    ensures multiset(Named(ms, measureName)) + multiset(NotNamed(ms, measureName)) == multiset(ms)
    ensures |Named(ms, measureName)| + |NotNamed(ms, measureName)| == |ms|
    ensures multiset(Named(ms, measureName)) !! multiset(NotNamed(ms, measureName))
  {
    PartitionCounts(ms, measureName);
    var a, b := Named(ms, measureName), NotNamed(ms, measureName);
    forall x | x in multiset(a) ensures x !in multiset(b) {
      assert x in a;
    }
  }

  /** `.map(entry => entry.duration)`. */
  function Durations(ms: seq<PerformanceEntry>): (r: seq<int>)
    ensures |r| == |ms| && forall i :: 0 <= i < |ms| ==> r[i] == ms[i].Duration()
  {
    seq(|ms|, i requires 0 <= i < |ms| => ms[i].Duration())
  }

  // ---- Math.max applied to an array ----

  /** A JavaScript Number restricted to the values that occur here. */
  datatype JsNumber = Num(value: int) | NaN

  /** ToNumber on a string: the empty string is 0, a decimal integer its value,
      anything else NaN. */
  function StringToNumber(s: string): JsNumber {
    if s == "" then Num(0)
    else match ParseInt(s)
      case Some(v) => Num(v)
      case None => NaN
  }

  /** An array of integers converted to a string: `String(ds)`. */
  function ArrayToString(ds: seq<int>): string {
    Join(seq(|ds|, i requires 0 <= i < |ds| => IntToString(ds[i])), ',')
  }

  /** `Math.max(ds)` with the array itself as the single argument: the
      argument is converted by ToNumber, which goes through its string form. */
  function MathMaxOfArray(ds: seq<int>): JsNumber {
    StringToNumber(ArrayToString(ds))
  }

  /** What that coercion yields: 0 for no elements, the element itself for
      one, NaN for two or more. */
  lemma MathMaxOfArrayValue(ds: seq<int>)
    ensures MathMaxOfArray(ds) == if |ds| == 0 then Num(0) else if |ds| == 1 then Num(ds[0]) else NaN
  {
    var parts := seq(|ds|, i requires 0 <= i < |ds| => IntToString(ds[i]));
    var s := Join(parts, ',');
    if |ds| == 1 {
      IntToStringRoundTrip(ds[0]);
    } else if |ds| >= 2 {
      JoinHasSeparator(parts, ',');
      var k := |parts[0]|;
      assert k >= 1 && s[k] == ',';
      assert s != "";
      if s[0] == '-' {
        assert s[1..][k - 1] == ',';
        assert !IsDigits(s[1..]);
      } else {
        assert !IsDigits(s);
      }
    }
  }

  /** `===` between a duration and a Number: never true for NaN. */
  predicate StrictEquals(d: int, v: JsNumber) {
    v.Num? && v.value == d
  }

  /** Index of the first measure whose duration `=== v`. */
  function FirstWithDuration(ms: seq<PerformanceEntry>, v: JsNumber): (r: Option<nat>)
    ensures r.Some? ==> r.value < |ms| && StrictEquals(ms[r.value].Duration(), v)
    ensures r.Some? ==> forall j :: 0 <= j < r.value ==> !StrictEquals(ms[j].Duration(), v)
    ensures r.None? ==> forall j :: 0 <= j < |ms| ==> !StrictEquals(ms[j].Duration(), v)
    decreases |ms|
  {
    if |ms| == 0 then None
    else if StrictEquals(ms[0].Duration(), v) then Some(0)
    else match FirstWithDuration(ms[1..], v)
      case Some(i) => Some(i + 1)
      case None => None
  }

  // ---- The summary as the code computes it ----

  datatype Summary = Summary(slowestServer: JsNumber, slowestOutput: JsNumber, slowestOutputLabel: Option<string>)

  /** The server-computation measurement label. */
  function ServerLabel(): string {
    MeasurementLabel(TicToc.ServerComputationId)
  }

  /** The three values `showSummarisedMeasurements` logs, for the measures
      `ms` the query returned. The label is looked up among ALL measures. */
  function Summarize(ms: seq<PerformanceEntry>): Summary {
    var server := MathMaxOfArray(Durations(Named(ms, ServerLabel())));
    var output := MathMaxOfArray(Durations(NotNamed(ms, ServerLabel())));
    var slowestName := match FirstWithDuration(ms, output)
      case Some(i) => Some(ms[i].name)
      case None => None;
    Summary(server, output, slowestName)
  }

  /** `showSummarisedMeasurements()` on the current buffer. */
  function ShowSummarisedMeasurements(log: seq<PerformanceEntry>): Summary {
    Summarize(GetEntriesByType(log, MeasureKind))
  }

  /** The summary as written: each maximum is 0, the single duration, or NaN
      according to its partition's size, and the label is that of the first
      measure (of either partition) whose duration equals the output value. */
  lemma SummarizeAsWritten(ms: seq<PerformanceEntry>)
    ensures var r, server, output := Summarize(ms), Named(ms, ServerLabel()), NotNamed(ms, ServerLabel());
      && r.slowestServer == (if |server| == 0 then Num(0) else if |server| == 1 then Num(server[0].Duration()) else NaN)
      && r.slowestOutput == (if |output| == 0 then Num(0) else if |output| == 1 then Num(output[0].Duration()) else NaN)
      && (r.slowestOutput == NaN ==> r.slowestOutputLabel == None)
      && (r.slowestOutputLabel.Some? <==> exists i :: 0 <= i < |ms| && StrictEquals(ms[i].Duration(), r.slowestOutput))
      && (r.slowestOutputLabel.Some? ==>
            exists i :: (0 <= i < |ms| && ms[i].name == r.slowestOutputLabel.value
              && StrictEquals(ms[i].Duration(), r.slowestOutput)
              && forall j :: 0 <= j < i ==> !StrictEquals(ms[j].Duration(), r.slowestOutput)))
  {
    var server, output := Named(ms, ServerLabel()), NotNamed(ms, ServerLabel());
    MathMaxOfArrayValue(Durations(server));
    MathMaxOfArrayValue(Durations(output));
  }

  // ---- The summary as evidently intended ----

  /** The largest duration, or None for no measures. */
  function MaxDuration(ms: seq<PerformanceEntry>): (r: Option<int>)
    ensures r.None? <==> |ms| == 0
    ensures r.Some? ==> (exists i :: 0 <= i < |ms| && ms[i].Duration() == r.value)
    ensures r.Some? ==> forall i :: 0 <= i < |ms| ==> ms[i].Duration() <= r.value
    decreases |ms|
  {
    if |ms| == 0 then None
    else match MaxDuration(ms[1..])
      case None => Some(ms[0].Duration())
      case Some(m) => Some(if ms[0].Duration() >= m then ms[0].Duration() else m)
  }

  /** The first measure with the largest duration, or None for no measures. */
  function Slowest(ms: seq<PerformanceEntry>): Option<PerformanceEntry> {
    match MaxDuration(ms)
    case None => None
    case Some(m) =>
      match FirstWithDuration(ms, Num(m))
      case Some(i) => Some(ms[i])
      case None => None
  }

  /** Slowest is absent only for no measures; otherwise no measure is slower
      and every earlier one is strictly faster. */
  lemma SlowestIsFirstMaximum(ms: seq<PerformanceEntry>)
    ensures var r := Slowest(ms);
      && (r.None? <==> |ms| == 0)
      && (r.Some? ==>
            exists i :: (0 <= i < |ms| && ms[i] == r.value
              && (forall j :: 0 <= j < |ms| ==> ms[j].Duration() <= r.value.Duration())
              && (forall j :: 0 <= j < i ==> ms[j].Duration() < r.value.Duration())))
  {
    match MaxDuration(ms)
    case None =>
    case Some(m) =>
      var k :| 0 <= k < |ms| && ms[k].Duration() == m;
      assert StrictEquals(ms[k].Duration(), Num(m));
      var i := FirstWithDuration(ms, Num(m)).value;
      assert ms[i].Duration() == m;
  }

  datatype IntendedSummary = IntendedSummary(slowestServer: Option<int>, slowestOutput: Option<PerformanceEntry>)

  /** The summary with `Math.max(...durations)` over each partition, an
      explicit None for an empty partition, and the slowest output looked up
      in the output partition only. */
  function SummarizeIntended(ms: seq<PerformanceEntry>): IntendedSummary {
    IntendedSummary(MaxDuration(Named(ms, ServerLabel())), Slowest(NotNamed(ms, ServerLabel())))
  }

  lemma {:induction false} NotNamedWithin(ms: seq<PerformanceEntry>, measureName: string)
    ensures forall x :: x in NotNamed(ms, measureName) ==> x in ms
  {
    if |ms| > 0 {
      assert ms == [ms[0]] + ms[1..];
      NotNamedWithin(ms[1..], measureName);
    }
  }

  /** The slowest measure not called `measureName` is one of `ms`, and not so called. */
  lemma SlowestOfRest(ms: seq<PerformanceEntry>, measureName: string)
    ensures var r := Slowest(NotNamed(ms, measureName)); r.Some? ==> r.value in ms && r.value.name != measureName
  {
    var outputs := NotNamed(ms, measureName);
    SlowestIsFirstMaximum(outputs);
    NotNamedWithin(ms, measureName);
  }

  /** The intended slowest output is an output measure of the query, no
      output measure is slower, none before it is as slow, and it is absent
      only when there are no output measures. */
  lemma IntendedSlowestOutput(ms: seq<PerformanceEntry>)
    ensures var r, outputs := SummarizeIntended(ms).slowestOutput, NotNamed(ms, ServerLabel());
      && (r.None? <==> |outputs| == 0)
      && (r.Some? ==>
            exists i :: (0 <= i < |outputs| && outputs[i] == r.value
              && (forall j :: 0 <= j < |outputs| ==> outputs[j].Duration() <= r.value.Duration())
              && (forall j :: 0 <= j < i ==> outputs[j].Duration() < r.value.Duration())))
      && (r.Some? ==> r.value in ms && r.value.name != ServerLabel())
  {
    SlowestIsFirstMaximum(NotNamed(ms, ServerLabel()));
    SlowestOfRest(ms, ServerLabel());
  }

  /** The intended server maximum bounds every server-computation measure. */
  lemma IntendedSlowestServer(ms: seq<PerformanceEntry>)
    ensures var r, servers := SummarizeIntended(ms).slowestServer, Named(ms, ServerLabel());
      && (r.None? <==> |servers| == 0)
      && (r.Some? ==> forall j :: 0 <= j < |servers| ==> servers[j].Duration() <= r.value)
  {
  }

  // ---- Findings: a worked example, as written and as intended ----

  function ExampleMeasures(): seq<PerformanceEntry> {
    [ PerformanceMeasure(ServerLabel(), 0, 50),
      PerformanceMeasure(MeasurementLabel("out1"), 10, 10),
      PerformanceMeasure(MeasurementLabel("out2"), 20, 90) ]
  }

  lemma ExamplePartition()
    ensures var ms := ExampleMeasures();
      Named(ms, ServerLabel()) == [ms[0]] && NotNamed(ms, ServerLabel()) == [ms[1], ms[2]]
  {
    var ms := ExampleMeasures();
    KindLabelInjective(TicToc.ServerComputationId, Measurement, "out1", Measurement);
    KindLabelInjective(TicToc.ServerComputationId, Measurement, "out2", Measurement);
    PartitionCons(ms[2], [], ServerLabel());
    PartitionCons(ms[1], [ms[2]], ServerLabel());
    PartitionCons(ms[0], [ms[1], ms[2]], ServerLabel());
    assert [ms[0]] + [ms[1], ms[2]] == ms;
  }

  /** Two output measures make the output maximum NaN, so no slowest output
      label is found at all. */
  lemma ExampleAsWritten()
    ensures Summarize(ExampleMeasures()) == Summary(Num(50), NaN, None)
  {
    var ms := ExampleMeasures();
    ExamplePartition();
    SummarizeAsWritten(ms);
  }

  lemma ExampleIntended()
    ensures SummarizeIntended(ExampleMeasures()) ==
      IntendedSummary(Some(50), Some(PerformanceMeasure(MeasurementLabel("out2"), 20, 90)))
  {
    var ms := ExampleMeasures();
    ExamplePartition();
  }

  /** Whenever a server measure comes first with the same duration as the
      only output measure, the lookup over all measures reports the server
      label as the slowest output, where the intended lookup reports the output. */
  lemma LookupCrossesPartitions(server: PerformanceEntry, output: PerformanceEntry)
    requires server.name == ServerLabel() && output.name != ServerLabel()
    requires server.Duration() == output.Duration()
    ensures Summarize([server, output]).slowestOutputLabel == Some(ServerLabel())
    ensures SummarizeIntended([server, output]).slowestOutput == Some(output)
  {
    var ms := [server, output];
    PartitionCons(output, [], ServerLabel());
    PartitionCons(server, [output], ServerLabel());
    assert [server] + [output] == ms;
    SummarizeAsWritten(ms);
    assert StrictEquals(ms[0].Duration(), Num(output.Duration()));
  }

  /** The concrete instance: server 0/5 and `out1` 1/5. */
  lemma ServerLabelReportedAsOutput()
    ensures var ms := [PerformanceMeasure(ServerLabel(), 0, 5), PerformanceMeasure(MeasurementLabel("out1"), 1, 5)];
      && Summarize(ms).slowestOutputLabel == Some(ServerLabel())
      && SummarizeIntended(ms).slowestOutput == Some(ms[1])
  {
    KindLabelInjective(TicToc.ServerComputationId, Measurement, "out1", Measurement);
    LookupCrossesPartitions(PerformanceMeasure(ServerLabel(), 0, 5), PerformanceMeasure(MeasurementLabel("out1"), 1, 5));
  }

  // ---- CSV export ----

  /** A CSV cell before `join` turns it into text. */
  datatype Cell = Text(text: string) | Number(number: int)

  const CsvHeader: seq<Cell> := [Text("measurement_id"), Text("duration (ms)")]

  /** `[measurement.name, measurement.duration]`. */
  function MeasurementRow(m: PerformanceEntry): seq<Cell> {
    [Text(m.name), Number(m.Duration())]
  }

  /** The `csvData` of `exportMeasurements`: the header, then one row per
      measure entry, in the order of `getEntries()` filtered to measures. */
  function ExportRows(log: seq<PerformanceEntry>): (rows: seq<seq<Cell>>)
    ensures |rows| == 1 + |FilterByType(log, MeasureKind)| && rows[0] == CsvHeader
    ensures var ms := GetEntriesByType(log, MeasureKind);
      forall i :: 1 <= i < |rows| ==> rows[i] == MeasurementRow(ms[i - 1])
  {
    var ms := FilterByType(GetEntries(log), MeasureKind);
    FilterCommutesWithSort(log, MeasureKind);
    [CsvHeader] + seq(|ms|, i requires 0 <= i < |ms| => MeasurementRow(ms[i]))
  }

  /** Every measure entry of the buffer has its row. */
  lemma ExportRowsCoverEveryMeasure(log: seq<PerformanceEntry>, m: PerformanceEntry)
    requires m in log && m.PerformanceMeasure?
    ensures MeasurementRow(m) in ExportRows(log)[1..]
  {
    var ms := GetEntriesByType(log, MeasureKind);
    FilterByTypeMembers(log, MeasureKind);
    assert m in multiset(FilterByType(log, MeasureKind));
    assert m in multiset(ms);
    var i :| 0 <= i < |ms| && ms[i] == m;
    assert ExportRows(log)[i + 1] == MeasurementRow(m);
    assert ExportRows(log)[1..][i] == MeasurementRow(m);
  }

  /** How `join` prints a cell. */
  function CellText(c: Cell): string {
    match c
    case Text(s) => s
    case Number(n) => IntToString(n)
  }

  function RowTexts(row: seq<Cell>): seq<string> {
    seq(|row|, j requires 0 <= j < |row| => CellText(row[j]))
  }

  function RowLine(row: seq<Cell>): string {
    Join(RowTexts(row), ',')
  }

  /** `data.map(e => e.join(",")).join("\n")`. */
  function CsvContent(rows: seq<seq<Cell>>): string {
    Join(seq(|rows|, i requires 0 <= i < |rows| => RowLine(rows[i])), '\n')
  }

  /** A reader for that content: lines at '\n', fields at ','. */
  function ParseCsv(content: string): seq<seq<string>> {
    var lines := Split(content, '\n');
    seq(|lines|, i requires 0 <= i < |lines| => Split(lines[i], ','))
  }

  predicate PlainCell(c: Cell) {
    ',' !in CellText(c) && '\n' !in CellText(c)
  }

  /** A row no cell of which holds a separator. */
  predicate PlainRow(row: seq<Cell>) {
    forall j :: 0 <= j < |row| ==> PlainCell(row[j])
  }

  lemma IntHasNoSeparators(n: int)
    ensures ',' !in IntToString(n) && '\n' !in IntToString(n)
  {
    var s := IntToString(n);
    if n < 0 {
      var digits := s[1..];
      assert s == [s[0]] + digits;
      assert ',' !in digits && '\n' !in digits by {
        assert forall i :: 0 <= i < |digits| ==> IsDigit(digits[i]);
      }
    }
  }

  /** Splitting the joined content gives every row's cell texts back, when
      no cell holds ',' or '\n'. */
  lemma CsvRoundTrip(rows: seq<seq<Cell>>)
    requires |rows| >= 1
    requires forall i :: 0 <= i < |rows| ==> |rows[i]| >= 1 && PlainRow(rows[i])
    ensures ParseCsv(CsvContent(rows)) == seq(|rows|, i requires 0 <= i < |rows| => RowTexts(rows[i]))
  {
    var lines := seq(|rows|, i requires 0 <= i < |rows| => RowLine(rows[i]));
    forall i | 0 <= i < |rows| ensures '\n' !in lines[i] && Split(lines[i], ',') == RowTexts(rows[i]) {
      var texts := RowTexts(rows[i]);
      assert PlainRow(rows[i]);
      JoinCharacters(texts, ',', '\n');
      SplitJoinRoundTrip(texts, ',');
    }
    SplitJoinRoundTrip(lines, '\n');
  }

  lemma TextIsPlain(t: string)
    requires forall k :: 0 <= k < |t| ==> t[k] != ',' && t[k] != '\n'
    ensures PlainCell(Text(t))
  {
  }

  lemma HeaderIsPlain()
    ensures PlainRow(CsvHeader)
  {
    TextIsPlain("measurement_id");
    TextIsPlain("duration (ms)");
  }

  lemma MeasurementRowIsPlain(m: PerformanceEntry)
    requires ',' !in m.name && '\n' !in m.name
    ensures PlainRow(MeasurementRow(m))
  {
    IntHasNoSeparators(m.Duration());
  }

  lemma ExportedNameIsPlain(log: seq<PerformanceEntry>, m: PerformanceEntry)
    requires forall k :: 0 <= k < |log| ==> ',' !in log[k].name && '\n' !in log[k].name
    requires m in GetEntriesByType(log, MeasureKind)
    ensures PlainRow(MeasurementRow(m))
  {
    assert m in multiset(GetEntriesByType(log, MeasureKind));
    assert m in FilterByType(log, MeasureKind);
    FilterByTypeMembers(log, MeasureKind);
    var k :| 0 <= k < |log| && log[k] == m;
    MeasurementRowIsPlain(m);
  }

  lemma ExportedRowsArePlain(log: seq<PerformanceEntry>)
    requires forall k :: 0 <= k < |log| ==> ',' !in log[k].name && '\n' !in log[k].name
    ensures var rows := ExportRows(log);
      forall i :: 0 <= i < |rows| ==> |rows[i]| >= 1 && PlainRow(rows[i])
  {
    var rows := ExportRows(log);
    var ms := GetEntriesByType(log, MeasureKind);
    HeaderIsPlain();
    forall i | 1 <= i < |rows| ensures |rows[i]| >= 1 && PlainRow(rows[i]) {
      ExportedNameIsPlain(log, ms[i - 1]);
    }
  }

  /** The exported CSV splits back into the header and one `[name, duration]`
      line per measure, when no measure name holds ',' or '\n'. */
  lemma ExportRoundTrip(log: seq<PerformanceEntry>)
    requires forall k :: 0 <= k < |log| ==> ',' !in log[k].name && '\n' !in log[k].name
    ensures var rows := ExportRows(log);
      ParseCsv(CsvContent(rows)) == seq(|rows|, i requires 0 <= i < |rows| => RowTexts(rows[i]))
  {
    ExportedRowsArePlain(log);
    CsvRoundTrip(ExportRows(log));
  }

  // ---- The download ----

  /** What is handed to the browser: content, MIME type and file name. */
  datatype Download = Download(content: string, mimeType: string, fileName: string)

  const CsvMimeType: string := "text/csv;charset=utf-8"

  function CsvFileName(date: DateRecord): string {
    FormatDateTime(date) + "-tictoc.csv"
  }

  /** The file name is the timestamp of the date followed by "-tictoc.csv",
      and the date can be read back from it. */
  lemma CsvFileNameEncodesDate(date: DateRecord)
    requires ValidDate(date)
    ensures var name := CsvFileName(date);
      |name| >= 11 && name[|name| - 11..] == "-tictoc.csv" && ParseDateTime(name[..|name| - 11]) == Some(date)
  {
    var name := CsvFileName(date);
    assert name[..|name| - 11] == FormatDateTime(date);
    FormatParseRoundTrip(date);
  }

  /** `downloadCsvFile(data)` up to the point of delivery. */
  function DownloadCsvFile(rows: seq<seq<Cell>>, date: DateRecord): Download {
    Download(CsvContent(rows), CsvMimeType, CsvFileName(date))
  }

  /** `exportMeasurements()` on the current buffer at the given local time. */
  function ExportMeasurements(log: seq<PerformanceEntry>, date: DateRecord): Download {
    DownloadCsvFile(ExportRows(log), date)
  }

  lemma MeasurementRowTexts(m: PerformanceEntry)
    ensures RowTexts(MeasurementRow(m)) == [m.name, IntToString(m.Duration())]
  {
  }

  /** The cell texts of a header-and-measures table, line by line. */
  lemma TableTexts(rows: seq<seq<Cell>>, ms: seq<PerformanceEntry>)
    requires |rows| == 1 + |ms| && rows[0] == CsvHeader
    requires forall i :: 1 <= i < |rows| ==> rows[i] == MeasurementRow(ms[i - 1])
    ensures var lines := seq(|rows|, i requires 0 <= i < |rows| => RowTexts(rows[i]));
      && lines[0] == ["measurement_id", "duration (ms)"]
      && (forall i :: 0 <= i < |ms| ==> lines[i + 1] == [ms[i].name, IntToString(ms[i].Duration())])
  {
    var lines := seq(|rows|, i requires 0 <= i < |rows| => RowTexts(rows[i]));
    forall i | 0 <= i < |ms| ensures lines[i + 1] == [ms[i].name, IntToString(ms[i].Duration())] {
      assert rows[i + 1] == MeasurementRow(ms[i]);
      MeasurementRowTexts(ms[i]);
    }
  }

  /** The exported content reads back as the header and one `[name, duration]`
      line per measure, in query order. */
  lemma ExportContentReadsBack(log: seq<PerformanceEntry>)
    requires forall k :: 0 <= k < |log| ==> ',' !in log[k].name && '\n' !in log[k].name
    ensures var lines, ms := ParseCsv(CsvContent(ExportRows(log))), GetEntriesByType(log, MeasureKind);
      && |lines| == 1 + |ms|
      && lines[0] == ["measurement_id", "duration (ms)"]
      && (forall i :: 0 <= i < |ms| ==> lines[i + 1] == [ms[i].name, IntToString(ms[i].Duration())])
  {
    ExportRoundTrip(log);
    TableTexts(ExportRows(log), GetEntriesByType(log, MeasureKind));
  }

  /** What `exportMeasurements()` hands over: that content, the CSV MIME
      type, and a file name from which the date can be read back. */
  lemma ExportMeasurementsDelivers(log: seq<PerformanceEntry>, date: DateRecord)
    requires ValidDate(date)
    requires forall k :: 0 <= k < |log| ==> ',' !in log[k].name && '\n' !in log[k].name
    ensures var d, ms := ExportMeasurements(log, date), GetEntriesByType(log, MeasureKind);
      && d.mimeType == "text/csv;charset=utf-8"
      && |ParseCsv(d.content)| == 1 + |ms|
      && ParseCsv(d.content)[0] == ["measurement_id", "duration (ms)"]
      && (forall i :: 0 <= i < |ms| ==> ParseCsv(d.content)[i + 1] == [ms[i].name, IntToString(ms[i].Duration())])
      && |d.fileName| >= 11 && ParseDateTime(d.fileName[..|d.fileName| - 11]) == Some(date)
  {
    ExportContentReadsBack(log);
    CsvFileNameEncodesDate(date);
  }
}
