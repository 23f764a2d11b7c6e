/** The four lifecycle handlers. Each is called directly with the output id
    the host event carries; `outputValueHandler`'s zero-delay timeout becomes
    an explicit FIFO queue of pending output ids drained by `RunDeferred`. */
module TicToc {
  import opened Wrappers
  import opened Labels
  import opened UserTiming

  /** The logical id of the server round trip. */
  const ServerComputationId: string := "server_computation"

  /** What one turn of the deferred-task queue did. */
  datatype DeferredRun = NothingPending | Ran(outputId: string, outcome: Outcome<TimingError>)

  /** Ending the measurement for `id` at time `now` turns the buffer `before`
      into `after`: the end mark is always appended; the measure entry follows
      it exactly when a start mark exists, measured from the most recent one. */
  ghost predicate EndsMeasurement(before: seq<PerformanceEntry>, after: seq<PerformanceEntry>,
                                  id: string, now: nat, outcome: Outcome<TimingError>)
  {
    var endMark := PerformanceMark(EndMarkLabel(id), now);
    match MarkTimestamp(before, StartMarkLabel(id))
    case Some(tStart) =>
      outcome == Pass && after == before + [endMark, PerformanceMeasure(MeasurementLabel(id), tStart, now - tStart)]
    case None =>
      outcome == Fail(SyntaxError) && after == before + [endMark]
  }

  class Instrumentation {
    const performance: PerformanceTimeline
    /** Output ids whose deferred end-of-render task is queued, oldest first. */
    var pending: seq<string>

    ghost predicate Valid()
      reads this, performance
    {
      performance.Valid()
    }

    constructor (performance: PerformanceTimeline)
      requires performance.Valid()
      ensures Valid() && this.performance == performance && pending == []
    {
      this.performance := performance;
      pending := [];
    }

    /** Marks the start of a measurement cycle for `id`. */
    method StartMeasurement(id: string)
      requires Valid()
      modifies performance
      ensures Valid() && performance.now == old(performance.now)
      ensures performance.entries == old(performance.entries) + [PerformanceMark(StartMarkLabel(id), performance.now)]
    {
      performance.Mark(StartMarkLabel(id));
    }

    /** Marks the end for `id`, then measures from the most recent start mark. */
    method EndMeasurement(id: string) returns (outcome: Outcome<TimingError>)
      requires Valid()
      modifies performance
      ensures Valid() && performance.now == old(performance.now)
      ensures EndsMeasurement(old(performance.entries), performance.entries, id, performance.now, outcome)
      ensures outcome == Pass ==> performance.entries[|performance.entries| - 1].duration >= 0
    {
      ghost var before := performance.entries;
      var startLabel, endLabel := StartMarkLabel(id), EndMarkLabel(id);
      KindLabelInjective(id, Start, id, End);
      performance.Mark(endLabel);
      MarkTimestampAfterMark(before, endLabel, performance.now);
      MarkTimestampAfterOther(before, PerformanceMark(endLabel, performance.now), startLabel);
      outcome := performance.Measure(MeasurementLabel(id), startLabel, endLabel);
    }

    /** `outputRecalculatingHandler`: the output starts recomputing. */
    method OutputRecalculatingHandler(outputId: string)
      requires Valid()
      modifies performance
      ensures Valid() && performance.now == old(performance.now)
      ensures performance.entries == old(performance.entries) + [PerformanceMark(StartMarkLabel(outputId), performance.now)]
    {
      StartMeasurement(outputId);
    }

    /** `outputValueHandler`: the output received its value; the end mark and
        the measure are only queued, nothing is appended now. */
    method OutputValueHandler(outputId: string)
      requires Valid()
      modifies this
      ensures Valid() && pending == old(pending) + [outputId]
      ensures performance.entries == old(performance.entries) && performance.now == old(performance.now)
    {
      pending := pending + [outputId];
    }

    /** `serverBusyHandler`: the server starts a computation. */
    method ServerBusyHandler()
      requires Valid()
      modifies performance
      ensures Valid() && performance.now == old(performance.now)
      ensures performance.entries == old(performance.entries) + [PerformanceMark(StartMarkLabel(ServerComputationId), performance.now)]
    {
      StartMeasurement(ServerComputationId);
    }

    /** `serverIdleHandler`: the server finished; its exception, if any, propagates. */
    method ServerIdleHandler() returns (outcome: Outcome<TimingError>)
      requires Valid()
      modifies performance
      ensures Valid() && performance.now == old(performance.now)
      ensures EndsMeasurement(old(performance.entries), performance.entries, ServerComputationId, performance.now, outcome)
      ensures outcome == Pass ==> performance.entries[|performance.entries| - 1].duration >= 0
    {
      outcome := EndMeasurement(ServerComputationId);
    }

    /** Runs the oldest queued timeout callback, if any. */
    method RunDeferred() returns (run: DeferredRun)
      requires Valid()
      modifies this, performance
      ensures Valid() && performance.now == old(performance.now)
      ensures old(pending) == [] ==>
        run == NothingPending && pending == [] && performance.entries == old(performance.entries)
      ensures old(pending) != [] ==>
        && pending == old(pending)[1..]
        && run.Ran? && run.outputId == old(pending)[0]
        && EndsMeasurement(old(performance.entries), performance.entries, run.outputId, performance.now, run.outcome)
        && (run.outcome == Pass ==> performance.entries[|performance.entries| - 1].duration >= 0)
    {
      if pending == [] {
        run := NothingPending;
      } else {
        var outputId := pending[0];
        pending := pending[1..];
        var outcome := EndMeasurement(outputId);
        run := Ran(outputId, outcome);
      }
    }
  }

  /** A restart before the end replaces the earlier start as reference point:
      the measure is taken from the second start mark. */
  lemma MostRecentStartWins(log: seq<PerformanceEntry>, id: string, t1: nat, t2: nat, t3: nat)
    ensures var start, end := StartMarkLabel(id), EndMarkLabel(id);
      ResolveMeasure(log + [PerformanceMark(start, t1), PerformanceMark(start, t2), PerformanceMark(end, t3)],
                     MeasurementLabel(id), start, end)
        == Success(PerformanceMeasure(MeasurementLabel(id), t2, t3 - t2))
  {
    var start, end := StartMarkLabel(id), EndMarkLabel(id);
    KindLabelInjective(id, Start, id, End);
    var l1 := log + [PerformanceMark(start, t1)];
    var l2 := l1 + [PerformanceMark(start, t2)];
    MarkTimestampAfterMark(l1, start, t2);
    MarkTimestampAfterOther(l2, PerformanceMark(end, t3), start);
    MarkTimestampAfterMark(l2, end, t3);
    assert l2 + [PerformanceMark(end, t3)] == log + [PerformanceMark(start, t1), PerformanceMark(start, t2), PerformanceMark(end, t3)];
  }

  /** Any mark of another id, of any kind, leaves the resolution of this id's
      measurement unchanged: ids never share markers. */
  lemma OtherIdsDoNotInterfere(log: seq<PerformanceEntry>, id: string, other: string, kind: LabelKind, t: nat)
    requires other != id
    ensures var extended := log + [PerformanceMark(KindLabel(other, kind), t)];
      ResolveMeasure(extended, MeasurementLabel(id), StartMarkLabel(id), EndMarkLabel(id))
        == ResolveMeasure(log, MeasurementLabel(id), StartMarkLabel(id), EndMarkLabel(id))
  {
    var e := PerformanceMark(KindLabel(other, kind), t);
    KindLabelInjective(other, kind, id, Start);
    KindLabelInjective(other, kind, id, End);
    MarkTimestampAfterOther(log, e, StartMarkLabel(id));
    MarkTimestampAfterOther(log, e, EndMarkLabel(id));
  }

  /** A start immediately followed, `dt` later, by an end yields exactly one
      measurement, from the start's time, lasting `dt`. */
  lemma StartThenEnd(log: seq<PerformanceEntry>, id: string, t: nat, dt: nat,
                     after: seq<PerformanceEntry>, outcome: Outcome<TimingError>)
    requires EndsMeasurement(log + [PerformanceMark(StartMarkLabel(id), t)], after, id, t + dt, outcome)
    ensures outcome == Pass
    ensures after == log + [PerformanceMark(StartMarkLabel(id), t), PerformanceMark(EndMarkLabel(id), t + dt),
                            PerformanceMeasure(MeasurementLabel(id), t, dt)]
  {
    MarkTimestampAfterMark(log, StartMarkLabel(id), t);
  }

  /** An end with no earlier start throws, and no measure entry is appended. */
  lemma EndWithoutStartThrows(log: seq<PerformanceEntry>, id: string, now: nat,
                              after: seq<PerformanceEntry>, outcome: Outcome<TimingError>)
    requires forall j :: 0 <= j < |log| ==> !IsMarkNamed(log[j], StartMarkLabel(id))
    requires EndsMeasurement(log, after, id, now, outcome)
    ensures outcome == Fail(SyntaxError)
    ensures after == log + [PerformanceMark(EndMarkLabel(id), now)]
  {
  }

  /** The recalculating / value / timeout sequence of one output. */
  method ExampleOutputCycle() {
    var performance := new PerformanceTimeline();
    var tictoc := new Instrumentation(performance);
    tictoc.OutputRecalculatingHandler("out1");
    performance.Advance(5);
    tictoc.OutputValueHandler("out1");
    assert |performance.entries| == 1;
    var run := tictoc.RunDeferred();
    StartThenEnd([], "out1", 0, 5, performance.entries, run.outcome);
    assert run == Ran("out1", Pass);
    assert performance.entries[2] == PerformanceMeasure(MeasurementLabel("out1"), 0, 5);
    run := tictoc.RunDeferred();
    assert run == NothingPending;
  }

  /** busy, busy, idle: the measure runs from the second busy signal. */
  method ExampleServerRestart() {
    var performance := new PerformanceTimeline();
    var tictoc := new Instrumentation(performance);
    tictoc.ServerBusyHandler();
    performance.Advance(3);
    tictoc.ServerBusyHandler();
    performance.Advance(4);
    var outcome := tictoc.ServerIdleHandler();
    var start := StartMarkLabel(ServerComputationId);
    MarkTimestampAfterMark([PerformanceMark(start, 0)], start, 3);
    assert outcome == Pass;
    assert performance.entries[3] == PerformanceMeasure(MeasurementLabel(ServerComputationId), 3, 4);
  }
}
