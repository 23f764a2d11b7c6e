/** The performance entry buffer that `performance.mark` and
    `performance.measure` write (W3C User Timing Level 3, sections 3.1.1 and
    3.1.3) and that `getEntries` / `getEntriesByType` read (W3C Performance
    Timeline). Times are whole milliseconds from an abstract monotonic clock. */
module UserTiming {
  import opened Wrappers

  datatype PerformanceEntry =
    | PerformanceMark(name: string, startTime: nat)
    | PerformanceMeasure(name: string, startTime: nat, duration: int)
  {
    /** The `entryType` attribute. */
    function EntryType(): EntryKind {
      if PerformanceMark? then MarkKind else MeasureKind
    }

    /** The `duration` attribute; a mark's duration is 0. */
    function Duration(): int {
      if PerformanceMark? then 0 else duration
    }
  }

  /** The two values of `entryType` that User Timing entries carry. */
  datatype EntryKind = MarkKind | MeasureKind
  {
    /** The string the attribute holds. */
    function Name(): string {
      if MarkKind? then "mark" else "measure"
    }
  }

  /** The exception `measure` throws when a mark name resolves to nothing. */
  datatype TimingError = SyntaxError

  predicate IsMarkNamed(e: PerformanceEntry, name: string) {
    e.PerformanceMark? && e.name == name
  }

  /** Position of the most recent mark called `name`, if there is one. */
  function LastMarkIndex(log: seq<PerformanceEntry>, name: string): (r: Option<nat>)
    ensures r.Some? ==> r.value < |log| && IsMarkNamed(log[r.value], name)
    ensures r.Some? ==> forall j :: r.value < j < |log| ==> !IsMarkNamed(log[j], name)
    ensures r.None? ==> forall j :: 0 <= j < |log| ==> !IsMarkNamed(log[j], name)
    decreases |log|
  {
    if |log| == 0 then None
    else if IsMarkNamed(log[|log| - 1], name) then Some(|log| - 1)
    else LastMarkIndex(log[..|log| - 1], name)
  }

  /** "Convert a mark to a timestamp": the startTime of the most recent mark
      called `name`, or nothing when no such mark exists. */
  function MarkTimestamp(log: seq<PerformanceEntry>, name: string): (r: Option<nat>)
    ensures r.None? <==> forall j :: 0 <= j < |log| ==> !IsMarkNamed(log[j], name)
    ensures r.Some? ==> exists j :: 0 <= j < |log| && IsMarkNamed(log[j], name) && log[j].startTime == r.value
  {
    match LastMarkIndex(log, name)
    case None => None
    case Some(i) => Some(log[i].startTime)
  }

  /** Appending a mark makes it the most recent one of its name. */
  lemma MarkTimestampAfterMark(log: seq<PerformanceEntry>, name: string, t: nat)
    ensures MarkTimestamp(log + [PerformanceMark(name, t)], name) == Some(t)
  {
  }

  /** Appending any entry that is not a mark of that name changes nothing. */
  lemma MarkTimestampAfterOther(log: seq<PerformanceEntry>, e: PerformanceEntry, name: string)
    requires !IsMarkNamed(e, name)
    ensures MarkTimestamp(log + [e], name) == MarkTimestamp(log, name)
  {
    assert (log + [e])[..|log|] == log;
  }

  /** The measure entry that `measure(name, startMark, endMark)` creates, or the
      SyntaxError it throws when either mark name resolves to nothing. */
  function ResolveMeasure(log: seq<PerformanceEntry>, name: string, startMark: string, endMark: string)
    : (r: Result<PerformanceEntry, TimingError>)
    ensures r.Failure? <==> MarkTimestamp(log, startMark).None? || MarkTimestamp(log, endMark).None?
    ensures r.Success? ==>
      var tStart := MarkTimestamp(log, startMark).value;
      var tEnd := MarkTimestamp(log, endMark).value;
      r.value == PerformanceMeasure(name, tStart, tEnd - tStart)
  {
    match (MarkTimestamp(log, endMark), MarkTimestamp(log, startMark))
    case (Some(tEnd), Some(tStart)) => Success(PerformanceMeasure(name, tStart, tEnd as int - tStart))
    case _ => Failure(SyntaxError)
  }

  // ---- Queries: entries in chronological order of startTime ----

  predicate SortedByStartTime(s: seq<PerformanceEntry>) {
    forall i, j :: 0 <= i < j < |s| ==> s[i].startTime <= s[j].startTime
  }

  /** Places `e` after every entry whose startTime is not later than its own. */
  function Insert(s: seq<PerformanceEntry>, e: PerformanceEntry): (r: seq<PerformanceEntry>)
    decreases |s|
  {
    if |s| == 0 || s[|s| - 1].startTime <= e.startTime then s + [e]
    else Insert(s[..|s| - 1], e) + [s[|s| - 1]]
  }

  lemma SortedInit(s: seq<PerformanceEntry>)
    requires |s| > 0 && SortedByStartTime(s)
    ensures SortedByStartTime(s[..|s| - 1])
  {
    var init := s[..|s| - 1];
    forall i, j | 0 <= i < j < |init| ensures init[i].startTime <= init[j].startTime {
      assert init[i] == s[i] && init[j] == s[j];
    }
  }

  lemma SortedSnoc(r: seq<PerformanceEntry>, x: PerformanceEntry)
    requires SortedByStartTime(r)
    requires forall y :: y in r ==> y.startTime <= x.startTime
    ensures SortedByStartTime(r + [x])
  {
    var t := r + [x];
    forall i, j | 0 <= i < j < |t| ensures t[i].startTime <= t[j].startTime {
      if j == |r| {
        assert t[i] == r[i] && r[i] in r;
      } else {
        assert t[i] == r[i] && t[j] == r[j];
      }
    }
  }

  lemma {:induction false} InsertContents(s: seq<PerformanceEntry>, e: PerformanceEntry)
    ensures multiset(Insert(s, e)) == multiset(s) + multiset{e}
    ensures |Insert(s, e)| == |s| + 1
    decreases |s|
  {
    if |s| > 0 && s[|s| - 1].startTime > e.startTime {
      var init := s[..|s| - 1];
      assert s == init + [s[|s| - 1]];
      InsertContents(init, e);
    }
  }

  lemma {:induction false} InsertKeepsOrder(s: seq<PerformanceEntry>, e: PerformanceEntry)
    requires SortedByStartTime(s)
    ensures SortedByStartTime(Insert(s, e))
    ensures multiset(Insert(s, e)) == multiset(s) + multiset{e}
    ensures |Insert(s, e)| == |s| + 1
    decreases |s|
  {
    InsertContents(s, e);
    if |s| == 0 || s[|s| - 1].startTime <= e.startTime {
      forall y | y in s ensures y.startTime <= e.startTime {
        var k :| 0 <= k < |s| && s[k] == y;
      }
      SortedSnoc(s, e);
    } else {
      var init := s[..|s| - 1];
      var last := s[|s| - 1];
      assert s == init + [last];
      SortedInit(s);
      InsertKeepsOrder(init, e);
      InsertContents(init, e);
      var r := Insert(init, e);
      forall x | x in r ensures x.startTime <= last.startTime {
        assert x in multiset(r);
        if x != e {
          assert x in multiset(init);
          var k :| 0 <= k < |init| && init[k] == x;
          assert s[k] == x;
        }
      }
      SortedSnoc(r, last);
    }
  }

  /** A stable insertion sort: entries with equal startTime keep buffer order. */
  function SortByStartTime(s: seq<PerformanceEntry>): (r: seq<PerformanceEntry>)
    ensures SortedByStartTime(r)
    ensures multiset(r) == multiset(s) && |r| == |s|
    decreases |s|
  {
    if |s| == 0 then []
    else
      var init := s[..|s| - 1];
      assert s == init + [s[|s| - 1]];
      InsertKeepsOrder(SortByStartTime(init), s[|s| - 1]);
      Insert(SortByStartTime(init), s[|s| - 1])
  }

  /** The entries whose `entryType` is `entryType`, in buffer order. */
  function FilterByType(s: seq<PerformanceEntry>, entryType: EntryKind): (r: seq<PerformanceEntry>)
    ensures |r| <= |s|
    decreases |s|
  {
    if |s| == 0 then []
    else FilterByType(s[..|s| - 1], entryType) + (if s[|s| - 1].EntryType() == entryType then [s[|s| - 1]] else [])
  }

  lemma {:induction false} FilterByTypeMembers(s: seq<PerformanceEntry>, entryType: EntryKind)
    ensures forall x :: x in FilterByType(s, entryType) <==> x in s && x.EntryType() == entryType
    decreases |s|
  {
    if |s| > 0 {
      var init := s[..|s| - 1];
      assert s == init + [s[|s| - 1]];
      FilterByTypeMembers(init, entryType);
    }
  }

  /** `performance.getEntries()`. */
  function GetEntries(log: seq<PerformanceEntry>): (r: seq<PerformanceEntry>)
    ensures SortedByStartTime(r) && multiset(r) == multiset(log)
  {
    SortByStartTime(log)
  }

  /** `performance.getEntriesByType(entryType)`. */
  function GetEntriesByType(log: seq<PerformanceEntry>, entryType: EntryKind): (r: seq<PerformanceEntry>)
    ensures SortedByStartTime(r) && multiset(r) == multiset(FilterByType(log, entryType))
  {
    SortByStartTime(FilterByType(log, entryType))
  }

  lemma FilterAppend(s: seq<PerformanceEntry>, e: PerformanceEntry, entryType: EntryKind)
    ensures FilterByType(s + [e], entryType) ==
      FilterByType(s, entryType) + (if e.EntryType() == entryType then [e] else [])
  {
    assert (s + [e])[..|s|] == s;
  }

  lemma InsertAfterLast(s: seq<PerformanceEntry>, e: PerformanceEntry)
    requires |s| > 0 && s[|s| - 1].startTime > e.startTime
    ensures Insert(s, e) == Insert(s[..|s| - 1], e) + [s[|s| - 1]]
  {
  }

  /** Inserting at the end of a sorted buffer, then filtering. */
  lemma FilterInsertAtEnd(s: seq<PerformanceEntry>, e: PerformanceEntry, entryType: EntryKind)
    requires SortedByStartTime(s)
    requires |s| == 0 || s[|s| - 1].startTime <= e.startTime
    ensures e.EntryType() == entryType ==>
      FilterByType(s, entryType) + [e] == Insert(FilterByType(s, entryType), e)
  {
    var fs := FilterByType(s, entryType);
    if e.EntryType() == entryType && |fs| > 0 {
      var x := fs[|fs| - 1];
      FilterByTypeMembers(s, entryType);
      assert x in fs;
      assert x in s;
      var k :| 0 <= k < |s| && s[k] == x;
      assert x.startTime <= s[|s| - 1].startTime;
    }
  }

  /** The step of FilterInsert past a later last entry, when `e` has the type. */
  lemma FilterInsertBehindKept(init: seq<PerformanceEntry>, last: PerformanceEntry, e: PerformanceEntry, entryType: EntryKind)
    requires last.startTime > e.startTime && e.EntryType() == entryType
    requires FilterByType(Insert(init, e), entryType) == Insert(FilterByType(init, entryType), e)
    ensures FilterByType(Insert(init + [last], e), entryType) == Insert(FilterByType(init + [last], entryType), e)
  {
    var s := init + [last];
    assert s[..|s| - 1] == init;
    var ri := Insert(init, e);
    var fi := FilterByType(init, entryType);
    assert Insert(s, e) == ri + [last];
    FilterAppend(ri, last, entryType);
    FilterAppend(init, last, entryType);
    if last.EntryType() == entryType {
      assert FilterByType(s, entryType) == fi + [last];
      InsertAfterLast(fi + [last], e);
      assert (fi + [last])[..|fi|] == fi;
    } else {
      assert FilterByType(s, entryType) == fi;
      assert FilterByType(Insert(s, e), entryType) == FilterByType(ri, entryType);
    }
  }

  /** The same step when `e` does not have the type. */
  lemma FilterInsertBehindDropped(init: seq<PerformanceEntry>, last: PerformanceEntry, e: PerformanceEntry, entryType: EntryKind)
    requires last.startTime > e.startTime && e.EntryType() != entryType
    requires FilterByType(Insert(init, e), entryType) == FilterByType(init, entryType)
    ensures FilterByType(Insert(init + [last], e), entryType) == FilterByType(init + [last], entryType)
  {
    var s := init + [last];
    assert s[..|s| - 1] == init;
    var ri := Insert(init, e);
    assert Insert(s, e) == ri + [last];
    FilterAppend(ri, last, entryType);
    FilterAppend(init, last, entryType);
  }

  lemma {:induction false} FilterInsert(s: seq<PerformanceEntry>, e: PerformanceEntry, entryType: EntryKind)
    requires SortedByStartTime(s)
    ensures FilterByType(Insert(s, e), entryType) ==
      if e.EntryType() == entryType then Insert(FilterByType(s, entryType), e) else FilterByType(s, entryType)
    decreases |s|
  {
    if |s| == 0 || s[|s| - 1].startTime <= e.startTime {
      assert Insert(s, e) == s + [e];
      FilterAppend(s, e, entryType);
      FilterInsertAtEnd(s, e, entryType);
    } else {
      var init := s[..|s| - 1];
      var last := s[|s| - 1];
      assert s == init + [last];
      SortedInit(s);
      FilterInsert(init, e, entryType);
      if e.EntryType() == entryType {
        FilterInsertBehindKept(init, last, e, entryType);
      } else {
        FilterInsertBehindDropped(init, last, e, entryType);
      }
    }
  }

  lemma SortAppend(s: seq<PerformanceEntry>, e: PerformanceEntry)
    ensures SortByStartTime(s + [e]) == Insert(SortByStartTime(s), e)
  {
    assert (s + [e])[..|s|] == s;
  }

  /** The entries stamped `t`, in the order they occur. */
  function WithStartTime(s: seq<PerformanceEntry>, t: nat): (r: seq<PerformanceEntry>)
    ensures |r| <= |s|
    decreases |s|
  {
    if |s| == 0 then []
    else WithStartTime(s[..|s| - 1], t) + (if s[|s| - 1].startTime == t then [s[|s| - 1]] else [])
  }

  lemma WithStartTimeAppend(s: seq<PerformanceEntry>, e: PerformanceEntry, t: nat)
    ensures WithStartTime(s + [e], t) == WithStartTime(s, t) + (if e.startTime == t then [e] else [])
  {
    assert (s + [e])[..|s|] == s;
  }

  /** Insertion puts `e` behind every entry with its own startTime. */
  lemma {:induction false} InsertIsStable(s: seq<PerformanceEntry>, e: PerformanceEntry, t: nat)
    ensures WithStartTime(Insert(s, e), t) == WithStartTime(s, t) + (if e.startTime == t then [e] else [])
    decreases |s|
  {
    if |s| == 0 || s[|s| - 1].startTime <= e.startTime {
      assert Insert(s, e) == s + [e];
      WithStartTimeAppend(s, e, t);
    } else {
      var init, last := s[..|s| - 1], s[|s| - 1];
      assert s == init + [last];
      assert Insert(s, e) == Insert(init, e) + [last];
      InsertIsStable(init, e, t);
      WithStartTimeAppend(Insert(init, e), last, t);
      WithStartTimeAppend(init, last, t);
      assert !(e.startTime == t && last.startTime == t);
    }
  }

  /** The query order is stable: for every timestamp, the entries stamped
      with it come out in the order they were appended. */
  lemma {:induction false} SortIsStable(log: seq<PerformanceEntry>, t: nat)
    ensures WithStartTime(SortByStartTime(log), t) == WithStartTime(log, t)
    decreases |log|
  {
    if |log| > 0 {
      var init, last := log[..|log| - 1], log[|log| - 1];
      assert log == init + [last];
      SortAppend(init, last);
      SortIsStable(init, t);
      InsertIsStable(SortByStartTime(init), last, t);
      WithStartTimeAppend(init, last, t);
    }
  }

  /** Filtering a sorted buffer by type gives the sorted filtered buffer: so
      `getEntries().filter(entryType === t)` and `getEntriesByType(t)` agree. */
  lemma {:induction false} FilterCommutesWithSort(log: seq<PerformanceEntry>, entryType: EntryKind)
    ensures FilterByType(GetEntries(log), entryType) == GetEntriesByType(log, entryType)
    decreases |log|
  {
    if |log| > 0 {
      var init := log[..|log| - 1];
      var last := log[|log| - 1];
      assert log == init + [last];
      var fi := FilterByType(init, entryType);
      SortAppend(init, last);
      assert GetEntries(log) == Insert(SortByStartTime(init), last);
      FilterCommutesWithSort(init, entryType);
      assert FilterByType(SortByStartTime(init), entryType) == SortByStartTime(fi);
      FilterInsert(SortByStartTime(init), last, entryType);
      FilterAppend(init, last, entryType);
      if last.EntryType() == entryType {
        assert FilterByType(log, entryType) == fi + [last];
        SortAppend(fi, last);
      } else {
        assert FilterByType(log, entryType) == fi + [];
        assert fi + [] == fi;
      }
    }
  }

  /** The global performance entry buffer and its clock. */
  class PerformanceTimeline {
    var entries: seq<PerformanceEntry>
    var now: nat

    /** No entry lies in the future of the clock. */
    ghost predicate Valid()
      reads this
    {
      forall i :: 0 <= i < |entries| ==> entries[i].startTime <= now
    }

    constructor ()
      ensures Valid() && entries == [] && now == 0
    {
      entries := [];
      now := 0;
    }

    /** Time passes; the buffer is untouched. */
    method Advance(dt: nat)
      requires Valid()
      modifies this
      ensures Valid() && now == old(now) + dt && entries == old(entries)
    {
      now := now + dt;
    }

    /** `performance.mark(name)`: append one mark stamped with the current time. */
    method Mark(name: string)
      requires Valid()
      modifies this
      ensures Valid() && now == old(now)
      ensures entries == old(entries) + [PerformanceMark(name, now)]
    {
      entries := entries + [PerformanceMark(name, now)];
    }

    /** `performance.measure(name, startMark, endMark)`: append one measure
        entry, or throw SyntaxError and append nothing. */
    method Measure(name: string, startMark: string, endMark: string) returns (outcome: Outcome<TimingError>)
      requires Valid()
      modifies this
      ensures Valid() && now == old(now)
      ensures match ResolveMeasure(old(entries), name, startMark, endMark)
        case Success(m) => outcome == Pass && entries == old(entries) + [m]
        case Failure(e) => outcome == Fail(e) && entries == old(entries)
    {
      match ResolveMeasure(entries, name, startMark, endMark)
      case Success(m) =>
        entries := entries + [m];
        outcome := Pass;
      case Failure(e) =>
        outcome := Fail(e);
    }
  }
}
