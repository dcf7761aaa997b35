/**
 Cutting a metrics window in two: what the parts say about the whole
 (`_calculate_sensor_health_metrics` with `get_health_tracking_records_for_sensor` and
 `get_sensor_status_before_time`).
 */
module SensorHealthWindows {
  import opened Options
  import opened SensorHealthMetrics
  import opened SensorHealthTagging

  // ---------- The two queries ----------

  /** The records of a closed window, in log order. */
  function Window(log: seq<Record>, from_: int, to_: int): seq<Record> {
    if log == [] then []
    else
      var n := |log| - 1;
      Window(log[..n], from_, to_) + if from_ <= log[n].recordedAt <= to_ then [log[n]] else []
  }

  /** The status of the newest record strictly before `t`. */
  function StatusBefore(log: seq<Record>, t: int): Option<string> {
    if log == [] then None
    else
      var n := |log| - 1;
      if log[n].recordedAt < t then Some(log[n].status) else StatusBefore(log[..n], t)
  }

  /** The window query keeps, in order, the records from its beginning to its end, both included. */
  lemma WindowByOne(log: seq<Record>, r: Record, from_: int, to_: int)
    ensures Window(log + [r], from_, to_) ==
            Window(log, from_, to_) + if from_ <= r.recordedAt && r.recordedAt <= to_ then [r] else []
  {
    assert (log + [r])[..|log|] == log;
  }

  /** The status query answers with the newest record before the time asked for, and only if there is one. */
  lemma {:induction false} StatusBeforeIsNewest(log: seq<Record>, t: int)
    requires Sorted(log)
    ensures StatusBefore(log, t).None? <==> forall i :: 0 <= i < |log| ==> log[i].recordedAt >= t
    ensures StatusBefore(log, t).Some? ==>
              exists i :: 0 <= i < |log| && log[i].recordedAt < t && StatusBefore(log, t) == Some(log[i].status) &&
                          forall j :: i < j < |log| ==> log[j].recordedAt >= t
  {
    if log != [] {
      var n := |log| - 1;
      StatusBeforeIsNewest(log[..n], t);
      if log[n].recordedAt >= t && StatusBefore(log[..n], t).Some? {
        var i :| 0 <= i < n && log[i].recordedAt < t && StatusBefore(log[..n], t) == Some(log[i].status) &&
                 forall j :: i < j < n ==> log[..n][j].recordedAt >= t;
        assert forall j :: i < j < |log| ==> log[j].recordedAt >= t;
      }
    }
  }

  lemma {:induction false} WindowEmpty(log: seq<Record>, from_: int, to_: int)
    requires forall i :: 0 <= i < |log| ==> log[i].recordedAt < from_ || to_ < log[i].recordedAt
    ensures Window(log, from_, to_) == []
  {
    if log != [] {
      WindowEmpty(log[..|log| - 1], from_, to_);
    }
  }

  lemma {:induction false} WindowSplits(log: seq<Record>, a: int, m: int, b: int)
    requires Sorted(log) && a <= m <= b
    requires forall i :: 0 <= i < |log| ==> log[i].recordedAt != m
    ensures Window(log, a, b) == Window(log, a, m) + Window(log, m, b)
  {
    if log != [] {
      var n := |log| - 1;
      WindowSplits(log[..n], a, m, b);
      if log[n].recordedAt < m {
        WindowEmpty(log[..n], m, b);
        assert Window(log, m, b) == [];
      }
    }
  }

  /** Just before `m`, the log knows what the part of the window before `m` ends with. */
  lemma {:induction false} StatusAtCut(log: seq<Record>, a: int, m: int)
    requires Sorted(log) && a <= m
    requires forall i :: 0 <= i < |log| ==> log[i].recordedAt != m && Recognized(log[i].status)
    ensures ConditionAfter(StatusBefore(log, a), Window(log, a, m)) == ConditionAfter(StatusBefore(log, m), [])
  {
    if log != [] {
      var n := |log| - 1;
      StatusAtCut(log[..n], a, m);
      if log[n].recordedAt < a {
        WindowEmpty(log, a, m);
      } else if log[n].recordedAt > m {
        assert Window(log, a, m) == Window(log[..n], a, m);
      } else {
        assert Window(log, a, m)[..|Window(log, a, m)| - 1] == Window(log[..n], a, m);
      }
    }
  }

  // ---------- The walk over the whole and over the second part ----------

  ghost predicate SameCondition(s: State, t: State) {
    (s.failureOnset.Some? <==> t.failureOnset.Some?) && (s.operationalStart.Some? <==> t.operationalStart.Some?)
  }

  function RepairTime(s: State): int {
    Sum(s.recoveries)
  }

  function UpTime(s: State): int {
    Sum(Durations(s.intervals))
  }

  /** `first` is the walk at the cut, `part` a walk started afresh at `m`, `whole` the walk that
      went on from `first` over the same records. */
  ghost predicate Additive(first: State, m: int, part: State, whole: State) {
    && |whole.recoveries| == |first.recoveries| + |part.recoveries|
    && |whole.autoRecoveries| == |first.autoRecoveries| + |part.autoRecoveries|
    && |whole.intervals| == |first.intervals| + |part.intervals|
    && RepairTime(whole) == RepairTime(first) + RepairTime(part) +
         (if first.failureOnset.Some? && part.recoveries != [] then m - first.failureOnset.value else 0)
    && UpTime(whole) == UpTime(first) + UpTime(part) +
         (if first.operationalStart.Some? && part.intervals != [] then m - first.operationalStart.value else 0)
  }

  /** Until the first change after the cut, the two walks differ in when the current period began. */
  ghost predicate InStep(first: State, m: int, part: State, whole: State) {
    && AtMostOneMark(whole) && AtMostOneMark(part)
    && Additive(first, m, part, whole)
    && (if first.failureOnset.Some? && part.recoveries == [] then
          part.failureOnset == Some(m) && part.operationalStart.None? && part.intervals == [] &&
          whole.failureOnset == first.failureOnset && whole.operationalStart.None?
        else if first.operationalStart.Some? && part.intervals == [] then
          part.operationalStart == Some(m) && part.failureOnset.None? && part.recoveries == [] &&
          whole.operationalStart == first.operationalStart && whole.failureOnset.None?
        else part.failureOnset == whole.failureOnset && part.operationalStart == whole.operationalStart)
  }

  lemma StepInStep(first: State, m: int, part: State, whole: State, r: Record)
    requires AtMostOneMark(first) && InStep(first, m, part, whole)
    ensures InStep(first, m, Step(part, r), Step(whole, r))
  {
    if Failing(r.status) && whole.failureOnset.None? && whole.operationalStart.Some? {
      AppendInterval(part, r);
      AppendInterval(whole, r);
    } else if r.status == "operational" && whole.failureOnset.Some? {
      AppendRecovery(part, r);
      AppendRecovery(whole, r);
    }
  }

  lemma AppendInterval(s: State, r: Record)
    requires Failing(r.status) && s.failureOnset.None? && s.operationalStart.Some?
    ensures UpTime(Step(s, r)) == UpTime(s) + r.recordedAt - s.operationalStart.value
    ensures Step(s, r).recoveries == s.recoveries && |Step(s, r).intervals| == |s.intervals| + 1
  {
    var interval := Interval(r.recordedAt - s.operationalStart.value, None);
    SumAppend(Durations(s.intervals), interval.duration);
    assert Durations(s.intervals + [interval]) == Durations(s.intervals) + [interval.duration];
  }

  lemma AppendRecovery(s: State, r: Record)
    requires r.status == "operational" && s.failureOnset.Some?
    ensures RepairTime(Step(s, r)) == RepairTime(s) + r.recordedAt - s.failureOnset.value
    ensures UpTime(Step(s, r)) == UpTime(s)
    ensures |Step(s, r).recoveries| == |s.recoveries| + 1 && |Step(s, r).intervals| == |s.intervals|
  {
    SumAppend(s.recoveries, r.recordedAt - s.failureOnset.value);
    RetaggedDurations(s.intervals, r.recoveryType);
  }

  lemma {:induction false} WalksInStep(first: State, m: int, pre: Option<string>, records: seq<Record>)
    requires AtMostOneMark(first) && SameCondition(first, Init(pre, m))
    ensures InStep(first, m, Walk(Init(pre, m), records), Walk(first, records))
  {
    if records != [] {
      var n := |records| - 1;
      WalksInStep(first, m, pre, records[..n]);
      StepInStep(first, m, Walk(Init(pre, m), records[..n]), Walk(first, records[..n]), records[n]);
    }
  }

  /** The metrics walk over a window of the log, as the service runs it. */
  function WindowWalk(log: seq<Record>, from_: int, to_: int): State {
    Walk(Init(StatusBefore(log, from_), from_), Window(log, from_, to_))
  }

  /** Cut a window at an instant without a record.  Recoveries, automatic recoveries and closed
      operational intervals of the whole are those of the two parts together.  Total repair time is
      too, except that a failure open at the cut loses its time before the cut exactly when it is
      repaired in the second part; and in the same way for up-time. */
  lemma WindowsAdd(log: seq<Record>, a: int, m: int, b: int)
    requires Sorted(log) && a <= m <= b
    requires forall i :: 0 <= i < |log| ==> log[i].recordedAt != m && Recognized(log[i].status)
    ensures Additive(WindowWalk(log, a, m), m, WindowWalk(log, m, b), WindowWalk(log, a, b))
  {
    WindowSplits(log, a, m, b);
    WalkConcat(Init(StatusBefore(log, a), a), Window(log, a, m), Window(log, m, b));
    StatusAtCut(log, a, m);
    IntervalsCarryTheirRepair(StatusBefore(log, a), a, Window(log, a, m));
    WalksInStep(WindowWalk(log, a, m), m, StatusBefore(log, m), Window(log, m, b));
  }

  // ---------- The intervals behind the mean times between failures ----------

  /** The first interval made longer. */
  function Lengthened(intervals: seq<Interval>, extra: int): seq<Interval> {
    if intervals == [] then [] else [Interval(intervals[0].duration + extra, intervals[0].recoveryType)] + intervals[1..]
  }

  /** The intervals of two parts put together: the last one of the first part takes the type of the
      first repair in the second part, if the failure that closed it was open at the cut, and the
      first one of the second part began when the up-time running at the cut began. */
  function Joined(first: State, m: int, repairs: seq<Record>, intervals: seq<Interval>): seq<Interval> {
    Settled(first, repairs) +
    Lengthened(intervals, if first.operationalStart.Some? then m - first.operationalStart.value else 0)
  }

  function Settled(first: State, repairs: seq<Record>): seq<Interval> {
    if first.failureOnset.Some? && repairs != [] then Retagged(first.intervals, repairs[0].recoveryType) else first.intervals
  }

  /** Without a repair or an interval after the cut, a failure can only be the one open at the cut, or
      the first thing ever known. */
  lemma OnlyOpenFailure(first: State, m: int, pre: Option<string>, records: seq<Record>)
    requires SameCondition(first, Init(pre, m)) && AtMostOneMark(first)
    requires Walk(Init(pre, m), records).failureOnset.Some? && Walk(Init(pre, m), records).intervals == []
    ensures first.operationalStart.None?
    ensures first.failureOnset.Some? ==> Repairs(pre, records) == []
  {
    IntervalsCarryTheirRepair(pre, m, records);
    if pre.Some? && ConditionOf(pre.value) != Unknown {
      FirstConditionOfPre(pre, records);
    }
  }

  lemma {:induction false} FirstConditionOfPre(pre: Option<string>, records: seq<Record>)
    requires pre.Some? && ConditionOf(pre.value) != Unknown
    ensures FirstCondition(pre, records) == ConditionOf(pre.value)
  {
    if records != [] {
      FirstConditionOfPre(pre, records[..|records| - 1]);
    }
  }

  lemma LastRetagged(a: seq<Interval>, b: seq<Interval>, recoveryType: Option<string>)
    ensures b != [] ==> Retagged(a + b, recoveryType) == a + Retagged(b, recoveryType)
    ensures b == [] ==> Retagged(a + b, recoveryType) == Retagged(a, recoveryType)
  {
    if b == [] {
      assert a + b == a;
    }
  }

  lemma LengthenedRetagged(intervals: seq<Interval>, extra: int, recoveryType: Option<string>)
    ensures Retagged(Lengthened(intervals, extra), recoveryType) == Lengthened(Retagged(intervals, recoveryType), extra)
  {
  }

  lemma JoinBreakdown(first: State, m: int, repairs: seq<Record>, intervals: seq<Interval>,
                      partStart: int, wholeStart: int, now: int)
    requires if first.operationalStart.Some? && intervals == []
             then partStart == m && wholeStart == first.operationalStart.value else partStart == wholeStart
    ensures Joined(first, m, repairs, intervals) + [Interval(now - wholeStart, None)] ==
            Joined(first, m, repairs, intervals + [Interval(now - partStart, None)])
  {
    var extra := if first.operationalStart.Some? then m - first.operationalStart.value else 0;
    var interval := Interval(now - partStart, None);
    assert intervals != [] ==> Lengthened(intervals + [interval], extra) == Lengthened(intervals, extra) + [interval];
  }

  /** A failure in the second part that closed none of its intervals was open at the cut, and not yet
      repaired, or was the first thing ever known. */
  ghost predicate FailureIsOpen(first: State, repairs: seq<Record>) {
    first.operationalStart.None? && (if first.failureOnset.Some? then repairs == [] else first.intervals == [])
  }

  lemma JoinFirstRepair(first: State, m: int, repairs: seq<Record>, r: Record)
    requires FailureIsOpen(first, repairs)
    ensures Retagged(Joined(first, m, repairs, []), r.recoveryType) == Joined(first, m, repairs + [r], [])
  {
    SettledByRepair(first, repairs, r);
    assert Settled(first, repairs) + [] == Settled(first, repairs);
    assert Settled(first, repairs + [r]) + [] == Settled(first, repairs + [r]);
  }

  lemma JoinLaterRepair(first: State, m: int, repairs: seq<Record>, intervals: seq<Interval>, r: Record)
    requires intervals != [] && (first.failureOnset.Some? ==> repairs != [])
    ensures Retagged(Joined(first, m, repairs, intervals), r.recoveryType) ==
            Joined(first, m, repairs + [r], Retagged(intervals, r.recoveryType))
  {
    var extra := if first.operationalStart.Some? then m - first.operationalStart.value else 0;
    LengthenedRetagged(intervals, extra, r.recoveryType);
    LastRetagged(Settled(first, repairs), Lengthened(intervals, extra), r.recoveryType);
    SettledByRepair(first, repairs, r);
  }

  lemma SettledByRepair(first: State, repairs: seq<Record>, r: Record)
    ensures repairs != [] || first.failureOnset.None? ==> Settled(first, repairs + [r]) == Settled(first, repairs)
    ensures repairs == [] && first.failureOnset.Some? ==> Settled(first, repairs + [r]) == Retagged(first.intervals, r.recoveryType)
    ensures repairs == [] ==> Settled(first, repairs) == first.intervals
    ensures first.intervals == [] ==> Settled(first, repairs) == []
  {
  }

  /** How the two walks' marks relate. */
  ghost predicate MarksInStep(first: State, m: int, part: State, whole: State) {
    && AtMostOneMark(whole) && AtMostOneMark(part) && SameCondition(part, whole)
    && (part.operationalStart.Some? ==>
          if first.operationalStart.Some? && part.intervals == []
          then part.operationalStart == Some(m) && whole.operationalStart == first.operationalStart
          else part.operationalStart == whole.operationalStart)
    && (part.intervals != [] && first.failureOnset.Some? ==> part.recoveries != [])
  }

  lemma InStepMarks(first: State, m: int, part: State, whole: State)
    requires AtMostOneMark(first) && InStep(first, m, part, whole)
    ensures MarksInStep(first, m, part, whole)
  {
  }

  lemma JoinStepBreakdown(first: State, m: int, part: State, whole: State, repairs: seq<Record>, r: Record)
    requires MarksInStep(first, m, part, whole) && whole.intervals == Joined(first, m, repairs, part.intervals)
    requires Failing(r.status) && part.operationalStart.Some?
    ensures Step(whole, r).intervals == Joined(first, m, repairs, Step(part, r).intervals)
  {
    var partStart, wholeStart := part.operationalStart.value, whole.operationalStart.value;
    assert Step(part, r).intervals == part.intervals + [Interval(r.recordedAt - partStart, None)] by {
      StepAppends(part, r);
    }
    assert Step(whole, r).intervals == whole.intervals + [Interval(r.recordedAt - wholeStart, None)] by {
      StepAppends(whole, r);
    }
    JoinBreakdown(first, m, repairs, part.intervals, partStart, wholeStart, r.recordedAt);
  }

  lemma StepAppends(s: State, r: Record)
    requires Failing(r.status) && s.operationalStart.Some? && AtMostOneMark(s)
    ensures Step(s, r).intervals == s.intervals + [Interval(r.recordedAt - s.operationalStart.value, None)]
  {
  }

  lemma JoinStepRepair(first: State, m: int, part: State, whole: State, repairs: seq<Record>, r: Record)
    requires MarksInStep(first, m, part, whole) && whole.intervals == Joined(first, m, repairs, part.intervals)
    requires part.intervals == [] ==> FailureIsOpen(first, repairs)
    requires ConditionOf(r.status) == Working && part.failureOnset.Some? && |repairs| == |part.recoveries|
    ensures Step(whole, r).intervals == Joined(first, m, repairs + [r], Step(part, r).intervals)
  {
    if part.intervals == [] {
      JoinFirstRepair(first, m, repairs, r);
    } else {
      JoinLaterRepair(first, m, repairs, part.intervals, r);
    }
  }

  lemma JoinStepOther(s: State, r: Record)
    requires !(Failing(r.status) && s.operationalStart.Some? && s.failureOnset.None?)
    requires !(ConditionOf(r.status) == Working && s.failureOnset.Some?)
    ensures Step(s, r).intervals == s.intervals
  {
  }

  /** Joined once, the two walks stay joined with every record. */
  lemma JoinStep(first: State, m: int, part: State, whole: State, repairs: seq<Record>, r: Record)
    requires MarksInStep(first, m, part, whole) && |repairs| == |part.recoveries|
    requires whole.intervals == Joined(first, m, repairs, part.intervals)
    requires part.failureOnset.Some? && part.intervals == [] ==> FailureIsOpen(first, repairs)
    ensures Step(whole, r).intervals ==
            Joined(first, m, repairs + (if ConditionOf(r.status) == Working && part.failureOnset.Some? then [r] else []),
                   Step(part, r).intervals)
  {
    assert repairs + [] == repairs;
    if Failing(r.status) && part.operationalStart.Some? {
      JoinStepBreakdown(first, m, part, whole, repairs, r);
    } else if ConditionOf(r.status) == Working && part.failureOnset.Some? {
      JoinStepRepair(first, m, part, whole, repairs, r);
    } else {
      JoinStepOther(part, r);
      JoinStepOther(whole, r);
    }
  }

  lemma {:induction false} WalksJoined(first: State, m: int, pre: Option<string>, records: seq<Record>)
    requires AtMostOneMark(first) && SameCondition(first, Init(pre, m))
    requires Mark(first).None? ==> first.intervals == []
    ensures Walk(first, records).intervals ==
            Joined(first, m, Repairs(pre, records), Walk(Init(pre, m), records).intervals)
  {
    if records != [] {
      var n := |records| - 1;
      var part := Walk(Init(pre, m), records[..n]);
      WalksJoined(first, m, pre, records[..n]);
      WalksInStep(first, m, pre, records[..n]);
      InStepMarks(first, m, part, Walk(first, records[..n]));
      MarksTell(pre, m, records[..n]);
      IntervalsCarryTheirRepair(pre, m, records[..n]);
      if part.failureOnset.Some? && part.intervals == [] {
        OnlyOpenFailure(first, m, pre, records[..n]);
      }
      JoinStep(first, m, part, Walk(first, records[..n]), Repairs(pre, records[..n]), records[n]);
    }
  }

  /** The intervals of a window cut in two are those of the parts: a failure open at the cut has closed
      the last interval of the first part, which there has no tag, and in the whole takes the type of
      the first repair in the second part; and an interval running at the cut is as long as it was
      before the cut and after it. */
  lemma IntervalsJoin(log: seq<Record>, a: int, m: int, b: int)
    requires Sorted(log) && a <= m <= b
    requires forall i :: 0 <= i < |log| ==> log[i].recordedAt != m && Recognized(log[i].status)
    ensures WindowWalk(log, a, b).intervals ==
            Joined(WindowWalk(log, a, m), m, Repairs(StatusBefore(log, m), Window(log, m, b)), WindowWalk(log, m, b).intervals)
  {
    WindowSplits(log, a, m, b);
    WalkConcat(Init(StatusBefore(log, a), a), Window(log, a, m), Window(log, m, b));
    StatusAtCut(log, a, m);
    MarksTell(StatusBefore(log, a), a, Window(log, a, m));
    TimeConserved(StatusBefore(log, a), a, Window(log, a, m));
    WalksJoined(WindowWalk(log, a, m), m, StatusBefore(log, m), Window(log, m, b));
  }

  lemma {:induction false} TaggedConcat(a: seq<Interval>, b: seq<Interval>, tag: string)
    ensures Tagged(a + b, tag) == Tagged(a, tag) + Tagged(b, tag)
  {
    if b == [] {
      assert a + b == a;
    } else {
      assert (a + b)[..|a + b| - 1] == a + b[..|b| - 1];
      TaggedConcat(a, b[..|b| - 1], tag);
    }
  }

  lemma {:induction false} SumConcat(xs: seq<int>, ys: seq<int>)
    ensures Sum(xs + ys) == Sum(xs) + Sum(ys)
  {
    if ys == [] {
      assert xs + ys == xs;
    } else {
      assert (xs + ys)[..|xs + ys| - 1] == xs + ys[..|ys| - 1];
      SumConcat(xs, ys[..|ys| - 1]);
    }
  }

  lemma TaggedOne(interval: Interval, tag: string)
    ensures Tagged([interval], tag) == if interval.recoveryType == Some(tag) then [interval.duration] else []
  {
    assert [interval][..0] == [];
  }

  /** The first part's last interval, closed by the failure open at the cut, gets its tag after the cut. */
  ghost predicate TagsLast(first: State, repairs: seq<Record>, tag: string) {
    first.failureOnset.Some? && first.intervals != [] && repairs != [] && repairs[0].recoveryType == Some(tag)
  }

  lemma TaggedSettled(first: State, repairs: seq<Record>, tag: string)
    requires first.failureOnset.Some? && first.intervals != [] ==> first.intervals[|first.intervals| - 1].recoveryType == None
    ensures |Tagged(Settled(first, repairs), tag)| ==
            |Tagged(first.intervals, tag)| + if TagsLast(first, repairs, tag) then 1 else 0
    ensures Sum(Tagged(Settled(first, repairs), tag)) ==
            Sum(Tagged(first.intervals, tag)) +
            if TagsLast(first, repairs, tag) then first.intervals[|first.intervals| - 1].duration else 0
  {
    if first.failureOnset.Some? && first.intervals != [] && repairs != [] {
      TaggedRetagged(first.intervals, repairs[0].recoveryType, tag);
    }
  }

  lemma TaggedRetagged(intervals: seq<Interval>, recoveryType: Option<string>, tag: string)
    requires intervals != [] && intervals[|intervals| - 1].recoveryType == None
    ensures |Tagged(Retagged(intervals, recoveryType), tag)| ==
            |Tagged(intervals, tag)| + if recoveryType == Some(tag) then 1 else 0
    ensures Sum(Tagged(Retagged(intervals, recoveryType), tag)) ==
            Sum(Tagged(intervals, tag)) + if recoveryType == Some(tag) then intervals[|intervals| - 1].duration else 0
  {
    var n := |intervals| - 1;
    assert Retagged(intervals, recoveryType)[..n] == intervals[..n];
    assert Tagged(intervals[..n], tag) + [] == Tagged(intervals[..n], tag) == Tagged(intervals, tag);
    SumAppend(Tagged(intervals[..n], tag), intervals[n].duration);
  }

  lemma TaggedLengthened(intervals: seq<Interval>, extra: int, tag: string)
    ensures |Tagged(Lengthened(intervals, extra), tag)| == |Tagged(intervals, tag)|
    ensures Sum(Tagged(Lengthened(intervals, extra), tag)) ==
            Sum(Tagged(intervals, tag)) + if intervals != [] && intervals[0].recoveryType == Some(tag) then extra else 0
  {
    if intervals != [] {
      var longer := Interval(intervals[0].duration + extra, intervals[0].recoveryType);
      assert intervals == [intervals[0]] + intervals[1..];
      TaggedConcat([intervals[0]], intervals[1..], tag);
      TaggedConcat([longer], intervals[1..], tag);
      TaggedOne(intervals[0], tag);
      TaggedOne(longer, tag);
      SumConcat(Tagged([intervals[0]], tag), Tagged(intervals[1..], tag));
      SumConcat(Tagged([longer], tag), Tagged(intervals[1..], tag));
    }
  }

  /** How many intervals each mean time between failures is taken over, and their total, for a window
      and its parts. */
  ghost predicate TaggedAdditive(first: State, m: int, repairs: seq<Record>, part: State, whole: State, tag: string) {
    && |Tagged(whole.intervals, tag)| == |Tagged(first.intervals, tag)| + |Tagged(part.intervals, tag)| +
         (if TagsLast(first, repairs, tag) then 1 else 0)
    && Sum(Tagged(whole.intervals, tag)) == Sum(Tagged(first.intervals, tag)) + Sum(Tagged(part.intervals, tag)) +
         (if TagsLast(first, repairs, tag) then first.intervals[|first.intervals| - 1].duration else 0) +
         (if first.operationalStart.Some? && part.intervals != [] && part.intervals[0].recoveryType == Some(tag)
          then m - first.operationalStart.value else 0)
  }

  lemma TaggedJoined(first: State, m: int, repairs: seq<Record>, part: State, whole: State, tag: string)
    requires whole.intervals == Joined(first, m, repairs, part.intervals)
    requires first.failureOnset.Some? && first.intervals != [] ==> first.intervals[|first.intervals| - 1].recoveryType == None
    ensures TaggedAdditive(first, m, repairs, part, whole, tag)
  {
    var extra := if first.operationalStart.Some? then m - first.operationalStart.value else 0;
    TaggedBoth(Settled(first, repairs), Lengthened(part.intervals, extra), tag);
    TaggedSettled(first, repairs, tag);
    TaggedLengthened(part.intervals, extra, tag);
  }

  lemma TaggedBoth(a: seq<Interval>, b: seq<Interval>, tag: string)
    ensures |Tagged(a + b, tag)| == |Tagged(a, tag)| + |Tagged(b, tag)|
    ensures Sum(Tagged(a + b, tag)) == Sum(Tagged(a, tag)) + Sum(Tagged(b, tag))
  {
    TaggedConcat(a, b, tag);
    SumConcat(Tagged(a, tag), Tagged(b, tag));
  }

  /** Cut a window at an instant without a record.  Behind each mean time between failures, the counts
      and totals of the two parts add up to those of the whole, except that an interval closed by a
      failure open at the cut counts only in the whole, under the type of the second part's first
      repair, and an interval running at the cut loses its time before the cut. */
  lemma TaggedWindowsAdd(log: seq<Record>, a: int, m: int, b: int, tag: string)
    requires Sorted(log) && a <= m <= b
    requires forall i :: 0 <= i < |log| ==> log[i].recordedAt != m && Recognized(log[i].status)
    ensures TaggedAdditive(WindowWalk(log, a, m), m, Repairs(StatusBefore(log, m), Window(log, m, b)),
                           WindowWalk(log, m, b), WindowWalk(log, a, b), tag)
  {
    IntervalsJoin(log, a, m, b);
    LastUntagged(StatusBefore(log, a), a, Window(log, a, m));
    TaggedJoined(WindowWalk(log, a, m), m, Repairs(StatusBefore(log, m), Window(log, m, b)),
                 WindowWalk(log, m, b), WindowWalk(log, a, b), tag);
  }

  lemma LastUntagged(pre: Option<string>, startTime: int, records: seq<Record>)
    ensures var s := Walk(Init(pre, startTime), records);
            s.failureOnset.Some? && s.intervals != [] ==> s.intervals[|s.intervals| - 1].recoveryType == None
  {
    IntervalsCarryTheirRepair(pre, startTime, records);
  }
}
