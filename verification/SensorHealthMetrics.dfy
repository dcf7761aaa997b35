/**
 Repair and up-time metrics of a surveillance sensor over a time window
 (`SurveillanceOperations._calculate_sensor_health_metrics`).
 Times and durations are whole ticks of one clock; averages are exact.
 */
module SensorHealthMetrics {
  import opened Options

  datatype Record = Record(status: string, recoveryType: Option<string>, recordedAt: int)

  datatype Interval = Interval(duration: int, recoveryType: Option<string>)

  predicate Failing(status: string) {
    status == "degraded" || status == "outage"
  }

  predicate Recognized(status: string) {
    Failing(status) || status == "operational"
  }

  // ---------- The walk over the records ----------

  /** The variables of the loop. */
  datatype State = State(
    failureOnset: Option<int>, operationalStart: Option<int>,
    recoveries: seq<int>, autoRecoveries: seq<int>, intervals: seq<Interval>)

  function Init(preWindowStatus: Option<string>, startTime: int): State {
    match preWindowStatus
    case None => State(None, None, [], [], [])
    case Some(status) =>
      State(if Failing(status) then Some(startTime) else None,
            if status == "operational" then Some(startTime) else None, [], [], [])
  }

  /** The last interval re-tagged with the way its failure was repaired. */
  function Retagged(intervals: seq<Interval>, recoveryType: Option<string>): seq<Interval> {
    if intervals == [] then []
    else
      var n := |intervals| - 1;
      intervals[n := Interval(intervals[n].duration, recoveryType)]
  }

  function Step(s: State, r: Record): State {
    if Failing(r.status) then
      if s.failureOnset.None? then
        s.(intervals := if s.operationalStart.Some?
                        then s.intervals + [Interval(r.recordedAt - s.operationalStart.value, None)]
                        else s.intervals,
           failureOnset := Some(r.recordedAt), operationalStart := None)
      else s
    else if r.status == "operational" then
      if s.failureOnset.Some? then
        var duration := r.recordedAt - s.failureOnset.value;
        State(None, Some(r.recordedAt), s.recoveries + [duration],
              if r.recoveryType == Some("automatic") then s.autoRecoveries + [duration] else s.autoRecoveries,
              Retagged(s.intervals, r.recoveryType))
      else if s.operationalStart.None? then s.(operationalStart := Some(r.recordedAt))
      else s
    else s
  }

  function Walk(s: State, records: seq<Record>): State {
    if records == [] then s
    else Step(Walk(s, records[..|records| - 1]), records[|records| - 1])
  }

  lemma WalkNext(s: State, records: seq<Record>, i: nat)
    requires i < |records|
    ensures Walk(s, records[..i + 1]) == Step(Walk(s, records[..i]), records[i])
  {
    assert records[..i + 1][..i] == records[..i];
  }

  // ---------- The metrics ----------

  function Sum(xs: seq<int>): int {
    if xs == [] then 0 else Sum(xs[..|xs| - 1]) + xs[|xs| - 1]
  }

  function Average(xs: seq<int>): Option<real> {
    if xs == [] then None else Some(Sum(xs) as real / |xs| as real)
  }

  /** Durations of the intervals with a given tag. */
  function Tagged(intervals: seq<Interval>, tag: string): seq<int> {
    if intervals == [] then []
    else
      var n := |intervals| - 1;
      Tagged(intervals[..n], tag) + if intervals[n].recoveryType == Some(tag) then [intervals[n].duration] else []
  }

  datatype Metrics = Metrics(
    mttr: Option<real>, autoRecoveryTime: Option<real>, mtbfAuto: Option<real>, mtbfManual: Option<real>,
    failureCount: int, autoRecoveryCount: int, manualRecoveryCount: int)

  function MetricsOf(s: State): Metrics {
    Metrics(Average(s.recoveries), Average(s.autoRecoveries),
            Average(Tagged(s.intervals, "automatic")), Average(Tagged(s.intervals, "manual")),
            |s.recoveries|, |s.autoRecoveries|, |s.recoveries| - |s.autoRecoveries|)
  }

  // ---------- Conservation of time ----------

  predicate AtMostOneMark(s: State) {
    s.failureOnset.None? || s.operationalStart.None?
  }

  /** When the current failure or operational period began. */
  function Mark(s: State): Option<int> {
    if s.failureOnset.Some? then s.failureOnset else s.operationalStart
  }

  function Durations(intervals: seq<Interval>): seq<int> {
    seq(|intervals|, i requires 0 <= i < |intervals| => intervals[i].duration)
  }

  /** Repair time plus up-time. */
  function Accounted(s: State): int {
    Sum(s.recoveries) + Sum(Durations(s.intervals))
  }

  /** When the walk first knew the sensor's condition: at the start of the window, if the status
      before it was known, or else at the first recognized record. */
  function FirstMark(preWindowStatus: Option<string>, startTime: int, records: seq<Record>): Option<int> {
    if preWindowStatus.Some? && Recognized(preWindowStatus.value) then Some(startTime)
    else if records == [] then None
    else if Recognized(records[0].status) then Some(records[0].recordedAt)
    else FirstMark(preWindowStatus, startTime, records[1..])
  }

  lemma SumAppend(xs: seq<int>, x: int)
    ensures Sum(xs + [x]) == Sum(xs) + x
  {
  }

  lemma RetaggedDurations(intervals: seq<Interval>, recoveryType: Option<string>)
    ensures Durations(Retagged(intervals, recoveryType)) == Durations(intervals)
    ensures |Retagged(intervals, recoveryType)| == |intervals|
  {
  }

  lemma StepConserves(s: State, r: Record)
    requires AtMostOneMark(s)
    ensures AtMostOneMark(Step(s, r))
    ensures Mark(s).Some? ==>
              (Mark(Step(s, r)).Some? &&
               Accounted(Step(s, r)) - Accounted(s) == Mark(Step(s, r)).value - Mark(s).value)
    ensures Mark(s).None? ==>
              (Accounted(Step(s, r)) == Accounted(s) &&
               Mark(Step(s, r)) == if Recognized(r.status) then Some(r.recordedAt) else None)
  {
    if s.failureOnset.Some? {
      SumAppend(s.recoveries, r.recordedAt - s.failureOnset.value);
      RetaggedDurations(s.intervals, r.recoveryType);
    } else if s.operationalStart.Some? {
      var interval := Interval(r.recordedAt - s.operationalStart.value, None);
      SumAppend(Durations(s.intervals), interval.duration);
      assert Durations(s.intervals + [interval]) == Durations(s.intervals) + [interval.duration];
    }
  }

  lemma {:induction false} FirstMarkAppend(pre: Option<string>, startTime: int, records: seq<Record>, r: Record)
    ensures FirstMark(pre, startTime, records + [r]) ==
            if FirstMark(pre, startTime, records).Some? then FirstMark(pre, startTime, records)
            else if Recognized(r.status) then Some(r.recordedAt) else None
  {
    if records == [] {
      assert records + [r] == [r];
      assert [r][1..] == [];
    } else {
      assert (records + [r])[1..] == records[1..] + [r];
      FirstMarkAppend(pre, startTime, records[1..], r);
    }
  }

  /** Time is conserved: repair durations and operational intervals together fill exactly the time
      from when the sensor's condition was first known to when its current period began. */
  lemma {:induction false} TimeConserved(pre: Option<string>, startTime: int, records: seq<Record>)
    ensures var s := Walk(Init(pre, startTime), records);
            && AtMostOneMark(s)
            && (Mark(s).Some? <==> FirstMark(pre, startTime, records).Some?)
            && (Mark(s).Some? ==> Accounted(s) == Mark(s).value - FirstMark(pre, startTime, records).value)
            && (Mark(s).None? ==> s == State(None, None, [], [], []))
  {
    if records != [] {
      var n := |records| - 1;
      TimeConserved(pre, startTime, records[..n]);
      StepConserves(Walk(Init(pre, startTime), records[..n]), records[n]);
      assert records == records[..n] + [records[n]];
      FirstMarkAppend(pre, startTime, records[..n], records[n]);
    }
  }

  ghost predicate Sorted(records: seq<Record>) {
    forall i, j :: 0 <= i < j < |records| ==> records[i].recordedAt <= records[j].recordedAt
  }

  /** On records in time order, no duration is negative. */
  lemma {:induction false} DurationsNonNegative(pre: Option<string>, startTime: int, records: seq<Record>)
    requires Sorted(records) && forall i :: 0 <= i < |records| ==> startTime <= records[i].recordedAt
    ensures var s := Walk(Init(pre, startTime), records);
            && (forall k :: 0 <= k < |s.recoveries| ==> s.recoveries[k] >= 0)
            && (forall k :: 0 <= k < |s.intervals| ==> s.intervals[k].duration >= 0)
            && (Mark(s).Some? ==> Mark(s).value <= if records == [] then startTime else records[|records| - 1].recordedAt)
  {
    if records != [] {
      var n := |records| - 1;
      DurationsNonNegative(pre, startTime, records[..n]);
      TimeConserved(pre, startTime, records[..n]);
    }
  }

  // ---------- Walking on ----------

  lemma {:induction false} WalkConcat(s: State, a: seq<Record>, b: seq<Record>)
    ensures Walk(s, a + b) == Walk(Walk(s, a), b)
  {
    if b == [] {
      assert a + b == a;
    } else {
      assert (a + b)[..|a + b| - 1] == a + b[..|b| - 1];
      WalkConcat(s, a, b[..|b| - 1]);
    }
  }

  lemma WalkOne(s: State, before: seq<Record>, r: Record)
    ensures Walk(s, before + [r]) == Step(Walk(s, before), r)
  {
    assert (before + [r])[..|before|] == before;
  }
}
