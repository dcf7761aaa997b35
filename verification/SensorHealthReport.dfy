/**
 The metrics of a sensor as they are reported, in terms of its repairs
 (`SurveillanceOperations._calculate_sensor_health_metrics`).
 */
module SensorHealthReport {
  import opened Options
  import opened SensorHealthMetrics
  import opened SensorHealthTagging

  // ---------- Averages ----------

  lemma {:induction false} SumBounds(xs: seq<int>, low: int, high: int)
    requires forall k :: 0 <= k < |xs| ==> low <= xs[k] <= high
    ensures low * |xs| <= Sum(xs) <= high * |xs|
  {
    if xs != [] {
      SumBounds(xs[..|xs| - 1], low, high);
    }
  }

  /** A mean there is of some values only, and as many times as there are values it makes up their total. */
  ghost predicate IsMean(mean: Option<real>, xs: seq<int>) {
    (mean.None? <==> xs == []) && (mean.Some? ==> mean.value * |xs| as real == Sum(xs) as real)
  }

  lemma AverageIsMean(xs: seq<int>)
    ensures IsMean(Average(xs), xs)
  {
  }

  /** A mean lies between any bounds that all values have. */
  lemma MeanBounds(mean: Option<real>, xs: seq<int>, low: int, high: int)
    requires IsMean(mean, xs) && forall k :: 0 <= k < |xs| ==> low <= xs[k] <= high
    ensures mean.None? <==> xs == []
    ensures mean.Some? ==> low as real <= mean.value <= high as real
  {
    SumBounds(xs, low, high);
    if mean.Some? {
      RealProduct(low, |xs|);
      RealProduct(high, |xs|);
      FactorBounds(mean.value, |xs| as real, low as real, high as real);
    }
  }

  lemma RealProduct(a: int, n: int)
    ensures (a * n) as real == a as real * n as real
  {
  }

  /** The average, by its laws alone. */
  lemma AverageLaws(xs: seq<int>, low: int, high: int)
    requires forall k :: 0 <= k < |xs| ==> low <= xs[k] <= high
    ensures Average(xs).None? <==> xs == []
    ensures xs != [] ==> Average(xs).value * |xs| as real == Sum(xs) as real
    ensures xs != [] ==> low as real <= Average(xs).value <= high as real
  {
    AverageIsMean(xs);
    MeanBounds(Average(xs), xs, low, high);
  }

  lemma FactorBounds(q: real, n: real, low: real, high: real)
    requires n > 0.0 && low * n <= q * n <= high * n
    ensures low <= q <= high
  {
    if q < low {
      SmallerProduct(q, low, n);
    }
    if high < q {
      SmallerProduct(high, q, n);
    }
  }

  lemma SmallerProduct(a: real, b: real, n: real)
    requires a < b && n > 0.0
    ensures a * n < b * n
  {
    assert (b - a) * n > 0.0;
    assert b * n == a * n + (b - a) * n;
  }

  // ---------- Repairs and intervals by type ----------

  function OfType(repairs: seq<Record>, recoveryType: string): seq<Record> {
    if repairs == [] then []
    else
      var n := |repairs| - 1;
      OfType(repairs[..n], recoveryType) + if repairs[n].recoveryType == Some(recoveryType) then [repairs[n]] else []
  }

  /** The durations of the intervals whose repair is of a given type; the repair of interval `k` is
      number `k`, or `k + 1` if the first repair belongs to no interval. */
  function Credited(durations: seq<int>, repairs: seq<Record>, unmatched: nat, recoveryType: string): seq<int> {
    if durations == [] then []
    else
      var n := |durations| - 1;
      Credited(durations[..n], repairs, unmatched, recoveryType) +
      if n + unmatched < |repairs| && repairs[n + unmatched].recoveryType == Some(recoveryType) then [durations[n]] else []
  }

  lemma {:induction false} TaggedIsCredited(intervals: seq<Interval>, repairs: seq<Record>, unmatched: nat, tag: string)
    requires forall k :: 0 <= k < |intervals| ==>
               intervals[k].recoveryType ==
               if k + unmatched < |repairs| then repairs[k + unmatched].recoveryType else None
    ensures Tagged(intervals, tag) == Credited(Durations(intervals), repairs, unmatched, tag)
  {
    if intervals != [] {
      var n := |intervals| - 1;
      TaggedIsCredited(intervals[..n], repairs, unmatched, tag);
      assert Durations(intervals)[..n] == Durations(intervals[..n]);
    }
  }

  lemma {:induction false} AutomaticCount(recoveries: seq<int>, repairs: seq<Record>)
    requires |recoveries| == |repairs|
    ensures |Automatic(recoveries, repairs)| == |OfType(repairs, "automatic")|
  {
    if repairs != [] {
      AutomaticCount(recoveries[..|repairs| - 1], repairs[..|repairs| - 1]);
    }
  }

  lemma RecoveriesByType(pre: Option<string>, startTime: int, records: seq<Record>)
    ensures var s, repairs := Walk(Init(pre, startTime), records), Repairs(pre, records);
            && |s.recoveries| == |repairs|
            && s.autoRecoveries == Automatic(s.recoveries, repairs)
            && |s.autoRecoveries| == |OfType(repairs, "automatic")|
  {
    AutomaticRecoveries(pre, startTime, records);
    AutomaticCount(Walk(Init(pre, startTime), records).recoveries, Repairs(pre, records));
  }

  lemma IntervalsByType(pre: Option<string>, startTime: int, records: seq<Record>, tag: string)
    ensures var s := Walk(Init(pre, startTime), records);
            Tagged(s.intervals, tag) == Credited(Durations(s.intervals), Repairs(pre, records), Unmatched(pre, records), tag)
  {
    IntervalsCarryTheirRepair(pre, startTime, records);
    TaggedIsCredited(Walk(Init(pre, startTime), records).intervals, Repairs(pre, records), Unmatched(pre, records), tag);
  }

  /** The report field by field: repairs and their types are counted, and every mean time is the total
      of the durations it is taken over, divided by their number. */
  lemma ReportFields(preWindowStatus: Option<string>, startTime: int, records: seq<Record>, m: Metrics)
    requires m == MetricsOf(Walk(Init(preWindowStatus, startTime), records))
    ensures var s, repairs := Walk(Init(preWindowStatus, startTime), records), Repairs(preWindowStatus, records);
            var unmatched, automatic := Unmatched(preWindowStatus, records), OfType(repairs, "automatic");
            && m.failureCount == |repairs| == |s.recoveries|
            && m.autoRecoveryCount == |automatic| && m.manualRecoveryCount == |repairs| - |automatic|
            && IsMean(m.mttr, s.recoveries) && IsMean(m.autoRecoveryTime, Automatic(s.recoveries, repairs))
            && IsMean(m.mtbfAuto, Credited(Durations(s.intervals), repairs, unmatched, "automatic"))
            && IsMean(m.mtbfManual, Credited(Durations(s.intervals), repairs, unmatched, "manual"))
  {
    var s := Walk(Init(preWindowStatus, startTime), records);
    RecoveriesByType(preWindowStatus, startTime, records);
    IntervalsByType(preWindowStatus, startTime, records, "automatic");
    IntervalsByType(preWindowStatus, startTime, records, "manual");
    AverageIsMean(s.recoveries);
    AverageIsMean(s.autoRecoveries);
    AverageIsMean(Tagged(s.intervals, "automatic"));
    AverageIsMean(Tagged(s.intervals, "manual"));
  }

  // ---------- What counts as what ----------

  /** Degraded and outage are failures, operational is not, and nothing else is recognized. */
  lemma StatusNames(status: string)
    ensures ConditionOf(status) == Failed <==> status in {"degraded", "outage"}
    ensures ConditionOf(status) == Working <==> status == "operational"
    ensures Recognized(status) <==> status in {"degraded", "outage", "operational"}
  {
  }

  /** One failure, of either kind, in a window that begins with the sensor working, and its repair. */
  lemma OneFailure(status: string, recoveryType: string, start: int, failedAt: int, repairedAt: int)
    requires status in {"degraded", "outage"} && recoveryType in {"automatic", "manual"}
    ensures var records := [Record(status, None, failedAt), Record("operational", Some(recoveryType), repairedAt)];
            var repair, up := Some((repairedAt - failedAt) as real), Some((failedAt - start) as real);
            MetricsOf(Walk(Init(Some("operational"), start), records)) ==
            if recoveryType == "automatic" then Metrics(repair, repair, up, None, 1, 1, 0)
            else Metrics(repair, None, None, up, 1, 0, 1)
  {
    var repair, up := repairedAt - failedAt, failedAt - start;
    OneFailureWalk(status, recoveryType, start, failedAt, repairedAt);
    SingleAverage(repair);
    SingleAverage(up);
    SingleTagged(Interval(up, Some(recoveryType)), "automatic");
    SingleTagged(Interval(up, Some(recoveryType)), "manual");
  }

  lemma OneFailureWalk(status: string, recoveryType: string, start: int, failedAt: int, repairedAt: int)
    requires status in {"degraded", "outage"}
    ensures var records := [Record(status, None, failedAt), Record("operational", Some(recoveryType), repairedAt)];
            Walk(Init(Some("operational"), start), records) ==
            State(None, Some(repairedAt), [repairedAt - failedAt],
                  if recoveryType == "automatic" then [repairedAt - failedAt] else [],
                  [Interval(failedAt - start, Some(recoveryType))])
  {
    var a, b := Record(status, None, failedAt), Record("operational", Some(recoveryType), repairedAt);
    WalkTwo(Init(Some("operational"), start), a, b);
    assert Step(Init(Some("operational"), start), a) ==
           State(Some(failedAt), None, [], [], [Interval(failedAt - start, None)]);
  }

  lemma SingleAverage(x: int)
    ensures Average([x]) == Some(x as real)
  {
    assert [x][..0] == [];
    assert Sum([x]) == x;
    assert x as real / 1.0 == x as real;
  }

  lemma SingleTagged(interval: Interval, tag: string)
    ensures Tagged([interval], tag) == if interval.recoveryType == Some(tag) then [interval.duration] else []
  {
    assert [interval][..0] == [];
  }

  // ---------- The report ----------

  /** The loop over the records. */
  method WalkRecords(records: seq<Record>, preWindowStatus: Option<string>, startTime: int)
    returns (recoveries: seq<int>, autoRecoveries: seq<int>, intervals: seq<Interval>)
    ensures var s := Walk(Init(preWindowStatus, startTime), records);
            recoveries == s.recoveries && autoRecoveries == s.autoRecoveries && intervals == s.intervals
  {
    var currentFailureOnset: Option<int>, operationalStart: Option<int> := None, None;
    if preWindowStatus.Some? && Failing(preWindowStatus.value) {
      currentFailureOnset := Some(startTime);
    } else if preWindowStatus == Some("operational") {
      operationalStart := Some(startTime);
    }
    recoveries, autoRecoveries, intervals := [], [], [];
    ghost var init := Init(preWindowStatus, startTime);
    for i := 0 to |records|
      invariant State(currentFailureOnset, operationalStart, recoveries, autoRecoveries, intervals)
             == Walk(init, records[..i])
    {
      var record := records[i];
      ghost var before := State(currentFailureOnset, operationalStart, recoveries, autoRecoveries, intervals);
      if Failing(record.status) {
        if currentFailureOnset.None? {
          if operationalStart.Some? {
            intervals := intervals + [Interval(record.recordedAt - operationalStart.value, None)];
          }
          currentFailureOnset := Some(record.recordedAt);
          operationalStart := None;
        }
        assert State(currentFailureOnset, operationalStart, recoveries, autoRecoveries, intervals) == Step(before, record);
      } else if record.status == "operational" {
        if currentFailureOnset.Some? {
          var duration := record.recordedAt - currentFailureOnset.value;
          recoveries := recoveries + [duration];
          if record.recoveryType == Some("automatic") {
            autoRecoveries := autoRecoveries + [duration];
          }
          operationalStart := Some(record.recordedAt);
          currentFailureOnset := None;
          if intervals != [] {
            var last := intervals[|intervals| - 1];
            intervals := intervals[|intervals| - 1 := Interval(last.duration, record.recoveryType)];
          }
          assert intervals == Retagged(before.intervals, record.recoveryType);
        } else {
          if operationalStart.None? {
            operationalStart := Some(record.recordedAt);
          }
        }
        assert State(currentFailureOnset, operationalStart, recoveries, autoRecoveries, intervals) == Step(before, record);
      }
      WalkNext(init, records, i);
    }
    assert records[..|records|] == records;
  }

  method CalculateSensorHealthMetrics(records: seq<Record>, preWindowStatus: Option<string>, startTime: int)
    returns (m: Metrics)
    ensures m == MetricsOf(Walk(Init(preWindowStatus, startTime), records))
    ensures var s, repairs := Walk(Init(preWindowStatus, startTime), records), Repairs(preWindowStatus, records);
            var unmatched, automatic := Unmatched(preWindowStatus, records), OfType(repairs, "automatic");
            && m.failureCount == |repairs| == |s.recoveries|
            && m.autoRecoveryCount == |automatic| && m.manualRecoveryCount == |repairs| - |automatic|
            && IsMean(m.mttr, s.recoveries) && IsMean(m.autoRecoveryTime, Automatic(s.recoveries, repairs))
            && IsMean(m.mtbfAuto, Credited(Durations(s.intervals), repairs, unmatched, "automatic"))
            && IsMean(m.mtbfManual, Credited(Durations(s.intervals), repairs, unmatched, "manual"))
  {
    var recoveries, autoRecoveries, intervals := WalkRecords(records, preWindowStatus, startTime);
    var autoIntervals := SelectTagged(intervals, "automatic");
    var manualIntervals := SelectTagged(intervals, "manual");
    m := Metrics(Average(recoveries), Average(autoRecoveries), Average(autoIntervals), Average(manualIntervals),
                 |recoveries|, |autoRecoveries|, |recoveries| - |autoRecoveries|);
    ReportFields(preWindowStatus, startTime, records, m);
  }

  method SelectTagged(intervals: seq<Interval>, tag: string) returns (durations: seq<int>)
    ensures durations == Tagged(intervals, tag)
  {
    durations := [];
    for i := 0 to |intervals|
      invariant durations == Tagged(intervals[..i], tag)
    {
      assert intervals[..i + 1][..i] == intervals[..i];
      if intervals[i].recoveryType == Some(tag) {
        durations := durations + [intervals[i].duration];
      }
    }
    assert intervals[..|intervals|] == intervals;
  }
}
