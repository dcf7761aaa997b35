/**
 Which repair each operational interval of a sensor is credited to
 (the tags behind the two mean times between failures).
 */
module SensorHealthTagging {
  import opened Options
  import opened SensorHealthMetrics

  datatype Condition = Unknown | Failed | Working

  function ConditionOf(status: string): Condition {
    if Failing(status) then Failed else if status == "operational" then Working else Unknown
  }

  /** The sensor's condition after the records: that of the last recognized status. */
  function ConditionAfter(pre: Option<string>, records: seq<Record>): Condition {
    if records == [] then if pre.Some? then ConditionOf(pre.value) else Unknown
    else
      var last := ConditionOf(records[|records| - 1].status);
      if last != Unknown then last else ConditionAfter(pre, records[..|records| - 1])
  }

  /** The condition that was known first. */
  function FirstCondition(pre: Option<string>, records: seq<Record>): Condition {
    if records == [] then ConditionAfter(pre, [])
    else
      var n := |records| - 1;
      var earlier := FirstCondition(pre, records[..n]);
      if earlier != Unknown then earlier else ConditionOf(records[n].status)
  }

  /** The records that repair a failure: operational ones that find the sensor failed. */
  function Repairs(pre: Option<string>, records: seq<Record>): seq<Record> {
    if records == [] then []
    else
      var n := |records| - 1;
      Repairs(pre, records[..n]) +
      if ConditionOf(records[n].status) == Working && ConditionAfter(pre, records[..n]) == Failed
      then [records[n]] else []
  }

  /** The records that end an operational period: failures that find the sensor working. */
  function Breakdowns(pre: Option<string>, records: seq<Record>): seq<Record> {
    if records == [] then []
    else
      var n := |records| - 1;
      Breakdowns(pre, records[..n]) +
      if ConditionOf(records[n].status) == Failed && ConditionAfter(pre, records[..n]) == Working
      then [records[n]] else []
  }

  /** Repairs of a failure that was there when the sensor's condition was first known belong to no
      interval. */
  function Unmatched(pre: Option<string>, records: seq<Record>): nat {
    if FirstCondition(pre, records) == Failed then 1 else 0
  }

  /** When breakdown or repair number `i` happened; before the first one counts the time `first`
      when the sensor's condition was first known. */
  function TimeOf(events: seq<Record>, i: int, first: int): int
    requires i < |events|
  {
    if i < 0 then first else events[i].recordedAt
  }

  /** The walk's lists in terms of the repairs and breakdowns alone: how many there are, ... */
  ghost predicate CountsAgree(s: State, condition: Condition, repairs: seq<Record>, breakdowns: seq<Record>, o: nat) {
    && (s.failureOnset.Some? <==> condition == Failed)
    && (s.operationalStart.Some? <==> condition == Working)
    && |s.recoveries| == |repairs| && |s.intervals| == |breakdowns| && o <= 1
    && |breakdowns| + o == |repairs| + (if condition == Failed then 1 else 0)
  }

  /** ... which repair each interval is tagged with, ... */
  ghost predicate TagsAgree(s: State, repairs: seq<Record>, o: nat) {
    forall k :: 0 <= k < |s.intervals| ==>
      s.intervals[k].recoveryType == if k + o < |repairs| then repairs[k + o].recoveryType else None
  }

  /** ... and how long everything took. */
  ghost predicate TimesAgree(s: State, condition: Condition, repairs: seq<Record>, breakdowns: seq<Record>, o: nat, first: int)
    requires CountsAgree(s, condition, repairs, breakdowns, o)
  {
    && (forall k :: 0 <= k < |s.recoveries| ==>
          s.recoveries[k] == repairs[k].recordedAt - TimeOf(breakdowns, k - o, first))
    && (forall k :: 0 <= k < |s.intervals| ==>
          s.intervals[k].duration == breakdowns[k].recordedAt - TimeOf(repairs, k + o - 1, first))
    && (condition == Failed ==> s.failureOnset == Some(TimeOf(breakdowns, |breakdowns| - 1, first)))
    && (condition == Working ==> s.operationalStart == Some(TimeOf(repairs, |repairs| - 1, first)))
  }

  ghost predicate Agree(s: State, condition: Condition, repairs: seq<Record>, breakdowns: seq<Record>, o: nat, first: Option<int>) {
    && CountsAgree(s, condition, repairs, breakdowns, o)
    && TagsAgree(s, repairs, o)
    && (first.Some? <==> condition != Unknown)
    && (first.Some? ==> TimesAgree(s, condition, repairs, breakdowns, o, first.value))
    && (first.None? ==> repairs == [] && breakdowns == [])
  }

  ghost predicate ListsAgree(pre: Option<string>, startTime: int, records: seq<Record>, s: State) {
    Agree(s, ConditionAfter(pre, records), Repairs(pre, records), Breakdowns(pre, records),
          Unmatched(pre, records), FirstMark(pre, startTime, records))
  }

  lemma {:induction false} FirstConditionKnown(pre: Option<string>, records: seq<Record>)
    ensures FirstCondition(pre, records) == Unknown <==> ConditionAfter(pre, records) == Unknown
  {
    if records != [] {
      FirstConditionKnown(pre, records[..|records| - 1]);
    }
  }

  /** Interval `k` runs from the repair before it to the `k`-th breakdown and carries the recovery
      type of the repair that ended that breakdown: repair `k`, or repair `k + 1` if the sensor was
      first known failed.  Only the last interval can still be waiting for its repair, and then has
      no tag. */
  lemma {:induction false} IntervalsCarryTheirRepair(pre: Option<string>, startTime: int, records: seq<Record>)
    ensures ListsAgree(pre, startTime, records, Walk(Init(pre, startTime), records))
  {
    if records == [] {
      NoRecords(pre, startTime);
    } else {
      var n := |records| - 1;
      IntervalsCarryTheirRepair(pre, startTime, records[..n]);
      AgreeStep(Walk(Init(pre, startTime), records[..n]), ConditionAfter(pre, records[..n]),
                Repairs(pre, records[..n]), Breakdowns(pre, records[..n]),
                Unmatched(pre, records[..n]), FirstMark(pre, startTime, records[..n]), records[n]);
      OneRecordMore(pre, startTime, records);
    }
  }

  lemma NoRecords(pre: Option<string>, startTime: int)
    ensures ListsAgree(pre, startTime, [], Init(pre, startTime))
  {
  }

  lemma OneRecordMore(pre: Option<string>, startTime: int, records: seq<Record>)
    requires records != []
    ensures var before, r := records[..|records| - 1], records[|records| - 1];
            && Unmatched(pre, records) ==
                 (if ConditionAfter(pre, before) != Unknown then Unmatched(pre, before)
                  else if ConditionOf(r.status) == Failed then 1 else 0)
            && FirstMark(pre, startTime, records) ==
                 (if FirstMark(pre, startTime, before).Some? then FirstMark(pre, startTime, before)
                  else if Recognized(r.status) then Some(r.recordedAt) else None)
  {
    var n := |records| - 1;
    FirstConditionKnown(pre, records[..n]);
    assert records == records[..n] + [records[n]];
    FirstMarkAppend(pre, startTime, records[..n], records[n]);
  }

  lemma AgreeStep(s: State, condition: Condition, repairs: seq<Record>, breakdowns: seq<Record>,
                  o: nat, first: Option<int>, r: Record)
    requires Agree(s, condition, repairs, breakdowns, o, first)
    ensures var now := ConditionOf(r.status);
            Agree(Step(s, r), if now != Unknown then now else condition,
                  repairs + (if now == Working && condition == Failed then [r] else []),
                  breakdowns + (if now == Failed && condition == Working then [r] else []),
                  if condition != Unknown then o else if now == Failed then 1 else 0,
                  if first.Some? then first else if Recognized(r.status) then Some(r.recordedAt) else None)
  {
    var now := ConditionOf(r.status);
    assert repairs + [] == repairs && breakdowns + [] == breakdowns;
    if condition == Unknown {
      FirstKnown(s, o, r);
    } else if condition == Working && now == Failed {
      Breakdown(s, repairs, breakdowns, o, first, r);
    } else if condition == Failed && now == Working {
      Repair(s, repairs, breakdowns, o, first, r);
    }
  }

  lemma FirstKnown(s: State, o: nat, r: Record)
    requires Agree(s, Unknown, [], [], o, None)
    ensures var condition := ConditionOf(r.status);
            Agree(Step(s, r), condition, [], [], if condition == Failed then 1 else 0,
                  if condition == Unknown then None else Some(r.recordedAt))
  {
  }

  lemma Breakdown(s: State, repairs: seq<Record>, breakdowns: seq<Record>, o: nat, first: Option<int>, r: Record)
    requires Agree(s, Working, repairs, breakdowns, o, first) && ConditionOf(r.status) == Failed
    ensures Agree(Step(s, r), Failed, repairs, breakdowns + [r], o, first)
  {
    var s', breakdowns' := Step(s, r), breakdowns + [r];
    assert CountsAgree(s', Failed, repairs, breakdowns', o) && TagsAgree(s', repairs, o);
    forall k | 0 <= k < |s'.intervals|
      ensures s'.intervals[k].duration == breakdowns'[k].recordedAt - TimeOf(repairs, k + o - 1, first.value)
    {
    }
    forall k | 0 <= k < |s'.recoveries|
      ensures s'.recoveries[k] == repairs[k].recordedAt - TimeOf(breakdowns', k - o, first.value)
    {
      assert k - o < |breakdowns|;
    }
  }

  lemma Repair(s: State, repairs: seq<Record>, breakdowns: seq<Record>, o: nat, first: Option<int>, r: Record)
    requires Agree(s, Failed, repairs, breakdowns, o, first) && ConditionOf(r.status) == Working
    ensures Agree(Step(s, r), Working, repairs + [r], breakdowns, o, first)
  {
    var s', repairs' := Step(s, r), repairs + [r];
    assert CountsAgree(s', Working, repairs', breakdowns, o);
    forall k | 0 <= k < |s'.intervals|
      ensures s'.intervals[k].recoveryType == if k + o < |repairs'| then repairs'[k + o].recoveryType else None
    {
      assert k + o < |repairs| ==> repairs'[k + o] == repairs[k + o];
    }
    forall k | 0 <= k < |s'.intervals|
      ensures s'.intervals[k].duration == breakdowns[k].recordedAt - TimeOf(repairs', k + o - 1, first.value)
    {
      assert s'.intervals[k].duration == s.intervals[k].duration;
    }
  }

  /** The durations of the automatic ones among the repairs. */
  function Automatic(recoveries: seq<int>, repairs: seq<Record>): seq<int>
    requires |recoveries| == |repairs|
  {
    if repairs == [] then []
    else
      var n := |repairs| - 1;
      Automatic(recoveries[..n], repairs[..n]) +
      if repairs[n].recoveryType == Some("automatic") then [recoveries[n]] else []
  }

  /** The automatic recovery durations are those of the repairs recorded as automatic. */
  lemma {:induction false} AutomaticRecoveries(pre: Option<string>, startTime: int, records: seq<Record>)
    ensures var s, repairs := Walk(Init(pre, startTime), records), Repairs(pre, records);
            |s.recoveries| == |repairs| && s.autoRecoveries == Automatic(s.recoveries, repairs)
  {
    IntervalsCarryTheirRepair(pre, startTime, records);
    if records != [] {
      var before := records[..|records| - 1];
      AutomaticRecoveries(pre, startTime, before);
      IntervalsCarryTheirRepair(pre, startTime, before);
      AutomaticStep(Walk(Init(pre, startTime), before), Repairs(pre, before), records[|records| - 1]);
      assert Repairs(pre, before) + [] == Repairs(pre, before);
    }
  }

  lemma AutomaticStep(s: State, repairs: seq<Record>, r: Record)
    requires |s.recoveries| == |repairs| && s.autoRecoveries == Automatic(s.recoveries, repairs)
    ensures var s' := Step(s, r);
            if r.status == "operational" && s.failureOnset.Some?
            then |s'.recoveries| == |repairs + [r]| && s'.autoRecoveries == Automatic(s'.recoveries, repairs + [r])
            else s'.recoveries == s.recoveries && s'.autoRecoveries == s.autoRecoveries
  {
  }

  /** Repairs and closed intervals alternate, so their counts differ by at most one. */
  lemma CountsBalanced(pre: Option<string>, startTime: int, records: seq<Record>)
    ensures var s := Walk(Init(pre, startTime), records);
            -1 <= |s.recoveries| - |s.intervals| <= 1
  {
    IntervalsCarryTheirRepair(pre, startTime, records);
  }

  // ---------- Records that change nothing ----------

  /** The record's status is not recognized, or repeats the condition the sensor is in. */
  predicate Redundant(pre: Option<string>, before: seq<Record>, r: Record) {
    ConditionOf(r.status) == Unknown || ConditionOf(r.status) == ConditionAfter(pre, before)
  }

  /** Deleting a redundant record changes no metric. */
  lemma RedundantDeletable(pre: Option<string>, startTime: int, before: seq<Record>, r: Record, after: seq<Record>)
    requires Redundant(pre, before, r)
    ensures MetricsOf(Walk(Init(pre, startTime), before + [r] + after)) ==
            MetricsOf(Walk(Init(pre, startTime), before + after))
  {
    MarksTell(pre, startTime, before);
    WalkOne(Init(pre, startTime), before, r);
    WalkConcat(Init(pre, startTime), before + [r], after);
    WalkConcat(Init(pre, startTime), before, after);
  }

  /** What the sensor may report after a record that changes its condition so that the change shows:
      nothing if it repairs a failure, a repair if it is a failure itself, and a failure and a manual
      repair if it is the first to know the sensor working. */
  function Telltale(condition: Condition, r: Record): (after: seq<Record>) {
    var repair := Record("operational", Some("manual"), r.recordedAt);
    if ConditionOf(r.status) == Failed then [repair]
    else if condition == Failed then []
    else [Record("outage", None, r.recordedAt), repair]
  }

  lemma TelltaleShows(s: State, condition: Condition, r: Record)
    requires s.failureOnset.Some? <==> condition == Failed
    requires s.operationalStart.Some? <==> condition == Working
    requires condition == Unknown ==> s == State(None, None, [], [], [])
    requires ConditionOf(r.status) != Unknown && ConditionOf(r.status) != condition
    ensures MetricsOf(Walk(Step(s, r), Telltale(condition, r))) != MetricsOf(Walk(s, Telltale(condition, r)))
  {
    var after := Telltale(condition, r);
    if |after| == 1 {
      assert after[..0] == [];
    } else if |after| == 2 {
      WalkTwo(s, after[0], after[1]);
      WalkTwo(Step(s, r), after[0], after[1]);
      var known := Walk(Step(s, r), after).intervals;
      assert Tagged(known, "manual") == [0] by {
        assert known == [Interval(0, Some("manual"))];
        assert known[..0] == [];
      }
    }
  }

  lemma WalkTwo(s: State, a: Record, b: Record)
    ensures Walk(s, [a, b]) == Step(Step(s, a), b)
  {
    assert [a, b] == [a] + [b] && [a] == [] + [a];
    WalkOne(s, [], a);
    WalkOne(s, [a], b);
  }

  /** Which mark is set tells the sensor's condition. */
  lemma MarksTell(pre: Option<string>, startTime: int, records: seq<Record>)
    ensures var s, condition := Walk(Init(pre, startTime), records), ConditionAfter(pre, records);
            && (s.failureOnset.Some? <==> condition == Failed)
            && (s.operationalStart.Some? <==> condition == Working)
            && (condition == Unknown ==> s == State(None, None, [], [], []))
  {
    IntervalsCarryTheirRepair(pre, startTime, records);
    TimeConserved(pre, startTime, records);
  }

  /** Deleting any other record shows, if the right thing is recorded later. */
  lemma NotRedundantShows(pre: Option<string>, startTime: int, before: seq<Record>, r: Record)
    requires !Redundant(pre, before, r)
    ensures var after := Telltale(ConditionAfter(pre, before), r);
            MetricsOf(Walk(Init(pre, startTime), before + [r] + after)) !=
            MetricsOf(Walk(Init(pre, startTime), before + after))
  {
    var condition := ConditionAfter(pre, before);
    var after := Telltale(condition, r);
    MarksTell(pre, startTime, before);
    TelltaleShows(Walk(Init(pre, startTime), before), condition, r);
    WalkOne(Init(pre, startTime), before, r);
    WalkConcat(Init(pre, startTime), before + [r], after);
    WalkConcat(Init(pre, startTime), before, after);
  }

  /** A record can be deleted without changing a metric, whatever is recorded after it, if and only
      if it is redundant. */
  lemma RedundantIff(pre: Option<string>, startTime: int, before: seq<Record>, r: Record)
    ensures Redundant(pre, before, r) <==>
            forall after :: Sorted([r] + after) ==>
              MetricsOf(Walk(Init(pre, startTime), before + [r] + after)) ==
              MetricsOf(Walk(Init(pre, startTime), before + after))
  {
    if Redundant(pre, before, r) {
      forall after
        ensures MetricsOf(Walk(Init(pre, startTime), before + [r] + after)) ==
                MetricsOf(Walk(Init(pre, startTime), before + after))
      {
        RedundantDeletable(pre, startTime, before, r, after);
      }
    } else {
      NotRedundantShows(pre, startTime, before, r);
      assert Sorted([r] + Telltale(ConditionAfter(pre, before), r));
    }
  }
}
