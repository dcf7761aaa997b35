/**
 The health row, change log and notifications of surveillance sensors
 (`SQLAlchemySurveillanceRepository.update_sensor_health_status` and the queries on the log).
 */
module SensorHealthLog {
  import opened Options
  import opened SensorHealthMetrics

  datatype Tracking = Tracking(sensor: nat, record: Record)

  datatype Notification = Notification(
    sensor: nat, previousStatus: string, newStatus: string, recoveryType: Option<string>)

  datatype Log = Log(
    sensors: set<nat>, health: map<nat, string>, tracking: seq<Tracking>, notifications: seq<Notification>)

  datatype Update = Update(sensor: nat, newStatus: string, recoveryType: Option<string>, now: int)

  /** What one update makes of the log: nothing for an unknown sensor or an unchanged status, and
      otherwise a new health status with one tracking record and one notification. */
  function Updated(log: Log, u: Update): Log {
    if u.sensor !in log.sensors then log
    else if u.sensor in log.health && log.health[u.sensor] == u.newStatus then log
    else
      var previous := if u.sensor in log.health then log.health[u.sensor] else u.newStatus;
      Log(log.sensors, log.health[u.sensor := u.newStatus],
          log.tracking + [Tracking(u.sensor, Record(u.newStatus, u.recoveryType, u.now))],
          log.notifications + [Notification(u.sensor, previous, u.newStatus, u.recoveryType)])
  }

  class SurveillanceRepository {
    var sensors: set<nat>
    var health: map<nat, string>
    var tracking: seq<Tracking>
    var notifications: seq<Notification>

    ghost function Contents(): Log
      reads this
    {
      Log(sensors, health, tracking, notifications)
    }

    constructor (sensors: set<nat>)
      ensures Contents() == Log(sensors, map[], [], [])
    {
      this.sensors, health, tracking, notifications := sensors, map[], [], [];
    }

    method UpdateSensorHealthStatus(sensor: nat, newStatus: string, recoveryType: Option<string>, now: int)
      returns (ok: bool)
      modifies this
      ensures ok <==> sensor in old(sensors)
      ensures Contents() == Updated(old(Contents()), Update(sensor, newStatus, recoveryType, now))
      ensures sensors == old(sensors)
      ensures if !ok || (sensor in old(health) && old(health)[sensor] == newStatus)
              then health == old(health) && tracking == old(tracking) && notifications == old(notifications)
              else
                && health == old(health)[sensor := newStatus]
                && tracking == old(tracking) + [Tracking(sensor, Record(newStatus, recoveryType, now))]
                && notifications == old(notifications) +
                     [Notification(sensor, if sensor in old(health) then old(health)[sensor] else newStatus, newStatus, recoveryType)]
    {
      if sensor !in sensors {
        return false;
      }
      var previousStatus: string;
      if sensor !in health {
        health := health[sensor := newStatus];
        previousStatus := newStatus;
      } else {
        previousStatus := health[sensor];
        if previousStatus == newStatus {
          return true;
        }
        health := health[sensor := newStatus];
      }
      tracking := tracking + [Tracking(sensor, Record(newStatus, recoveryType, now))];
      notifications := notifications + [Notification(sensor, previousStatus, newStatus, recoveryType)];
      ok := true;
    }
  }

  // ---------- Agreement of the three tables ----------

  /** The change log of one sensor. */
  function RecordsOf(tracking: seq<Tracking>, sensor: nat): seq<Record> {
    if tracking == [] then []
    else
      var n := |tracking| - 1;
      RecordsOf(tracking[..n], sensor) + if tracking[n].sensor == sensor then [tracking[n].record] else []
  }

  function NotificationsOf(notifications: seq<Notification>, sensor: nat): seq<Notification> {
    if notifications == [] then []
    else
      var n := |notifications| - 1;
      NotificationsOf(notifications[..n], sensor) + if notifications[n].sensor == sensor then [notifications[n]] else []
  }

  function RunUpdates(log: Log, updates: seq<Update>): Log {
    if updates == [] then log
    else Updated(RunUpdates(log, updates[..|updates| - 1]), updates[|updates| - 1])
  }

  ghost predicate TablesAgree(health: map<nat, string>, sensor: nat, records: seq<Record>, notices: seq<Notification>) {
    && (sensor in health <==> records != [])
    && (records != [] ==> health[sensor] == records[|records| - 1].status)
    && (forall i :: 1 <= i < |records| ==> records[i].status != records[i - 1].status)
    && |notices| == |records|
    && (forall i :: 0 <= i < |records| ==>
          notices[i] == Notification(sensor, records[if i == 0 then 0 else i - 1].status,
                                     records[i].status, records[i].recoveryType))
  }

  ghost predicate Agreement(log: Log, sensor: nat) {
    TablesAgree(log.health, sensor, RecordsOf(log.tracking, sensor), NotificationsOf(log.notifications, sensor))
  }

  ghost predicate ClockRuns(updates: seq<Update>) {
    forall i, j :: 0 <= i < j < |updates| ==> updates[i].now <= updates[j].now
  }

  lemma AppendTables(log: Log, u: Update, sensor: nat)
    ensures var after := Updated(log, u);
            var logged := u.sensor in log.sensors && !(u.sensor in log.health && log.health[u.sensor] == u.newStatus);
            && RecordsOf(after.tracking, sensor) == RecordsOf(log.tracking, sensor) +
                 (if logged && u.sensor == sensor then [Record(u.newStatus, u.recoveryType, u.now)] else [])
            && NotificationsOf(after.notifications, sensor) == NotificationsOf(log.notifications, sensor) +
                 (if logged && u.sensor == sensor
                  then [Notification(sensor, if sensor in log.health then log.health[sensor] else u.newStatus,
                                     u.newStatus, u.recoveryType)] else [])
  {
    var after := Updated(log, u);
    if after != log {
      assert after.tracking[..|log.tracking|] == log.tracking;
      assert after.notifications[..|log.notifications|] == log.notifications;
    }
  }

  lemma UpdateKeepsAgreement(log: Log, u: Update, sensor: nat)
    requires Agreement(log, sensor)
    ensures Agreement(Updated(log, u), sensor)
  {
    AppendTables(log, u, sensor);
    var records, notices := RecordsOf(log.tracking, sensor), NotificationsOf(log.notifications, sensor);
    assert records + [] == records && notices + [] == notices;
    if Updated(log, u) != log && u.sensor == sensor {
      ChangeKeepsTables(log.health, sensor, records, notices, u);
    }
  }

  lemma ChangeKeepsTables(health: map<nat, string>, sensor: nat, records: seq<Record>, notices: seq<Notification>, u: Update)
    requires TablesAgree(health, sensor, records, notices)
    requires sensor in health ==> health[sensor] != u.newStatus
    ensures var previous := if sensor in health then health[sensor] else u.newStatus;
            TablesAgree(health[sensor := u.newStatus], sensor,
                        records + [Record(u.newStatus, u.recoveryType, u.now)],
                        notices + [Notification(sensor, previous, u.newStatus, u.recoveryType)])
  {
  }

  /** After every run of updates, for every sensor: the health row is the newest status in the
      change log, consecutive statuses in the log differ, and the notifications tell the same story
      record by record, each naming the status before it. */
  lemma {:induction false} TablesAlwaysAgree(sensors: set<nat>, updates: seq<Update>, sensor: nat)
    ensures Agreement(RunUpdates(Log(sensors, map[], [], []), updates), sensor)
  {
    if updates != [] {
      TablesAlwaysAgree(sensors, updates[..|updates| - 1], sensor);
      UpdateKeepsAgreement(RunUpdates(Log(sensors, map[], [], []), updates[..|updates| - 1]),
                           updates[|updates| - 1], sensor);
    }
  }

  /** With a clock that does not run backwards, the change log is in time order. */
  lemma {:induction false} LogSorted(sensors: set<nat>, updates: seq<Update>, sensor: nat)
    requires ClockRuns(updates)
    ensures var records := RecordsOf(RunUpdates(Log(sensors, map[], [], []), updates).tracking, sensor);
            if updates == [] then records == [] else SortedUpTo(records, updates[|updates| - 1].now)
  {
    if updates != [] {
      var n := |updates| - 1;
      LogSorted(sensors, updates[..n], sensor);
      UpdateKeepsSorted(RunUpdates(Log(sensors, map[], [], []), updates[..n]), updates[n], sensor);
    }
  }

  ghost predicate SortedUpTo(records: seq<Record>, t: int) {
    Sorted(records) && (records != [] ==> records[|records| - 1].recordedAt <= t)
  }

  lemma UpdateKeepsSorted(log: Log, u: Update, sensor: nat)
    requires SortedUpTo(RecordsOf(log.tracking, sensor), u.now)
    ensures SortedUpTo(RecordsOf(Updated(log, u).tracking, sensor), u.now)
  {
    AppendTables(log, u, sensor);
    var records := RecordsOf(log.tracking, sensor);
    if RecordsOf(Updated(log, u).tracking, sensor) != records {
      SortedAppend(records, Record(u.newStatus, u.recoveryType, u.now));
    }
  }

  lemma SortedAppend(records: seq<Record>, r: Record)
    requires SortedUpTo(records, r.recordedAt)
    ensures SortedUpTo(records + [r], r.recordedAt)
  {
  }

  // ---------- The status before a given time ----------

  /** An answer the database may give to "newest record before `t`"; records with the same time
      stamp may come in any order. */
  ghost predicate IsStatusBefore(records: seq<Record>, t: int, answer: Option<string>) {
    if exists i :: 0 <= i < |records| && records[i].recordedAt < t
    then exists i :: IsNewestBefore(records, t, i) && answer == Some(records[i].status)
    else answer == None
  }

  ghost predicate IsNewestBefore(records: seq<Record>, t: int, i: int) {
    && 0 <= i < |records| && records[i].recordedAt < t
    && forall j :: 0 <= j < |records| && records[j].recordedAt < t ==> records[j].recordedAt <= records[i].recordedAt
  }

  /** Asked later than the last change, the log can only answer with the health row, if and only if
      the last two changes do not carry the same time stamp. */
  lemma StatusNowIsHealthIff(health: map<nat, string>, sensor: nat, records: seq<Record>, notices: seq<Notification>, t: int)
    requires TablesAgree(health, sensor, records, notices) && Sorted(records)
    requires records != [] && records[|records| - 1].recordedAt < t
    ensures (forall answer :: IsStatusBefore(records, t, answer) ==> answer == Some(health[sensor])) <==>
            (|records| == 1 || records[|records| - 2].recordedAt < records[|records| - 1].recordedAt)
  {
    var n := |records|;
    if n >= 2 && records[n - 2].recordedAt == records[n - 1].recordedAt {
      assert IsNewestBefore(records, t, n - 2);
      assert IsStatusBefore(records, t, Some(records[n - 2].status));
    } else {
      assert forall i :: IsNewestBefore(records, t, i) ==> i == n - 1;
    }
  }

  /** Two changes at one instant: after any two updates of a sensor with different statuses and the
      same time stamp, the log may answer with the first although the health row has the second. */
  lemma TiedChangesMislead(sensor: nat, first: string, second: string, recoveryType: Option<string>, now: int, t: int)
    requires first != second && now < t
    ensures var updates := [Update(sensor, first, recoveryType, now), Update(sensor, second, recoveryType, now)];
            var log := RunUpdates(Log({sensor}, map[], [], []), updates);
            && sensor in log.health && log.health[sensor] == second
            && IsStatusBefore(RecordsOf(log.tracking, sensor), t, Some(first))
  {
    var u0, u1 := Update(sensor, first, recoveryType, now), Update(sensor, second, recoveryType, now);
    var empty := Log({sensor}, map[], [], []);
    assert [u0, u1][..1] == [u0] && [u0][..0] == [];
    assert RunUpdates(empty, [u0]) == Updated(empty, u0);
    var log := RunUpdates(empty, [u0, u1]);
    var t0, t1 := Tracking(sensor, Record(first, recoveryType, now)), Tracking(sensor, Record(second, recoveryType, now));
    assert log.tracking == [t0, t1];
    assert [t0, t1][..1] == [t0] && [t0][..0] == [];
    assert RecordsOf([t0], sensor) == [t0.record];
    var records := RecordsOf(log.tracking, sensor);
    assert records == [t0.record, t1.record];
    assert IsNewestBefore(records, t, 0);
  }
}
