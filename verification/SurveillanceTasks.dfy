/**
 The self-rescheduling tasks of a surveillance session
 (`TaskSchedulerService`, `send_heartbeat_to_consumer`, `send_and_generate_track_to_consumer`,
 `start_stop_surveillance_session`).

 A tick is three atomic steps: it begins and looks at the stop key and the expiry; it records its
 event; it enqueues its successor.  Time passes and other steps happen in between.  Times are
 seconds.
 */
module SurveillanceTasks {

  const COUNTDOWN: real := 1.0
  const EXPIRY: real := 60.0
  const STOP_KEY_TTL: real := 300.0
  const TARGET_RATE_HZ: real := 1.0

  datatype Kind = Heartbeat | Track

  /** Where the one task of a chain is. */
  datatype Phase = Queued(eta: real) | Running | Recorded | Done

  /** `begun` lists the ticks that got past the stop key and the expiry, by the time they began;
      `dispatched` the events they recorded. */
  datatype Chain = Chain(
    scheduledAt: real, expires: real, phase: Phase, begun: seq<real>, dispatched: seq<real>)

  /** Which chain: heartbeats or tracks of one session. */
  datatype ChainId = ChainId(session: string, kind: Kind)

  datatype World = World(
    now: real, sessions: set<string>, stopUntil: map<string, real>, chains: map<ChainId, Chain>)

  /** The parts of a tick.  An exception may end the chain in the middle of one. */
  datatype Part = Begins | Records | Requeues | Fails

  datatype Action =
    | Advance(seconds: real)
    | Start(session: string)
    | Stop(session: string)
    | Tick(id: ChainId, part: Part)

  // ---------- One step ----------

  predicate StopKeyExists(w: World, session: string) {
    session in w.stopUntil && w.now < w.stopUntil[session]
  }

  function NewChain(now: real): Chain {
    Chain(now, now + EXPIRY, Queued(now + COUNTDOWN), [], [])
  }

  /** One part of a tick at time `now`; parts out of turn do nothing. */
  function TickPart(c: Chain, part: Part, now: real, stopKeyExists: bool): Chain {
    match part
    case Begins =>
      if !(c.phase.Queued? && c.phase.eta <= now) then c
      else if stopKeyExists then c.(phase := Done)
      else if now > c.expires then c.(phase := Done)
      else c.(phase := Running, begun := c.begun + [now])
    case Records =>
      if c.phase.Running? then c.(phase := Recorded, dispatched := c.dispatched + [now]) else c
    case Requeues =>
      if c.phase.Recorded? then c.(phase := Queued(now + COUNTDOWN)) else c
    case Fails =>
      if c.phase.Running? || c.phase.Recorded? then c.(phase := Done) else c
  }

  function Step(w: World, a: Action): World {
    match a
    case Advance(seconds) => if seconds >= 0.0 then w.(now := w.now + seconds) else w
    case Start(session) =>
      if session in w.sessions then w
      else w.(sessions := w.sessions + {session},
              chains := w.chains[ChainId(session, Heartbeat) := NewChain(w.now)]
                                [ChainId(session, Track) := NewChain(w.now)])
    case Stop(session) =>
      if session in w.sessions then w.(stopUntil := w.stopUntil[session := w.now + STOP_KEY_TTL]) else w
    case Tick(id, part) =>
      if id in w.chains
      then w.(chains := w.chains[id := TickPart(w.chains[id], part, w.now, StopKeyExists(w, id.session))])
      else w
  }

  function Run(w: World, actions: seq<Action>): World {
    if actions == [] then w else Step(Run(w, actions[..|actions| - 1]), actions[|actions| - 1])
  }

  function Initial(): World {
    World(0.0, {}, map[], map[])
  }

  // ---------- The same as operations on shared state ----------

  class SurveillanceService {
    var now: real
    var sessions: set<string>
    var stopUntil: map<string, real>
    var chains: map<ChainId, Chain>

    ghost function Contents(): World
      reads this
    {
      World(now, sessions, stopUntil, chains)
    }

    method StartSession(session: string) returns (status: int)
      modifies this
      ensures Contents() == Step(old(Contents()), Start(session))
      ensures status == if session in old(sessions) then 400 else 200
      ensures status == 400 ==> sessions == old(sessions) && chains == old(chains)
      ensures status == 200 ==>
                var begun := Chain(now, now + 60.0, Queued(now + 1.0), [], []);
                && sessions == old(sessions) + {session}
                && chains == old(chains)[ChainId(session, Heartbeat) := begun][ChainId(session, Track) := begun]
      ensures now == old(now) && stopUntil == old(stopUntil)
    {
      if session in sessions {
        return 400;
      }
      sessions := sessions + {session};
      chains := chains[ChainId(session, Heartbeat) := NewChain(now)];
      chains := chains[ChainId(session, Track) := NewChain(now)];
      status := 200;
    }

    method StopSession(session: string) returns (status: int)
      modifies this
      ensures Contents() == Step(old(Contents()), Stop(session))
      ensures status == if session in old(sessions) then 200 else 400
      ensures stopUntil == if status == 200 then old(stopUntil)[session := now + 300.0] else old(stopUntil)
      ensures now == old(now) && sessions == old(sessions) && chains == old(chains)
    {
      if session !in sessions {
        return 400;
      }
      stopUntil := stopUntil[session := now + STOP_KEY_TTL];
      status := 200;
    }

    method TickBegins(id: ChainId)
      modifies this
      ensures Contents() == Step(old(Contents()), Tick(id, Begins))
      ensures id !in old(chains) || !old(chains)[id].phase.Queued? || now < old(chains)[id].phase.eta ==> chains == old(chains)
      ensures id in old(chains) && old(chains)[id].phase.Queued? && old(chains)[id].phase.eta <= now ==>
                var c := old(chains)[id];
                var stopped := id.session in stopUntil && now < stopUntil[id.session];
                chains == old(chains)[id := if stopped || c.expires < now then c.(phase := Done)
                                            else c.(phase := Running, begun := c.begun + [now])]
      ensures now == old(now) && sessions == old(sessions) && stopUntil == old(stopUntil)
    {
      if id in chains && chains[id].phase.Queued? && chains[id].phase.eta <= now {
        var c := chains[id];
        if id.session in stopUntil && now < stopUntil[id.session] {
          chains := chains[id := c.(phase := Done)];
          return;
        }
        if now > c.expires {
          chains := chains[id := c.(phase := Done)];
          return;
        }
        chains := chains[id := c.(phase := Running, begun := c.begun + [now])];
      } else {
        assert id in chains ==> chains[id := chains[id]] == chains;
      }
    }

    method TickRecords(id: ChainId)
      requires id in chains && chains[id].phase.Running?
      modifies this
      ensures Contents() == Step(old(Contents()), Tick(id, Records))
      ensures chains == old(chains)[id := old(chains)[id].(phase := Recorded, dispatched := old(chains)[id].dispatched + [now])]
      ensures now == old(now) && sessions == old(sessions) && stopUntil == old(stopUntil)
    {
      var c := chains[id];
      chains := chains[id := c.(phase := Recorded, dispatched := c.dispatched + [now])];
    }

    method TickRequeues(id: ChainId)
      requires id in chains && chains[id].phase.Recorded?
      modifies this
      ensures Contents() == Step(old(Contents()), Tick(id, Requeues))
      ensures chains == old(chains)[id := old(chains)[id].(phase := Queued(now + 1.0))]
      ensures now == old(now) && sessions == old(sessions) && stopUntil == old(stopUntil)
    {
      chains := chains[id := chains[id].(phase := Queued(now + COUNTDOWN))];
    }
  }

  // ---------- What every run keeps ----------

  ghost predicate ChainOk(c: Chain, now: real) {
    && c.expires == c.scheduledAt + EXPIRY && c.scheduledAt <= now
    && (forall i :: 0 <= i < |c.begun| ==> c.scheduledAt + COUNTDOWN <= c.begun[i] <= c.expires && c.begun[i] <= now)
    && (forall i :: 0 <= i < |c.dispatched| ==> c.dispatched[i] <= now)
    && (forall i, j :: 0 <= i < j < |c.begun| ==> c.begun[i] + COUNTDOWN <= c.begun[j])
    && (forall i, j :: 0 <= i < j < |c.dispatched| ==> c.dispatched[i] + COUNTDOWN <= c.dispatched[j])
    && |c.dispatched| <= |c.begun|
    && (c.phase.Queued? ==>
          && c.scheduledAt + COUNTDOWN <= c.phase.eta
          && (forall i :: 0 <= i < |c.begun| ==> c.begun[i] + COUNTDOWN <= c.phase.eta)
          && (forall i :: 0 <= i < |c.dispatched| ==> c.dispatched[i] + COUNTDOWN <= c.phase.eta))
    && (c.phase.Running? ==>
          && |c.dispatched| < |c.begun|
          && forall i :: 0 <= i < |c.dispatched| ==> c.dispatched[i] + COUNTDOWN <= c.begun[|c.begun| - 1])
  }

  ghost predicate StopKeysOutlive(w: World) {
    forall id :: id in w.chains && id.session in w.stopUntil ==>
      w.chains[id].scheduledAt + STOP_KEY_TTL <= w.stopUntil[id.session]
  }

  ghost predicate Invariant(w: World) {
    && (forall id :: id in w.chains ==> ChainOk(w.chains[id], w.now))
    && (forall id :: id in w.chains ==> id.session in w.sessions)
    && w.stopUntil.Keys <= w.sessions
    && StopKeysOutlive(w)
  }

  lemma TickKeepsChain(c: Chain, part: Part, now: real, stopKeyExists: bool)
    requires ChainOk(c, now)
    ensures ChainOk(TickPart(c, part, now, stopKeyExists), now)
  {
  }

  lemma AdvanceKeepsChain(c: Chain, now: real, later: real)
    requires ChainOk(c, now) && now <= later
    ensures ChainOk(c, later)
  {
  }

  lemma StepKeepsInvariant(w: World, a: Action)
    requires Invariant(w)
    ensures Invariant(Step(w, a))
  {
    match a
    case Advance(seconds) =>
      forall id | id in w.chains ensures ChainOk(w.chains[id], Step(w, a).now) {
        AdvanceKeepsChain(w.chains[id], w.now, Step(w, a).now);
      }
    case Start(session) =>
    case Stop(session) =>
    case Tick(id, part) =>
      TickKeepsInvariant(w, id, part);
  }

  lemma TickKeepsInvariant(w: World, id: ChainId, part: Part)
    requires Invariant(w)
    ensures Invariant(Step(w, Tick(id, part)))
  {
    if id in w.chains {
      TickKeepsChain(w.chains[id], part, w.now, StopKeyExists(w, id.session));
      assert TickPart(w.chains[id], part, w.now, StopKeyExists(w, id.session)).scheduledAt == w.chains[id].scheduledAt;
    }
  }

  lemma {:induction false} RunKeepsInvariant(w: World, actions: seq<Action>)
    requires Invariant(w)
    ensures Invariant(Run(w, actions))
  {
    if actions != [] {
      RunKeepsInvariant(w, actions[..|actions| - 1]);
      StepKeepsInvariant(Run(w, actions[..|actions| - 1]), actions[|actions| - 1]);
    }
  }

  // ---------- Stopping ----------

  ghost predicate SameWork(w: World, w': World, id: ChainId) {
    && id.session in w'.stopUntil && id in w.chains && id in w'.chains
    && w'.chains[id].begun == w.chains[id].begun
  }

  /** In a stopped session no step begins work: either the stop key is still there, or so much time
      has passed that the chain has expired. */
  lemma StepAfterStop(w: World, a: Action, id: ChainId)
    requires Invariant(w) && id.session in w.stopUntil && id in w.chains
    ensures SameWork(w, Step(w, a), id)
  {
    assert ChainOk(w.chains[id], w.now);
    assert w.chains[id].expires < w.stopUntil[id.session];
  }

  /** Once a session has been stopped, no tick of it does any work that had not begun before: the
      stop key outlives the expiry of every chain it could have. */
  lemma {:induction false} NoWorkAfterStop(w: World, actions: seq<Action>, id: ChainId)
    requires Invariant(w) && id.session in w.stopUntil && id in w.chains
    ensures SameWork(w, Run(w, actions), id)
  {
    if actions != [] {
      var before := actions[..|actions| - 1];
      NoWorkAfterStop(w, before, id);
      RunKeepsInvariant(w, before);
      StepAfterStop(Run(w, before), actions[|actions| - 1], id);
    }
  }

  /** The same from the start of the system: cut any run at any stop of a running session. */
  lemma StopIsFinal(before: seq<Action>, id: ChainId, after: seq<Action>)
    requires id in Run(Initial(), before).chains
    ensures SameWork(Run(Initial(), before), Run(Step(Run(Initial(), before), Stop(id.session)), after), id)
  {
    RunKeepsInvariant(Initial(), before);
    StopHere(Run(Initial(), before), id, after);
  }

  lemma StopHere(w: World, id: ChainId, after: seq<Action>)
    requires Invariant(w) && id in w.chains
    ensures SameWork(w, Run(Step(w, Stop(id.session)), after), id)
  {
    StepKeepsInvariant(w, Stop(id.session));
    NoWorkAfterStop(Step(w, Stop(id.session)), after, id);
  }

  // ---------- How much a chain does ----------

  /** On every run, a chain executes at most 60 ticks, all of them within a minute of its start. */
  lemma AtMostSixtyTicks(actions: seq<Action>, id: ChainId)
    requires id in Run(Initial(), actions).chains
    ensures var c := Run(Initial(), actions).chains[id];
            && |c.dispatched| <= |c.begun| <= 60
            && forall i :: 0 <= i < |c.begun| ==> c.scheduledAt < c.begun[i] <= c.scheduledAt + EXPIRY
  {
    RunKeepsInvariant(Initial(), actions);
    BegunSpaced(Run(Initial(), actions).chains[id], Run(Initial(), actions).now);
  }

  lemma BegunSpaced(c: Chain, now: real)
    requires ChainOk(c, now)
    ensures |c.begun| <= 60
  {
    SpacedGaps(c.begun);
    if c.begun != [] {
      assert c.begun[0] + (|c.begun| - 1) as real <= c.begun[|c.begun| - 1];
    }
  }

  /** One undisturbed tick every second. */
  function Rounds(id: ChainId, n: nat): seq<Action> {
    if n == 0 then []
    else Rounds(id, n - 1) + [Advance(1.0)] + [Tick(id, Begins)] + [Tick(id, Records)] + [Tick(id, Requeues)]
  }

  ghost predicate AfterRounds(w: World, id: ChainId, n: nat) {
    && w.now == n as real && w.stopUntil == map[] && id in w.chains
    && w.chains[id].expires == EXPIRY && w.chains[id].phase == Queued(n as real + COUNTDOWN)
    && |w.chains[id].begun| == |w.chains[id].dispatched| == n
    && forall i :: 0 <= i < n ==> w.chains[id].begun[i] == w.chains[id].dispatched[i] == i as real + 1.0
  }

  /** The bound is reached: an undisturbed chain executes all 60 ticks. */
  lemma {:induction false} SixtyTicksReached(id: ChainId, n: nat)
    requires n <= 60
    ensures AfterRounds(Run(Step(Initial(), Start(id.session)), Rounds(id, n)), id, n)
  {
    var start := Step(Initial(), Start(id.session));
    if n == 0 {
      assert id.kind == Heartbeat || id.kind == Track;
    } else {
      SixtyTicksReached(id, n - 1);
      RunFour(start, Rounds(id, n - 1), Advance(1.0), Tick(id, Begins), Tick(id, Records), Tick(id, Requeues));
      OneRound(Run(start, Rounds(id, n - 1)), id, n - 1);
    }
  }

  lemma OneRound(w: World, id: ChainId, n: nat)
    requires AfterRounds(w, id, n) && n < 60
    ensures AfterRounds(Step(Step(Step(Step(w, Advance(1.0)), Tick(id, Begins)), Tick(id, Records)), Tick(id, Requeues)), id, n + 1)
  {
  }

  lemma RunFour(w: World, actions: seq<Action>, a: Action, b: Action, c: Action, d: Action)
    ensures Run(w, actions + [a] + [b] + [c] + [d]) == Step(Step(Step(Step(Run(w, actions), a), b), c), d)
  {
    RunAppend(w, actions, a);
    RunAppend(w, actions + [a], b);
    RunAppend(w, actions + [a] + [b], c);
    RunAppend(w, actions + [a] + [b] + [c], d);
  }

  lemma RunAppend(w: World, actions: seq<Action>, a: Action)
    ensures Run(w, actions + [a]) == Step(Run(w, actions), a)
  {
  }

  // ---------- The measured heartbeat rate ----------

  /** The events of a closed query window. */
  function InWindow(events: seq<real>, from_: real, to_: real): seq<real> {
    if events == [] then []
    else
      var n := |events| - 1;
      InWindow(events[..n], from_, to_) + if from_ <= events[n] <= to_ then [events[n]] else []
  }

  /** `_calculate_heartbeat_rate`, without rounding. */
  function HeartbeatRate(events: seq<real>): real {
    var total := |events|;
    if total >= 2 then
      var span := events[total - 1] - events[0];
      if span > 0.0 then (total - 1) as real / span else 0.0
    else 0.0
  }

  /** The measured rate times the time between the first and the last event is the number of events
      after the first; without such a time there is no rate. */
  lemma RateLaw(events: seq<real>)
    ensures |events| < 2 || events[|events| - 1] <= events[0] ==> HeartbeatRate(events) == 0.0
    ensures |events| >= 2 && events[0] < events[|events| - 1] ==>
              HeartbeatRate(events) * (events[|events| - 1] - events[0]) == (|events| - 1) as real
  {
  }

  /** An undisturbed chain is measured at exactly the target of one heartbeat a second. */
  lemma UndisturbedRate(session: string, n: nat)
    requires 2 <= n <= 60
    ensures var id := ChainId(session, Heartbeat);
            var w := Run(Step(Initial(), Start(session)), Rounds(id, n));
            id in w.chains && HeartbeatRate(InWindow(w.chains[id].dispatched, 0.0, 60.0)) == 1.0
  {
    var id := ChainId(session, Heartbeat);
    SixtyTicksReached(id, n);
    var events := Run(Step(Initial(), Start(session)), Rounds(id, n)).chains[id].dispatched;
    AllInWindow(events, 0.0, 60.0);
    assert events[n - 1] - events[0] == (n - 1) as real;
    RateLaw(events);
    RateOne((n - 1) as real, HeartbeatRate(events));
  }

  lemma RateOne(n: real, rate: real)
    requires n > 0.0 && rate * n == n
    ensures rate == 1.0
  {
    assert (rate - 1.0) * n == 0.0;
  }

  lemma {:induction false} AllInWindow(events: seq<real>, from_: real, to_: real)
    requires forall i :: 0 <= i < |events| ==> from_ <= events[i] <= to_
    ensures InWindow(events, from_, to_) == events
  {
    if events != [] {
      AllInWindow(events[..|events| - 1], from_, to_);
    }
  }

  /** The query finds exactly the events of the closed window, in order. */
  lemma WindowByOne(events: seq<real>, last: real, from_: real, to_: real)
    ensures InWindow(events + [last], from_, to_) ==
            InWindow(events, from_, to_) + if from_ <= last && last <= to_ then [last] else []
  {
    assert (events + [last])[..|events|] == events;
  }

  ghost predicate Spaced(events: seq<real>) {
    forall i, j :: 0 <= i < j < |events| ==> events[i] + COUNTDOWN <= events[j]
  }

  lemma SpacedGaps(events: seq<real>)
    requires Spaced(events)
    ensures forall k :: 0 <= k < |events| ==> events[0] + k as real <= events[k]
  {
    for k := 0 to |events|
      invariant forall i :: 0 <= i < k ==> events[0] + i as real <= events[i]
    {
      assert k > 0 ==> events[k - 1] + COUNTDOWN <= events[k];
    }
  }

  lemma {:induction false} WindowSpaced(events: seq<real>, from_: real, to_: real)
    requires Spaced(events)
    ensures var w := InWindow(events, from_, to_);
            Spaced(w) && (w != [] ==> events != [] && w[|w| - 1] <= events[|events| - 1])
  {
    if events != [] {
      var n := |events| - 1;
      WindowSpaced(events[..n], from_, to_);
      var w := InWindow(events[..n], from_, to_);
      if n > 0 {
        assert events[n - 1] + COUNTDOWN <= events[n];
      }
    }
  }

  lemma RateBound(n: int, span: real)
    requires n >= 1 && span >= n as real
    ensures n as real / span <= 1.0
  {
  }

  /** On every run and for every query window, the heartbeat rate measured over one chain is at
      most the target rate. */
  lemma RateNeverAboveTarget(actions: seq<Action>, session: string, from_: real, to_: real)
    requires ChainId(session, Heartbeat) in Run(Initial(), actions).chains
    ensures var c := Run(Initial(), actions).chains[ChainId(session, Heartbeat)];
            HeartbeatRate(InWindow(c.dispatched, from_, to_)) <= 1.0 == TARGET_RATE_HZ
  {
    RunKeepsInvariant(Initial(), actions);
    var c := Run(Initial(), actions).chains[ChainId(session, Heartbeat)];
    ChainRate(c, Run(Initial(), actions).now, from_, to_);
  }

  lemma ChainRate(c: Chain, now: real, from_: real, to_: real)
    requires ChainOk(c, now)
    ensures HeartbeatRate(InWindow(c.dispatched, from_, to_)) <= TARGET_RATE_HZ
  {
    WindowSpaced(c.dispatched, from_, to_);
    SpacedRate(InWindow(c.dispatched, from_, to_));
  }

  lemma SpacedRate(events: seq<real>)
    requires Spaced(events)
    ensures HeartbeatRate(events) <= TARGET_RATE_HZ
  {
    if |events| >= 2 {
      SpacedGaps(events);
      RateBound(|events| - 1, events[|events| - 1] - events[0]);
    }
  }
}
