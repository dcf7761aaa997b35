/**
 What rolled-back checks mean for the stored declarations.  `asyncio.run`, with which the engine
 clears the declaration index, raises inside a running event loop; if it always does, no two
 declarations accepted by a check are ever active at the same time.  And how the requests that make
 no check break safety, whether or not clearing raises.
 */
module DeconflictionRollback {
  import opened SpatialIndex
  import opened Deconfliction
  import opened DeconflictionSafety
  import opened DeconflictionExact
  import opened DeconflictionBatches

  const EMPTY := World([], [], 0, multiset{}, multiset{})

  // ---------- If clearing always raises ----------

  /** No two active rows overlap in time, wherever they are. */
  ghost predicate TimeDisjoint(rows: seq<Row>) {
    forall i, j :: 0 <= i < j < |rows| && IsActive(rows[i].state) && IsActive(rows[j].state) ==>
      !Overlaps(rows[i], rows[j].start, rows[j].end)
  }

  ghost predicate AlwaysRaises(request: Request) {
    match request
    case Create(_, clearRaises) => forall id :: clearRaises(id)
    case Bulk(_, clearRaises) => forall id :: clearRaises(id)
    case _ => true
  }

  lemma SaveAndCheckDisjoint(cfg: Config, w: World, fds: seq<Row>, clearRaises: nat -> bool)
    requires UniqueIds(w) && TimeDisjoint(w.rows) && Fresh(cfg, w, fds) && forall id :: clearRaises(id)
    ensures TimeDisjoint(SaveAndCheck(cfg, w, fds, clearRaises).rows)
  {
    if fds != [] && Completes(cfg, w, fds, clearRaises) {
      SaveAndCheckExact(cfg, w, fds, clearRaises);
      RequestRaisesIff(cfg, w, fds, clearRaises);
      forall k | 0 <= k < |fds| ensures !Compared(w.rows + fds, fds[k]) {
        assert !RaisesAt(w, fds, clearRaises, k);
      }
      NewRowsDisjoint(cfg, w, fds, Passing(cfg, w, fds), SaveAndCheck(cfg, w, fds, clearRaises).rows);
    }
  }

  lemma {:induction false} NewRowsDisjoint(cfg: Config, w: World, fds: seq<Row>, passes: nat -> bool, after: seq<Row>)
    requires UniqueIds(w) && TimeDisjoint(w.rows) && Fresh(cfg, w, fds) && RowsProcessed(w.rows, fds, passes, after)
    requires forall k :: 0 <= k < |fds| ==> !Compared(w.rows + fds, fds[k])
    ensures TimeDisjoint(after)
  {
    ActiveRowsStay(w.rows, fds, passes, after);
    SavedDisjoint(cfg, w, fds);
  }

  lemma {:induction false} ActiveRowsStay(rows: seq<Row>, fds: seq<Row>, passes: nat -> bool, after: seq<Row>)
    requires RowsProcessed(rows, fds, passes, after)
    ensures forall i :: 0 <= i < |after| && IsActive(after[i].state) ==> after[i] == (rows + fds)[i]
  {
    forall i | |rows| <= i < |after| && IsActive(after[i].state) ensures after[i] == (rows + fds)[i] {
      var k := i - |rows|;
      assert after[|rows| + k] == if passes(k) then fds[k] else Rejected(fds[k]);
    }
  }

  lemma SavedDisjoint(cfg: Config, w: World, fds: seq<Row>)
    requires UniqueIds(w) && TimeDisjoint(w.rows) && Fresh(cfg, w, fds)
    requires forall k :: 0 <= k < |fds| ==> !Compared(w.rows + fds, fds[k])
    ensures TimeDisjoint(w.rows + fds)
  {
    var saved, n := w.rows + fds, |w.rows|;
    SavedUnique(cfg, w, fds);
    forall i, j | 0 <= i < j < |saved| && IsActive(saved[i].state) && IsActive(saved[j].state)
      ensures !Overlaps(saved[i], saved[j].start, saved[j].end)
    {
      assert Saved(w, fds).rows[i].id != Saved(w, fds).rows[j].id;
      if j >= n {
        assert saved[j] == fds[j - n];
      }
    }
  }

  lemma WithoutDisjoint(w: World, id: nat)
    requires UniqueIds(w) && TimeDisjoint(w.rows)
    ensures TimeDisjoint(Without(w.rows, id))
  {
    if i :| 0 <= i < |w.rows| && w.rows[i].id == id {
      WithoutOne(w.rows, id, i);
    } else {
      WithoutAbsent(w.rows, id);
    }
  }

  lemma StepDisjoint(cfg: Config, w: World, request: Request)
    requires UniqueIds(w) && TimeDisjoint(w.rows) && NeedsNoGuard(request) && AlwaysRaises(request)
    ensures TimeDisjoint(Step(cfg, w, request).rows)
  {
    match request
    case Create(intent, clearRaises) =>
      NewRowsFresh(cfg, w, [intent]);
      SaveAndCheckDisjoint(cfg, w, NewRows([intent], cfg.DefaultState(), w.nextId), clearRaises);
    case Bulk(intents, clearRaises) =>
      NewRowsFresh(cfg, w, intents);
      SaveAndCheckDisjoint(cfg, w, NewRows(intents, cfg.DefaultState(), w.nextId), clearRaises);
    case CreateUnchecked(intent, state) =>
    case SetState(id, state) =>
    case Delete(id) => WithoutDisjoint(w, id);
    case ChangeFences(fences) =>
  }

  /** If clearing always raises, checked requests keep active declarations apart in time, even when
      they are far apart in space. */
  lemma {:induction false} RaisingRunDisjoint(cfg: Config, requests: seq<Request>)
    requires forall i :: 0 <= i < |requests| ==> NeedsNoGuard(requests[i]) && AlwaysRaises(requests[i])
    ensures TimeDisjoint(Run(cfg, EMPTY, requests).rows)
  {
    if requests != [] {
      var m := |requests| - 1;
      RaisingRunDisjoint(cfg, requests[..m]);
      CheckedRunSafe(cfg, requests[..m]);
      StepDisjoint(cfg, Run(cfg, EMPTY, requests[..m]), requests[m]);
    }
  }

  // ---------- Requests that make no check ----------

  lemma RunOneMore(cfg: Config, w: World, requests: seq<Request>, next: Request)
    ensures Run(cfg, w, requests + [next]) == Step(cfg, Run(cfg, w, requests), next)
  {
    assert (requests + [next])[..|requests|] == requests;
  }

  lemma RunOfTwo(cfg: Config, w: World, first: Request, second: Request)
    ensures Run(cfg, w, [first, second]) == Step(cfg, Step(cfg, w, first), second)
  {
    RunOneMore(cfg, w, [], first);
    RunOneMore(cfg, w, [first], second);
    assert [] + [first] == [first] && [first] + [second] == [first, second];
  }

  lemma ConflictingRowsUnsafe(w: World)
    requires |w.rows| == 2 && IsActive(w.rows[0].state) && IsActive(w.rows[1].state) && Conflict(w.rows[0], w.rows[1])
    ensures !Safe(w)
  {
  }

  /** Setting the second of two conflicting intents, submitted one after the other, to an active state
      makes both active if it was rejected, and changes nothing if it was rolled back because clearing
      the index raised. */
  lemma ReacceptingSafeIff(cfg: Config, a: Intent, b: Intent, clearRaises: nat -> bool, state: int)
    requires !cfg.usspNetworkEnabled && cfg.engineConfigured && a.Good? && b.Good? && IsActive(state)
    requires Extent(a.start, a.end, a.bounds).Conflicts(Extent(b.start, b.end, b.bounds))
    ensures var requests := [Create(a, clearRaises), Create(b, clearRaises)];
            && Safe(Run(cfg, EMPTY, requests))
            && (Safe(Run(cfg, EMPTY, requests + [SetState(1, state)])) <==> clearRaises(1))
  {
    var requests := [Create(a, clearRaises), Create(b, clearRaises)];
    CheckedRunSafe(cfg, requests);
    RivalsFromEmpty(cfg, a, b, clearRaises);
    RunOneMore(cfg, EMPTY, requests, SetState(1, state));
    AfterReaccepting(cfg, FirstRow(EMPTY, a), SecondRow(EMPTY, b), Run(cfg, EMPTY, requests), clearRaises(1), state);
  }

  lemma RivalsFromEmpty(cfg: Config, a: Intent, b: Intent, clearRaises: nat -> bool)
    requires !cfg.usspNetworkEnabled && cfg.engineConfigured && a.Good? && b.Good?
    requires Extent(a.start, a.end, a.bounds).Conflicts(Extent(b.start, b.end, b.bounds))
    ensures Run(cfg, EMPTY, [Create(a, clearRaises), Create(b, clearRaises)]).rows ==
            [] + [FirstRow(EMPTY, a)] + if clearRaises(1) then [] else [Rejected(SecondRow(EMPTY, b))]
  {
    assert OneByOne(cfg, EMPTY, [a, b], clearRaises).rows ==
           [] + [FirstRow(EMPTY, a)] + if clearRaises(1) then [] else [Rejected(SecondRow(EMPTY, b))] by {
      EmptyStoreIsFine(FirstRow(EMPTY, a), clearRaises);
      RivalsOneByOne(cfg, EMPTY, a, b, clearRaises);
    }
    CreatesOneByOne(cfg, a, b, clearRaises);
  }

  lemma EmptyStoreIsFine(r0: Row, clearRaises: nat -> bool)
    ensures FirstIsFine(EMPTY, r0, clearRaises) && UniqueIds(EMPTY)
  {
  }

  lemma CreatesOneByOne(cfg: Config, a: Intent, b: Intent, clearRaises: nat -> bool)
    ensures Run(cfg, EMPTY, [Create(a, clearRaises), Create(b, clearRaises)]) == OneByOne(cfg, EMPTY, [a, b], clearRaises)
  {
    RunOfTwo(cfg, EMPTY, Create(a, clearRaises), Create(b, clearRaises));
    OneByOneStep(cfg, EMPTY, [a, b], clearRaises, 1);
    OneByOneStep(cfg, EMPTY, [a, b], clearRaises, 2);
    assert [a, b][..0] == [] && [a, b][..1] == [a] && [a, b][..2] == [a, b];
  }

  lemma AfterReaccepting(cfg: Config, r0: Row, r1: Row, before: World, rolledBack: bool, state: int)
    requires Safe(before) && before.rows == [] + [r0] + if rolledBack then [] else [Rejected(r1)]
    requires r0.id != r1.id && IsActive(r0.state) && IsActive(state) && Conflict(r0, r1)
    ensures Safe(Step(cfg, before, SetState(r1.id, state))) <==> rolledBack
  {
    var after := UpdateState(before.rows, r1.id, state);
    assert after[0] == r0;
    if rolledBack {
      assert after == before.rows;
    } else {
      ConflictingRowsUnsafe(before.(rows := after));
    }
  }

  /** No check is needed to break safety: any two conflicting intents, created plainly in active
      states, or the second created inactive and then made active. */
  lemma UncheckedRequestsUnsafe(cfg: Config, a: Intent, b: Intent, active: int, alsoActive: int, inactive: int)
    requires a.Good? && b.Good? && IsActive(active) && IsActive(alsoActive) && !IsActive(inactive)
    requires Extent(a.start, a.end, a.bounds).Conflicts(Extent(b.start, b.end, b.bounds))
    ensures !Safe(Run(cfg, EMPTY, [CreateUnchecked(a, active), CreateUnchecked(b, alsoActive)]))
    ensures Safe(Run(cfg, EMPTY, [CreateUnchecked(a, active), CreateUnchecked(b, inactive)]))
    ensures !Safe(Run(cfg, EMPTY, [CreateUnchecked(a, active), CreateUnchecked(b, inactive)] + [SetState(1, alsoActive)]))
  {
    TwoCreated(cfg, a, b, active, alsoActive);
    ConflictingRowsUnsafe(Run(cfg, EMPTY, [CreateUnchecked(a, active), CreateUnchecked(b, alsoActive)]));
    var before := Run(cfg, EMPTY, [CreateUnchecked(a, active), CreateUnchecked(b, inactive)]);
    TwoCreated(cfg, a, b, active, inactive);
    RunOneMore(cfg, EMPTY, [CreateUnchecked(a, active), CreateUnchecked(b, inactive)], SetState(1, alsoActive));
    ConflictingRowsUnsafe(before.(rows := UpdateState(before.rows, 1, alsoActive)));
  }

  lemma TwoCreated(cfg: Config, a: Intent, b: Intent, first: int, second: int)
    requires a.Good? && b.Good?
    ensures var after := Run(cfg, EMPTY, [CreateUnchecked(a, first), CreateUnchecked(b, second)]);
            && after.nextId == 2 && |after.rows| == 2
            && after.rows[0] == UncheckedRow(EMPTY, a, first)
            && after.rows[1] == UncheckedRow(EMPTY, b, second).(id := 1)
  {
    RunOfTwo(cfg, EMPTY, CreateUnchecked(a, first), CreateUnchecked(b, second));
  }
}
