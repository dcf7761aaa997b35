/**
 Safety of the stored declarations over every run of requests: no two active declarations conflict.
 */
module DeconflictionSafety {
  import opened SpatialIndex
  import opened Deconfliction

  // ---------- Saving, checking and rejecting ----------

  /** An approval is sound, and everything else gets the rejected state. */
  ghost predicate SoundVerdict(rows: seq<Row>, fd: Row, verdict: Verdict) {
    if verdict.approved then ClearOf(rows, fd) else verdict.state == REJECTED
  }

  ghost predicate SoundEngine(rows: seq<Row>, check: Checker) {
    forall dk, fk, fd :: SoundVerdict(rows, fd, check(dk, fk, fd).verdict)
  }

  lemma EngineSound(cfg: Config, w: World, clearRaises: nat -> bool)
    ensures SoundEngine(w.rows, Engine(cfg, w, clearRaises))
  {
    forall dk, fk, fd ensures SoundVerdict(w.rows, fd, Engine(cfg, w, clearRaises)(dk, fk, fd).verdict) {
      VerdictIff(cfg, w.(declarationKeys := dk, fenceKeys := fk), fd, clearRaises(fd.id));
    }
  }

  /** A completed series of checks has only sound verdicts, whatever the indexes hold. */
  lemma {:induction false} CheckAllSound(rows: seq<Row>, check: Checker, dk: multiset<Key>, fk: multiset<Key>, fds: seq<Row>)
    requires SoundEngine(rows, check) && !CheckAll(check, dk, fk, fds).raised
    ensures forall k :: 0 <= k < |fds| ==> SoundVerdict(rows, fds[k], CheckAll(check, dk, fk, fds).verdicts[k])
  {
    if fds != [] {
      CheckAllSound(rows, check, dk, fk, fds[..|fds| - 1]);
    }
  }

  /** Processing rejects rows and changes nothing else. */
  lemma {:induction false} ProcessOnlyRejects(rows: seq<Row>, fds: seq<Row>, verdicts: seq<Verdict>, i: nat)
    requires |verdicts| == |fds| && i < |rows|
    requires forall k :: 0 <= k < |fds| && !verdicts[k].approved ==> verdicts[k].state == REJECTED
    ensures var processed := Process(rows, fds, verdicts);
            processed[i] == if exists k :: 0 <= k < |fds| && fds[k].id == rows[i].id && !verdicts[k].approved
                            then rows[i].(state := REJECTED, approved := false) else rows[i]
  {
    if fds != [] {
      ProcessOnlyRejects(rows, fds[..|fds| - 1], verdicts[..|fds| - 1], i);
    }
  }

  /** The rows of a request: consecutive new ids, all in the default state. */
  ghost predicate Fresh(cfg: Config, w: World, fds: seq<Row>) {
    forall k :: 0 <= k < |fds| ==> fds[k].id == w.nextId + k && fds[k].state == cfg.DefaultState()
  }

  lemma SavedUnique(cfg: Config, w: World, fds: seq<Row>)
    requires UniqueIds(w) && Fresh(cfg, w, fds)
    ensures UniqueIds(Saved(w, fds))
  {
  }

  /** Saving a whole batch, checking every member and only then rejecting those that fail keeps the
      store safe, although until then members that conflict with each other are all stored. */
  lemma SaveAndCheckSafe(cfg: Config, w: World, fds: seq<Row>, clearRaises: nat -> bool)
    requires Safe(w) && Fresh(cfg, w, fds)
    ensures Safe(SaveAndCheck(cfg, w, fds, clearRaises))
  {
    var saved, c := Saved(w, fds), ChecksOf(cfg, w, fds, clearRaises);
    SavedUnique(cfg, w, fds);
    if fds != [] && cfg.engineConfigured && !c.raised {
      EngineSound(cfg, saved, clearRaises);
      CheckAllSound(saved.rows, Engine(cfg, saved, clearRaises), w.declarationKeys, w.fenceKeys, fds);
      ProcessSafe(w, fds, saved, c.verdicts);
    }
  }

  lemma ProcessSafe(w: World, fds: seq<Row>, saved: World, verdicts: seq<Verdict>)
    requires ConflictFree(w.rows) && saved.rows == w.rows + fds && UniqueIds(saved) && |verdicts| == |fds|
    requires forall k :: 0 <= k < |fds| ==> SoundVerdict(saved.rows, fds[k], verdicts[k])
    ensures Safe(saved.(rows := Process(saved.rows, fds, verdicts)))
  {
    var processed := Process(saved.rows, fds, verdicts);
    forall i | 0 <= i < |processed|
      ensures processed[i].id == saved.rows[i].id
      ensures IsActive(processed[i].state) ==> processed[i] == saved.rows[i]
      ensures IsActive(processed[i].state) && i >= |w.rows| ==> ClearOf(saved.rows, saved.rows[i])
    {
      ProcessOnlyRejects(saved.rows, fds, verdicts, i);
      if i >= |w.rows| {
        assert saved.rows[i] == fds[i - |w.rows|];
      }
    }
    forall i, j | 0 <= i < j < |processed| && IsActive(processed[i].state) && IsActive(processed[j].state)
      ensures !Conflict(processed[i], processed[j])
    {
      assert processed[i] == saved.rows[i] && processed[j] == saved.rows[j];
      if j < |w.rows| {
        assert saved.rows[i] == w.rows[i] && saved.rows[j] == w.rows[j];
      }
    }
  }

  // ---------- Deleting ----------

  lemma WithoutSafe(w: World, id: nat)
    requires Safe(w)
    ensures Safe(w.(rows := Without(w.rows, id)))
  {
    if i :| 0 <= i < |w.rows| && w.rows[i].id == id {
      WithoutOne(w.rows, id, i);
    } else {
      WithoutAbsent(w.rows, id);
    }
  }

  // ---------- Every request ----------

  function UncheckedRow(w: World, intent: Intent, state: int): Row
    requires intent.Good?
  {
    Row(w.nextId, intent.start, intent.end, intent.bounds, state, state != 0 && state != REJECTED)
  }

  /** What a request that skips the engine must see to itself: a declaration becomes active only
      if it is clear of the active ones.  Checked requests need nothing. */
  ghost predicate Guard(w: World, request: Request) {
    match request
    case CreateUnchecked(intent, state) =>
      intent.Good? && IsActive(state) ==> ClearOf(w.rows, UncheckedRow(w, intent, state))
    case SetState(id, state) =>
      IsActive(state) ==>
        forall i :: 0 <= i < |w.rows| && w.rows[i].id == id && !IsActive(w.rows[i].state) ==> ClearOf(w.rows, w.rows[i])
    case _ => true
  }

  lemma UncheckedSafeIff(cfg: Config, w: World, intent: Intent, state: int)
    requires Safe(w)
    ensures Safe(Step(cfg, w, CreateUnchecked(intent, state))) <==> Guard(w, CreateUnchecked(intent, state))
  {
    if intent.Good? {
      var row, n := UncheckedRow(w, intent, state), |w.rows|;
      var after := Step(cfg, w, CreateUnchecked(intent, state));
      assert after.rows == w.rows + [row] && UniqueIds(after);
      assert forall i :: 0 <= i < n ==> after.rows[i] == w.rows[i] && w.rows[i].id != row.id;
      if IsActive(state) && !ClearOf(w.rows, row) {
        var i :| 0 <= i < n && IsActive(w.rows[i].state) && Conflict(w.rows[i], row);
        assert Conflict(after.rows[i], after.rows[n]);
      }
    }
  }

  lemma SetStateSafeIff(cfg: Config, w: World, id: nat, state: int)
    requires Safe(w)
    ensures Safe(Step(cfg, w, SetState(id, state))) <==> Guard(w, SetState(id, state))
  {
    if Guard(w, SetState(id, state)) {
      GuardedSetStateSafe(w, id, state);
    } else {
      var i :| 0 <= i < |w.rows| && w.rows[i].id == id && !IsActive(w.rows[i].state) && !ClearOf(w.rows, w.rows[i]);
      UnguardedSetStateUnsafe(w, id, state, i);
    }
  }

  lemma GuardedSetStateSafe(w: World, id: nat, state: int)
    requires Safe(w) && Guard(w, SetState(id, state))
    ensures Safe(w.(rows := UpdateState(w.rows, id, state)))
  {
    var updated := UpdateState(w.rows, id, state);
    forall i, j | 0 <= i < j < |updated| && IsActive(updated[i].state) && IsActive(updated[j].state)
      ensures !Conflict(updated[i], updated[j])
    {
      assert w.rows[i].id != w.rows[j].id;
      if w.rows[i].id == id && !IsActive(w.rows[i].state) {
        assert ClearOf(w.rows, w.rows[i]);
      } else if w.rows[j].id == id && !IsActive(w.rows[j].state) {
        assert ClearOf(w.rows, w.rows[j]);
      }
    }
  }

  lemma UnguardedSetStateUnsafe(w: World, id: nat, state: int, i: nat)
    requires Safe(w) && IsActive(state)
    requires i < |w.rows| && w.rows[i].id == id && !ClearOf(w.rows, w.rows[i])
    ensures !ConflictFree(UpdateState(w.rows, id, state))
  {
  }

  /** A request keeps the store safe if and only if it is guarded: single and bulk creation, deletion
      and fence changes always do, whatever the indexes hold and however their checks end; plain
      creation and state changes, which the code does not check, exactly under their guard. */
  lemma StepSafeIff(cfg: Config, w: World, request: Request)
    requires Safe(w)
    ensures Safe(Step(cfg, w, request)) <==> Guard(w, request)
  {
    match request
    case Create(intent, clearRaises) =>
      SaveAndCheckSafe(cfg, w, NewRows([intent], cfg.DefaultState(), w.nextId), clearRaises);
    case Bulk(intents, clearRaises) =>
      SaveAndCheckSafe(cfg, w, NewRows(intents, cfg.DefaultState(), w.nextId), clearRaises);
    case CreateUnchecked(intent, state) => UncheckedSafeIff(cfg, w, intent, state);
    case SetState(id, state) => SetStateSafeIff(cfg, w, id, state);
    case Delete(id) => WithoutSafe(w, id);
    case ChangeFences(fences) =>
  }

  // ---------- Every run ----------

  ghost function Run(cfg: Config, w: World, requests: seq<Request>): World {
    if requests == [] then w
    else Step(cfg, Run(cfg, w, requests[..|requests| - 1]), requests[|requests| - 1])
  }

  ghost predicate GuardedRun(cfg: Config, w: World, requests: seq<Request>) {
    requests == [] ||
    (GuardedRun(cfg, w, requests[..|requests| - 1]) &&
     Guard(Run(cfg, w, requests[..|requests| - 1]), requests[|requests| - 1]))
  }

  /** Safe at the start and after every request. */
  ghost predicate SafeThroughout(cfg: Config, w: World, requests: seq<Request>) {
    Safe(Run(cfg, w, requests)) &&
    (requests != [] ==> SafeThroughout(cfg, w, requests[..|requests| - 1]))
  }

  /** From a safe store, a run is safe throughout if and only if every request in it is guarded. */
  lemma {:induction false} RunSafeIff(cfg: Config, w: World, requests: seq<Request>)
    requires Safe(w)
    ensures GuardedRun(cfg, w, requests) <==> SafeThroughout(cfg, w, requests)
  {
    if requests != [] {
      var before := requests[..|requests| - 1];
      RunSafeIff(cfg, w, before);
      if Safe(Run(cfg, w, before)) {
        StepSafeIff(cfg, Run(cfg, w, before), requests[|requests| - 1]);
      } else {
        assert !SafeThroughout(cfg, w, before);
      }
    }
  }

  /** Requests that need no guard: everything but plain creation in, or a change to, an active state. */
  predicate NeedsNoGuard(request: Request) {
    match request
    case CreateUnchecked(_, state) => !IsActive(state)
    case SetState(_, state) => !IsActive(state)
    case _ => true
  }

  /** Whatever checked requests are served from an empty store, active declarations never conflict. */
  lemma {:induction false} CheckedRunSafe(cfg: Config, requests: seq<Request>)
    requires forall i :: 0 <= i < |requests| ==> NeedsNoGuard(requests[i])
    ensures Safe(Run(cfg, World([], [], 0, multiset{}, multiset{}), requests))
  {
    if requests != [] {
      var m := |requests| - 1;
      CheckedRunSafe(cfg, requests[..m]);
      StepSafeIff(cfg, Run(cfg, World([], [], 0, multiset{}, multiset{}), requests[..m]), requests[m]);
    }
  }
}
