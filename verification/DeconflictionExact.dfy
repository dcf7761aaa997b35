/**
 Exactly what a request that saves and checks declarations does: when it is rolled back, and which
 of the new rows it rejects, for any fences, any content of the indexes and any outcome of clearing.
 */
module DeconflictionExact {
  import opened SpatialIndex
  import opened Deconfliction
  import opened DeconflictionSafety

  // ---------- One check ----------

  /** Some other active row overlaps `fd` in time, so that the declaration index is used at all. */
  ghost predicate Compared(rows: seq<Row>, fd: Row) {
    exists i :: 0 <= i < |rows| && IsActive(rows[i].state) && rows[i].id != fd.id && Overlaps(rows[i], fd.start, fd.end)
  }

  lemma ComparedIff(rows: seq<Row>, fd: Row)
    ensures ActiveOverlapping(rows, fd.start, fd.end, fd.id) != [] <==> Compared(rows, fd)
  {
    var found := ActiveOverlapping(rows, fd.start, fd.end, fd.id);
    if found != [] {
      assert found[0] in found;
    }
    if Compared(rows, fd) {
      var i :| 0 <= i < |rows| && IsActive(rows[i].state) && rows[i].id != fd.id && Overlaps(rows[i], fd.start, fd.end);
      assert rows[i] in found;
    }
  }

  ghost predicate NoFenceFor(w: World, fd: Row) {
    FencesFor(w.fences, fd.start, fd.end) == []
  }

  /** What the engine decides by. */
  ghost predicate Accepts(cfg: Config, w: World, fd: Row) {
    && !FenceHit(cfg, w, fd)
    && ClearOf(w.rows, fd)
    && (!Compared(w.rows, fd) || !SomeHit(w.declarationKeys, fd.bounds))
  }

  /** What a check leaves in the fence index. */
  function FenceKeysAfter(cfg: Config, fences: seq<Fence>, fenceKeys: multiset<Key>, fd: Row): multiset<Key> {
    var items := FenceItems(FencesFor(fences, fd.start, fd.end));
    fenceKeys + multiset(FenceKeys(cfg.hash, items)) - multiset(DeclarationKeys(cfg.hash, items))
  }

  lemma CheckExact(cfg: Config, w: World, fd: Row, raises: bool)
    ensures var c := Check(cfg, w, fd, raises);
            && (c.verdict.approved <==> Accepts(cfg, w, fd))
            && (!c.verdict.approved ==> c.verdict.state == REJECTED)
            && (c.raised <==> raises && Compared(w.rows, fd))
            && (!c.raised ==> c.declarationKeys == w.declarationKeys)
            && c.fenceKeys == FenceKeysAfter(cfg, w.fences, w.fenceKeys, fd)
  {
    VerdictIff(cfg, w, fd, raises);
    ComparedIff(w.rows, fd);
    if !Check(cfg, w, fd, raises).raised {
      CheckKeepsIndex(cfg, w, fd, raises);
    }
  }

  // ---------- A series of checks ----------

  /** What decides a check, given what it finds in the fence index. */
  type Test = (multiset<Key>, Row) -> bool

  type Leaving = (multiset<Key>, Row) -> multiset<Key>

  ghost predicate Follows(check: Checker, dk: multiset<Key>, raises: Row -> bool, test: Test, leaves: Leaving) {
    && (forall dk, fk, fd :: check(dk, fk, fd).raised <==> raises(fd))
    && (forall fk, fd :: var c := check(dk, fk, fd);
          && (c.verdict.approved <==> test(fk, fd))
          && (!c.verdict.approved ==> c.verdict.state == REJECTED)
          && (!c.raised ==> c.declarationKeys == dk)
          && c.fenceKeys == leaves(fk, fd))
  }

  /** What the first `k` checks of a series leave in the fence index. */
  function Left(leaves: Leaving, fk: multiset<Key>, fds: seq<Row>, k: nat): multiset<Key>
    requires k <= |fds|
  {
    if k == 0 then fk else leaves(Left(leaves, fk, fds, k - 1), fds[k - 1])
  }

  lemma {:induction false} LeftOfPrefix(leaves: Leaving, fk: multiset<Key>, a: seq<Row>, b: seq<Row>, k: nat)
    requires k <= |a| && a <= b
    ensures Left(leaves, fk, a, k) == Left(leaves, fk, b, k)
  {
    if k > 0 {
      LeftOfPrefix(leaves, fk, a, b, k - 1);
    }
  }

  lemma {:induction false} CheckAllRaisesIff(
    check: Checker, raises: Row -> bool, dk: multiset<Key>, fk: multiset<Key>, fds: seq<Row>)
    requires forall dk, fk, fd :: check(dk, fk, fd).raised <==> raises(fd)
    ensures CheckAll(check, dk, fk, fds).raised <==> exists k :: 0 <= k < |fds| && raises(fds[k])
  {
    if fds != [] {
      CheckAllRaisesIff(check, raises, dk, fk, fds[..|fds| - 1]);
    }
  }

  lemma {:induction false} CheckAllExact(
    check: Checker, raises: Row -> bool, test: Test, leaves: Leaving, dk: multiset<Key>, fk: multiset<Key>, fds: seq<Row>)
    requires Follows(check, dk, raises, test, leaves) && !CheckAll(check, dk, fk, fds).raised
    ensures var c := CheckAll(check, dk, fk, fds);
            && c.declarationKeys == dk && c.fenceKeys == Left(leaves, fk, fds, |fds|)
            && forall k :: 0 <= k < |fds| ==>
                 && (c.verdicts[k].approved <==> test(Left(leaves, fk, fds, k), fds[k]))
                 && (!c.verdicts[k].approved ==> c.verdicts[k].state == REJECTED)
  {
    if fds != [] {
      var n := |fds| - 1;
      CheckAllExact(check, raises, test, leaves, dk, fk, fds[..n]);
      LeftOfPrefix(leaves, fk, fds[..n], fds, n);
      forall k | 0 <= k < n ensures Left(leaves, fk, fds[..n], k) == Left(leaves, fk, fds, k) {
        LeftOfPrefix(leaves, fk, fds[..n], fds, k);
      }
    }
  }

  // ---------- The engine on some stored rows ----------

  ghost function Raising(rows: seq<Row>, clearRaises: nat -> bool): Row -> bool {
    (fd: Row) => clearRaises(fd.id) && Compared(rows, fd)
  }

  ghost function Testing(cfg: Config, w: World): Test {
    (fk: multiset<Key>, fd: Row) => Accepts(cfg, w.(fenceKeys := fk), fd)
  }

  function LeavingKeys(cfg: Config, fences: seq<Fence>): Leaving {
    (fk: multiset<Key>, fd: Row) => FenceKeysAfter(cfg, fences, fk, fd)
  }

  lemma EngineExact(cfg: Config, w: World, clearRaises: nat -> bool)
    ensures Follows(Engine(cfg, w, clearRaises), w.declarationKeys,
                    Raising(w.rows, clearRaises), Testing(cfg, w), LeavingKeys(cfg, w.fences))
  {
    forall dk, fk, fd: Row
      ensures Engine(cfg, w, clearRaises)(dk, fk, fd).raised <==> Raising(w.rows, clearRaises)(fd)
    {
      CheckExact(cfg, w.(declarationKeys := dk, fenceKeys := fk), fd, clearRaises(fd.id));
    }
    forall fk, fd: Row
      ensures var c := Engine(cfg, w, clearRaises)(w.declarationKeys, fk, fd);
              && (c.verdict.approved <==> Testing(cfg, w)(fk, fd))
              && (!c.verdict.approved ==> c.verdict.state == REJECTED)
              && (!c.raised ==> c.declarationKeys == w.declarationKeys)
              && c.fenceKeys == LeavingKeys(cfg, w.fences)(fk, fd)
    {
      CheckExact(cfg, w.(fenceKeys := fk), fd, clearRaises(fd.id));
    }
  }

  // ---------- A request ----------

  /** Clearing is to raise at new row `k`, which overlaps another active row, stored or new, in time. */
  ghost predicate RaisesAt(w: World, fds: seq<Row>, clearRaises: nat -> bool, k: int) {
    0 <= k < |fds| && clearRaises(fds[k].id) && Compared(w.rows + fds, fds[k])
  }

  /** A request is rolled back because of clearing if and only if clearing raises at some new row
      that there is anything to compare with. */
  lemma RequestRaisesIff(cfg: Config, w: World, fds: seq<Row>, clearRaises: nat -> bool)
    ensures ChecksOf(cfg, w, fds, clearRaises).raised <==> exists k :: RaisesAt(w, fds, clearRaises, k)
  {
    var raises := Raising(w.rows + fds, clearRaises);
    EngineExact(cfg, Saved(w, fds), clearRaises);
    CheckAllRaisesIff(Engine(cfg, Saved(w, fds), clearRaises), raises, w.declarationKeys, w.fenceKeys, fds);
    assert forall k :: 0 <= k < |fds| ==> (raises(fds[k]) <==> RaisesAt(w, fds, clearRaises, k));
  }

  /** The request runs to its end: there is an engine and no clearing raises. */
  ghost predicate Completes(cfg: Config, w: World, fds: seq<Row>, clearRaises: nat -> bool) {
    cfg.engineConfigured && !ChecksOf(cfg, w, fds, clearRaises).raised
  }

  function Rejected(fd: Row): Row {
    fd.(state := REJECTED, approved := false)
  }

  /** Which new rows pass their check. */
  ghost function Passing(cfg: Config, w: World, fds: seq<Row>): nat -> bool {
    (k: nat) => k < |fds| && Testing(cfg, Saved(w, fds))(Left(LeavingKeys(cfg, w.fences), w.fenceKeys, fds, k), fds[k])
  }

  /** Old rows stay, and every new row stays as it was saved if it passes and is rejected if not. */
  ghost predicate RowsProcessed(rows: seq<Row>, fds: seq<Row>, passes: nat -> bool, after: seq<Row>) {
    && |after| == |rows| + |fds|
    && (forall i :: 0 <= i < |rows| ==> after[i] == rows[i])
    && (forall k :: 0 <= k < |fds| ==> after[|rows| + k] == if passes(k) then fds[k] else Rejected(fds[k]))
  }

  /** What a request that runs to its end does; the declaration index is as it was. */
  lemma SaveAndCheckExact(cfg: Config, w: World, fds: seq<Row>, clearRaises: nat -> bool)
    requires UniqueIds(w) && Fresh(cfg, w, fds) && Completes(cfg, w, fds, clearRaises)
    ensures var after := SaveAndCheck(cfg, w, fds, clearRaises);
            && RowsProcessed(w.rows, fds, Passing(cfg, w, fds), after.rows)
            && after == World(after.rows, w.fences, w.nextId + |fds|, w.declarationKeys,
                              Left(LeavingKeys(cfg, w.fences), w.fenceKeys, fds, |fds|))
  {
    if fds != [] {
      var saved, c := Saved(w, fds), ChecksOf(cfg, w, fds, clearRaises);
      EngineExact(cfg, saved, clearRaises);
      CheckAllExact(Engine(cfg, saved, clearRaises), Raising(saved.rows, clearRaises), Testing(cfg, saved),
                    LeavingKeys(cfg, w.fences), w.declarationKeys, w.fenceKeys, fds);
      ProcessExact(cfg, w, fds, c.verdicts, Passing(cfg, w, fds));
    }
  }

  lemma {:induction false} ProcessExact(cfg: Config, w: World, fds: seq<Row>, verdicts: seq<Verdict>, passes: nat -> bool)
    requires UniqueIds(w) && Fresh(cfg, w, fds) && |verdicts| == |fds|
    requires forall k :: 0 <= k < |fds| ==>
               (verdicts[k].approved <==> passes(k)) && (!verdicts[k].approved ==> verdicts[k].state == REJECTED)
    ensures RowsProcessed(w.rows, fds, passes, Process(w.rows + fds, fds, verdicts))
  {
    var rows := w.rows + fds;
    forall i | 0 <= i < |w.rows| ensures Process(rows, fds, verdicts)[i] == w.rows[i] {
      ProcessOnlyRejects(rows, fds, verdicts, i);
    }
    forall k | 0 <= k < |fds|
      ensures Process(rows, fds, verdicts)[|w.rows| + k] == if passes(k) then fds[k] else Rejected(fds[k])
    {
      ProcessOnlyRejects(rows, fds, verdicts, |w.rows| + k);
      assert rows[|w.rows| + k] == fds[k];
    }
  }

  lemma {:induction false} ProcessedUnique(cfg: Config, w: World, fds: seq<Row>, passes: nat -> bool, after: World)
    requires UniqueIds(w) && Fresh(cfg, w, fds) && RowsProcessed(w.rows, fds, passes, after.rows)
    requires after.nextId == w.nextId + |fds|
    ensures UniqueIds(after)
  {
    SavedUnique(cfg, w, fds);
    assert forall i :: 0 <= i < |after.rows| ==> after.rows[i].id == (w.rows + fds)[i].id;
  }

  /** Whatever its outcome, a request leaves the old rows alone. */
  lemma OldRowsStay(cfg: Config, w: World, fds: seq<Row>, clearRaises: nat -> bool)
    requires UniqueIds(w) && Fresh(cfg, w, fds)
    ensures var after := SaveAndCheck(cfg, w, fds, clearRaises);
            && |w.rows| <= |after.rows| && after.rows[..|w.rows|] == w.rows
            && UniqueIds(after) && after.nextId == w.nextId + |fds|
  {
    if fds != [] && Completes(cfg, w, fds, clearRaises) {
      SaveAndCheckExact(cfg, w, fds, clearRaises);
      ProcessedUnique(cfg, w, fds, Passing(cfg, w, fds), SaveAndCheck(cfg, w, fds, clearRaises));
    }
  }

  lemma NewRowsFresh(cfg: Config, w: World, intents: seq<Intent>)
    ensures Fresh(cfg, w, NewRows(intents, cfg.DefaultState(), w.nextId))
  {
  }

  // ---------- What a response says ----------

  /** An approved row is in the default state, any other is rejected. */
  lemma VerdictStates(cfg: Config, w: World, fd: Row, clearRaises: bool)
    ensures var verdict := Check(cfg, w, fd, clearRaises).verdict;
            verdict.state == if verdict.approved then (if cfg.usspNetworkEnabled then 0 else 1) else 8
  {
  }

  lemma {:induction false} CheckAllStates(check: Checker, dk: multiset<Key>, fk: multiset<Key>, fds: seq<Row>, approvedState: int)
    requires forall dk, fk, fd :: check(dk, fk, fd).verdict.approved ==> check(dk, fk, fd).verdict.state == approvedState
    requires !CheckAll(check, dk, fk, fds).raised
    ensures var c := CheckAll(check, dk, fk, fds);
            forall k :: 0 <= k < |fds| && c.verdicts[k].approved ==> c.verdicts[k].state == approvedState
  {
    if fds != [] {
      CheckAllStates(check, dk, fk, fds[..|fds| - 1], approvedState);
    }
  }

  /** After a request has run to its end, the approval and state of every verdict are those of its row. */
  lemma RowsMatchVerdicts(cfg: Config, w: World, fds: seq<Row>, clearRaises: nat -> bool)
    requires fds != [] ==> Completes(cfg, w, fds, clearRaises)
    requires UniqueIds(w) && Fresh(cfg, w, fds) && forall k :: 0 <= k < |fds| ==> fds[k].approved
    ensures var rows, verdicts := SaveAndCheck(cfg, w, fds, clearRaises).rows, ChecksOf(cfg, w, fds, clearRaises).verdicts;
            && |verdicts| == |fds| && |rows| == |w.rows| + |fds| && rows[..|w.rows|] == w.rows
            && forall k :: 0 <= k < |fds| ==>
                 && rows[|w.rows| + k] == fds[k].(approved := verdicts[k].approved, state := verdicts[k].state)
  {
    if fds != [] {
      var saved := Saved(w, fds);
      var check := Engine(cfg, saved, clearRaises);
      EngineExact(cfg, saved, clearRaises);
      CheckAllExact(check, Raising(saved.rows, clearRaises), Testing(cfg, saved),
                    LeavingKeys(cfg, w.fences), w.declarationKeys, w.fenceKeys, fds);
      forall dk, fk, fd: Row | check(dk, fk, fd).verdict.approved
        ensures check(dk, fk, fd).verdict.state == cfg.DefaultState()
      {
        VerdictStates(cfg, saved.(declarationKeys := dk, fenceKeys := fk), fd, clearRaises(fd.id));
      }
      CheckAllStates(check, w.declarationKeys, w.fenceKeys, fds, cfg.DefaultState());
      ProcessByVerdict(cfg, w, fds, ChecksOf(cfg, w, fds, clearRaises).verdicts);
    }
  }

  lemma {:induction false} ProcessByVerdict(cfg: Config, w: World, fds: seq<Row>, verdicts: seq<Verdict>)
    requires UniqueIds(w) && Fresh(cfg, w, fds) && |verdicts| == |fds|
    requires forall k :: 0 <= k < |fds| ==> fds[k].approved
    requires forall k :: 0 <= k < |fds| ==> verdicts[k].state == if verdicts[k].approved then cfg.DefaultState() else REJECTED
    ensures var rows := Process(w.rows + fds, fds, verdicts);
            && rows[..|w.rows|] == w.rows
            && forall k :: 0 <= k < |fds| ==>
                 rows[|w.rows| + k] == fds[k].(approved := verdicts[k].approved, state := verdicts[k].state)
  {
    ProcessExact(cfg, w, fds, verdicts, (k: nat) => k < |verdicts| && verdicts[k].approved);
  }

  // ---------- Two plain cases ----------

  lemma NoFenceNoHit(cfg: Config, w: World, fd: Row)
    requires NoFenceFor(w, fd)
    ensures !FenceHit(cfg, w, fd)
  {
    assert FenceItems([]) == [];
  }

  lemma PassingAt(cfg: Config, w: World, fds: seq<Row>, k: nat)
    requires k < |fds|
    ensures var found := Saved(w, fds).(fenceKeys := Left(LeavingKeys(cfg, w.fences), w.fenceKeys, fds, k));
            Passing(cfg, w, fds)(k) <==> Accepts(cfg, found, fds[k])
  {
    var fk := Left(LeavingKeys(cfg, w.fences), w.fenceKeys, fds, k);
    assert Passing(cfg, w, fds)(k) <==> Testing(cfg, Saved(w, fds))(fk, fds[k]);
  }

  /** With no fence in force for it, a row passes if and only if it is clear of everything saved, its
      batch mates included, and nothing stale is hit if the index is asked at all. */
  lemma PassesIff(cfg: Config, w: World, fds: seq<Row>, k: nat)
    requires k < |fds| && NoFenceFor(w, fds[k])
    ensures Passing(cfg, w, fds)(k) <==>
            && ClearOf(w.rows + fds, fds[k])
            && (!Compared(w.rows + fds, fds[k]) || !SomeHit(w.declarationKeys, fds[k].bounds))
  {
    PassingAt(cfg, w, fds, k);
    NoFenceNoHit(cfg, Saved(w, fds).(fenceKeys := Left(LeavingKeys(cfg, w.fences), w.fenceKeys, fds, k)), fds[k]);
  }

  // ---------- What a check looks at, in plain terms ----------

  /** A fence counts if and only if its window contains the declaration's and its box, with the axes
      exchanged, meets the declaration's; stale entries apart. */
  lemma FenceHitIff(cfg: Config, w: World, fd: Row)
    requires forall key :: key in w.fenceKeys ==> !key.box.Meets(fd.bounds)
    ensures FenceHit(cfg, w, fd) <==>
            exists f :: f in w.fences && f.start <= fd.start && fd.end <= f.end
                        && f.bounds.minY <= fd.bounds.maxX && fd.bounds.minX <= f.bounds.maxY
                        && f.bounds.minX <= fd.bounds.maxY && fd.bounds.minY <= f.bounds.maxX
  {
    var found := FencesFor(w.fences, fd.start, fd.end);
    KeyHit(w.fenceKeys, FenceKeys(cfg.hash, FenceItems(found)), fd.bounds);
    SwappedKeys(cfg.hash, found, fd);
    assert FenceItems(found) != [] <==> found != [];
  }

  lemma SwappedKeys(hash: Hash, fences: seq<Fence>, fd: Row)
    ensures (exists i :: 0 <= i < |fences| && FenceKeys(hash, FenceItems(fences))[i].box.Meets(fd.bounds)) <==>
            exists f :: f in fences && MeetsSwapped(f, fd)
  {
    forall i | 0 <= i < |fences|
      ensures FenceKeys(hash, FenceItems(fences))[i].box.Meets(fd.bounds) <==> MeetsSwapped(fences[i], fd)
    {
    }
    if f :| f in fences && MeetsSwapped(f, fd) {
      var i :| 0 <= i < |fences| && fences[i] == f;
      assert FenceKeys(hash, FenceItems(fences))[i].box.Meets(fd.bounds);
    }
  }

  predicate MeetsSwapped(f: Fence, fd: Row) {
    && f.bounds.minY <= fd.bounds.maxX && fd.bounds.minX <= f.bounds.maxY
    && f.bounds.minX <= fd.bounds.maxY && fd.bounds.minY <= f.bounds.maxX
  }

  lemma KeyHit(stale: multiset<Key>, keys: seq<Key>, view: Box)
    requires forall key :: key in stale ==> !key.box.Meets(view)
    ensures SomeHit(stale + multiset(keys), view) <==> exists i :: 0 <= i < |keys| && keys[i].box.Meets(view)
  {
    if i :| 0 <= i < |keys| && keys[i].box.Meets(view) {
      assert keys[i] in stale + multiset(keys);
    }
  }

  /** Replacing the fences replaces what can be in force for a declaration. */
  lemma FencesReplaced(cfg: Config, w: World, fences: seq<Fence>, fd: Row)
    ensures NoFenceFor(Step(cfg, w, ChangeFences(fences)), fd) <==>
            forall f :: f in fences ==> !(f.start <= fd.start && fd.end <= f.end)
  {
    var found := FencesFor(fences, fd.start, fd.end);
    assert found != [] ==> found[0] in found;
  }

  /** A declaration moved to a state other than accepted, activated, nonconforming or contingent no
      longer stands in the way of a later one, in space or in time. */
  lemma MovedOutStandsInNoWay(cfg: Config, w: World, id: nat, state: int, fd: Row)
    requires state !in {1, 2, 3, 4}
    ensures var rows := Step(cfg, w, SetState(id, state)).rows;
            && (ClearOf(rows, fd) <==>
                forall i :: 0 <= i < |w.rows| && w.rows[i].state in {1, 2, 3, 4} && w.rows[i].id !in {id, fd.id} ==>
                  !Conflict(w.rows[i], fd))
            && (Compared(rows, fd) <==>
                exists i :: 0 <= i < |w.rows| && w.rows[i].state in {1, 2, 3, 4} && w.rows[i].id !in {id, fd.id} &&
                  w.rows[i].start <= fd.end && fd.start <= w.rows[i].end)
  {
    var rows := Step(cfg, w, SetState(id, state)).rows;
    assert forall i :: 0 <= i < |rows| ==> (Conflict(rows[i], fd) <==> Conflict(w.rows[i], fd));
  }
}
