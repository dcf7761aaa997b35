/**
 What a bulk request decides, compared with the same intents submitted one by one, and what comes of
 accepting a rejected declaration back.  `clearRaises` tells for which rows clearing the declaration
 index raises, which rolls the request back.
 */
module DeconflictionBatches {
  import opened SpatialIndex
  import opened Deconfliction
  import opened DeconflictionSafety
  import opened DeconflictionExact

  // ---------- Order does not matter ----------

  /** When and where a declaration is to fly. */
  datatype Extent = Extent(start: int, end: int, bounds: Box) {
    predicate Conflicts(other: Extent) {
      start <= other.end && end >= other.start && bounds.Meets(other.bounds)
    }
  }

  function ExtentOf(r: Row): Extent {
    Extent(r.start, r.end, r.bounds)
  }

  function Extents(rows: seq<Row>): (extents: seq<Extent>)
    ensures |extents| == |rows|
    ensures forall i :: 0 <= i < |rows| ==> extents[i] == ExtentOf(rows[i])
  {
    seq(|rows|, i requires 0 <= i < |rows| => ExtentOf(rows[i]))
  }

  /** The bag of extents holds one that conflicts with `e`, besides `e` itself. */
  ghost predicate HasRival(bag: multiset<Extent>, e: Extent) {
    exists other :: other in bag - multiset{e} && other.Conflicts(e)
  }

  function AllBut<T>(s: seq<T>, k: nat): seq<T>
    requires k < |s|
  {
    s[..k] + s[k + 1..]
  }

  lemma AllButBag<T>(s: seq<T>, k: nat)
    requires k < |s|
    ensures multiset(AllBut(s, k)) == multiset(s) - multiset{s[k]}
  {
    assert s == s[..k] + [s[k]] + s[k + 1..];
  }

  lemma AllButMembers<T>(s: seq<T>, k: nat, x: T)
    requires k < |s|
    ensures x in AllBut(s, k) <==> exists j :: 0 <= j < |s| && j != k && s[j] == x
  {
  }

  lemma RivalAmong(extents: seq<Extent>, k: nat)
    requires k < |extents|
    ensures HasRival(multiset(extents), extents[k]) <==>
            exists j :: 0 <= j < |extents| && j != k && extents[j].Conflicts(extents[k])
  {
    AllButBag(extents, k);
    if j :| 0 <= j < |extents| && j != k && extents[j].Conflicts(extents[k]) {
      AllButMembers(extents, k, extents[j]);
      assert extents[j] in multiset(AllBut(extents, k));
    }
    if HasRival(multiset(extents), extents[k]) {
      var other :| other in multiset(extents) - multiset{extents[k]} && other.Conflicts(extents[k]);
      assert other in multiset(AllBut(extents, k));
      AllButMembers(extents, k, other);
    }
  }

  lemma ClearOfBoth(a: seq<Row>, b: seq<Row>, fd: Row)
    ensures ClearOf(a + b, fd) <==> ClearOf(a, fd) && ClearOf(b, fd)
  {
    if ClearOf(a + b, fd) {
      assert forall i :: 0 <= i < |a| ==> a[i] == (a + b)[i];
      forall i | 0 <= i < |b| && IsActive(b[i].state) && b[i].id != fd.id ensures !Conflict(b[i], fd) {
        assert b[i] == (a + b)[|a| + i];
      }
    }
  }

  lemma ClearOfMates(cfg: Config, w: World, fds: seq<Row>, k: nat)
    requires !cfg.usspNetworkEnabled && Fresh(cfg, w, fds) && k < |fds|
    ensures ClearOf(fds, fds[k]) <==> !HasRival(multiset(Extents(fds)), ExtentOf(fds[k]))
  {
    var extents := Extents(fds);
    RivalAmong(extents, k);
    forall j | 0 <= j < |fds| ensures Conflict(fds[j], fds[k]) <==> extents[j].Conflicts(extents[k]) {
    }
  }

  /** The verdict on a batch member in standalone mode depends on the stored declarations and on the
      bag of what is in the batch, not on its order: nobody conflicts with it in either. */
  lemma BatchVerdictIgnoresOrder(cfg: Config, w: World, fds: seq<Row>, k: nat)
    requires !cfg.usspNetworkEnabled && Fresh(cfg, w, fds) && k < |fds|
    ensures ClearOf(w.rows + fds, fds[k]) <==>
            ClearOf(w.rows, fds[k]) && !HasRival(multiset(Extents(fds)), ExtentOf(fds[k]))
  {
    ClearOfBoth(w.rows, fds, fds[k]);
    ClearOfMates(cfg, w, fds, k);
  }

  /** What a bulk request that runs to its end stores for its `k`-th good intent depends on the stored
      declarations and on the bag of intents alone, if no fence is in force for it and nothing stale
      lies on it. */
  lemma BulkDecidesByBag(cfg: Config, w: World, intents: seq<Intent>, clearRaises: nat -> bool, k: nat)
    requires !cfg.usspNetworkEnabled && UniqueIds(w)
    requires k < |NewRows(intents, cfg.DefaultState(), w.nextId)|
    requires var fds := NewRows(intents, cfg.DefaultState(), w.nextId);
             && Completes(cfg, w, fds, clearRaises)
             && NoFenceFor(w, fds[k]) && !SomeHit(w.declarationKeys, fds[k].bounds)
    ensures var fds := NewRows(intents, cfg.DefaultState(), w.nextId);
            var rows := Step(cfg, w, Bulk(intents, clearRaises)).rows;
            |rows| == |w.rows| + |fds| &&
            rows[|w.rows| + k] == if ClearOf(w.rows, fds[k]) && !HasRival(multiset(Extents(fds)), ExtentOf(fds[k]))
                                  then fds[k] else Rejected(fds[k])
  {
    var fds := NewRows(intents, cfg.DefaultState(), w.nextId);
    NewRowsFresh(cfg, w, intents);
    SaveAndCheckExact(cfg, w, fds, clearRaises);
    PassesIff(cfg, w, fds, k);
    BatchVerdictIgnoresOrder(cfg, w, fds, k);
  }

  /** Rolled back or not: if clearing always raises, that too depends on the bag of intents alone. */
  lemma BulkRolledBackByBag(cfg: Config, w: World, intents: seq<Intent>, clearRaises: nat -> bool)
    requires !cfg.usspNetworkEnabled && cfg.engineConfigured && forall id :: clearRaises(id)
    ensures var fds := NewRows(intents, cfg.DefaultState(), w.nextId);
            ChecksOf(cfg, w, fds, clearRaises).raised <==> exists k :: SharesTime(w, fds, k)
  {
    var fds := NewRows(intents, cfg.DefaultState(), w.nextId);
    NewRowsFresh(cfg, w, intents);
    RequestRaisesIff(cfg, w, fds, clearRaises);
    forall k | 0 <= k < |fds| ensures RaisesAt(w, fds, clearRaises, k) <==> SharesTime(w, fds, k) {
      RaisesAtByBag(cfg, w, fds, clearRaises, k);
    }
  }

  lemma RaisesAtByBag(cfg: Config, w: World, fds: seq<Row>, clearRaises: nat -> bool, k: nat)
    requires !cfg.usspNetworkEnabled && Fresh(cfg, w, fds) && k < |fds| && clearRaises(fds[k].id)
    ensures RaisesAt(w, fds, clearRaises, k) <==> SharesTime(w, fds, k)
  {
    ComparedWithBoth(w.rows, fds, fds[k]);
    ComparedWithMates(cfg, w, fds, k);
  }

  /** New row `k` overlaps an active stored row or another intent of the batch in time. */
  ghost predicate SharesTime(w: World, fds: seq<Row>, k: int) {
    0 <= k < |fds| && (Compared(w.rows, fds[k]) || HasTimeRival(multiset(Extents(fds)), ExtentOf(fds[k])))
  }

  ghost predicate HasTimeRival(bag: multiset<Extent>, e: Extent) {
    exists other :: other in bag - multiset{e} && other.start <= e.end && other.end >= e.start
  }

  lemma ComparedWithBoth(a: seq<Row>, b: seq<Row>, fd: Row)
    ensures Compared(a + b, fd) <==> Compared(a, fd) || Compared(b, fd)
  {
    assert forall i :: 0 <= i < |a| ==> (a + b)[i] == a[i];
    assert forall i :: 0 <= i < |b| ==> (a + b)[|a| + i] == b[i];
  }

  lemma ComparedWithMates(cfg: Config, w: World, fds: seq<Row>, k: nat)
    requires !cfg.usspNetworkEnabled && Fresh(cfg, w, fds) && k < |fds|
    ensures Compared(fds, fds[k]) <==> HasTimeRival(multiset(Extents(fds)), ExtentOf(fds[k]))
  {
    var extents := Extents(fds);
    AllButBag(extents, k);
    if Compared(fds, fds[k]) {
      var j :| 0 <= j < |fds| && fds[j].id != fds[k].id && Overlaps(fds[j], fds[k].start, fds[k].end);
      AllButMembers(extents, k, extents[j]);
      assert extents[j] in multiset(AllBut(extents, k));
    }
    if HasTimeRival(multiset(extents), extents[k]) {
      var other :| other in multiset(extents) - multiset{extents[k]} &&
                   other.start <= extents[k].end && other.end >= extents[k].start;
      assert other in multiset(AllBut(extents, k));
      AllButMembers(extents, k, other);
      var j :| 0 <= j < |extents| && j != k && extents[j] == other;
      assert fds[j].id != fds[k].id && Overlaps(fds[j], fds[k].start, fds[k].end);
    }
  }

  // ---------- One by one accepts more ----------

  ghost function OneByOne(cfg: Config, w: World, intents: seq<Intent>, clearRaises: nat -> bool): World {
    if intents == [] then w
    else Step(cfg, OneByOne(cfg, w, intents[..|intents| - 1], clearRaises), Create(intents[|intents| - 1], clearRaises))
  }

  lemma OneByOneStep(cfg: Config, w: World, intents: seq<Intent>, clearRaises: nat -> bool, n: nat)
    requires 0 < n <= |intents|
    ensures var s := OneByOne(cfg, w, intents[..n - 1], clearRaises);
            OneByOne(cfg, w, intents[..n], clearRaises) ==
            SaveAndCheck(cfg, s, NewRows([intents[n - 1]], cfg.DefaultState(), s.nextId), clearRaises)
  {
    assert intents[..n][..n - 1] == intents[..n - 1];
  }

  lemma {:induction false} OneByOneKeepsRows(cfg: Config, w: World, intents: seq<Intent>, clearRaises: nat -> bool)
    requires UniqueIds(w)
    ensures var s := OneByOne(cfg, w, intents, clearRaises);
            UniqueIds(s) && |w.rows| <= |s.rows| && s.rows[..|w.rows|] == w.rows
  {
    if intents != [] {
      var n := |intents| - 1;
      var before := OneByOne(cfg, w, intents[..n], clearRaises);
      OneByOneKeepsRows(cfg, w, intents[..n], clearRaises);
      NewRowsFresh(cfg, before, [intents[n]]);
      OldRowsStay(cfg, before, NewRows([intents[n]], cfg.DefaultState(), before.nextId), clearRaises);
      assert intents[..n + 1] == intents;
      OneByOneStep(cfg, w, intents, clearRaises, n + 1);
    }
  }

  lemma NewRowsSnoc(intents: seq<Intent>, state: int, nextId: nat)
    requires intents != []
    ensures var before, last := NewRows(intents[..|intents| - 1], state, nextId), intents[|intents| - 1];
            && NewRows(intents, state, nextId) == before + NewRows([last], state, nextId + |before|)
            && (last.Good? ==> |NewRows([last], state, nextId + |before|)| == 1)
            && (!last.Good? ==> NewRows([last], state, nextId + |before|) == [])
  {
  }

  lemma {:induction false} NewRowsPrefix(intents: seq<Intent>, state: int, nextId: nat, n: nat)
    requires n <= |intents|
    ensures NewRows(intents[..n], state, nextId) <= NewRows(intents, state, nextId)
  {
    if n < |intents| {
      NewRowsPrefix(intents[..|intents| - 1], state, nextId, n);
      assert intents[..|intents| - 1][..n] == intents[..n];
    } else {
      assert intents[..n] == intents;
    }
  }

  /** `part` holds a first part of the rows in `all`, each as it was saved or rejected. */
  ghost predicate PartOf(part: seq<Row>, all: seq<Row>) {
    |part| <= |all| && forall i :: 0 <= i < |part| ==> part[i] == all[i] || part[i] == Rejected(all[i])
  }

  lemma PartIsClear(part: seq<Row>, all: seq<Row>, fd: Row)
    requires PartOf(part, all)
    ensures ClearOf(all, fd) ==> ClearOf(part, fd)
    ensures Compared(part, fd) ==> Compared(all, fd)
  {
    assert forall i :: 0 <= i < |part| && IsActive(part[i].state) ==> part[i] == all[i];
  }

  /** The first `count` new rows one by one, every one that passes in the batch accepted. */
  ghost predicate RowsAhead(rows: seq<Row>, fds: seq<Row>, passes: nat -> bool, count: nat, after: seq<Row>) {
    && count <= |fds| && |after| == |rows| + count && PartOf(after, rows + fds)
    && (forall i :: 0 <= i < |rows| ==> after[i] == rows[i])
    && (forall k :: 0 <= k < count && passes(k) ==> after[|rows| + k] == fds[k])
  }

  /** The store after the intents that save the first `count` new rows one by one, against the batch. */
  ghost predicate Ahead(cfg: Config, w: World, fds: seq<Row>, passes: nat -> bool, count: nat, s: World) {
    && UniqueIds(s) && RowsAhead(w.rows, fds, passes, count, s.rows)
    && s == World(s.rows, w.fences, w.nextId + count, w.declarationKeys,
                  Left(LeavingKeys(cfg, w.fences), w.fenceKeys, fds, count))
  }

  /** A row that passes in the batch passes one by one: it finds the same fences and the same index,
      and no more rows. */
  lemma PassesAlone(cfg: Config, w: World, fds: seq<Row>, count: nat, s: World)
    requires count < |fds| && Ahead(cfg, w, fds, Passing(cfg, w, fds), count, s)
    requires PartOf(s.rows + [fds[count]], w.rows + fds)
    ensures Passing(cfg, w, fds)(count) ==> Passing(cfg, s, [fds[count]])(0)
  {
    var fd := fds[count];
    PassingAt(cfg, w, fds, count);
    PassingAt(cfg, s, [fd], 0);
    PartIsClear(s.rows + [fd], w.rows + fds, fd);
    AcceptsPart(cfg, Saved(w, fds).(fenceKeys := s.fenceKeys), Saved(s, [fd]), fd);
  }

  lemma AcceptsPart(cfg: Config, all: World, part: World, fd: Row)
    requires all.fences == part.fences && all.fenceKeys == part.fenceKeys && all.declarationKeys == part.declarationKeys
    requires ClearOf(all.rows, fd) ==> ClearOf(part.rows, fd)
    requires Compared(part.rows, fd) ==> Compared(all.rows, fd)
    ensures Accepts(cfg, all, fd) ==> Accepts(cfg, part, fd)
  {
  }

  lemma CompletesAlone(cfg: Config, w: World, fds: seq<Row>, clearRaises: nat -> bool, count: nat, s: World)
    requires count < |fds| && Completes(cfg, w, fds, clearRaises)
    requires PartOf(s.rows + [fds[count]], w.rows + fds)
    ensures Completes(cfg, s, [fds[count]], clearRaises)
  {
    var fd := fds[count];
    RequestRaisesIff(cfg, w, fds, clearRaises);
    RequestRaisesIff(cfg, s, [fd], clearRaises);
    PartIsClear(s.rows + [fd], w.rows + fds, fd);
    assert !RaisesAt(w, fds, clearRaises, count);
  }

  lemma OneMoreAhead(cfg: Config, w: World, fds: seq<Row>, clearRaises: nat -> bool, count: nat, s: World)
    requires Fresh(cfg, w, fds) && Completes(cfg, w, fds, clearRaises) && count < |fds|
    requires Ahead(cfg, w, fds, Passing(cfg, w, fds), count, s)
    ensures Ahead(cfg, w, fds, Passing(cfg, w, fds), count + 1, SaveAndCheck(cfg, s, [fds[count]], clearRaises))
  {
    var fd := fds[count];
    var after := SaveAndCheck(cfg, s, [fd], clearRaises);
    assert [fd][0] == fd && Fresh(cfg, s, [fd]);
    RowMore(w.rows, fds, Passing(cfg, w, fds), count, s.rows);
    CompletesAlone(cfg, w, fds, clearRaises, count, s);
    PassesAlone(cfg, w, fds, count, s);
    SaveAndCheckExact(cfg, s, [fd], clearRaises);
    OldRowsStay(cfg, s, [fd], clearRaises);
    RowsMore(w.rows, fds, Passing(cfg, w, fds), count, s.rows, Passing(cfg, s, [fd]), after.rows);
    LeftMore(LeavingKeys(cfg, w.fences), w.fenceKeys, fds, count);
  }

  lemma LeftMore(leaves: Leaving, fk: multiset<Key>, fds: seq<Row>, count: nat)
    requires count < |fds|
    ensures Left(leaves, Left(leaves, fk, fds, count), [fds[count]], 1) == Left(leaves, fk, fds, count + 1)
  {
    assert [fds[count]][0] == fds[count];
    assert Left(leaves, Left(leaves, fk, fds, count), [fds[count]], 0) == Left(leaves, fk, fds, count);
  }

  lemma {:induction false} RowMore(rows: seq<Row>, fds: seq<Row>, passes: nat -> bool, count: nat, before: seq<Row>)
    requires RowsAhead(rows, fds, passes, count, before) && count < |fds|
    ensures PartOf(before + [fds[count]], rows + fds)
  {
  }

  lemma {:induction false} RowsMore(rows: seq<Row>, fds: seq<Row>, passes: nat -> bool, count: nat, before: seq<Row>,
                                    passesAlone: nat -> bool, after: seq<Row>)
    requires RowsAhead(rows, fds, passes, count, before) && count < |fds|
    requires RowsProcessed(before, [fds[count]], passesAlone, after)
    requires passes(count) ==> passesAlone(0)
    ensures RowsAhead(rows, fds, passes, count + 1, after)
  {
    assert after[|before| + 0] == if passesAlone(0) then [fds[count]][0] else Rejected([fds[count]][0]);
    assert (rows + fds)[|rows| + count] == fds[count];
  }

  ghost predicate AheadAfter(cfg: Config, w: World, intents: seq<Intent>, clearRaises: nat -> bool, n: nat)
    requires n <= |intents|
  {
    var fds := NewRows(intents, cfg.DefaultState(), w.nextId);
    Ahead(cfg, w, fds, Passing(cfg, w, fds),
          |NewRows(intents[..n], cfg.DefaultState(), w.nextId)|, OneByOne(cfg, w, intents[..n], clearRaises))
  }

  lemma {:induction false} StaysAheadThroughout(cfg: Config, w: World, intents: seq<Intent>, clearRaises: nat -> bool, n: nat)
    requires UniqueIds(w) && n <= |intents|
    requires Completes(cfg, w, NewRows(intents, cfg.DefaultState(), w.nextId), clearRaises)
    ensures AheadAfter(cfg, w, intents, clearRaises, n)
  {
    if n == 0 {
      AheadAtStart(cfg, w, NewRows(intents, cfg.DefaultState(), w.nextId));
      assert intents[..0] == [];
    } else {
      StaysAheadThroughout(cfg, w, intents, clearRaises, n - 1);
      StaysAhead(cfg, w, intents, clearRaises, n);
    }
  }

  lemma AheadAtStart(cfg: Config, w: World, fds: seq<Row>)
    requires UniqueIds(w)
    ensures Ahead(cfg, w, fds, Passing(cfg, w, fds), 0, w)
  {
  }

  lemma StaysAhead(cfg: Config, w: World, intents: seq<Intent>, clearRaises: nat -> bool, n: nat)
    requires 0 < n <= |intents| && AheadAfter(cfg, w, intents, clearRaises, n - 1)
    requires Completes(cfg, w, NewRows(intents, cfg.DefaultState(), w.nextId), clearRaises)
    ensures AheadAfter(cfg, w, intents, clearRaises, n)
  {
    var s, fds := OneByOne(cfg, w, intents[..n - 1], clearRaises), NewRows(intents, cfg.DefaultState(), w.nextId);
    var before, added := NewRowsNext(cfg, w, intents, n, s);
    NewRowsFresh(cfg, w, intents);
    NextIntentAhead(cfg, w, fds, clearRaises, before, added, s);
    assert OneByOne(cfg, w, intents[..n], clearRaises) == SaveAndCheck(cfg, s, added, clearRaises) by {
      OneByOneStep(cfg, w, intents, clearRaises, n);
    }
  }

  lemma NextIntentAhead(cfg: Config, w: World, fds: seq<Row>, clearRaises: nat -> bool,
                        before: seq<Row>, added: seq<Row>, s: World)
    requires Fresh(cfg, w, fds) && Completes(cfg, w, fds, clearRaises)
    requires before + added <= fds && |added| <= 1 && Ahead(cfg, w, fds, Passing(cfg, w, fds), |before|, s)
    ensures Ahead(cfg, w, fds, Passing(cfg, w, fds), |before + added|, SaveAndCheck(cfg, s, added, clearRaises))
  {
    if added != [] {
      NextRow(fds, before, added);
      OneMoreAhead(cfg, w, fds, clearRaises, |before|, s);
    }
  }

  /** What the first `n - 1` intents and the `n`-th add. */
  lemma NewRowsNext(cfg: Config, w: World, intents: seq<Intent>, n: nat, s: World) returns (before: seq<Row>, added: seq<Row>)
    requires 0 < n <= |intents| && s.nextId == w.nextId + |NewRows(intents[..n - 1], cfg.DefaultState(), w.nextId)|
    ensures before == NewRows(intents[..n - 1], cfg.DefaultState(), w.nextId)
    ensures added == NewRows([intents[n - 1]], cfg.DefaultState(), s.nextId) && |added| <= 1 && Fresh(cfg, s, added)
    ensures before + added == NewRows(intents[..n], cfg.DefaultState(), w.nextId)
    ensures before + added <= NewRows(intents, cfg.DefaultState(), w.nextId)
  {
    before := NewRows(intents[..n - 1], cfg.DefaultState(), w.nextId);
    added := NewRows([intents[n - 1]], cfg.DefaultState(), s.nextId);
    assert intents[..n][..n - 1] == intents[..n - 1];
    NewRowsSnoc(intents[..n], cfg.DefaultState(), w.nextId);
    NewRowsPrefix(intents, cfg.DefaultState(), w.nextId, n);
  }

  lemma NextRow(fds: seq<Row>, before: seq<Row>, added: seq<Row>)
    requires before + added <= fds && |added| == 1
    ensures |before| < |fds| && added == [fds[|before|]]
  {
    assert (before + added)[|before|] == added[0];
  }

  /** Submitting intents one by one accepts at least everything that submitting them as one batch
      accepts, whatever fences there are, whatever the indexes hold and wherever clearing raises:
      every row that is stored and not rejected after the bulk request is the same row one by one. */
  lemma OneByOneAcceptsMore(cfg: Config, w: World, intents: seq<Intent>, clearRaises: nat -> bool)
    requires UniqueIds(w)
    ensures var single := OneByOne(cfg, w, intents, clearRaises).rows;
            var batch := Step(cfg, w, Bulk(intents, clearRaises)).rows;
            && |batch| <= |single|
            && forall i :: 0 <= i < |batch| && batch[i].state != REJECTED ==> single[i] == batch[i]
  {
    var fds := NewRows(intents, cfg.DefaultState(), w.nextId);
    NewRowsFresh(cfg, w, intents);
    OneByOneKeepsRows(cfg, w, intents, clearRaises);
    if Completes(cfg, w, fds, clearRaises) {
      SaveAndCheckExact(cfg, w, fds, clearRaises);
      StaysAheadThroughout(cfg, w, intents, clearRaises, |intents|);
      assert intents[..|intents|] == intents;
      AcceptedByBoth(w.rows, fds, Passing(cfg, w, fds),
                     OneByOne(cfg, w, intents, clearRaises).rows, SaveAndCheck(cfg, w, fds, clearRaises).rows);
    }
  }

  lemma {:induction false} AcceptedByBoth(rows: seq<Row>, fds: seq<Row>, passes: nat -> bool, single: seq<Row>, batch: seq<Row>)
    requires RowsAhead(rows, fds, passes, |fds|, single) && RowsProcessed(rows, fds, passes, batch)
    ensures |single| == |batch|
    ensures forall i :: 0 <= i < |batch| && batch[i].state != REJECTED ==> single[i] == batch[i]
  {
    forall i | |rows| <= i < |batch| && batch[i].state != REJECTED ensures single[i] == batch[i] {
      var k := i - |rows|;
      assert batch[|rows| + k] == if passes(k) then fds[k] else Rejected(fds[k]);
    }
  }

  // ---------- Two rivals ----------

  function FirstRow(w: World, a: Intent): Row
    requires a.Good?
  {
    Row(w.nextId, a.start, a.end, a.bounds, ACCEPTED, true)
  }

  function SecondRow(w: World, b: Intent): Row
    requires b.Good?
  {
    Row(w.nextId + 1, b.start, b.end, b.bounds, ACCEPTED, true)
  }

  /** The first intent alone would be accepted: nothing stored conflicts with it, no fence is in force
      for it, nothing stale lies on it, and if clearing raises for it there is nothing to clear. */
  ghost predicate FirstIsFine(w: World, r0: Row, clearRaises: nat -> bool) {
    && ClearOf(w.rows, r0) && NoFenceFor(w, r0) && !SomeHit(w.declarationKeys, r0.bounds)
    && (clearRaises(r0.id) ==> !Compared(w.rows, r0))
  }

  /** And one by one can accept strictly more.  Of two conflicting intents, the first fine by itself,
      one by one the first is accepted, and the second is rejected, or rolled back if clearing raises
      for it; the batch rejects both, or is rolled back if clearing raises for either. */
  lemma FirstOfTwoRivals(cfg: Config, w: World, a: Intent, b: Intent, clearRaises: nat -> bool)
    requires UniqueIds(w) && !cfg.usspNetworkEnabled && cfg.engineConfigured && a.Good? && b.Good?
    requires Extent(a.start, a.end, a.bounds).Conflicts(Extent(b.start, b.end, b.bounds))
    requires FirstIsFine(w, FirstRow(w, a), clearRaises)
    ensures OneByOne(cfg, w, [a, b], clearRaises).rows ==
            w.rows + [FirstRow(w, a)] + if clearRaises(w.nextId + 1) then [] else [Rejected(SecondRow(w, b))]
    ensures Step(cfg, w, Bulk([a, b], clearRaises)).rows ==
            w.rows + if clearRaises(w.nextId) || clearRaises(w.nextId + 1) then []
                     else [Rejected(FirstRow(w, a)), Rejected(SecondRow(w, b))]
  {
    RivalsOneByOne(cfg, w, a, b, clearRaises);
    RivalsInBatch(cfg, w, a, b, clearRaises);
  }

  lemma RivalsInBatch(cfg: Config, w: World, a: Intent, b: Intent, clearRaises: nat -> bool)
    requires UniqueIds(w) && !cfg.usspNetworkEnabled && cfg.engineConfigured && a.Good? && b.Good?
    requires Conflict(FirstRow(w, a), SecondRow(w, b))
    ensures Step(cfg, w, Bulk([a, b], clearRaises)).rows ==
            w.rows + if clearRaises(w.nextId) || clearRaises(w.nextId + 1) then []
                     else [Rejected(FirstRow(w, a)), Rejected(SecondRow(w, b))]
  {
    NewRowsOfTwo(w, a, b);
    BatchOfTwo(cfg, w, FirstRow(w, a), SecondRow(w, b), clearRaises);
  }

  lemma RivalsOneByOne(cfg: Config, w: World, a: Intent, b: Intent, clearRaises: nat -> bool)
    requires UniqueIds(w) && !cfg.usspNetworkEnabled && cfg.engineConfigured && a.Good? && b.Good?
    requires Conflict(FirstRow(w, a), SecondRow(w, b)) && FirstIsFine(w, FirstRow(w, a), clearRaises)
    ensures OneByOne(cfg, w, [a, b], clearRaises).rows ==
            w.rows + [FirstRow(w, a)] + if clearRaises(w.nextId + 1) then [] else [Rejected(SecondRow(w, b))]
  {
    var w1 := SaveAndCheck(cfg, w, [FirstRow(w, a)], clearRaises);
    FirstStored(cfg, w, FirstRow(w, a), clearRaises);
    assert OneByOne(cfg, w, [a, b], clearRaises) == SaveAndCheck(cfg, w1, [SecondRow(w, b)], clearRaises) by {
      OneByOneTwice(cfg, w, a, b, clearRaises, w1);
    }
    assert SaveAndCheck(cfg, w1, [SecondRow(w, b)], clearRaises).rows ==
           w.rows + [FirstRow(w, a)] + if clearRaises(w.nextId + 1) then [] else [Rejected(SecondRow(w, b))] by {
      SecondNotStored(cfg, w.rows, FirstRow(w, a), w1, SecondRow(w, b), clearRaises);
    }
  }

  lemma NewRowsOfTwo(w: World, a: Intent, b: Intent)
    requires a.Good? && b.Good?
    ensures var r0, r1 := FirstRow(w, a), SecondRow(w, b);
            && NewRows([a], ACCEPTED, w.nextId) == [r0] && NewRows([b], ACCEPTED, w.nextId + 1) == [r1]
            && NewRows([a, b], ACCEPTED, w.nextId) == [r0, r1]
  {
  }

  lemma OneByOneTwice(cfg: Config, w: World, a: Intent, b: Intent, clearRaises: nat -> bool, w1: World)
    requires !cfg.usspNetworkEnabled && a.Good? && b.Good?
    requires w1 == SaveAndCheck(cfg, w, [FirstRow(w, a)], clearRaises) && w1.nextId == w.nextId + 1
    ensures OneByOne(cfg, w, [a, b], clearRaises) == SaveAndCheck(cfg, w1, [SecondRow(w, b)], clearRaises)
  {
    NewRowsOfTwo(w, a, b);
    assert [a, b][..0] == [] && [a, b][..1] == [a] && [a, b][..2] == [a, b];
    OneByOneStep(cfg, w, [a, b], clearRaises, 1);
    OneByOneStep(cfg, w, [a, b], clearRaises, 2);
  }

  /** The outcome for one new row. */
  lemma OneRow(cfg: Config, w: World, r: Row, clearRaises: nat -> bool)
    requires UniqueIds(w) && Fresh(cfg, w, [r]) && cfg.engineConfigured
    ensures var after := SaveAndCheck(cfg, w, [r], clearRaises);
            && UniqueIds(after) && after.nextId == w.nextId + 1
            && (if clearRaises(r.id) && Compared(w.rows + [r], r) then after.rows == w.rows
                else after.rows == w.rows + [if Passing(cfg, w, [r])(0) then r else Rejected(r)])
  {
    assert [r][0] == r;
    RequestRaisesIff(cfg, w, [r], clearRaises);
    assert RaisesAt(w, [r], clearRaises, 0) <==> clearRaises(r.id) && Compared(w.rows + [r], r);
    OldRowsStay(cfg, w, [r], clearRaises);
    if Completes(cfg, w, [r], clearRaises) {
      SaveAndCheckExact(cfg, w, [r], clearRaises);
      RowsOfOne(w.rows, r, Passing(cfg, w, [r]), SaveAndCheck(cfg, w, [r], clearRaises).rows);
    }
  }

  /** So after the only declarations in its way have been moved out, a new one is accepted. */
  lemma AcceptedAfterMovingOut(cfg: Config, w: World, id: nat, state: int, r: Row, clearRaises: nat -> bool)
    requires UniqueIds(w) && cfg.engineConfigured && state !in {1, 2, 3, 4}
    requires r.id == w.nextId && r.state == cfg.DefaultState() && NoFenceFor(w, r)
    requires !SomeHit(w.declarationKeys, r.bounds) && !clearRaises(r.id)
    requires forall i :: 0 <= i < |w.rows| && w.rows[i].state in {1, 2, 3, 4} && w.rows[i].id != id ==> !Conflict(w.rows[i], r)
    ensures var before := Step(cfg, w, SetState(id, state));
            SaveAndCheck(cfg, before, [r], clearRaises).rows == before.rows + [r]
  {
    var before := Step(cfg, w, SetState(id, state));
    MovedOutStandsInNoWay(cfg, w, id, state, r);
    FreshOne(cfg, before, r);
    OneRow(cfg, before, r, clearRaises);
    AloneInStore(before.rows, r);
    PassesIff(cfg, before, [r], 0);
  }

  lemma FreshOne(cfg: Config, w: World, r: Row)
    requires r.id == w.nextId && r.state == cfg.DefaultState()
    ensures Fresh(cfg, w, [r])
  {
  }

  lemma {:induction false} RowsOfOne(rows: seq<Row>, r: Row, passes: nat -> bool, after: seq<Row>)
    requires RowsProcessed(rows, [r], passes, after)
    ensures after == rows + [if passes(0) then r else Rejected(r)]
  {
    assert after[|rows| + 0] == if passes(0) then [r][0] else Rejected([r][0]);
  }

  lemma AloneInStore(rows: seq<Row>, r: Row)
    ensures ClearOf(rows + [r], r) <==> ClearOf(rows, r)
    ensures Compared(rows + [r], r) <==> Compared(rows, r)
  {
    ClearOfBoth(rows, [r], r);
    ComparedWithBoth(rows, [r], r);
  }

  lemma FirstStored(cfg: Config, w: World, r0: Row, clearRaises: nat -> bool)
    requires UniqueIds(w) && cfg.engineConfigured && r0.id == w.nextId && r0.state == cfg.DefaultState()
    requires FirstIsFine(w, r0, clearRaises)
    ensures var w1 := SaveAndCheck(cfg, w, [r0], clearRaises);
            w1.rows == w.rows + [r0] && w1.nextId == w.nextId + 1 && UniqueIds(w1)
  {
    FreshOne(cfg, w, r0);
    AloneInStore(w.rows, r0);
    OneRow(cfg, w, r0, clearRaises);
    PassesIff(cfg, w, [r0], 0);
  }

  lemma SecondNotStored(cfg: Config, rows: seq<Row>, r0: Row, w1: World, r1: Row, clearRaises: nat -> bool)
    requires UniqueIds(w1) && cfg.engineConfigured && r1.id == w1.nextId && r1.state == cfg.DefaultState()
    requires w1.rows == rows + [r0] && IsActive(r0.state) && r0.id != r1.id && Conflict(r0, r1)
    ensures SaveAndCheck(cfg, w1, [r1], clearRaises).rows ==
            rows + [r0] + if clearRaises(r1.id) then [] else [Rejected(r1)]
  {
    FreshOne(cfg, w1, r1);
    SecondFails(cfg, rows, r0, w1, r1);
    OneRow(cfg, w1, r1, clearRaises);
  }

  /** With a rival stored, a row does not pass, whatever fences and indexes there are. */
  lemma SecondFails(cfg: Config, rows: seq<Row>, r0: Row, w1: World, r1: Row)
    requires w1.rows == rows + [r0] && IsActive(r0.state) && r0.id != r1.id && Conflict(r0, r1)
    ensures !Passing(cfg, w1, [r1])(0) && Compared(w1.rows + [r1], r1)
  {
    var saved := w1.rows + [r1];
    assert saved[|rows|] == r0;
    assert !ClearOf(saved, r1);
    PassingAt(cfg, w1, [r1], 0);
  }

  lemma BatchOfTwo(cfg: Config, w: World, r0: Row, r1: Row, clearRaises: nat -> bool)
    requires UniqueIds(w) && cfg.engineConfigured && !cfg.usspNetworkEnabled
    requires Fresh(cfg, w, [r0, r1]) && Conflict(r0, r1)
    ensures SaveAndCheck(cfg, w, [r0, r1], clearRaises).rows ==
            w.rows + if clearRaises(w.nextId) || clearRaises(w.nextId + 1) then [] else [Rejected(r0), Rejected(r1)]
  {
    var fds := [r0, r1];
    RivalsCompared(cfg, w, r0, r1);
    TwoRaiseIff(cfg, w, r0, r1, clearRaises);
    if Completes(cfg, w, fds, clearRaises) {
      SaveAndCheckExact(cfg, w, fds, clearRaises);
      RowsOfTwo(w.rows, r0, r1, Passing(cfg, w, fds), SaveAndCheck(cfg, w, fds, clearRaises).rows);
    }
  }

  lemma TwoRaiseIff(cfg: Config, w: World, r0: Row, r1: Row, clearRaises: nat -> bool)
    requires Compared(w.rows + [r0, r1], r0) && Compared(w.rows + [r0, r1], r1)
    ensures ChecksOf(cfg, w, [r0, r1], clearRaises).raised <==> clearRaises(r0.id) || clearRaises(r1.id)
  {
    var fds := [r0, r1];
    RequestRaisesIff(cfg, w, fds, clearRaises);
    assert fds[0] == r0 && fds[1] == r1;
    if k :| RaisesAt(w, fds, clearRaises, k) {
      assert k == 0 || k == 1;
    }
    if clearRaises(r0.id) {
      assert RaisesAt(w, fds, clearRaises, 0);
    } else if clearRaises(r1.id) {
      assert RaisesAt(w, fds, clearRaises, 1);
    }
  }

  lemma {:induction false} RowsOfTwo(rows: seq<Row>, r0: Row, r1: Row, passes: nat -> bool, after: seq<Row>)
    requires RowsProcessed(rows, [r0, r1], passes, after) && !passes(0) && !passes(1)
    ensures after == rows + [Rejected(r0), Rejected(r1)]
  {
    assert after[|rows| + 0] == Rejected([r0, r1][0]);
    assert after[|rows| + 1] == Rejected([r0, r1][1]);
  }

  lemma RivalsCompared(cfg: Config, w: World, r0: Row, r1: Row)
    requires !cfg.usspNetworkEnabled && Fresh(cfg, w, [r0, r1]) && Conflict(r0, r1)
    ensures Compared(w.rows + [r0, r1], r0) && Compared(w.rows + [r0, r1], r1)
    ensures r0.id == w.nextId && r1.id == w.nextId + 1
    ensures !Passing(cfg, w, [r0, r1])(0) && !Passing(cfg, w, [r0, r1])(1)
  {
    var saved := w.rows + [r0, r1];
    assert [r0, r1][0] == r0 && [r0, r1][1] == r1;
    assert saved[|w.rows|] == r0 && saved[|w.rows| + 1] == r1;
    assert !ClearOf(saved, r0) && !ClearOf(saved, r1);
    PassingAt(cfg, w, [r0, r1], 0);
    PassingAt(cfg, w, [r0, r1], 1);
  }
}
