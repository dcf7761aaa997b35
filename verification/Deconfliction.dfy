/**
 Strategic deconfliction of flight declarations: what every request does to the stored
 declarations and to the shared indexes, and that active declarations never conflict
 (`FlightDeclarationOperations`, `DefaultDeconflictionEngine`, `SQLAlchemyFlightDeclarationRepository`).

 A request commits as a whole or is rolled back as a whole; the index files are not rolled back.
 The indexes appear here as the multisets of their keys.
 */
module Deconfliction {
  import opened SpatialIndex

  const ACCEPTED := 1
  const REJECTED := 8

  datatype Row = Row(id: nat, start: int, end: int, bounds: Box, state: int, approved: bool)

  datatype Fence = Fence(id: nat, start: int, end: int, bounds: Box)

  datatype Config = Config(usspNetworkEnabled: bool, engineConfigured: bool, hash: Hash) {
    function DefaultState(): int {
      if usspNetworkEnabled then 0 else ACCEPTED
    }
  }

  datatype World = World(
    rows: seq<Row>, fences: seq<Fence>, nextId: nat, declarationKeys: multiset<Key>, fenceKeys: multiset<Key>)

  // ---------- Queries ----------

  predicate IsActive(state: int) {
    state == 1 || state == 2 || state == 3 || state == 4
  }

  predicate Overlaps(row: Row, start: int, end: int) {
    row.start <= end && row.end >= start
  }

  function ActiveOverlapping(rows: seq<Row>, start: int, end: int, excluded: nat): (found: seq<Row>)
    ensures forall r :: r in found <==> r in rows && IsActive(r.state) && Overlaps(r, start, end) && r.id != excluded
  {
    if rows == [] then []
    else
      var n := |rows| - 1;
      assert rows == rows[..n] + [rows[n]];
      ActiveOverlapping(rows[..n], start, end, excluded) +
      if IsActive(rows[n].state) && Overlaps(rows[n], start, end) && rows[n].id != excluded then [rows[n]] else []
  }

  /** The fences whose time window contains the whole window asked for. */
  function FencesFor(fences: seq<Fence>, start: int, end: int): (found: seq<Fence>)
    ensures forall f :: f in found <==> f in fences && f.start <= start && end <= f.end
  {
    if fences == [] then []
    else
      var n := |fences| - 1;
      assert fences == fences[..n] + [fences[n]];
      FencesFor(fences[..n], start, end) +
      if fences[n].start <= start && fences[n].end >= end then [fences[n]] else []
  }

  /** The queries keep the order of the table: row by row. */
  lemma QueriesInOrder(rows: seq<Row>, r: Row, fences: seq<Fence>, f: Fence, start: int, end: int, excluded: nat)
    ensures ActiveOverlapping(rows + [r], start, end, excluded) ==
            ActiveOverlapping(rows, start, end, excluded) +
            if r.state in {1, 2, 3, 4} && r.start <= end && start <= r.end && r.id != excluded then [r] else []
    ensures FencesFor(fences + [f], start, end) ==
            FencesFor(fences, start, end) + if f.start <= start && end <= f.end then [f] else []
  {
    assert (rows + [r])[..|rows|] == rows && (fences + [f])[..|fences|] == fences;
  }

  function RowItems(rows: seq<Row>): (items: seq<Item>)
    ensures |items| == |rows|
    ensures forall i :: 0 <= i < |rows| ==> items[i] == Item(rows[i].id, rows[i].bounds)
  {
    seq(|rows|, i requires 0 <= i < |rows| => Item(rows[i].id, rows[i].bounds))
  }

  function FenceItems(fences: seq<Fence>): seq<Item> {
    seq(|fences|, i requires 0 <= i < |fences| => Item(fences[i].id, fences[i].bounds))
  }

  // ---------- The engine ----------

  datatype Verdict = Verdict(approved: bool, state: int)

  /** A check: its verdict, the indexes it leaves, and whether clearing the declaration index raised. */
  datatype Checked = Checked(verdict: Verdict, declarationKeys: multiset<Key>, fenceKeys: multiset<Key>, raised: bool)

  /** Some fence in force, or left in the fence index by an earlier check, meets the declaration;
      the index is only asked when some fence is in force. */
  ghost predicate FenceHit(cfg: Config, w: World, fd: Row) {
    var fences := FenceItems(FencesFor(w.fences, fd.start, fd.end));
    fences != [] && SomeHit(w.fenceKeys + multiset(FenceKeys(cfg.hash, fences)), fd.bounds)
  }

  ghost function Check(cfg: Config, w: World, fd: Row, clearRaises: bool): Checked {
    var fences := FenceItems(FencesFor(w.fences, fd.start, fd.end));
    var withFences := w.fenceKeys + multiset(FenceKeys(cfg.hash, fences));
    var fenceHit := FenceHit(cfg, w, fd);
    var others := RowItems(ActiveOverlapping(w.rows, fd.start, fd.end, fd.id));
    var otherKeys := multiset(DeclarationKeys(cfg.hash, others));
    var declarationHit := others != [] && SomeHit(w.declarationKeys + otherKeys, fd.bounds);
    var raised := others != [] && clearRaises;
    Checked(Verdict(!fenceHit && !declarationHit, if fenceHit || declarationHit then REJECTED else cfg.DefaultState()),
            if raised then w.declarationKeys + otherKeys else w.declarationKeys + otherKeys - otherKeys,
            withFences - multiset(DeclarationKeys(cfg.hash, fences)),
            raised)
  }

  /** One check after the other, until one raises. */
  datatype CheckedAll = CheckedAll(verdicts: seq<Verdict>, declarationKeys: multiset<Key>, fenceKeys: multiset<Key>, raised: bool)

  type Checker = (multiset<Key>, multiset<Key>, Row) -> Checked

  /** The engine as the service calls it: on the same stored rows, with the indexes as they are. */
  ghost function Engine(cfg: Config, w: World, clearRaises: nat -> bool): Checker {
    (declarationKeys: multiset<Key>, fenceKeys: multiset<Key>, fd: Row) =>
      Check(cfg, w.(declarationKeys := declarationKeys, fenceKeys := fenceKeys), fd, clearRaises(fd.id))
  }

  ghost function CheckAll(check: Checker, declarationKeys: multiset<Key>, fenceKeys: multiset<Key>, fds: seq<Row>): (c: CheckedAll)
    ensures !c.raised ==> |c.verdicts| == |fds|
  {
    if fds == [] then CheckedAll([], declarationKeys, fenceKeys, false)
    else
      var n := |fds| - 1;
      var before := CheckAll(check, declarationKeys, fenceKeys, fds[..n]);
      if before.raised then before
      else
        var c := check(before.declarationKeys, before.fenceKeys, fds[n]);
        CheckedAll(before.verdicts + [c.verdict], c.declarationKeys, c.fenceKeys, c.raised)
  }

  // ---------- Requests ----------

  /** A submitted operational intent: turned down by validation, too far in the past or future,
      breaking the conversion, or good. */
  datatype Intent = Invalid | BadDates | Malformed | Good(start: int, end: int, bounds: Box)

  datatype Request =
    | Create(intent: Intent, clearRaises: nat -> bool)
    | Bulk(intents: seq<Intent>, clearRaises: nat -> bool)
    | CreateUnchecked(intent: Intent, state: int)
    | SetState(id: nat, state: int)
    | Delete(id: nat)
    | ChangeFences(fences: seq<Fence>)

  /** The rows a batch saves, in order, before any of them is checked. */
  function NewRows(intents: seq<Intent>, state: int, nextId: nat): (rows: seq<Row>)
    ensures |rows| <= |intents|
    ensures forall k :: 0 <= k < |rows| ==> rows[k].id == nextId + k && rows[k].state == state && rows[k].approved
  {
    if intents == [] then []
    else
      var n := |intents| - 1;
      var rows := NewRows(intents[..n], state, nextId);
      match intents[n]
      case Good(start, end, bounds) => rows + [Row(nextId + |rows|, start, end, bounds, state, true)]
      case _ => rows
  }

  /** How many of the first `n` intents are good. */
  function GoodBefore(intents: seq<Intent>, n: nat): (count: nat)
    requires n <= |intents|
    ensures count <= n
  {
    if n == 0 then 0 else GoodBefore(intents, n - 1) + if intents[n - 1].Good? then 1 else 0
  }

  /** A good intent is saved with its own window and box, in the place the good intents before it leave. */
  lemma {:induction false} NewRowOfIntent(intents: seq<Intent>, state: int, nextId: nat, i: nat)
    requires i < |intents|
    ensures intents[i].Good? ==>
              var k := GoodBefore(intents, i);
              k < |NewRows(intents, state, nextId)| &&
              NewRows(intents, state, nextId)[k] ==
              Row(nextId + k, intents[i].start, intents[i].end, intents[i].bounds, state, true)
  {
    var n := |intents| - 1;
    GoodBeforePrefix(intents, i);
    NewRowsCount(intents[..n], state, nextId);
    if i < n {
      NewRowOfIntent(intents[..n], state, nextId, i);
    }
  }

  lemma {:induction false} NewRowsCount(intents: seq<Intent>, state: int, nextId: nat)
    ensures |NewRows(intents, state, nextId)| == GoodBefore(intents, |intents|)
  {
    if intents != [] {
      NewRowsCount(intents[..|intents| - 1], state, nextId);
      GoodBeforePrefix(intents, |intents| - 1);
    }
  }

  lemma {:induction false} GoodBeforePrefix(intents: seq<Intent>, n: nat)
    requires intents != [] && n <= |intents| - 1
    ensures GoodBefore(intents[..|intents| - 1], n) == GoodBefore(intents, n)
  {
    if n > 0 {
      GoodBeforePrefix(intents, n - 1);
    }
  }

  function UpdateState(rows: seq<Row>, id: nat, state: int): (updated: seq<Row>)
    ensures |updated| == |rows|
    ensures forall i :: 0 <= i < |rows| ==> updated[i] == if rows[i].id == id then rows[i].(state := state) else rows[i]
  {
    seq(|rows|, i requires 0 <= i < |rows| => if rows[i].id == id then rows[i].(state := state) else rows[i])
  }

  function Reject(rows: seq<Row>, id: nat, state: int): (updated: seq<Row>)
    ensures |updated| == |rows|
    ensures forall i :: 0 <= i < |rows| ==>
              updated[i] == if rows[i].id == id then rows[i].(state := state, approved := false) else rows[i]
  {
    seq(|rows|, i requires 0 <= i < |rows| =>
      if rows[i].id == id then rows[i].(state := state, approved := false) else rows[i])
  }

  /** Every row whose check failed is rejected. */
  function Process(rows: seq<Row>, fds: seq<Row>, verdicts: seq<Verdict>): (processed: seq<Row>)
    requires |verdicts| == |fds|
    ensures |processed| == |rows|
  {
    if fds == [] then rows
    else
      var n := |fds| - 1;
      var before := Process(rows, fds[..n], verdicts[..n]);
      if verdicts[n].approved then before else Reject(before, fds[n].id, verdicts[n].state)
  }

  function Without(rows: seq<Row>, id: nat): seq<Row> {
    if rows == [] then []
    else
      var n := |rows| - 1;
      Without(rows[..n], id) + if rows[n].id != id then [rows[n]] else []
  }

  ghost predicate DistinctIds(rows: seq<Row>) {
    forall i, j :: 0 <= i < j < |rows| ==> rows[i].id != rows[j].id
  }

  lemma {:induction false} WithoutMembers(rows: seq<Row>, id: nat)
    ensures forall r :: r in Without(rows, id) <==> r in rows && r.id != id
  {
    if rows != [] {
      WithoutMembers(rows[..|rows| - 1], id);
      assert rows == rows[..|rows| - 1] + [rows[|rows| - 1]];
    }
  }

  lemma {:induction false} WithoutAbsent(rows: seq<Row>, id: nat)
    requires forall i :: 0 <= i < |rows| ==> rows[i].id != id
    ensures Without(rows, id) == rows
  {
    if rows != [] {
      WithoutAbsent(rows[..|rows| - 1], id);
    }
  }

  /** Deleting takes out the one row with that id and leaves the others as they were, in order. */
  lemma {:induction false} WithoutOne(rows: seq<Row>, id: nat, i: nat)
    requires DistinctIds(rows) && i < |rows| && rows[i].id == id
    ensures Without(rows, id) == rows[..i] + rows[i + 1..]
  {
    var n := |rows| - 1;
    if i == n {
      WithoutAbsent(rows[..n], id);
    } else {
      WithoutOne(rows[..n], id, i);
      assert rows[..n][..i] == rows[..i];
      assert rows[i + 1..] == rows[..n][i + 1..] + [rows[n]];
    }
  }

  /** The store with some more rows saved. */
  function Saved(w: World, fds: seq<Row>): World {
    w.(rows := w.rows + fds, nextId := w.nextId + |fds|)
  }

  /** The checks of a request, one for each row it saved, after all of them have been saved. */
  ghost function ChecksOf(cfg: Config, w: World, fds: seq<Row>, clearRaises: nat -> bool): (c: CheckedAll)
    ensures !c.raised ==> |c.verdicts| == |fds|
  {
    CheckAll(Engine(cfg, Saved(w, fds), clearRaises), w.declarationKeys, w.fenceKeys, fds)
  }

  /** Saving some rows, checking them all, and rejecting those that fail: without an engine, or if
      clearing the index raises, nothing is stored. */
  ghost function SaveAndCheck(cfg: Config, w: World, fds: seq<Row>, clearRaises: nat -> bool): World {
    if fds == [] then w
    else if !cfg.engineConfigured then w.(nextId := w.nextId + |fds|)
    else
      var c := ChecksOf(cfg, w, fds, clearRaises);
      World(if c.raised then w.rows else Process(w.rows + fds, fds, c.verdicts),
            w.fences, w.nextId + |fds|, c.declarationKeys, c.fenceKeys)
  }

  ghost function Step(cfg: Config, w: World, request: Request): World {
    match request
    case Create(intent, clearRaises) =>
      SaveAndCheck(cfg, w, NewRows([intent], cfg.DefaultState(), w.nextId), clearRaises)
    case Bulk(intents, clearRaises) =>
      SaveAndCheck(cfg, w, NewRows(intents, cfg.DefaultState(), w.nextId), clearRaises)
    case CreateUnchecked(intent, state) =>
      if intent.Good?
      then w.(rows := w.rows + [Row(w.nextId, intent.start, intent.end, intent.bounds, state, state != 0 && state != REJECTED)],
              nextId := w.nextId + 1)
      else w
    case SetState(id, state) => w.(rows := UpdateState(w.rows, id, state))
    case Delete(id) => w.(rows := Without(w.rows, id))
    case ChangeFences(fences) => w.(fences := fences)
  }

  // ---------- Conflicts ----------

  /** Closed time windows and closed boxes both meet. */
  predicate Conflict(a: Row, b: Row) {
    Overlaps(a, b.start, b.end) && a.bounds.Meets(b.bounds)
  }

  /** At time `t` the declaration covers the point `(x, y)`. */
  predicate Covers(r: Row, t: int, x: real, y: real) {
    r.start <= t <= r.end && r.bounds.minX <= x <= r.bounds.maxX && r.bounds.minY <= y <= r.bounds.maxY
  }

  predicate ProperExtent(r: Row) {
    r.start <= r.end && r.bounds.minX <= r.bounds.maxX && r.bounds.minY <= r.bounds.maxY
  }

  /** For declarations with an extent, to conflict is to cover some point at the same time. */
  lemma ConflictMeansSharedPoint(a: Row, b: Row)
    ensures (exists t, x, y :: Covers(a, t, x, y) && Covers(b, t, x, y)) ==> Conflict(a, b)
    ensures ProperExtent(a) && ProperExtent(b) && Conflict(a, b) ==>
              (exists t, x, y :: Covers(a, t, x, y) && Covers(b, t, x, y))
  {
    if ProperExtent(a) && ProperExtent(b) && Conflict(a, b) {
      var t := if a.start >= b.start then a.start else b.start;
      var x := if a.bounds.minX >= b.bounds.minX then a.bounds.minX else b.bounds.minX;
      var y := if a.bounds.minY >= b.bounds.minY then a.bounds.minY else b.bounds.minY;
      assert Covers(a, t, x, y) && Covers(b, t, x, y);
    }
  }

  ghost predicate UniqueIds(w: World) {
    && (forall i :: 0 <= i < |w.rows| ==> w.rows[i].id < w.nextId)
    && (forall i, j :: 0 <= i < j < |w.rows| ==> w.rows[i].id != w.rows[j].id)
  }

  ghost predicate ConflictFree(rows: seq<Row>) {
    forall i, j :: 0 <= i < j < |rows| && IsActive(rows[i].state) && IsActive(rows[j].state) ==>
      !Conflict(rows[i], rows[j])
  }

  ghost predicate Safe(w: World) {
    UniqueIds(w) && ConflictFree(w.rows)
  }

  /** No other active row conflicts with `fd`. */
  ghost predicate ClearOf(rows: seq<Row>, fd: Row) {
    forall i :: 0 <= i < |rows| && IsActive(rows[i].state) && rows[i].id != fd.id ==> !Conflict(rows[i], fd)
  }

  // ---------- The engine is sound, and exact on a clean index ----------

  function OtherKeys(hash: Hash, rows: seq<Row>, fd: Row): seq<Key> {
    DeclarationKeys(hash, RowItems(ActiveOverlapping(rows, fd.start, fd.end, fd.id)))
  }

  lemma OthersHitIff(hash: Hash, rows: seq<Row>, fd: Row)
    ensures SomeHit(multiset(OtherKeys(hash, rows, fd)), fd.bounds) <==> !ClearOf(rows, fd)
  {
  }

  lemma SomeHitSum(stale: multiset<Key>, keys: multiset<Key>, view: Box)
    ensures SomeHit(stale + keys, view) <==> SomeHit(stale, view) || SomeHit(keys, view)
  {
  }

  /** The verdict, whatever the indexes hold: approved if and only if no fence entry is hit, no
      other active declaration conflicts, and, if the index is asked at all, nothing stale is hit. */
  lemma VerdictIff(cfg: Config, w: World, fd: Row, clearRaises: bool)
    ensures Check(cfg, w, fd, clearRaises).verdict.approved <==>
            && !FenceHit(cfg, w, fd)
            && ClearOf(w.rows, fd)
            && (ActiveOverlapping(w.rows, fd.start, fd.end, fd.id) == [] || !SomeHit(w.declarationKeys, fd.bounds))
  {
    OthersHitIff(cfg.hash, w.rows, fd);
    SomeHitSum(w.declarationKeys, multiset(OtherKeys(cfg.hash, w.rows, fd)), fd.bounds);
  }

  /** A check whose clearing does not raise gives the declaration index back as it found it. */
  lemma CheckKeepsIndex(cfg: Config, w: World, fd: Row, clearRaises: bool)
    requires !Check(cfg, w, fd, clearRaises).raised
    ensures Check(cfg, w, fd, clearRaises).declarationKeys == w.declarationKeys
  {
  }

  ghost predicate KeepsIndex(check: Checker) {
    forall dk, fk, fd :: !check(dk, fk, fd).raised ==> check(dk, fk, fd).declarationKeys == dk
  }

  lemma {:induction false} CheckAllKeepsIndex(check: Checker, dk: multiset<Key>, fk: multiset<Key>, fds: seq<Row>)
    requires KeepsIndex(check) && !CheckAll(check, dk, fk, fds).raised
    ensures CheckAll(check, dk, fk, fds).declarationKeys == dk
  {
    if fds != [] {
      CheckAllKeepsIndex(check, dk, fk, fds[..|fds| - 1]);
    }
  }

  /** A request whose checks all clear the declaration index without raising gives it back as it
      found it, whatever it held. */
  lemma RequestKeepsIndex(cfg: Config, w: World, fds: seq<Row>, clearRaises: nat -> bool)
    requires !ChecksOf(cfg, w, fds, clearRaises).raised
    ensures SaveAndCheck(cfg, w, fds, clearRaises).declarationKeys == w.declarationKeys
  {
    var check := Engine(cfg, Saved(w, fds), clearRaises);
    forall dk, fk, fd | !check(dk, fk, fd).raised ensures check(dk, fk, fd).declarationKeys == dk {
      CheckKeepsIndex(cfg, Saved(w, fds).(declarationKeys := dk, fenceKeys := fk), fd, clearRaises(fd.id));
    }
    CheckAllKeepsIndex(check, w.declarationKeys, w.fenceKeys, fds);
  }
}
