/**
 The deconfliction requests as the service carries them out: rows are created, updated and deleted
 in the store, the shared R-trees are filled and cleared, and a request that raises is rolled back.
 Every operation is proved to do to the store and the indexes what `Deconfliction.Step` says.
 */
module DeconflictionService {
  import opened SpatialIndex
  import opened Deconfliction
  import opened DeconflictionSafety
  import opened DeconflictionExact

  /** One entry of a bulk response; `verdict` belongs to a saved row. */
  datatype ItemResult = Failure(index: nat) | Success(index: nat, id: nat, verdict: Verdict)

  datatype Response =
    | Refused
    | Created(id: nat, verdict: Verdict)
    | BulkCreated(submitted: nat, failed: nat, results: seq<ItemResult>, status: int)
    | RolledBack

  // ---------- Sorting results by index ----------

  function InsertByIndex(r: ItemResult, sorted: seq<ItemResult>): (inserted: seq<ItemResult>)
    ensures |inserted| == |sorted| + 1
    ensures forall x :: x in inserted <==> x == r || x in sorted
  {
    if sorted == [] || r.index < sorted[0].index then [r] + sorted
    else
      assert sorted == [sorted[0]] + sorted[1..];
      [sorted[0]] + InsertByIndex(r, sorted[1..])
  }

  /** A stable sort by index. */
  function SortByIndex(results: seq<ItemResult>): (sorted: seq<ItemResult>)
    ensures |sorted| == |results|
    ensures forall x :: x in sorted <==> x in results
  {
    if results == [] then []
    else
      assert results == results[..|results| - 1] + [results[|results| - 1]];
      InsertByIndex(results[|results| - 1], SortByIndex(results[..|results| - 1]))
  }

  ghost predicate Ascending(results: seq<ItemResult>) {
    forall i, j :: 0 <= i < j < |results| ==> results[i].index < results[j].index
  }

  ghost predicate DistinctIndexes(results: seq<ItemResult>) {
    forall i, j :: 0 <= i < j < |results| ==> results[i].index != results[j].index
  }

  lemma {:induction false} InsertKeepsAscending(r: ItemResult, sorted: seq<ItemResult>)
    requires Ascending(sorted) && forall x :: x in sorted ==> x.index != r.index
    ensures Ascending(InsertByIndex(r, sorted))
  {
    if sorted != [] && !(r.index < sorted[0].index) {
      HeadBelow(sorted);
      InsertKeepsAscending(r, sorted[1..]);
      assert sorted[0] in sorted;
      PrependBelow(sorted[0], InsertByIndex(r, sorted[1..]));
    } else if sorted != [] {
      HeadBelow(sorted);
      PrependBelow(r, sorted);
    }
  }

  lemma HeadBelow(sorted: seq<ItemResult>)
    requires sorted != [] && Ascending(sorted)
    ensures Ascending(sorted[1..]) && sorted == [sorted[0]] + sorted[1..]
    ensures forall x :: x in sorted[1..] ==> sorted[0].index < x.index
  {
  }

  lemma PrependBelow(r: ItemResult, sorted: seq<ItemResult>)
    requires Ascending(sorted) && forall x :: x in sorted ==> r.index < x.index
    ensures Ascending([r] + sorted)
  {
  }

  lemma {:induction false} SortedAscending(results: seq<ItemResult>)
    requires DistinctIndexes(results)
    ensures Ascending(SortByIndex(results))
  {
    if results != [] {
      var n := |results| - 1;
      SortedAscending(results[..n]);
      forall x | x in SortByIndex(results[..n]) ensures x.index != results[n].index {
        var i :| 0 <= i < n && results[..n][i] == x;
        assert results[i] == x;
      }
      InsertKeepsAscending(results[n], SortByIndex(results[..n]));
    }
  }

  /** Sorting `n` results with different indexes below `n` puts the result of every item at the
      item's own position. */
  lemma ResultsFallIntoPlace(results: seq<ItemResult>)
    requires DistinctIndexes(results) && forall i :: 0 <= i < |results| ==> results[i].index < |results|
    ensures forall i :: 0 <= i < |results| ==> SortByIndex(results)[i].index == i
  {
    SortedAscending(results);
    var sorted, n := SortByIndex(results), |results|;
    for i := 0 to n
      invariant forall k :: 0 <= k < i ==> sorted[k].index >= k
    {
      assert i > 0 ==> sorted[i - 1].index < sorted[i].index;
    }
    var i := n;
    while i > 0
      invariant 0 <= i <= n
      invariant forall k :: i <= k < n ==> sorted[k].index == k
    {
      i := i - 1;
      assert sorted[i] in results;
      assert i + 1 < n ==> sorted[i].index < sorted[i + 1].index;
    }
  }

  // ---------- The indexes, by their keys ----------

  method IndexAndAskDeclarations(tree: RTree, hash: Hash, items: seq<Item>, view: Box) returns (hit: bool)
    modifies tree
    ensures KeysOf(tree.entries) == KeysOf(old(tree.entries)) + multiset(DeclarationKeys(hash, items))
    ensures hit == SomeHit(KeysOf(tree.entries), view)
  {
    GenerateFlightDeclarationIndex(tree, hash, items);
    EntriesForKeys(DeclarationKeys(hash, items), items);
    KeysConcat(old(tree.entries), EntriesFor(DeclarationKeys(hash, items), items));
    HitsByKeys(tree.entries, view);
    var relevant := tree.Intersection(view);
    hit := relevant != [];
  }

  method IndexAndAskFences(tree: RTree, hash: Hash, items: seq<Item>, view: Box) returns (hit: bool)
    modifies tree
    ensures tree.entries == old(tree.entries) + EntriesFor(FenceKeys(hash, items), items)
    ensures KeysOf(tree.entries) == KeysOf(old(tree.entries)) + multiset(FenceKeys(hash, items))
    ensures hit == (Hits(tree.entries, view) != []) == SomeHit(KeysOf(tree.entries), view)
  {
    GenerateGeoFenceIndex(tree, hash, items);
    EntriesForKeys(FenceKeys(hash, items), items);
    KeysConcat(old(tree.entries), EntriesFor(FenceKeys(hash, items), items));
    HitsByKeys(tree.entries, view);
    var relevant := tree.Intersection(view);
    hit := relevant != [];
  }

  /** Both kinds of index are cleared with the bounds as they are. */
  method ClearKeys(tree: RTree, hash: Hash, items: seq<Item>)
    modifies tree
    ensures Deleted(old(tree.entries), DeclarationKeys(hash, items), tree.entries)
    ensures KeysOf(tree.entries) == KeysOf(old(tree.entries)) - multiset(DeclarationKeys(hash, items))
  {
    ClearDeclarationIndex(tree, hash, items);
    DeletedKeys(old(tree.entries), DeclarationKeys(hash, items), tree.entries);
  }

  // ---------- The service ----------

  class FlightDeclarationOperations {
    const cfg: Config
    const declarationTree: RTree
    const fenceTree: RTree
    var rows: seq<Row>
    var fences: seq<Fence>
    var nextId: nat

    constructor (cfg: Config, declarationTree: RTree, fenceTree: RTree)
      requires declarationTree != fenceTree
      ensures Valid() && this.cfg == cfg
      ensures this.declarationTree == declarationTree && this.fenceTree == fenceTree
      ensures rows == [] && fences == [] && nextId == 0
    {
      this.cfg, this.declarationTree, this.fenceTree := cfg, declarationTree, fenceTree;
      rows, fences, nextId := [], [], 0;
    }

    ghost predicate Valid() {
      declarationTree != fenceTree
    }

    ghost function Contents(): World
      reads this, declarationTree, fenceTree
    {
      World(rows, fences, nextId, KeysOf(declarationTree.entries), KeysOf(fenceTree.entries))
    }

    method GetActiveDeclarationsOverlapping(start: int, end: int, excluded: nat) returns (found: seq<Row>)
      ensures found == ActiveOverlapping(rows, start, end, excluded)
    {
      found := [];
      for i := 0 to |rows|
        invariant found == ActiveOverlapping(rows[..i], start, end, excluded)
      {
        assert rows[..i + 1][..i] == rows[..i];
        if IsActive(rows[i].state) && Overlaps(rows[i], start, end) && rows[i].id != excluded {
          found := found + [rows[i]];
        }
      }
      assert rows[..|rows|] == rows;
    }

    method GetGeofencesOverlapping(start: int, end: int) returns (found: seq<Fence>)
      ensures found == FencesFor(fences, start, end)
    {
      found := [];
      for i := 0 to |fences|
        invariant found == FencesFor(fences[..i], start, end)
      {
        assert fences[..i + 1][..i] == fences[..i];
        if fences[i].start <= start && fences[i].end >= end {
          found := found + [fences[i]];
        }
      }
      assert fences[..|fences|] == fences;
    }

    method CheckFences(fd: Row) returns (hit: bool)
      requires Valid()
      modifies fenceTree
      ensures hit == FenceHit(cfg, old(Contents()), fd)
      ensures var items := FenceItems(FencesFor(fences, fd.start, fd.end));
              KeysOf(fenceTree.entries) == KeysOf(old(fenceTree.entries)) + multiset(FenceKeys(cfg.hash, items))
                                           - multiset(DeclarationKeys(cfg.hash, items))
      ensures var items := FenceItems(FencesFor(fences, fd.start, fd.end));
              items != [] ==> AskCall(cfg.hash, old(fenceTree.entries), items, fd.bounds, fenceTree.entries, hit)
    {
      var found := GetGeofencesOverlapping(fd.start, fd.end);
      hit := false;
      var items := FenceItems(found);
      if items != [] {
        hit := IndexAndAskFences(fenceTree, cfg.hash, items, fd.bounds);
        ClearKeys(fenceTree, cfg.hash, items);
      } else {
        assert FenceKeys(cfg.hash, items) == [] && DeclarationKeys(cfg.hash, items) == [];
      }
    }

    /** Clearing runs in a `finally` block; if it raises, it has not deleted anything. */
    method CheckDeclarations(fd: Row, clearRaises: bool) returns (hit: bool, raised: bool)
      requires Valid()
      modifies declarationTree
      ensures var others := RowItems(ActiveOverlapping(rows, fd.start, fd.end, fd.id));
              var keys, stale := multiset(DeclarationKeys(cfg.hash, others)), KeysOf(old(declarationTree.entries));
              && hit == (others != [] && SomeHit(stale + keys, fd.bounds))
              && raised == (others != [] && clearRaises)
              && KeysOf(declarationTree.entries) == if raised then stale + keys else stale + keys - keys
    {
      var found := GetActiveDeclarationsOverlapping(fd.start, fd.end, fd.id);
      hit, raised := false, false;
      var items := RowItems(found);
      if items != [] {
        hit := IndexAndAskDeclarations(declarationTree, cfg.hash, items, fd.bounds);
        if clearRaises {
          raised := true;
        } else {
          ClearKeys(declarationTree, cfg.hash, items);
        }
      } else {
        assert DeclarationKeys(cfg.hash, items) == [];
      }
    }

    method CheckDeconfliction(fd: Row, clearRaises: bool) returns (verdict: Verdict, raised: bool)
      requires Valid()
      modifies declarationTree, fenceTree
      ensures var c := Check(cfg, old(Contents()), fd, clearRaises);
              && verdict == c.verdict && raised == c.raised
              && Contents() == old(Contents()).(declarationKeys := c.declarationKeys, fenceKeys := c.fenceKeys)
    {
      var isApproved, declarationState := true, cfg.DefaultState();
      var fenceHit := CheckFences(fd);
      if fenceHit {
        isApproved, declarationState := false, REJECTED;
      }
      var declarationHit;
      declarationHit, raised := CheckDeclarations(fd, clearRaises);
      if declarationHit {
        isApproved, declarationState := false, REJECTED;
      }
      verdict := Verdict(isApproved, declarationState);
    }

    /** Asks the engine about the next of some rows, after those before it have been checked. */
    method CheckNext(fds: seq<Row>, i: nat, clearRaises: nat -> bool, ghost before: World, ghost verdicts: seq<Verdict>)
      returns (verdict: Verdict, raised: bool)
      requires Valid() && i < |fds| && CheckedUpTo(cfg, before, clearRaises, fds, i, verdicts, false, Contents())
      modifies declarationTree, fenceTree
      ensures CheckedUpTo(cfg, before, clearRaises, fds, i + 1, verdicts + [verdict], raised, Contents())
    {
      ghost var mid := Contents();
      verdict, raised := CheckDeconfliction(fds[i], clearRaises(fds[i].id));
      OneMoreChecked(cfg, before, clearRaises, fds, i, verdicts, mid, verdict, raised, Contents());
    }

    /** Checks rows that are already stored, in order; gives up when a check raises. */
    method RunDeconfliction(fds: seq<Row>, clearRaises: nat -> bool) returns (verdicts: seq<Verdict>, raised: bool)
      requires Valid()
      modifies declarationTree, fenceTree
      ensures var before := old(Contents());
              ChecksDone(before, CheckAll(Engine(cfg, before, clearRaises), before.declarationKeys, before.fenceKeys, fds),
                         verdicts, raised, Contents())
    {
      verdicts, raised := [], false;
      ghost var before := Contents();
      var i := 0;
      while i < |fds| && !raised
        invariant 0 <= i <= |fds|
        invariant CheckedUpTo(cfg, before, clearRaises, fds, i, verdicts, raised, Contents())
      {
        var verdict;
        verdict, raised := CheckNext(fds, i, clearRaises, before, verdicts);
        verdicts := verdicts + [verdict];
        i := i + 1;
      }
      CheckedToTheEnd(cfg, before, clearRaises, fds, i, verdicts, raised, Contents());
    }

    method ProcessIntersectionResult(fd: Row, verdict: Verdict)
      modifies this`rows
      ensures |rows| == |old(rows)|
      ensures forall i :: 0 <= i < |rows| ==>
                rows[i] == if !verdict.approved && old(rows)[i].id == fd.id
                           then old(rows)[i].(approved := false, state := verdict.state) else old(rows)[i]
    {
      if !verdict.approved {
        rows := Reject(rows, fd.id, verdict.state);
      }
    }

    method CreateRow(start: int, end: int, bounds: Box, state: int, approved: bool) returns (fd: Row)
      modifies this`rows, this`nextId
      ensures fd == Row(old(nextId), start, end, bounds, state, approved)
      ensures rows == old(rows) + [fd] && nextId == old(nextId) + 1
    {
      fd := Row(nextId, start, end, bounds, state, approved);
      rows := rows + [fd];
      nextId := nextId + 1;
    }

    /** The second half of a request: check the rows it saved, all of them before any is rejected;
        if a check raises, or there is no engine to give a result, roll back to what was committed. */
    method DeconflictAndProcess(fds: seq<Row>, clearRaises: nat -> bool, committed: seq<Row>, ghost before: World)
      returns (verdicts: seq<Verdict>, rolledBack: bool)
      requires Valid() && fds != []
      requires Contents() == Saved(before, fds) && committed == before.rows
      modifies this`rows, declarationTree, fenceTree
      ensures Contents() == SaveAndCheck(cfg, before, fds, clearRaises)
      ensures rolledBack <==> !cfg.engineConfigured || ChecksOf(cfg, before, fds, clearRaises).raised
      ensures !rolledBack ==> |verdicts| == |fds| && verdicts == ChecksOf(cfg, before, fds, clearRaises).verdicts
    {
      if !cfg.engineConfigured {
        rows := committed;
        return [], true;
      }
      verdicts, rolledBack := RunDeconfliction(fds, clearRaises);
      if rolledBack {
        rows := committed;
        return;
      }
      ProcessAll(fds, verdicts);
    }

    method ProcessAll(fds: seq<Row>, verdicts: seq<Verdict>)
      requires |verdicts| == |fds|
      modifies this`rows
      ensures rows == Process(old(rows), fds, verdicts)
    {
      for k := 0 to |fds|
        invariant rows == Process(old(rows), fds[..k], verdicts[..k])
      {
        assert fds[..k + 1][..k] == fds[..k] && verdicts[..k + 1][..k] == verdicts[..k];
        ghost var before := rows;
        ProcessIntersectionResult(fds[k], verdicts[k]);
        assert rows == if verdicts[k].approved then before else Reject(before, fds[k].id, verdicts[k].state);
      }
      assert fds[..|fds|] == fds && verdicts[..|fds|] == verdicts;
    }

    method SetOperationalIntent(intent: Intent, clearRaises: nat -> bool) returns (response: Response)
      requires Valid()
      modifies this, declarationTree, fenceTree
      ensures Contents() == Step(cfg, old(Contents()), Create(intent, clearRaises))
      ensures !intent.Good? ==> response == if intent.Malformed? then RolledBack else Refused
      ensures intent.Good? ==>
                var c := ChecksOf(cfg, old(Contents()), NewRows([intent], cfg.DefaultState(), old(nextId)), clearRaises);
                if !cfg.engineConfigured || c.raised then response == RolledBack
                else |c.verdicts| == 1 && response == Created(old(nextId), c.verdicts[0])
      ensures response == RolledBack || response == Refused ==> rows == old(rows)
      ensures fences == old(fences)
      ensures response.Created? && UniqueIds(old(Contents())) ==>
                var n := |old(rows)|;
                && |rows| == n + 1 && rows[..n] == old(rows)
                && response == Created(rows[n].id, Verdict(rows[n].approved, rows[n].state))
                && intent.Good? && rows[n].start == intent.start && rows[n].end == intent.end && rows[n].bounds == intent.bounds
    {
      ghost var before := Contents();
      NewRowsOne(intent, cfg.DefaultState(), nextId);
      if !intent.Good? {
        return if intent.Malformed? then RolledBack else Refused;
      }
      var committed := rows;
      var fd := CreateRow(intent.start, intent.end, intent.bounds, cfg.DefaultState(), true);
      var verdicts, rolledBack := DeconflictAndProcess([fd], clearRaises, committed, before);
      if rolledBack {
        return RolledBack;
      }
      response := Created(fd.id, verdicts[0]);
      if UniqueIds(before) {
        NewRowsFresh(cfg, before, [intent]);
        RowsMatchVerdicts(cfg, before, [fd], clearRaises);
      }
    }

    /** Saves every good intent, then checks them all, then rejects those that fail.  A response lists
        every intent at its own index. */
    method SetOperationalIntentsBulk(intents: seq<Intent>, clearRaises: nat -> bool) returns (response: Response)
      requires Valid()
      modifies this, declarationTree, fenceTree
      ensures Contents() == Step(cfg, old(Contents()), Bulk(intents, clearRaises))
      ensures var fds := NewRows(intents, cfg.DefaultState(), old(nextId));
              var c := ChecksOf(cfg, old(Contents()), fds, clearRaises);
              if fds != [] && (!cfg.engineConfigured || c.raised) then response == RolledBack
              else
                && response.BulkCreated?
                && response.submitted + response.failed == |intents| == |response.results|
                && response.submitted == |fds| == |c.verdicts|
                && response.status == (if response.failed == 0 then 200 else 207)
                && forall i :: 0 <= i < |intents| ==>
                     if intents[i].Good? then
                       var k := GoodBefore(intents, i);
                       k < |fds| && response.results[i] == Success(i, fds[k].id, c.verdicts[k])
                     else response.results[i] == Failure(i)
      ensures response == RolledBack ==> rows == old(rows)
      ensures fences == old(fences)
    {
      ghost var before := Contents();
      var committed := rows;
      var saved, savedIndexes, failures := SaveAll(intents);
      var verdicts: seq<Verdict> := [];
      if saved != [] {
        var rolledBack;
        verdicts, rolledBack := DeconflictAndProcess(saved, clearRaises, committed, before);
        if rolledBack {
          return RolledBack;
        }
      } else {
        assert before.rows + saved == before.rows;
        assert ChecksOf(cfg, before, saved, clearRaises).verdicts == [];
      }
      response := BulkResponse(intents, saved, savedIndexes, verdicts, failures);
    }

    /** Plain creation: the state comes with the request and no check is made. */
    method CreateFlightDeclaration(intent: Intent, state: int) returns (response: Response)
      modifies this`rows, this`nextId
      ensures Contents() == Step(cfg, old(Contents()), CreateUnchecked(intent, state))
      ensures response == match intent
                          case Good(_, _, _) => Created(old(nextId), Verdict(state != 0 && state != REJECTED, state))
                          case Malformed => RolledBack
                          case _ => Refused
      ensures rows == old(rows) + match intent
                                  case Good(start, end, bounds) =>
                                    [Row(old(nextId), start, end, bounds, state, state != 0 && state != REJECTED)]
                                  case _ => []
    {
      if !intent.Good? {
        return if intent.Malformed? then RolledBack else Refused;
      }
      ghost var before := Contents();
      PlainStep(cfg, before, intent, state);
      var approved := state != 0 && state != REJECTED;
      var fd := CreateRow(intent.start, intent.end, intent.bounds, state, approved);
      assert Contents() == before.(rows := before.rows + [fd], nextId := before.nextId + 1);
      response := Created(fd.id, Verdict(approved, state));
    }

    method UpdateFlightDeclarationState(id: nat, state: int) returns (status: int)
      modifies this`rows
      ensures Contents() == Step(cfg, old(Contents()), SetState(id, state))
      ensures status == if exists i :: 0 <= i < |old(rows)| && old(rows)[i].id == id then 200 else 404
      ensures |rows| == |old(rows)|
      ensures forall i :: 0 <= i < |rows| ==>
                rows[i] == if old(rows)[i].id == id then old(rows)[i].(state := state) else old(rows)[i]
    {
      status := if exists i :: 0 <= i < |rows| && rows[i].id == id then 200 else 404;
      rows := UpdateState(rows, id, state);
    }

    method DeleteFlightDeclaration(id: nat) returns (status: int)
      modifies this`rows
      ensures Contents() == Step(cfg, old(Contents()), Delete(id))
      ensures status == if exists i :: 0 <= i < |old(rows)| && old(rows)[i].id == id then 204 else 404
      ensures forall r :: r in rows <==> r in old(rows) && r.id != id
      ensures status == 404 ==> rows == old(rows)
      ensures forall i :: 0 <= i < |old(rows)| && old(rows)[i].id == id && DistinctIds(old(rows)) ==>
                rows == old(rows)[..i] + old(rows)[i + 1..]
    {
      status := if exists i :: 0 <= i < |rows| && rows[i].id == id then 204 else 404;
      WithoutMembers(rows, id);
      if status == 404 {
        WithoutAbsent(rows, id);
      }
      forall i | 0 <= i < |rows| && rows[i].id == id && DistinctIds(rows)
        ensures Without(rows, id) == rows[..i] + rows[i + 1..]
      {
        WithoutOne(rows, id, i);
      }
      rows := Without(rows, id);
    }

    /** Saves the good intents and records the others as failed. */
    method SaveAll(intents: seq<Intent>) returns (saved: seq<Row>, savedIndexes: seq<nat>, results: seq<ItemResult>)
      modifies this`rows, this`nextId
      ensures saved == NewRows(intents, cfg.DefaultState(), old(nextId))
      ensures rows == old(rows) + saved && nextId == old(nextId) + |saved|
      ensures |savedIndexes| == |saved| && SortedOut(intents, |intents|, results, savedIndexes)
    {
      saved, savedIndexes, results := [], [], [];
      for idx := 0 to |intents|
        invariant rows == old(rows) + saved && nextId == old(nextId) + |saved|
        invariant saved == NewRows(intents[..idx], cfg.DefaultState(), old(nextId))
        invariant |savedIndexes| == |saved| && SortedOut(intents, idx, results, savedIndexes)
      {
        NewRowsNextIntent(intents, cfg.DefaultState(), old(nextId), idx);
        var item := intents[idx];
        if item.Good? {
          NextSaved(intents, idx, results, savedIndexes);
          var fd := CreateRow(item.start, item.end, item.bounds, cfg.DefaultState(), true);
          saved := saved + [fd];
          savedIndexes := savedIndexes + [idx];
        } else {
          NextFailed(intents, idx, results, savedIndexes);
          results := results + [Failure(idx)];
        }
      }
      assert intents[..|intents|] == intents;
    }
  }

  lemma PlainStep(cfg: Config, w: World, intent: Intent, state: int)
    requires intent.Good?
    ensures var row := Row(w.nextId, intent.start, intent.end, intent.bounds, state, state != 0 && state != REJECTED);
            Step(cfg, w, CreateUnchecked(intent, state)) == w.(rows := w.rows + [row], nextId := w.nextId + 1)
  {
  }

  /** The response to a bulk request that runs to its end, as `SetOperationalIntentsBulk` promises it,
      tells of every good intent the id, approval and state that its own row has afterwards. */
  lemma ReportedAsStored(cfg: Config, w: World, intents: seq<Intent>, clearRaises: nat -> bool, results: seq<ItemResult>, i: nat)
    requires UniqueIds(w) && i < |intents| == |results| && intents[i].Good?
    requires Completes(cfg, w, NewRows(intents, cfg.DefaultState(), w.nextId), clearRaises)
    requires var fds, k := NewRows(intents, cfg.DefaultState(), w.nextId), GoodBefore(intents, i);
             k < |fds| && results[i] == Success(i, fds[k].id, ChecksOf(cfg, w, fds, clearRaises).verdicts[k])
    ensures var rows, at := Step(cfg, w, Bulk(intents, clearRaises)).rows, |w.rows| + GoodBefore(intents, i);
            && at < |rows|
            && results[i] == Success(i, rows[at].id, Verdict(rows[at].approved, rows[at].state))
            && rows[at].start == intents[i].start && rows[at].end == intents[i].end && rows[at].bounds == intents[i].bounds
  {
    var fds := NewRows(intents, cfg.DefaultState(), w.nextId);
    NewRowsFresh(cfg, w, intents);
    RowsMatchVerdicts(cfg, w, fds, clearRaises);
    NewRowOfIntent(intents, cfg.DefaultState(), w.nextId, i);
    RowAsReported(w, fds, GoodBefore(intents, i), SaveAndCheck(cfg, w, fds, clearRaises).rows,
                  ChecksOf(cfg, w, fds, clearRaises).verdicts);
  }

  lemma RowAsReported(w: World, fds: seq<Row>, k: nat, rows: seq<Row>, verdicts: seq<Verdict>)
    requires k < |fds| == |verdicts| && |rows| == |w.rows| + |fds|
    requires forall k :: 0 <= k < |fds| ==>
               rows[|w.rows| + k] == fds[k].(approved := verdicts[k].approved, state := verdicts[k].state)
    ensures var row := rows[|w.rows| + k];
            && row.id == fds[k].id && verdicts[k] == Verdict(row.approved, row.state)
            && row.start == fds[k].start && row.end == fds[k].end && row.bounds == fds[k].bounds
  {
  }

  /** The row of every good intent among the first `n` is in the place that `GoodBefore` says. */
  ghost predicate InPlace(intents: seq<Intent>, n: nat, savedIndexes: seq<nat>)
    requires n <= |intents|
  {
    && |savedIndexes| == GoodBefore(intents, n)
    && forall k :: 0 <= k < |savedIndexes| ==> savedIndexes[k] < n && GoodBefore(intents, savedIndexes[k]) == k
  }

  /** Adds the checked rows to the failures and sorts everything by index. */
  method BulkResponse(intents: seq<Intent>, saved: seq<Row>, savedIndexes: seq<nat>, verdicts: seq<Verdict>,
                      failures: seq<ItemResult>) returns (response: Response)
    requires |savedIndexes| == |saved| == |verdicts| && SortedOut(intents, |intents|, failures, savedIndexes)
    ensures response.BulkCreated?
    ensures response.submitted + response.failed == |intents| == |response.results|
    ensures response.submitted == |saved|
    ensures response.status == if response.failed == 0 then 200 else 207
    ensures forall i :: 0 <= i < |intents| ==>
              if intents[i].Good? then
                var k := GoodBefore(intents, i);
                k < |saved| && response.results[i] == Success(i, saved[k].id, verdicts[k])
              else response.results[i] == Failure(i)
  {
    var results, submittedCount := failures, 0;
    for k := 0 to |saved|
      invariant submittedCount == k && |results| == |failures| + k
      invariant Recorded(intents, |intents|, results, savedIndexes[k..])
      invariant forall x :: x in results ==>
                  x == Failure(x.index) || exists j :: 0 <= j < k && x == Success(savedIndexes[j], saved[j].id, verdicts[j])
    {
      WaitingRecorded(intents, results, savedIndexes[k..], Success(savedIndexes[k], saved[k].id, verdicts[k]));
      assert savedIndexes[k..][1..] == savedIndexes[k + 1..];
      results := results + [Success(savedIndexes[k], saved[k].id, verdicts[k])];
      submittedCount := submittedCount + 1;
    }
    ResultsFallIntoPlace(results);
    response := BulkCreated(submittedCount, |failures|, SortByIndex(results), if |failures| == 0 then 200 else 207);
    forall i | 0 <= i < |intents|
      ensures if intents[i].Good? then
                var k := GoodBefore(intents, i);
                k < |saved| && response.results[i] == Success(i, saved[k].id, verdicts[k])
              else response.results[i] == Failure(i)
    {
      assert response.results[i] in results;
    }
  }

  /** The first `n` intents have been saved or recorded as failed. */
  ghost predicate SortedOut(intents: seq<Intent>, n: nat, failures: seq<ItemResult>, savedIndexes: seq<nat>) {
    && Recorded(intents, n, failures, savedIndexes) && |failures| + |savedIndexes| == n
    && (forall i :: 0 <= i < |failures| ==> failures[i] == Failure(failures[i].index))
    && InPlace(intents, n, savedIndexes)
  }

  lemma NextSaved(intents: seq<Intent>, n: nat, failures: seq<ItemResult>, savedIndexes: seq<nat>)
    requires n < |intents| && intents[n].Good? && SortedOut(intents, n, failures, savedIndexes)
    ensures SortedOut(intents, n + 1, failures, savedIndexes + [n])
  {
  }

  lemma NextFailed(intents: seq<Intent>, n: nat, failures: seq<ItemResult>, savedIndexes: seq<nat>)
    requires n < |intents| && !intents[n].Good? && SortedOut(intents, n, failures, savedIndexes)
    ensures SortedOut(intents, n + 1, failures + [Failure(n)], savedIndexes)
  {
  }

  lemma WaitingRecorded(intents: seq<Intent>, results: seq<ItemResult>, waiting: seq<nat>, r: ItemResult)
    requires waiting != [] && Recorded(intents, |intents|, results, waiting)
    requires r.Success? && r.index == waiting[0]
    ensures Recorded(intents, |intents|, results + [r], waiting[1..])
  {
  }

  /** Every intent so far is either in the results or waiting to be checked, once. */
  ghost predicate Recorded(intents: seq<Intent>, n: nat, results: seq<ItemResult>, waiting: seq<nat>) {
    && n <= |intents|
    && DistinctIndexes(results)
    && (forall i :: 0 <= i < |results| ==>
          results[i].index < n && (results[i].Success? <==> intents[results[i].index].Good?))
    && (forall k :: 0 <= k < |waiting| ==> waiting[k] < n && intents[waiting[k]].Good?)
    && (forall j, k :: 0 <= j < k < |waiting| ==> waiting[j] < waiting[k])
    && (forall i, k :: 0 <= i < |results| && 0 <= k < |waiting| ==> results[i].index != waiting[k])
  }

  /** `c` is the outcome of a series of checks, and `now` the store and indexes after it. */
  ghost predicate ChecksDone(before: World, c: CheckedAll, verdicts: seq<Verdict>, raised: bool, now: World) {
    && raised == c.raised && (!raised ==> verdicts == c.verdicts)
    && now == before.(declarationKeys := c.declarationKeys, fenceKeys := c.fenceKeys)
  }

  /** The first `i` rows have been checked, the last of them perhaps in vain. */
  ghost predicate CheckedUpTo(cfg: Config, before: World, clearRaises: nat -> bool, fds: seq<Row>, i: nat,
                              verdicts: seq<Verdict>, raised: bool, now: World)
    requires i <= |fds|
  {
    ChecksDone(before, CheckAll(Engine(cfg, before, clearRaises), before.declarationKeys, before.fenceKeys, fds[..i]),
               verdicts, raised, now)
  }

  lemma OneMoreChecked(cfg: Config, before: World, clearRaises: nat -> bool, fds: seq<Row>, i: nat,
                       verdicts: seq<Verdict>, mid: World, verdict: Verdict, raised: bool, after: World)
    requires i < |fds| && CheckedUpTo(cfg, before, clearRaises, fds, i, verdicts, false, mid)
    requires var c := Check(cfg, mid, fds[i], clearRaises(fds[i].id));
             && verdict == c.verdict && raised == c.raised
             && after == mid.(declarationKeys := c.declarationKeys, fenceKeys := c.fenceKeys)
    ensures CheckedUpTo(cfg, before, clearRaises, fds, i + 1, verdicts + [verdict], raised, after)
  {
    CheckAllNext(Engine(cfg, before, clearRaises), before.declarationKeys, before.fenceKeys, fds, i);
  }

  lemma CheckedToTheEnd(cfg: Config, before: World, clearRaises: nat -> bool, fds: seq<Row>, i: nat,
                        verdicts: seq<Verdict>, raised: bool, after: World)
    requires i <= |fds| && CheckedUpTo(cfg, before, clearRaises, fds, i, verdicts, raised, after)
    requires raised || i == |fds|
    ensures ChecksDone(before, CheckAll(Engine(cfg, before, clearRaises), before.declarationKeys, before.fenceKeys, fds),
                       verdicts, raised, after)
  {
    if raised {
      StaysRaised(Engine(cfg, before, clearRaises), before.declarationKeys, before.fenceKeys, fds, i);
    } else {
      assert fds[..i] == fds;
    }
  }

  lemma NewRowsNextIntent(intents: seq<Intent>, state: int, nextId: nat, i: nat)
    requires i < |intents|
    ensures var rows, item := NewRows(intents[..i], state, nextId), intents[i];
            NewRows(intents[..i + 1], state, nextId) ==
            if item.Good? then rows + [Row(nextId + |rows|, item.start, item.end, item.bounds, state, true)] else rows
  {
    assert intents[..i + 1][..i] == intents[..i];
  }

  lemma NewRowsOne(intent: Intent, state: int, nextId: nat)
    ensures NewRows([intent], state, nextId) ==
            if intent.Good? then [Row(nextId, intent.start, intent.end, intent.bounds, state, true)] else []
  {
  }

  lemma CheckAllNext(check: Checker, dk: multiset<Key>, fk: multiset<Key>, fds: seq<Row>, i: nat)
    requires i < |fds| && !CheckAll(check, dk, fk, fds[..i]).raised
    ensures var before := CheckAll(check, dk, fk, fds[..i]);
            var c := check(before.declarationKeys, before.fenceKeys, fds[i]);
            CheckAll(check, dk, fk, fds[..i + 1]) ==
            CheckedAll(before.verdicts + [c.verdict], c.declarationKeys, c.fenceKeys, c.raised)
  {
    assert fds[..i + 1][..i] == fds[..i];
  }

  lemma {:induction false} StaysRaised(check: Checker, dk: multiset<Key>, fk: multiset<Key>, fds: seq<Row>, i: nat)
    requires i <= |fds| && CheckAll(check, dk, fk, fds[..i]).raised
    ensures CheckAll(check, dk, fk, fds) == CheckAll(check, dk, fk, fds[..i])
  {
    if i < |fds| {
      assert fds[..|fds| - 1][..i] == fds[..i];
      StaysRaised(check, dk, fk, fds[..|fds| - 1], i);
    } else {
      assert fds[..i] == fds;
    }
  }
}
