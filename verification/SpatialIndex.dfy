/**
 The R-tree indexes over flight declarations and geofences, and the viewport filter
 (`FlightDeclarationRTreeIndexFactory`, `GeoFenceRTreeIndexFactory`, `RTreeGeoFenceSpatialService`).

 The index file is shared by all requests and survives them.  It is a bag of entries; where the
 library is free to choose (which of several equal entries to delete), so is the model.
 */
module SpatialIndex {

  datatype Box = Box(minX: real, minY: real, maxX: real, maxY: real) {
    /** Closed boxes with a point in common. */
    predicate Meets(other: Box) {
      minX <= other.maxX && other.minX <= maxX && minY <= other.maxY && other.minY <= maxY
    }

    function SwapAxes(): Box {
      Box(minY, minX, maxY, maxX)
    }
  }

  /** A declaration or a fence, as far as the indexes are concerned. */
  datatype Item = Item(id: nat, bounds: Box)

  /** What an entry is deleted by: the 8-digit hash of an id, and the box. */
  datatype Key = Key(hashedId: int, box: Box)

  datatype Entry = Entry(key: Key, owner: nat)

  /** The 8-digit hash; different ids may collide. */
  type Hash = nat -> int

  // ---------- The bag of entries ----------

  function KeysOf(entries: seq<Entry>): multiset<Key> {
    if entries == [] then multiset{}
    else KeysOf(entries[..|entries| - 1]) + multiset{entries[|entries| - 1].key}
  }

  lemma {:induction false} KeysConcat(a: seq<Entry>, b: seq<Entry>)
    ensures KeysOf(a + b) == KeysOf(a) + KeysOf(b)
  {
    if b == [] {
      assert a + b == a;
    } else {
      assert (a + b)[..|a + b| - 1] == a + b[..|b| - 1];
      KeysConcat(a, b[..|b| - 1]);
    }
  }

  lemma {:induction false} KeyPresent(entries: seq<Entry>, key: Key)
    ensures key in KeysOf(entries) <==> exists i :: 0 <= i < |entries| && entries[i].key == key
  {
    if entries != [] {
      KeyPresent(entries[..|entries| - 1], key);
    }
  }

  /** Deleting by key takes out one entry with that key, if there is one. */
  ghost predicate DeletedOne(before: seq<Entry>, key: Key, after: seq<Entry>) {
    if key in KeysOf(before)
    then exists i :: 0 <= i < |before| && before[i].key == key && after == before[..i] + before[i + 1..]
    else after == before
  }

  lemma DeletedOneKeys(before: seq<Entry>, key: Key, after: seq<Entry>)
    requires DeletedOne(before, key, after)
    ensures KeysOf(after) == KeysOf(before) - multiset{key}
  {
    if key in KeysOf(before) {
      var i :| 0 <= i < |before| && before[i].key == key && after == before[..i] + before[i + 1..];
      KeysWithout(before, i);
      RemoveOne(KeysOf(after), key);
    } else {
      RemoveAbsent(KeysOf(before), key);
    }
  }

  lemma KeysWithout(entries: seq<Entry>, i: nat)
    requires i < |entries|
    ensures KeysOf(entries) == KeysOf(entries[..i] + entries[i + 1..]) + multiset{entries[i].key}
  {
    AroundIndex(entries, i);
    KeysAround(entries[..i], entries[i], entries[i + 1..]);
  }

  lemma AroundIndex<T>(s: seq<T>, i: nat)
    requires i < |s|
    ensures s == s[..i] + [s[i]] + s[i + 1..]
  {
  }

  lemma KeysAround(a: seq<Entry>, e: Entry, b: seq<Entry>)
    ensures KeysOf(a + [e] + b) == KeysOf(a + b) + multiset{e.key}
  {
    assert (a + [e])[..|a|] == a;
    KeysConcat(a + [e], b);
    KeysConcat(a, b);
    Rearrange(KeysOf(a), multiset{e.key}, KeysOf(b));
  }

  lemma Rearrange<T>(a: multiset<T>, b: multiset<T>, c: multiset<T>)
    ensures a + b + c == a + c + b
  {
  }

  lemma RemoveOne<T>(m: multiset<T>, x: T)
    ensures m + multiset{x} - multiset{x} == m
  {
  }

  lemma RemoveAbsent<T>(m: multiset<T>, x: T)
    requires x !in m
    ensures m - multiset{x} == m
  {
  }

  lemma RemoveBoth<T>(m: multiset<T>, d: multiset<T>, x: T)
    ensures m - d - multiset{x} == m - (d + multiset{x})
  {
  }

  lemma MultisetOfSnoc<T>(s: seq<T>)
    requires s != []
    ensures multiset(s) == multiset(s[..|s| - 1]) + multiset{s[|s| - 1]}
  {
    assert s == s[..|s| - 1] + [s[|s| - 1]];
  }

  /** Deleting by one key after the other. */
  ghost predicate Deleted(before: seq<Entry>, keys: seq<Key>, after: seq<Entry>) {
    if keys == [] then after == before
    else
      var n := |keys| - 1;
      exists mid :: Deleted(before, keys[..n], mid) && DeletedOne(mid, keys[n], after)
  }

  lemma {:induction false} DeletedKeys(before: seq<Entry>, keys: seq<Key>, after: seq<Entry>)
    requires Deleted(before, keys, after)
    ensures KeysOf(after) == KeysOf(before) - multiset(keys)
  {
    if keys == [] {
      RemoveNothing(KeysOf(before));
    } else {
      var n := |keys| - 1;
      var mid :| Deleted(before, keys[..n], mid) && DeletedOne(mid, keys[n], after);
      DeletedKeys(before, keys[..n], mid);
      OneKeyMore(KeysOf(before), keys, mid, after);
    }
  }

  lemma OneKeyMore(m: multiset<Key>, keys: seq<Key>, mid: seq<Entry>, after: seq<Entry>)
    requires keys != [] && KeysOf(mid) == m - multiset(keys[..|keys| - 1])
    requires DeletedOne(mid, keys[|keys| - 1], after)
    ensures KeysOf(after) == m - multiset(keys)
  {
    var n := |keys| - 1;
    DeletedOneKeys(mid, keys[n], after);
    RemoveBoth(m, multiset(keys[..n]), keys[n]);
    MultisetOfSnoc(keys);
  }

  lemma RemoveNothing<T>(m: multiset<T>)
    ensures m - multiset([]) == m
  {
  }

  lemma {:induction false} DeletedSubset(before: seq<Entry>, keys: seq<Key>, after: seq<Entry>)
    requires Deleted(before, keys, after)
    ensures forall e :: e in after ==> e in before
  {
    if keys != [] {
      var n := |keys| - 1;
      var mid :| Deleted(before, keys[..n], mid) && DeletedOne(mid, keys[n], after);
      DeletedSubset(before, keys[..n], mid);
    }
  }

  function Hits(entries: seq<Entry>, view: Box): seq<Entry> {
    if entries == [] then []
    else
      var n := |entries| - 1;
      Hits(entries[..n], view) + if entries[n].key.box.Meets(view) then [entries[n]] else []
  }

  lemma {:induction false} HitsExactly(entries: seq<Entry>, view: Box)
    ensures forall e :: e in Hits(entries, view) <==> e in entries && e.key.box.Meets(view)
  {
    if entries != [] {
      HitsExactly(entries[..|entries| - 1], view);
      assert entries == entries[..|entries| - 1] + [entries[|entries| - 1]];
    }
  }

  /** Whether a query finds anything depends only on the keys. */
  ghost predicate SomeHit(keys: multiset<Key>, view: Box) {
    exists key :: key in keys && key.box.Meets(view)
  }

  lemma HitsByKeys(entries: seq<Entry>, view: Box)
    ensures Hits(entries, view) != [] <==> SomeHit(KeysOf(entries), view)
  {
  }

  class RTree {
    var entries: seq<Entry>

    method Insert(key: Key, owner: nat)
      modifies this
      ensures entries == old(entries) + [Entry(key, owner)]
    {
      entries := entries + [Entry(key, owner)];
    }

    method Delete(key: Key)
      modifies this
      ensures DeletedOne(old(entries), key, entries)
    {
      KeyPresent(entries, key);
      if i :| 0 <= i < |entries| && entries[i].key == key {
        entries := entries[..i] + entries[i + 1..];
      }
    }

    method Intersection(view: Box) returns (hits: seq<Entry>)
      ensures hits == Hits(entries, view)
    {
      hits := [];
      for i := 0 to |entries|
        invariant hits == Hits(entries[..i], view)
      {
        assert entries[..i + 1][..i] == entries[..i];
        if entries[i].key.box.Meets(view) {
          hits := hits + [entries[i]];
        }
      }
      assert entries[..|entries|] == entries;
    }
  }

  // ---------- Declarations ----------

  function DeclarationKeys(hash: Hash, items: seq<Item>): (keys: seq<Key>)
    ensures |keys| == |items|
    ensures forall i :: 0 <= i < |items| ==> keys[i] == Key(hash(items[i].id), items[i].bounds)
  {
    seq(|items|, i requires 0 <= i < |items| => Key(hash(items[i].id), items[i].bounds))
  }

  function EntriesFor(keys: seq<Key>, items: seq<Item>): (entries: seq<Entry>)
    requires |keys| == |items|
    ensures |entries| == |items|
    ensures forall i :: 0 <= i < |items| ==> entries[i] == Entry(keys[i], items[i].id)
  {
    seq(|items|, i requires 0 <= i < |items| => Entry(keys[i], items[i].id))
  }

  lemma {:induction false} EntriesForKeys(keys: seq<Key>, items: seq<Item>)
    requires |keys| == |items|
    ensures KeysOf(EntriesFor(keys, items)) == multiset(keys)
  {
    if keys != [] {
      var n := |keys| - 1;
      EntriesForKeys(keys[..n], items[..n]);
      assert EntriesFor(keys, items)[..n] == EntriesFor(keys[..n], items[..n]);
      assert keys == keys[..n] + [keys[n]];
    }
  }

  method GenerateFlightDeclarationIndex(tree: RTree, hash: Hash, all: seq<Item>)
    modifies tree
    ensures tree.entries == old(tree.entries) + EntriesFor(DeclarationKeys(hash, all), all)
  {
    for i := 0 to |all|
      invariant tree.entries == old(tree.entries) + EntriesFor(DeclarationKeys(hash, all), all)[..i]
    {
      tree.Insert(Key(hash(all[i].id), all[i].bounds), all[i].id);
    }
  }

  method ClearDeclarationIndex(tree: RTree, hash: Hash, all: seq<Item>)
    modifies tree
    ensures Deleted(old(tree.entries), DeclarationKeys(hash, all), tree.entries)
  {
    ghost var keys := DeclarationKeys(hash, all);
    for i := 0 to |all|
      invariant Deleted(old(tree.entries), keys[..i], tree.entries)
    {
      assert keys[..i + 1][..i] == keys[..i];
      tree.Delete(Key(hash(all[i].id), all[i].bounds));
    }
    assert keys[..|all|] == keys;
  }

  /** Building the declaration index and clearing it with the same list gives back the index there
      was before, up to the owners of entries with equal keys: whatever it held, and even if ids
      collide in their hash. */
  lemma ClearUndoesGenerate(hash: Hash, all: seq<Item>, before: seq<Entry>, after: seq<Entry>)
    requires Deleted(before + EntriesFor(DeclarationKeys(hash, all), all), DeclarationKeys(hash, all), after)
    ensures KeysOf(after) == KeysOf(before)
  {
    var keys := DeclarationKeys(hash, all);
    EntriesForKeys(keys, all);
    KeysConcat(before, EntriesFor(keys, all));
    DeletedKeys(before + EntriesFor(keys, all), keys, after);
  }

  // ---------- Geofences ----------

  /** Fences go into the index with their axes swapped ... */
  function FenceKeys(hash: Hash, fences: seq<Item>): (keys: seq<Key>)
    ensures |keys| == |fences|
    ensures forall i :: 0 <= i < |fences| ==> keys[i] == Key(hash(fences[i].id), fences[i].bounds.SwapAxes())
  {
    seq(|fences|, i requires 0 <= i < |fences| => Key(hash(fences[i].id), fences[i].bounds.SwapAxes()))
  }

  method GenerateGeoFenceIndex(tree: RTree, hash: Hash, all: seq<Item>)
    modifies tree
    ensures tree.entries == old(tree.entries) + EntriesFor(FenceKeys(hash, all), all)
  {
    for i := 0 to |all|
      invariant tree.entries == old(tree.entries) + EntriesFor(FenceKeys(hash, all), all)[..i]
    {
      tree.Insert(Key(hash(all[i].id), all[i].bounds.SwapAxes()), all[i].id);
    }
  }

  /** ... but are looked for with their axes as they are when the index is cleared. */
  method ClearGeoFenceIndex(tree: RTree, hash: Hash, all: seq<Item>)
    modifies tree
    ensures Deleted(old(tree.entries), DeclarationKeys(hash, all), tree.entries)
  {
    ClearDeclarationIndex(tree, hash, all);
  }

  /** Clearing the fence index undoes building it if and only if swapping axes merely permutes the
      keys of the list, as it does when every fence is symmetric. */
  lemma FenceClearUndoesGenerateIff(hash: Hash, all: seq<Item>, before: seq<Entry>, after: seq<Entry>)
    requires Deleted(before + EntriesFor(FenceKeys(hash, all), all), DeclarationKeys(hash, all), after)
    ensures KeysOf(after) == KeysOf(before) <==>
            multiset(FenceKeys(hash, all)) == multiset(DeclarationKeys(hash, all))
  {
    var generated, deleted := FenceKeys(hash, all), DeclarationKeys(hash, all);
    EntriesForKeys(generated, all);
    KeysConcat(before, EntriesFor(generated, all));
    DeletedKeys(before + EntriesFor(generated, all), deleted, after);
    AddThenRemoveIff(KeysOf(before), multiset(generated), multiset(deleted));
  }

  lemma AddThenRemoveIff<T>(k: multiset<T>, added: multiset<T>, removed: multiset<T>)
    requires |added| == |removed|
    ensures k + added - removed == k <==> added == removed
  {
    if k + added - removed == k {
      forall x ensures added[x] <= removed[x] {
        assert (k + added - removed)[x] == k[x];
      }
      assert added <= removed;
      assert removed == added + (removed - added);
      assert |removed - added| == 0;
    }
  }

  // ---------- The viewport filter ----------

  function OwnersOf(entries: seq<Entry>): set<nat> {
    set i | 0 <= i < |entries| :: entries[i].owner
  }

  /** The fences, in order, whose id is among the owners of the entries found. */
  function Selected(fences: seq<Item>, owners: set<nat>): seq<Item> {
    if fences == [] then []
    else
      var n := |fences| - 1;
      Selected(fences[..n], owners) + if fences[n].id in owners then [fences[n]] else []
  }

  /** The filter without an index. */
  function BruteForce(fences: seq<Item>, viewport: Box): seq<Item> {
    if fences == [] then []
    else
      var n := |fences| - 1;
      BruteForce(fences[..n], viewport) +
      if fences[n].bounds.SwapAxes().Meets(viewport) then [fences[n]] else []
  }

  /** One call of the filter, from the index it finds to the index it leaves. */
  ghost predicate FilterCall(hash: Hash, before: seq<Entry>, fences: seq<Item>, viewport: Box,
                             after: seq<Entry>, result: seq<Item>) {
    var generated := before + EntriesFor(FenceKeys(hash, fences), fences);
    && result == Selected(fences, OwnersOf(Hits(generated, viewport)))
    && Deleted(generated, DeclarationKeys(hash, fences), after)
  }

  method FilterFencesByViewport(tree: RTree, hash: Hash, fences: seq<Item>, viewport: Box) returns (result: seq<Item>)
    modifies tree
    ensures FilterCall(hash, old(tree.entries), fences, viewport, tree.entries, result)
  {
    GenerateGeoFenceIndex(tree, hash, fences);
    var relevant := tree.Intersection(viewport);
    ClearGeoFenceIndex(tree, hash, fences);
    var relevantIds := set i | 0 <= i < |relevant| :: relevant[i].owner;
    result := [];
    for i := 0 to |fences|
      invariant result == Selected(fences[..i], relevantIds)
    {
      assert fences[..i + 1][..i] == fences[..i];
      if fences[i].id in relevantIds {
        result := result + [fences[i]];
      }
    }
    assert fences[..|fences|] == fences;
  }

  /** Entries that earlier calls left behind still have the box of their fence. */
  ghost predicate Coherent(entries: seq<Entry>, bounds: nat -> Box) {
    forall e :: e in entries ==> e.key.box == bounds(e.owner).SwapAxes()
  }

  ghost predicate BoundsFixed(fences: seq<Item>, bounds: nat -> Box) {
    forall i :: 0 <= i < |fences| ==> fences[i].bounds == bounds(fences[i].id)
  }

  lemma {:induction false} SelectedIsBruteForce(fences: seq<Item>, owners: set<nat>, viewport: Box)
    requires forall i :: 0 <= i < |fences| ==>
               (fences[i].id in owners <==> fences[i].bounds.SwapAxes().Meets(viewport))
    ensures Selected(fences, owners) == BruteForce(fences, viewport)
  {
    if fences != [] {
      SelectedIsBruteForce(fences[..|fences| - 1], owners, viewport);
    }
  }

  lemma FilterCallExact(hash: Hash, before: seq<Entry>, fences: seq<Item>, viewport: Box,
                        after: seq<Entry>, result: seq<Item>, bounds: nat -> Box)
    requires FilterCall(hash, before, fences, viewport, after, result)
    requires Coherent(before, bounds) && BoundsFixed(fences, bounds)
    ensures result == BruteForce(fences, viewport) && Coherent(after, bounds)
  {
    var generated := before + EntriesFor(FenceKeys(hash, fences), fences);
    DeletedSubset(generated, DeclarationKeys(hash, fences), after);
    HitsExactly(generated, viewport);
    var hits := Hits(generated, viewport);
    assert Coherent(generated, bounds);
    forall i | 0 <= i < |fences|
      ensures fences[i].id in OwnersOf(hits) <==> fences[i].bounds.SwapAxes().Meets(viewport)
    {
      var own := EntriesFor(FenceKeys(hash, fences), fences)[i];
      assert generated[|before| + i] == own;
      if own.key.box.Meets(viewport) {
        assert own in hits;
      }
      if fences[i].id in OwnersOf(hits) {
        var j :| 0 <= j < |hits| && hits[j].owner == fences[i].id;
        assert hits[j] in hits;
      }
    }
    SelectedIsBruteForce(fences, OwnersOf(hits), viewport);
  }

  // ---------- The position query ----------

  /** One question put to the index, from the index it finds to the index it leaves: does anything
      meet the view, whoever's entry it is?  The position query asks about a small box around the
      position, and the deconfliction engine about the bounds of a declaration. */
  ghost predicate AskCall(hash: Hash, before: seq<Entry>, fences: seq<Item>, view: Box,
                          after: seq<Entry>, answer: bool) {
    var generated := before + EntriesFor(FenceKeys(hash, fences), fences);
    && answer == (Hits(generated, view) != [])
    && Deleted(generated, DeclarationKeys(hash, fences), after)
  }

  method HasIntersectionAtPosition(tree: RTree, hash: Hash, fences: seq<Item>, position: Box) returns (answer: bool)
    modifies tree
    ensures AskCall(hash, old(tree.entries), fences, position, tree.entries, answer)
  {
    GenerateGeoFenceIndex(tree, hash, fences);
    var relevant := tree.Intersection(position);
    ClearGeoFenceIndex(tree, hash, fences);
    answer := relevant != [];
  }

  /** Unlike the viewport filter, the answer is right if and only if some fence asked about is really
      there or no entry left behind by an earlier call meets the view. */
  lemma PositionExactIff(hash: Hash, before: seq<Entry>, fences: seq<Item>, view: Box, after: seq<Entry>, answer: bool)
    requires AskCall(hash, before, fences, view, after, answer)
    ensures (answer <==> BruteForce(fences, view) != []) <==>
            (BruteForce(fences, view) != [] || Hits(before, view) == [])
  {
    var own := EntriesFor(FenceKeys(hash, fences), fences);
    HitsConcat(before, own, view);
    OwnHits(hash, fences, view);
  }

  lemma {:induction false} HitsConcat(a: seq<Entry>, b: seq<Entry>, view: Box)
    ensures Hits(a + b, view) == Hits(a, view) + Hits(b, view)
  {
    if b == [] {
      assert a + b == a;
    } else {
      assert (a + b)[..|a + b| - 1] == a + b[..|b| - 1];
      HitsConcat(a, b[..|b| - 1], view);
    }
  }

  lemma {:induction false} OwnHits(hash: Hash, fences: seq<Item>, view: Box)
    ensures Hits(EntriesFor(FenceKeys(hash, fences), fences), view) == [] <==> BruteForce(fences, view) == []
  {
    if fences != [] {
      var n := |fences| - 1;
      OwnHits(hash, fences[..n], view);
      assert EntriesFor(FenceKeys(hash, fences), fences)[..n] == EntriesFor(FenceKeys(hash, fences[..n]), fences[..n]);
    }
  }

  // ---------- Every run ----------

  /** What is asked of the one fence index: viewport filters, position queries and the engine's checks. */
  datatype Call =
    | Filter(fences: seq<Item>, viewport: Box, result: seq<Item>)
    | Ask(fences: seq<Item>, view: Box, answer: bool)

  ghost predicate CallEffect(hash: Hash, before: seq<Entry>, call: Call, after: seq<Entry>) {
    match call
    case Filter(fences, viewport, result) => FilterCall(hash, before, fences, viewport, after, result)
    case Ask(fences, view, answer) => AskCall(hash, before, fences, view, after, answer)
  }

  /** The calls, in any order, on an index that was empty at first. */
  ghost predicate IsRun(hash: Hash, indexes: seq<seq<Entry>>, calls: seq<Call>) {
    && |indexes| == |calls| + 1 && indexes[0] == []
    && forall i :: 0 <= i < |calls| ==> CallEffect(hash, indexes[i], calls[i], indexes[i + 1])
  }

  lemma CallKeepsCoherent(hash: Hash, before: seq<Entry>, call: Call, after: seq<Entry>, bounds: nat -> Box)
    requires CallEffect(hash, before, call, after)
    requires Coherent(before, bounds) && BoundsFixed(call.fences, bounds)
    ensures Coherent(after, bounds)
  {
    var generated := before + EntriesFor(FenceKeys(hash, call.fences), call.fences);
    DeletedSubset(generated, DeclarationKeys(hash, call.fences), after);
    assert Coherent(generated, bounds);
  }

  lemma {:induction false} RunKeepsCoherent(hash: Hash, indexes: seq<seq<Entry>>, calls: seq<Call>, bounds: nat -> Box, n: nat)
    requires IsRun(hash, indexes, calls) && n <= |calls|
    requires forall i :: 0 <= i < |calls| ==> BoundsFixed(calls[i].fences, bounds)
    ensures Coherent(indexes[n], bounds)
  {
    if n > 0 {
      RunKeepsCoherent(hash, indexes, calls, bounds, n - 1);
      CallKeepsCoherent(hash, indexes[n - 1], calls[n - 1], indexes[n], bounds);
    }
  }

  /** On every run of calls over fences whose bounds never change, every viewport filter returns the
      order-preserving brute-force filter of its input, although calls of every kind leave entries
      behind in the shared index and hashed ids may collide. */
  lemma ViewportRunExact(hash: Hash, indexes: seq<seq<Entry>>, calls: seq<Call>, bounds: nat -> Box)
    requires IsRun(hash, indexes, calls)
    requires forall i :: 0 <= i < |calls| ==> BoundsFixed(calls[i].fences, bounds)
    ensures forall i :: 0 <= i < |calls| && calls[i].Filter? ==>
              calls[i].result == BruteForce(calls[i].fences, calls[i].viewport)
  {
    forall i | 0 <= i < |calls| && calls[i].Filter?
      ensures calls[i].result == BruteForce(calls[i].fences, calls[i].viewport)
    {
      RunKeepsCoherent(hash, indexes, calls, bounds, i);
      FilterCallExact(hash, indexes[i], calls[i].fences, calls[i].viewport, indexes[i + 1], calls[i].result, bounds);
    }
  }

  /** Where in the list the fences are that the filter keeps. */
  function Kept(fences: seq<Item>, viewport: Box): (kept: seq<nat>)
    ensures forall j :: j in kept ==> j < |fences|
  {
    if fences == [] then []
    else
      var n := |fences| - 1;
      Kept(fences[..n], viewport) + if fences[n].bounds.SwapAxes().Meets(viewport) then [n] else []
  }

  lemma {:induction false} KeptInOrder(fences: seq<Item>, viewport: Box)
    ensures var kept := Kept(fences, viewport);
            && |kept| == |BruteForce(fences, viewport)|
            && (forall k :: 0 <= k < |kept| ==> kept[k] < |fences| && BruteForce(fences, viewport)[k] == fences[kept[k]])
            && (forall k, l :: 0 <= k < l < |kept| ==> kept[k] < kept[l])
            && (forall j :: 0 <= j < |fences| ==> (j in kept <==> fences[j].bounds.SwapAxes().Meets(viewport)))
  {
    if fences != [] {
      KeptInOrder(fences[..|fences| - 1], viewport);
    }
  }

  /** The same in coordinates: in every run, every filter keeps, in their order, exactly the fences
      whose latitudes and longitudes, exchanged, overlap those of the viewport. */
  lemma ViewportInCoordinates(hash: Hash, indexes: seq<seq<Entry>>, calls: seq<Call>, bounds: nat -> Box, i: nat)
    requires IsRun(hash, indexes, calls) && i < |calls| && calls[i].Filter?
    requires forall i :: 0 <= i < |calls| ==> BoundsFixed(calls[i].fences, bounds)
    ensures var fences, result, view := calls[i].fences, calls[i].result, calls[i].viewport;
            exists kept: seq<nat> ::
              && |kept| == |result|
              && (forall k :: 0 <= k < |kept| ==> kept[k] < |fences| && result[k] == fences[kept[k]])
              && (forall k, l :: 0 <= k < l < |kept| ==> kept[k] < kept[l])
              && (forall j :: 0 <= j < |fences| ==>
                    (j in kept <==>
                     && fences[j].bounds.minY <= view.maxX && view.minX <= fences[j].bounds.maxY
                     && fences[j].bounds.minX <= view.maxY && view.minY <= fences[j].bounds.maxX))
  {
    ViewportRunExact(hash, indexes, calls, bounds);
    KeptInOrder(calls[i].fences, calls[i].viewport);
    assert |Kept(calls[i].fences, calls[i].viewport)| == |calls[i].result|;
  }

  /** The point `(x, y)` lies in the box, and with its coordinates exchanged in the view. */
  predicate SeenAt(box: Box, view: Box, x: real, y: real) {
    && box.minX <= x <= box.maxX && box.minY <= y <= box.maxY
    && view.minX <= y <= view.maxX && view.minY <= x <= view.maxY
  }

  /** For boxes with an extent, that means a point in common once the axes are exchanged. */
  lemma SwappedMeansSharedPoint(box: Box, view: Box)
    requires box.minX <= box.maxX && box.minY <= box.maxY && view.minX <= view.maxX && view.minY <= view.maxY
    ensures box.SwapAxes().Meets(view) <==> exists x, y :: SeenAt(box, view, x, y)
  {
    if box.SwapAxes().Meets(view) {
      var x := if box.minX >= view.minY then box.minX else view.minY;
      var y := if box.minY >= view.minX then box.minY else view.minX;
      assert SeenAt(box, view, x, y);
    }
  }

  /** The other queries have no such luck.  After any first call about one fence, a query at a place
      where that fence is, but none of the fences asked about, is answered wrongly if and only if
      swapping the axes of the fence changes it. */
  lemma StaleEntryMisleadsIff(hash: Hash, indexes: seq<seq<Entry>>, first: Call, fence: Item, others: seq<Item>,
                              view: Box, answer: bool)
    requires IsRun(hash, indexes, [first, Ask(others, view, answer)]) && first.fences == [fence]
    requires fence.bounds.SwapAxes().Meets(view) && BruteForce(others, view) == []
    ensures answer <==> fence.bounds.SwapAxes() != fence.bounds
  {
    var calls := [first, Ask(others, view, answer)];
    assert CallEffect(hash, indexes[0], calls[0], indexes[1]) && CallEffect(hash, indexes[1], calls[1], indexes[2]);
    PositionExactIff(hash, indexes[1], others, view, indexes[2], answer);
    LeftBehind(hash, fence, indexes[1]);
  }

  /** What building and clearing the index for one fence leaves. */
  lemma LeftBehind(hash: Hash, fence: Item, after: seq<Entry>)
    requires Deleted([] + EntriesFor(FenceKeys(hash, [fence]), [fence]), DeclarationKeys(hash, [fence]), after)
    ensures after == if fence.bounds.SwapAxes() == fence.bounds then []
                     else [Entry(Key(hash(fence.id), fence.bounds.SwapAxes()), fence.id)]
  {
    var entry := Entry(Key(hash(fence.id), fence.bounds.SwapAxes()), fence.id);
    assert EntriesFor(FenceKeys(hash, [fence]), [fence]) == [entry];
    assert DeclarationKeys(hash, [fence]) == [Key(hash(fence.id), fence.bounds)];
    KeyPresent([entry], Key(hash(fence.id), fence.bounds));
  }
}
