/**
 Active tracks in the shared Redis store, and the fuser that grows them batch by batch
 (`RedisStreamOperations`, `TrafficDataFuser._generate_active_tracks`).
 */
module TrackStore {
  import opened Options

  datatype Observation = Observation(icaoAddress: string, payload: int)

  datatype ActiveTrack = ActiveTrack(
    sessionId: string, uniqueAircraftIdentifier: string, lastUpdated: int, observations: seq<Observation>)

  type Tracks = map<string, ActiveTrack>

  // ---------- Keys ----------

  /** Session ids are the text form of a UUID. */
  const SESSION_LENGTH := 36

  function SessionPrefix(session: string): string {
    "active_track:" + session + ":"
  }

  function Key(session: string, address: string): string {
    SessionPrefix(session) + address
  }

  lemma KeyFormat(session: string, address: string)
    ensures Key(session, address) == "active_track:" + session + ":" + address
  {
  }

  lemma KeyHasPrefix(session: string, other: string, address: string)
    requires |session| == |other|
    ensures SessionPrefix(session) <= Key(other, address) <==> session == other
  {
    var n := |"active_track:"|;
    assert Key(other, address)[n..][..|other|] == other;
    assert SessionPrefix(session)[n..][..|session|] == session;
    if SessionPrefix(session) <= Key(other, address) {
      assert Key(other, address)[..|SessionPrefix(session)|] == SessionPrefix(session);
      assert Key(other, address)[n..][..|other|] == Key(other, address)[..|SessionPrefix(session)|][n..][..|session|];
    }
  }

  /** Different sessions or different addresses have different keys. */
  lemma KeyInjective(s: string, a: string, s': string, a': string)
    requires |s| == |s'|
    ensures Key(s, a) == Key(s', a') <==> s == s' && a == a'
  {
    if Key(s, a) == Key(s', a') {
      KeyHasPrefix(s, s', a');
      assert Key(s, a)[|SessionPrefix(s)|..] == a && Key(s', a')[|SessionPrefix(s)|..] == a';
    }
  }

  /** Every track is stored under its own key. */
  ghost predicate WellKeyed(tracks: Tracks) {
    forall k :: k in tracks ==>
      |tracks[k].sessionId| == SESSION_LENGTH && k == Key(tracks[k].sessionId, tracks[k].uniqueAircraftIdentifier)
  }

  // ---------- Observations ----------

  function ByAddress(stream: seq<Observation>, address: string): seq<Observation> {
    if stream == [] then []
    else (if stream[0].icaoAddress == address then [stream[0]] else []) + ByAddress(stream[1..], address)
  }

  lemma {:induction false} ByAddressConcat(a: seq<Observation>, b: seq<Observation>, address: string)
    ensures ByAddress(a + b, address) == ByAddress(a, address) + ByAddress(b, address)
  {
    if a == [] {
      assert a + b == b;
    } else {
      assert (a + b)[1..] == a[1..] + b;
      ByAddressConcat(a[1..], b, address);
      var head := if a[0].icaoAddress == address then [a[0]] else [];
      assert head + (ByAddress(a[1..], address) + ByAddress(b, address)) == (head + ByAddress(a[1..], address)) + ByAddress(b, address);
    }
  }

  function Stored(tracks: Tracks, session: string, address: string): seq<Observation> {
    var k := Key(session, address);
    if k in tracks then tracks[k].observations else []
  }

  /** Putting a track into the store of its session sets the observations of its aircraft and of no
      other aircraft or session, and keeps every track under its own key. */
  ghost predicate OnlyThisTrack(before: Tracks, session: string, track: ActiveTrack, after: Tracks) {
    && (forall s, a :: |s| == |session| ==>
          Stored(after, s, a) == if s == session && a == track.uniqueAircraftIdentifier
                                 then track.observations else Stored(before, s, a))
    && (WellKeyed(before) && track.sessionId == session && |session| == SESSION_LENGTH ==> WellKeyed(after))
  }

  lemma PutOneTrack(before: Tracks, session: string, track: ActiveTrack)
    ensures OnlyThisTrack(before, session, track, before[Key(session, track.uniqueAircraftIdentifier) := track])
  {
    forall s, a | |s| == |session|
      ensures Key(s, a) == Key(session, track.uniqueAircraftIdentifier) <==>
              s == session && a == track.uniqueAircraftIdentifier
    {
      KeyInjective(s, a, session, track.uniqueAircraftIdentifier);
    }
  }

  // ---------- The store ----------

  class RedisTrackStore {
    var tracks: Tracks

    constructor ()
      ensures tracks == map[]
    {
      tracks := map[];
    }

    method CheckActiveTrackExists(session: string, address: string) returns (exists_: bool)
      ensures exists_ == (Key(session, address) in tracks)
    {
      exists_ := Key(session, address) in tracks;
    }

    method GetActiveTrack(session: string, address: string) returns (track: Option<ActiveTrack>)
      ensures track == if Key(session, address) in tracks then Some(tracks[Key(session, address)]) else None
    {
      var k := Key(session, address);
      track := if k in tracks then Some(tracks[k]) else None;
    }

    method AddActiveTrackToSession(session: string, track: ActiveTrack)
      modifies this
      ensures tracks == old(tracks)[Key(session, track.uniqueAircraftIdentifier) := track]
      ensures OnlyThisTrack(old(tracks), session, track, tracks)
    {
      PutOneTrack(tracks, session, track);
      tracks := tracks[Key(session, track.uniqueAircraftIdentifier) := track];
    }

    method UpdateActiveTrack(session: string, track: ActiveTrack)
      modifies this
      ensures tracks == old(tracks)[Key(session, track.uniqueAircraftIdentifier) := track]
      ensures OnlyThisTrack(old(tracks), session, track, tracks)
    {
      PutOneTrack(tracks, session, track);
      tracks := tracks[Key(session, track.uniqueAircraftIdentifier) := track];
    }

    /** The key pattern of a session selects exactly the tracks of that session. */
    method GetAllActiveTracksInSession(session: string) returns (all: set<ActiveTrack>)
      requires WellKeyed(tracks) && |session| == SESSION_LENGTH
      ensures forall t :: t in all <==> t in tracks.Values && t.sessionId == session
    {
      var trackKeys := set k | k in tracks && SessionPrefix(session) <= k;
      all := set k | k in trackKeys :: tracks[k];
      forall k | k in tracks ensures k in trackKeys <==> tracks[k].sessionId == session {
        KeyHasPrefix(session, tracks[k].sessionId, tracks[k].uniqueAircraftIdentifier);
      }
    }
  }

  // ---------- The fuser, as a function of the store ----------

  /** The addresses of a batch in the order of their first observation. */
  function AddressOrder(batch: seq<Observation>): (order: seq<string>)
    ensures forall i, j :: 0 <= i < j < |order| ==> order[i] != order[j]
  {
    if batch == [] then []
    else
      var order, address := AddressOrder(batch[..|batch| - 1]), batch[|batch| - 1].icaoAddress;
      if address in order then order else order + [address]
  }

  /** The track of one aircraft extended, or created, with new observations. */
  function Extended(tracks: Tracks, session: string, address: string, more: seq<Observation>, now: int): Tracks {
    var k := Key(session, address);
    if k in tracks
    then tracks[k := tracks[k].(observations := tracks[k].observations + more, lastUpdated := now)]
    else tracks[k := ActiveTrack(session, address, now, more)]
  }

  function ExtendedAll(tracks: Tracks, session: string, batch: seq<Observation>, order: seq<string>, now: int): Tracks {
    if order == [] then tracks
    else
      var n := |order| - 1;
      Extended(ExtendedAll(tracks, session, batch, order[..n], now), session, order[n], ByAddress(batch, order[n]), now)
  }

  /** What processing one batch makes of the store. */
  function Fused(tracks: Tracks, session: string, batch: seq<Observation>, now: int): Tracks {
    ExtendedAll(tracks, session, batch, AddressOrder(batch), now)
  }

  lemma {:induction false} AddressOrderCovers(batch: seq<Observation>, address: string)
    ensures address in AddressOrder(batch) <==> ByAddress(batch, address) != []
  {
    if batch != [] {
      var n := |batch| - 1;
      assert batch == batch[..n] + [batch[n]];
      AddressOrderCovers(batch[..n], address);
      ByAddressConcat(batch[..n], [batch[n]], address);
    }
  }

  lemma ExtendedWellKeyed(tracks: Tracks, session: string, address: string, more: seq<Observation>, now: int)
    requires WellKeyed(tracks) && |session| == SESSION_LENGTH
    ensures WellKeyed(Extended(tracks, session, address, more, now))
  {
  }

  lemma NextAddress(batch: seq<Observation>, next: Observation)
    ensures AddressOrder(batch + [next]) ==
            if next.icaoAddress in AddressOrder(batch) then AddressOrder(batch)
            else AddressOrder(batch) + [next.icaoAddress]
  {
    assert (batch + [next])[..|batch|] == batch;
  }

  lemma NextByAddress(batch: seq<Observation>, next: Observation, address: string)
    ensures ByAddress(batch + [next], address) ==
            if address == next.icaoAddress then ByAddress(batch, address) + [next] else ByAddress(batch, address)
  {
    ByAddressConcat(batch, [next], address);
  }

  /** `groups` holds the part of each address of the batch, and `order` the order of the addresses. */
  ghost predicate Grouped(batch: seq<Observation>, groups: map<string, seq<Observation>>, order: seq<string>) {
    && order == AddressOrder(batch)
    && (forall address :: address in order <==> address in groups)
    && (forall address {:trigger groups[address]} :: address in groups ==> groups[address] == ByAddress(batch, address))
  }

  lemma GroupGrows(batch: seq<Observation>, next: Observation, groups: map<string, seq<Observation>>, order: seq<string>)
    requires Grouped(batch, groups, order) && next.icaoAddress in groups
    ensures var address := next.icaoAddress;
            Grouped(batch + [next], groups[address := groups[address] + [next]], order)
  {
    NextAddress(batch, next);
    PartsMore(batch, next, groups, groups[next.icaoAddress := groups[next.icaoAddress] + [next]]);
  }

  lemma GroupBegins(batch: seq<Observation>, next: Observation, groups: map<string, seq<Observation>>, order: seq<string>)
    requires Grouped(batch, groups, order) && next.icaoAddress !in groups
    ensures var address := next.icaoAddress;
            Grouped(batch + [next], groups[address := [next]], order + [address])
  {
    var address := next.icaoAddress;
    NextAddress(batch, next);
    AddressOrderCovers(batch, address);
    assert forall a :: a in order + [address] <==> a in order || a == address;
    assert [] + [next] == [next];
    PartsMore(batch, next, groups, groups[address := [next]]);
  }

  lemma PartsMore(batch: seq<Observation>, next: Observation,
                  groups: map<string, seq<Observation>>, more: map<string, seq<Observation>>)
    requires forall a {:trigger groups[a]} :: a in groups ==> groups[a] == ByAddress(batch, a)
    requires next.icaoAddress in groups || ByAddress(batch, next.icaoAddress) == []
    requires more == groups[next.icaoAddress := ByAddress(batch, next.icaoAddress) + [next]]
    ensures forall a {:trigger more[a]} :: a in more ==> more[a] == ByAddress(batch + [next], a)
  {
    forall a | a in more ensures more[a] == ByAddress(batch + [next], a) {
      NextByAddress(batch, next, a);
    }
  }

  method GroupByAddress(observations: seq<Observation>)
    returns (groups: map<string, seq<Observation>>, order: seq<string>)
    ensures Grouped(observations, groups, order)
  {
    groups, order := map[], [];
    for i := 0 to |observations|
      invariant Grouped(observations[..i], groups, order)
    {
      var observation := observations[i];
      var icaoAddress := observation.icaoAddress;
      assert observations[..i + 1] == observations[..i] + [observation];
      if icaoAddress in groups {
        GroupGrows(observations[..i], observation, groups, order);
      } else {
        GroupBegins(observations[..i], observation, groups, order);
        assert groups[icaoAddress := []][icaoAddress := [observation]] == groups[icaoAddress := [observation]];
        groups := groups[icaoAddress := []];
        order := order + [icaoAddress];
      }
      groups := groups[icaoAddress := groups[icaoAddress] + [observation]];
    }
    assert observations[..|observations|] == observations;
  }

  lemma ExtendedNext(tracks: Tracks, session: string, batch: seq<Observation>, order: seq<string>, j: nat, now: int)
    requires j < |order|
    ensures ExtendedAll(tracks, session, batch, order[..j + 1], now) ==
            Extended(ExtendedAll(tracks, session, batch, order[..j], now),
                     session, order[j], ByAddress(batch, order[j]), now)
  {
    assert order[..j + 1][..j] == order[..j];
  }

  /** One aircraft of a batch. */
  method ExtendOrCreateTrack(store: RedisTrackStore, session: string, icaoAddress: string,
                             observations: seq<Observation>, now: int)
    requires WellKeyed(store.tracks) && |session| == SESSION_LENGTH
    modifies store
    ensures WellKeyed(store.tracks)
    ensures store.tracks == Extended(old(store.tracks), session, icaoAddress, observations, now)
  {
    ExtendedWellKeyed(store.tracks, session, icaoAddress, observations, now);
    var trackExists := store.CheckActiveTrackExists(session, icaoAddress);
    if trackExists {
      var existing := store.GetActiveTrack(session, icaoAddress);
      var track := existing.value;
      KeyInjective(session, icaoAddress, track.sessionId, track.uniqueAircraftIdentifier);
      track := track.(observations := track.observations + observations);
      track := track.(lastUpdated := now);
      store.UpdateActiveTrack(session, track);
    } else {
      store.AddActiveTrackToSession(session, ActiveTrack(session, icaoAddress, now, observations));
    }
  }

  method GenerateActiveTracks(store: RedisTrackStore, session: string, fused: seq<Observation>, now: int)
    requires WellKeyed(store.tracks) && |session| == SESSION_LENGTH
    modifies store
    ensures WellKeyed(store.tracks)
    ensures store.tracks == Fused(old(store.tracks), session, fused, now)
  {
    var groups, order := GroupByAddress(fused);
    ghost var before := store.tracks;
    for j := 0 to |order|
      invariant WellKeyed(store.tracks)
      invariant store.tracks == ExtendedAll(before, session, fused, order[..j], now)
    {
      assert groups[order[j]] == ByAddress(fused, order[j]);
      ExtendedNext(before, session, fused, order, j, now);
      ExtendOrCreateTrack(store, session, order[j], groups[order[j]], now);
    }
    assert order[..|order|] == order;
  }

  // ---------- Whole streams ----------

  /** One run of the fuser: a batch read for one session. */
  datatype Fusion = Fusion(session: string, batch: seq<Observation>, now: int)

  /** The runs of all sessions, interleaved in any way, on the shared store. */
  function FusedAll(tracks: Tracks, runs: seq<Fusion>): Tracks {
    if runs == [] then tracks
    else
      var n := |runs| - 1;
      Fused(FusedAll(tracks, runs[..n]), runs[n].session, runs[n].batch, runs[n].now)
  }

  /** Everything read for a session, in order. */
  function StreamOf(runs: seq<Fusion>, session: string): seq<Observation> {
    if runs == [] then []
    else
      var n := |runs| - 1;
      StreamOf(runs[..n], session) + if runs[n].session == session then runs[n].batch else []
  }

  lemma {:induction false} ExtendedAllStored(
    tracks: Tracks, session: string, batch: seq<Observation>, order: seq<string>, now: int, address: string)
    requires forall i, j :: 0 <= i < j < |order| ==> order[i] != order[j]
    ensures Stored(ExtendedAll(tracks, session, batch, order, now), session, address) ==
            Stored(tracks, session, address) + if address in order then ByAddress(batch, address) else []
  {
    Append(Stored(tracks, session, address), [], []);
    if order != [] {
      var n := |order| - 1;
      var before := ExtendedAll(tracks, session, batch, order[..n], now);
      ExtendedAllStored(tracks, session, batch, order[..n], now, address);
      ExtendedStored(before, session, order[n], ByAddress(batch, order[n]), now, address);
      InPrefix(order, address);
    }
  }

  /** `after` holds the track of one aircraft as one batch leaves it: extended by its observations in
      the batch and stamped with the time of the run, created if there was none, and untouched if the
      batch has nothing of it. */
  ghost predicate TrackAfter(tracks: Tracks, session: string, address: string, more: seq<Observation>, now: int, after: Tracks) {
    var k := Key(session, address);
    if more == [] then (k in after <==> k in tracks) && (k in tracks ==> after[k] == tracks[k])
    else
      k in after &&
      after[k] == if k in tracks then tracks[k].(observations := tracks[k].observations + more, lastUpdated := now)
                  else ActiveTrack(session, address, now, more)
  }

  lemma {:induction false} ExtendedAllTrack(
    tracks: Tracks, session: string, batch: seq<Observation>, order: seq<string>, now: int, address: string)
    requires forall i, j :: 0 <= i < j < |order| ==> order[i] != order[j]
    requires forall i :: 0 <= i < |order| ==> ByAddress(batch, order[i]) != []
    ensures TrackAfter(tracks, session, address, if address in order then ByAddress(batch, address) else [], now,
                       ExtendedAll(tracks, session, batch, order, now))
  {
    if order != [] {
      var n := |order| - 1;
      ExtendedAllTrack(tracks, session, batch, order[..n], now, address);
      KeyInjective(session, order[n], session, address);
      InPrefix(order, address);
    }
  }

  /** What processing a batch makes of every track of its session. */
  lemma FusedTrack(tracks: Tracks, session: string, batch: seq<Observation>, now: int, address: string)
    ensures var k, more, after := Key(session, address), ByAddress(batch, address), Fused(tracks, session, batch, now);
            && (more == [] ==> (k in after <==> k in tracks) && (k in tracks ==> after[k] == tracks[k]))
            && (more != [] ==> k in after && after[k].lastUpdated == now)
            && (more != [] && k in tracks ==>
                  after[k] == tracks[k].(observations := tracks[k].observations + more, lastUpdated := now))
            && (more != [] && k !in tracks ==> after[k] == ActiveTrack(session, address, now, more))
  {
    forall i | 0 <= i < |AddressOrder(batch)| ensures ByAddress(batch, AddressOrder(batch)[i]) != [] {
      AddressOrderCovers(batch, AddressOrder(batch)[i]);
    }
    AddressOrderCovers(batch, address);
    ExtendedAllTrack(tracks, session, batch, AddressOrder(batch), now, address);
  }

  lemma InPrefix(order: seq<string>, address: string)
    requires order != [] && forall i, j :: 0 <= i < j < |order| ==> order[i] != order[j]
    ensures address in order[..|order| - 1] <==> address in order && address != order[|order| - 1]
  {
  }

  lemma ExtendedStored(tracks: Tracks, session: string, grown: string, more: seq<Observation>, now: int, address: string)
    ensures Stored(Extended(tracks, session, grown, more, now), session, address) ==
            if address == grown then Stored(tracks, session, address) + more else Stored(tracks, session, address)
  {
    KeyInjective(session, grown, session, address);
    assert [] + more == more;
  }

  lemma {:induction false} ExtendedAllElsewhere(
    tracks: Tracks, session: string, batch: seq<Observation>, order: seq<string>, now: int, other: string, address: string)
    requires |session| == |other| && session != other
    ensures var k, after := Key(other, address), ExtendedAll(tracks, session, batch, order, now);
            (k in after <==> k in tracks) && (k in tracks ==> after[k] == tracks[k])
  {
    if order != [] {
      var n := |order| - 1;
      ExtendedAllElsewhere(tracks, session, batch, order[..n], now, other, address);
      KeyInjective(session, order[n], other, address);
    }
  }

  /** However the stream of a session is cut into batches, and whatever other sessions do in
      between, each aircraft's track grows by exactly its own part of the stream, in order. */
  lemma {:induction false} BatchesAreHomomorphic(tracks: Tracks, runs: seq<Fusion>, session: string, address: string)
    requires |session| == SESSION_LENGTH
    requires forall i :: 0 <= i < |runs| ==> |runs[i].session| == SESSION_LENGTH
    ensures Stored(FusedAll(tracks, runs), session, address) ==
            Stored(tracks, session, address) + ByAddress(StreamOf(runs, session), address)
  {
    if runs != [] {
      var n := |runs| - 1;
      var run, before := runs[n], FusedAll(tracks, runs[..n]);
      BatchesAreHomomorphic(tracks, runs[..n], session, address);
      if run.session == session {
        ExtendedAllStored(before, session, run.batch, AddressOrder(run.batch), run.now, address);
        AddressOrderCovers(run.batch, address);
        var earlier := StreamOf(runs[..n], session);
        ByAddressConcat(earlier, run.batch, address);
        Append(Stored(tracks, session, address), ByAddress(earlier, address), ByAddress(run.batch, address));
      } else {
        ExtendedAllElsewhere(before, run.session, run.batch, AddressOrder(run.batch), run.now, session, address);
        assert StreamOf(runs, session) == StreamOf(runs[..n], session);
      }
    }
  }

  lemma Append<T>(a: seq<T>, b: seq<T>, c: seq<T>)
    ensures (a + b) + c == a + (b + c)
    ensures a + [] == a
  {
  }

  /** A session that reads nothing keeps its tracks, time stamps included. */
  lemma {:induction false} OtherSessionsUntouched(tracks: Tracks, runs: seq<Fusion>, session: string, address: string)
    requires forall i :: 0 <= i < |runs| ==> |runs[i].session| == |session| && runs[i].session != session
    ensures var k, after := Key(session, address), FusedAll(tracks, runs);
            (k in after <==> k in tracks) && (k in tracks ==> after[k] == tracks[k])
  {
    if runs != [] {
      var n := |runs| - 1;
      OtherSessionsUntouched(tracks, runs[..n], session, address);
      ExtendedAllElsewhere(FusedAll(tracks, runs[..n]), runs[n].session, runs[n].batch,
                           AddressOrder(runs[n].batch), runs[n].now, session, address);
    }
  }

  function TotalByAddress(stream: seq<Observation>, addresses: seq<string>): nat {
    if addresses == [] then 0
    else |ByAddress(stream, addresses[0])| + TotalByAddress(stream, addresses[1..])
  }

  /** How many observations of a session the store holds, over a list of addresses. */
  function TotalStored(tracks: Tracks, session: string, addresses: seq<string>): nat {
    if addresses == [] then 0
    else |Stored(tracks, session, addresses[0])| + TotalStored(tracks, session, addresses[1..])
  }

  /** Nothing is lost or stored twice: over a list of different addresses that covers everything
      read for a session, the store gains exactly as many observations as were read. */
  lemma TotalStoredIsTotalRead(tracks: Tracks, runs: seq<Fusion>, session: string, addresses: seq<string>)
    requires |session| == SESSION_LENGTH
    requires forall i :: 0 <= i < |runs| ==> |runs[i].session| == SESSION_LENGTH
    requires forall i, j :: 0 <= i < j < |addresses| ==> addresses[i] != addresses[j]
    requires forall i :: 0 <= i < |StreamOf(runs, session)| ==> StreamOf(runs, session)[i].icaoAddress in addresses
    ensures TotalStored(FusedAll(tracks, runs), session, addresses) ==
            TotalStored(tracks, session, addresses) + |StreamOf(runs, session)|
  {
    GainByAddress(tracks, runs, session, addresses);
    PartsAddUp(StreamOf(runs, session), addresses);
  }

  lemma {:induction false} GainByAddress(tracks: Tracks, runs: seq<Fusion>, session: string, addresses: seq<string>)
    requires |session| == SESSION_LENGTH
    requires forall i :: 0 <= i < |runs| ==> |runs[i].session| == SESSION_LENGTH
    ensures TotalStored(FusedAll(tracks, runs), session, addresses) ==
            TotalStored(tracks, session, addresses) + TotalByAddress(StreamOf(runs, session), addresses)
  {
    if addresses != [] {
      GainByAddress(tracks, runs, session, addresses[1..]);
      BatchesAreHomomorphic(tracks, runs, session, addresses[0]);
    }
  }

  lemma {:induction false} PartsAddUp(stream: seq<Observation>, addresses: seq<string>)
    requires forall i, j :: 0 <= i < j < |addresses| ==> addresses[i] != addresses[j]
    requires forall i :: 0 <= i < |stream| ==> stream[i].icaoAddress in addresses
    ensures TotalByAddress(stream, addresses) == |stream|
  {
    if stream == [] {
      NothingStored(addresses);
    } else {
      PartsAddUp(stream[1..], addresses);
      OneMore(stream, addresses);
    }
  }

  lemma {:induction false} NothingStored(addresses: seq<string>)
    ensures TotalByAddress([], addresses) == 0
  {
    if addresses != [] {
      NothingStored(addresses[1..]);
    }
  }

  lemma {:induction false} OneMore(stream: seq<Observation>, addresses: seq<string>)
    requires stream != []
    requires forall i, j :: 0 <= i < j < |addresses| ==> addresses[i] != addresses[j]
    ensures TotalByAddress(stream, addresses) ==
            TotalByAddress(stream[1..], addresses) + if stream[0].icaoAddress in addresses then 1 else 0
  {
    if addresses != [] {
      OneMore(stream, addresses[1..]);
      assert addresses == [addresses[0]] + addresses[1..];
    }
  }
}
