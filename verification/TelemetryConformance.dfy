/**
 The conformance decision for one telemetry position
 (`FlightBlenderConformanceEngine.is_operation_conformant_via_telemetry`).
 `within` is the point-in-polygon test; `G` is the type of polygons, `P` of positions.
 */
module TelemetryConformance {
  import opened Options

  datatype Volume<G> = Volume(outline: G, lower: real, upper: real)

  datatype Declaration<G> = Declaration(
    aircraftId: string, state: int, start: real, end: real, volumes: seq<Volume<G>>)

  /** A geofence feature, by its outer rings. */
  datatype Geometry<G> = Polygon(outer: G) | MultiPolygon(outers: seq<G>) | OtherGeometry

  type Fence<G> = seq<Geometry<G>>

  const C2 := 2
  const C3 := 3
  const C4 := 4
  const C5 := 5
  const C6 := 6
  const C7A := 7
  const C7B := 8
  const C8 := 9
  const CONFORMANT := 100

  predicate IsTimeBetween(begin: real, end: real, check: real) {
    if begin < end then begin <= check <= end else check >= begin || check <= end
  }

  // ---------- The decision, declaratively ----------

  predicate AltitudeConformant<G>(v: Volume<G>, altitude: real) {
    v.lower <= altitude <= v.upper
  }

  ghost predicate InSomeOutline<P, G>(within: (P, G) -> bool, position: P, volumes: seq<Volume<G>>) {
    exists v :: v in volumes && within(position, v.outline)
  }

  ghost predicate InSomeBand<G>(altitude: real, volumes: seq<Volume<G>>) {
    exists v :: v in volumes && AltitudeConformant(v, altitude)
  }

  ghost predicate InSomeVolume<P, G>(within: (P, G) -> bool, position: P, altitude: real, volumes: seq<Volume<G>>) {
    exists v :: v in volumes && within(position, v.outline) && AltitudeConformant(v, altitude)
  }

  ghost predicate Inside<P, G>(within: (P, G) -> bool, position: P, geometry: Geometry<G>) {
    match geometry
    case Polygon(outer) => within(position, outer)
    case MultiPolygon(outers) => exists outer :: outer in outers && within(position, outer)
    case OtherGeometry => false
  }

  ghost predicate Breaches<P, G>(within: (P, G) -> bool, position: P, fence: Fence<G>) {
    exists geometry :: geometry in fence && Inside(within, position, geometry)
  }

  ghost predicate BreachesSome<P, G>(within: (P, G) -> bool, position: P, fences: seq<Fence<G>>) {
    exists fence :: fence in fences && Breaches(within, position, fence)
  }

  /** The code of the first check that fails. */
  ghost function Decision<P, G>(
    within: (P, G) -> bool, hasReference: bool, declaration: Option<Declaration<G>>,
    aircraftId: string, position: P, altitude: real, now: real, fences: seq<Fence<G>>): int
  {
    if !hasReference || declaration.None? then C2
    else
      var d := declaration.value;
      if d.aircraftId != aircraftId then C3
      else if d.state in {0, 5, 6, 7, 8} then C4
      else if d.state !in {2, 3, 4} then C5
      else if !IsTimeBetween(d.start, d.end, now) then C6
      else if !InSomeBand(altitude, d.volumes) then C7B
      else if !InSomeOutline(within, position, d.volumes) then C7A
      else if BreachesSome(within, position, fences) then C8
      else CONFORMANT
  }

  // ---------- The code ----------

  method IsWithinGeometry<P, G>(within: (P, G) -> bool, position: P, geometry: Geometry<G>) returns (r: bool)
    ensures r == Inside(within, position, geometry)
    ensures r <==> match geometry
                   case Polygon(outer) => within(position, outer)
                   case MultiPolygon(outers) => exists outer :: outer in outers && within(position, outer)
                   case OtherGeometry => false
  {
    match geometry
    case Polygon(outer) =>
      r := within(position, outer);
    case MultiPolygon(outers) =>
      for i := 0 to |outers|
        invariant forall j :: 0 <= j < i ==> !within(position, outers[j])
      {
        if within(position, outers[i]) {
          return true;
        }
      }
      r := false;
    case OtherGeometry =>
      r := false;
  }

  method IsOperationConformantViaTelemetry<P, G>(
    within: (P, G) -> bool, usspNetworkEnabled: bool, referenceExists: bool, declaration: Option<Declaration<G>>,
    aircraftId: string, position: P, altitude: real, now: real, fences: seq<Fence<G>>) returns (code: int)
    ensures code == Decision(within, !usspNetworkEnabled || referenceExists, declaration,
                             aircraftId, position, altitude, now, fences)
    ensures code == 2 <==> (usspNetworkEnabled && !referenceExists) || declaration.None?
    ensures code != 2 ==>
              var d := declaration.value;
              var mine, flying := d.aircraftId == aircraftId, d.state in {2, 3, 4};
              var onTime := if d.start < d.end then d.start <= now <= d.end else now >= d.start || now <= d.end;
              var inBand := exists v :: v in d.volumes && v.lower <= altitude <= v.upper;
              var inOutline := exists v :: v in d.volumes && within(position, v.outline);
              var breach := exists fence, geometry :: fence in fences && geometry in fence &&
                              match geometry
                              case Polygon(outer) => within(position, outer)
                              case MultiPolygon(outers) => exists outer :: outer in outers && within(position, outer)
                              case OtherGeometry => false;
              && (code == 3 <==> !mine)
              && (code == 4 <==> mine && d.state in {0, 5, 6, 7, 8})
              && (code == 5 <==> mine && d.state !in {0, 2, 3, 4, 5, 6, 7, 8})
              && (code == 6 <==> mine && flying && !onTime)
              && (code == 8 <==> mine && flying && onTime && !inBand)
              && (code == 7 <==> mine && flying && onTime && inBand && !inOutline)
              && (code == 9 <==> mine && flying && onTime && inBand && inOutline && breach)
              && (code == 100 <==> mine && flying && onTime && inBand && inOutline && !breach)
  {
    var reference := if usspNetworkEnabled then referenceExists else true;
    if !reference || declaration.None? {
      return C2;
    }
    var d := declaration.value;
    if d.aircraftId != aircraftId {
      return C3;
    }
    if d.state in {0, 5, 6, 7, 8} {
      return C4;
    }
    if d.state !in {2, 3, 4} {
      return C5;
    }
    if !IsTimeBetween(d.start, d.end, now) {
      return C6;
    }
    var withinAllVolumes, withinAltitudes := [], [];
    for i := 0 to |d.volumes|
      invariant |withinAllVolumes| == |withinAltitudes| == i
      invariant forall j :: 0 <= j < i ==> withinAllVolumes[j] == within(position, d.volumes[j].outline)
      invariant forall j :: 0 <= j < i ==> withinAltitudes[j] == AltitudeConformant(d.volumes[j], altitude)
    {
      withinAllVolumes := withinAllVolumes + [within(position, d.volumes[i].outline)];
      withinAltitudes := withinAltitudes + [AltitudeConformant(d.volumes[i], altitude)];
    }
    if true !in withinAltitudes {
      assert forall j :: 0 <= j < |d.volumes| ==> withinAltitudes[j] in withinAltitudes;
      return C7B;
    }
    if true !in withinAllVolumes {
      assert forall j :: 0 <= j < |d.volumes| ==> withinAllVolumes[j] in withinAllVolumes;
      return C7A;
    }
    for i := 0 to |fences|
      invariant forall j :: 0 <= j < i ==> !Breaches(within, position, fences[j])
    {
      var features := fences[i];
      for k := 0 to |features|
        invariant forall j :: 0 <= j < k ==> !Inside(within, position, features[j])
      {
        var breached := IsWithinGeometry(within, position, features[k]);
        if breached {
          assert Breaches(within, position, features) && features in fences;
          return C8;
        }
      }
    }
    code := CONFORMANT;
  }

  // ---------- Order and monotonicity ----------

  /** The same elements, whatever their order and number. */
  ghost predicate SameElements<T(!new)>(a: seq<T>, b: seq<T>) {
    forall x :: x in a <==> x in b
  }

  /** Neither the order of the volumes nor that of the fences matters. */
  lemma OrderIrrelevant<P, G(!new)>(
    within: (P, G) -> bool, hasReference: bool, d: Declaration<G>, volumes: seq<Volume<G>>,
    aircraftId: string, position: P, altitude: real, now: real, fences: seq<Fence<G>>, fences': seq<Fence<G>>)
    requires SameElements(d.volumes, volumes) && SameElements(fences, fences')
    ensures Decision(within, hasReference, Some(d), aircraftId, position, altitude, now, fences)
         == Decision(within, hasReference, Some(d.(volumes := volumes)), aircraftId, position, altitude, now, fences')
  {
  }

  /** Declaring more volumes never makes a conformant position non-conformant, and activating more
      fences never clears a breach. */
  lemma Monotone<P, G(!new)>(
    within: (P, G) -> bool, hasReference: bool, d: Declaration<G>, moreVolumes: seq<Volume<G>>,
    aircraftId: string, position: P, altitude: real, now: real, fences: seq<Fence<G>>, moreFences: seq<Fence<G>>)
    ensures var before := Decision(within, hasReference, Some(d), aircraftId, position, altitude, now, fences);
            && (before == CONFORMANT ==>
                  Decision(within, hasReference, Some(d.(volumes := d.volumes + moreVolumes)),
                           aircraftId, position, altitude, now, fences) == CONFORMANT)
            && (before == C8 ==>
                  Decision(within, hasReference, Some(d), aircraftId, position, altitude, now, fences + moreFences) == C8)
  {
  }

  // ---------- Two separate checks are not one ----------

  /** What the code accepts: some outline holds the position and some band holds the altitude. */
  ghost predicate PassesVolumes<P, G>(within: (P, G) -> bool, position: P, altitude: real, volumes: seq<Volume<G>>) {
    InSomeOutline(within, position, volumes) && InSomeBand(altitude, volumes)
  }

  /** A position inside one declared volume never gets C7a or C7b. */
  lemma InsideVolumePasses<P, G>(
    within: (P, G) -> bool, hasReference: bool, d: Declaration<G>, aircraftId: string,
    position: P, altitude: real, now: real, fences: seq<Fence<G>>)
    requires InSomeVolume(within, position, altitude, d.volumes)
    ensures Decision(within, hasReference, Some(d), aircraftId, position, altitude, now, fences) !in {C7A, C7B}
  {
  }

  /** The converse fails: below the first volume and beside the second, yet conformant. */
  lemma OutsideEveryVolumeYetConformant()
    ensures var volumes := [Volume(1, 50.0, 100.0), Volume(2, 0.0, 50.0)];
            var d := Declaration("uas", 2, 0.0, 10.0, volumes);
            var within := (position: int, outline: int) => position == outline;
            && !InSomeVolume(within, 1, 20.0, volumes)
            && Decision(within, true, Some(d), "uas", 1, 20.0, 5.0, []) == CONFORMANT
  {
  }

  ghost predicate ExactFor<P(!new), G(!new)>(within: (P, G) -> bool, volumes: seq<Volume<G>>) {
    forall position, altitude :: PassesVolumes(within, position, altitude, volumes) <==>
                                 InSomeVolume(within, position, altitude, volumes)
  }

  /** Some volume over the same outline as `v` holds the altitude. */
  ghost predicate OutlineHolds<G(!new)>(volumes: seq<Volume<G>>, v: Volume<G>, altitude: real) {
    exists u :: u in volumes && u.outline == v.outline && AltitudeConformant(u, altitude)
  }

  /** The two separate checks amount to being inside one volume, whatever the outlines look like, if
      and only if the volumes over each outline together hold every altitude that any volume holds. */
  lemma SeparateChecksExactIff<P(!new), G(!new)>(volumes: seq<Volume<G>>, somewhere: P)
    ensures (forall within: (P, G) -> bool :: ExactFor(within, volumes)) <==>
            forall v, altitude :: v in volumes && InSomeBand(altitude, volumes) ==> OutlineHolds(volumes, v, altitude)
  {
    if forall v, altitude :: v in volumes && InSomeBand(altitude, volumes) ==> OutlineHolds(volumes, v, altitude) {
      forall within: (P, G) -> bool ensures ExactFor(within, volumes) {
        forall position, altitude | PassesVolumes(within, position, altitude, volumes)
          ensures InSomeVolume(within, position, altitude, volumes)
        {
          var v :| v in volumes && within(position, v.outline);
          var u :| u in volumes && u.outline == v.outline && AltitudeConformant(u, altitude);
        }
      }
    } else {
      var v, altitude :| v in volumes && InSomeBand(altitude, volumes) && !OutlineHolds(volumes, v, altitude);
      var within := (position: P, outline: G) => outline == v.outline;
      assert within(somewhere, v.outline);
      assert PassesVolumes(within, somewhere, altitude, volumes) && !InSomeVolume(within, somewhere, altitude, volumes);
      assert !ExactFor(within, volumes);
    }
  }

  /** Every altitude in the band of `w` is in the band of `v`. */
  predicate BandCovers<G>(v: Volume<G>, w: Volume<G>) {
    w.lower > w.upper || (v.lower <= w.lower && w.upper <= v.upper)
  }

  /** When no two volumes share an outline, that means that all have the same altitude band (bands
      that hold no altitude aside); volumes stacked over one outline may differ. */
  lemma SameBandsIff<G(!new)>(volumes: seq<Volume<G>>)
    requires forall i, j :: 0 <= i < j < |volumes| ==> volumes[i].outline != volumes[j].outline
    ensures (forall v, altitude :: v in volumes && InSomeBand(altitude, volumes) ==> OutlineHolds(volumes, v, altitude)) <==>
            forall v, w :: v in volumes && w in volumes ==> BandCovers(v, w)
  {
    forall u, v | u in volumes && v in volumes && u.outline == v.outline ensures u == v {
      var i :| 0 <= i < |volumes| && volumes[i] == u;
      var j :| 0 <= j < |volumes| && volumes[j] == v;
    }
    if forall v, altitude :: v in volumes && InSomeBand(altitude, volumes) ==> OutlineHolds(volumes, v, altitude) {
      forall v, w | v in volumes && w in volumes ensures BandCovers(v, w) {
        var altitude := if w.lower < v.lower then w.lower else w.upper;
        assert w.lower <= w.upper ==> AltitudeConformant(w, altitude) && OutlineHolds(volumes, v, altitude);
      }
    } else {
      var v, altitude :| v in volumes && InSomeBand(altitude, volumes) && !OutlineHolds(volumes, v, altitude);
      var w :| w in volumes && AltitudeConformant(w, altitude);
      assert !BandCovers(v, w);
    }
  }
}
