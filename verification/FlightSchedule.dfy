/**
 Giving every piece of a flight path its three-second time slot
 (`CustomVolumeGenerator.build_v4d_from_linestrings`).
 Times are seconds on one clock; a slot's volume is represented by the piece it buffers.
 */
module FlightSchedule {
  import opened LinestringSplitter

  const SLOT_SECONDS: real := 3.0

  datatype Slot<P> = Slot(piece: seq<P>, start: real, end: real)

  function Abs(x: real): real {
    if x < 0.0 then -x else x
  }

  /** Python's `int(x)`: truncation towards zero. */
  function Truncate(x: real): int {
    if x >= 0.0 then x.Floor else -((-x).Floor)
  }

  /** The whole number next to `x` on the side of zero. */
  lemma TruncateTowardsZero(x: real)
    ensures x >= 0.0 ==> 0 <= Truncate(x) && Truncate(x) as real <= x < Truncate(x) as real + 1.0
    ensures x <= 0.0 ==> Truncate(x) <= 0 && Truncate(x) as real - 1.0 < x <= Truncate(x) as real
  {
    if x <= 0.0 {
      var f := (-x).Floor;
      assert f as real <= -x < f as real + 1.0;
      assert (-f) as real == -(f as real);
    }
  }

  /** A line's first slot opens at the last whole second after take-off at which the climb is not over
      yet, or is just over. */
  lemma FirstSlotAfterClimb<P>(f: Feature<P>, takeoffStart: real, climbRate: real)
    requires climbRate > 0.0
    ensures var climbed := climbRate * (FirstSlot(f, takeoffStart, climbRate) - takeoffStart);
            var height := if f.maxAltitude >= f.minAltitude then f.maxAltitude - f.minAltitude else f.minAltitude - f.maxAltitude;
            0.0 <= climbed <= height < climbed + climbRate
  {
    var height := Abs(f.maxAltitude - f.minAltitude);
    var whole := WholeClimb(height, climbRate);
    assert FirstSlot(f, takeoffStart, climbRate) == takeoffStart + whole;
    assert FirstSlot(f, takeoffStart, climbRate) - takeoffStart == whole;
  }

  lemma WholeClimb(height: real, climbRate: real) returns (whole: real)
    requires climbRate > 0.0 && height >= 0.0
    ensures whole == Truncate(height / climbRate) as real
    ensures 0.0 <= climbRate * whole <= height < climbRate * whole + climbRate
  {
    NoTimeNoLength(height, climbRate);
    TruncateTowardsZero(height / climbRate);
    whole := Truncate(height / climbRate) as real;
    WholeSeconds(height, height / climbRate, climbRate, whole);
  }

  lemma WholeSeconds(height: real, exactly: real, rate: real, whole: real)
    requires rate > 0.0 && height == rate * exactly && 0.0 <= whole <= exactly < whole + 1.0
    ensures 0.0 <= rate * whole <= height < rate * whole + rate
  {
    SmallerProduct(rate, 0.0, whole);
    SmallerProduct(rate, whole, exactly);
    SmallerProduct(rate, exactly, whole + 1.0);
    Distributed(rate, whole, 1.0);
  }

  lemma TruncateShift(n: nat, x: real)
    requires x >= 0.0
    ensures Truncate(n as real + x) == n + Truncate(x)
  {
  }

  /** The slots follow the pieces one to one, three seconds each, without gap or overlap. */
  ghost predicate IsSchedule<P>(pieces: seq<seq<P>>, first: real, slots: seq<Slot<P>>) {
    && |slots| == |pieces|
    && (forall k :: 0 <= k < |slots| ==> slots[k].piece == pieces[k])
    && (forall k :: 0 <= k < |slots| ==> slots[k].start == first + SLOT_SECONDS * k as real)
    && (forall k :: 0 <= k < |slots| ==> slots[k].end == slots[k].start + SLOT_SECONDS)
  }

  function Pieces<P>(slots: seq<Slot<P>>): (pieces: seq<seq<P>>) {
    seq(|slots|, k requires 0 <= k < |slots| => slots[k].piece)
  }

  lemma PiecesOfSchedule<P>(pieces: seq<seq<P>>, first: real, slots: seq<Slot<P>>)
    requires IsSchedule(pieces, first, slots)
    ensures Pieces(slots) == pieces
  {
  }

  lemma SlotMore<P>(pieces: seq<seq<P>>, first: real, slots: seq<Slot<P>>, start: real)
    requires |slots| < |pieces| && IsSchedule(pieces[..|slots|], first, slots)
    requires start == first + SLOT_SECONDS * |slots| as real
    ensures var slot := Slot(pieces[|slots|], start, start + SLOT_SECONDS);
            IsSchedule(pieces[..|slots| + 1], first, slots + [slot])
  {
  }

  /** A line to fly, with its altitudes. */
  datatype Feature<P> = Feature(line: seq<P>, minAltitude: real, maxAltitude: real)

  /** When the first slot of a line starts: whole seconds of climb after take-off. */
  function FirstSlot<P>(f: Feature<P>, takeoffStart: real, climbRate: real): real
    requires climbRate > 0.0
  {
    takeoffStart + Truncate(Abs(f.maxAltitude - f.minAltitude) / climbRate) as real
  }

  ghost predicate IsScheduled<P(!new)>(g: Geodesy<P>, f: Feature<P>, takeoffStart: real, speed: real, climbRate: real,
                                       slots: seq<Slot<P>>)
    requires climbRate > 0.0
  {
    && IsSplit(g, f.line, speed * SLOT_SECONDS, Pieces(slots))
    && IsSchedule(Pieces(slots), FirstSlot(f, takeoffStart, climbRate), slots)
  }

  method ScheduleLine<P(!new)>(g: Geodesy<P>, f: Feature<P>, takeoffStart: real, speed: real, climbRate: real)
    returns (slots: seq<Slot<P>>)
    requires g.Lawful() && f.line != []
    requires speed > 0.0 && climbRate > 0.0
    ensures IsScheduled(g, f, takeoffStart, speed, climbRate, slots)
  {
    var pieces := BreakLinestring(g, f.line, speed * SLOT_SECONDS);
    var climbTime := Abs(f.maxAltitude - f.minAltitude) / climbRate;
    assert climbTime >= 0.0;
    slots := [];
    ghost var first := FirstSlot(f, takeoffStart, climbRate);
    for idx := 0 to |pieces|
      invariant IsSchedule(pieces[..idx], first, slots)
    {
      TruncateShift(3 * idx, climbTime);
      var pieceStart := takeoffStart + Truncate((3 * idx) as real + climbTime) as real;
      SlotMore(pieces, first, slots, pieceStart);
      slots := slots + [Slot(pieces[idx], pieceStart, pieceStart + SLOT_SECONDS)];
    }
    assert pieces[..|pieces|] == pieces;
    PiecesOfSchedule(pieces, first, slots);
  }

  function Flatten<T>(parts: seq<seq<T>>): seq<T> {
    if parts == [] then [] else Flatten(parts[..|parts| - 1]) + parts[|parts| - 1]
  }

  /** All lines, one after the other; every one of them is scheduled from take-off. */
  method ScheduleLines<P(!new)>(g: Geodesy<P>, features: seq<Feature<P>>, takeoffStart: real, speed: real, climbRate: real)
    returns (all: seq<Slot<P>>, ghost parts: seq<seq<Slot<P>>>)
    requires g.Lawful() && forall j :: 0 <= j < |features| ==> features[j].line != []
    requires speed > 0.0 && climbRate > 0.0
    ensures all == Flatten(parts) && |parts| == |features|
    ensures forall j :: 0 <= j < |features| ==> IsScheduled(g, features[j], takeoffStart, speed, climbRate, parts[j])
  {
    all, parts := [], [];
    for i := 0 to |features|
      invariant all == Flatten(parts) && |parts| == i
      invariant forall j :: 0 <= j < i ==> IsScheduled(g, features[j], takeoffStart, speed, climbRate, parts[j])
    {
      var slots := ScheduleLine(g, features[i], takeoffStart, speed, climbRate);
      assert (parts + [slots])[..i] == parts;
      all := all + slots;
      parts := parts + [slots];
    }
  }

  /** Consecutive slots share their boundary instant: no gap and no overlap. */
  lemma SlotsAbut<P>(pieces: seq<seq<P>>, first: real, slots: seq<Slot<P>>, k: nat)
    requires IsSchedule(pieces, first, slots) && k + 1 < |slots|
    ensures slots[k].end == slots[k + 1].start
  {
  }

  /** The scheduled time is the ideal flight time rounded up by less than one slot. */
  lemma SpeedBound<P(!new)>(g: Geodesy<P>, line: seq<P>, speed: real, pieces: seq<seq<P>>,
                            first: real, slots: seq<Slot<P>>)
    requires speed > 0.0 && Length(g, line) > 0.0
    requires IsSplit(g, line, speed * SLOT_SECONDS, pieces) && IsSchedule(pieces, first, slots)
    ensures var T := slots[|slots| - 1].end - slots[0].start;
            Length(g, line) / speed <= T < Length(g, line) / speed + SLOT_SECONDS
  {
    PieceBounds(g, line, speed * SLOT_SECONDS, pieces);
    SlotArithmetic(|pieces|, speed, Length(g, line));
  }

  lemma SlotArithmetic(n: nat, v: real, x: real)
    requires v > 0.0 && n >= 1 && 0.0 < x <= n as real * (v * SLOT_SECONDS)
    requires n > 1 ==> (n - 1) as real * (v * SLOT_SECONDS) < x
    ensures x / v <= SLOT_SECONDS * n as real < x / v + SLOT_SECONDS
  {
    assert n as real * (v * SLOT_SECONDS) == (SLOT_SECONDS * n as real) * v;
    assert (n - 1) as real * (v * SLOT_SECONDS) == (SLOT_SECONDS * n as real - SLOT_SECONDS) * v;
    Quotient((SLOT_SECONDS * n as real - SLOT_SECONDS), v, x);
    Quotient2(SLOT_SECONDS * n as real, v, x);
    if n == 1 {
      Quotient(0.0, v, x);
    }
  }

  lemma Quotient2(n: real, d: real, x: real)
    requires d > 0.0
    ensures x <= n * d <==> x / d <= n
  {
    Quotient(n, d, x);
    assert (x / d) * d == x;
    assert (n - x / d) * d == n * d - x;
  }

  /** At time `t`, slot `k` is running and the point `position` metres along the path lies in its piece. */
  ghost predicate InsideSlot<P(!new)>(g: Geodesy<P>, pieces: seq<seq<P>>, slots: seq<Slot<P>>,
                                      t: real, position: real, k: int) {
    && 0 <= k < |slots| == |pieces|
    && slots[k].start <= t <= slots[k].end
    && TotalLength(g, pieces[..k]) <= position <= TotalLength(g, pieces[..k]) + Length(g, pieces[k])
  }

  /** An aircraft that leaves the start of the path when the first slot opens and flies at constant
      `speed` is, at every time until the end of the path, inside the piece of a running slot. */
  lemma FlightStaysInSlots<P(!new)>(g: Geodesy<P>, line: seq<P>, speed: real, pieceLength: real, pieces: seq<seq<P>>,
                                    first: real, slots: seq<Slot<P>>, t: real, position: real)
    requires speed > 0.0 && pieceLength == speed * SLOT_SECONDS
    requires IsSplit(g, line, pieceLength, pieces) && IsSchedule(pieces, first, slots)
    requires position == speed * (t - first) && 0.0 <= position <= Length(g, line)
    ensures exists k :: InsideSlot(g, pieces, slots, t, position, k)
  {
    PieceBounds(g, line, pieceLength, pieces);
    var k := SlotAt(|pieces|, speed, pieceLength, t - first, position);
    SlotHolds(g, line, pieceLength, pieces, first, slots, t, position, k);
  }

  lemma SlotHolds<P(!new)>(g: Geodesy<P>, line: seq<P>, pieceLength: real, pieces: seq<seq<P>>,
                           first: real, slots: seq<Slot<P>>, t: real, position: real, k: nat)
    requires IsSplit(g, line, pieceLength, pieces) && IsSchedule(pieces, first, slots) && k < |pieces|
    requires SLOT_SECONDS * k as real <= t - first <= SLOT_SECONDS * k as real + SLOT_SECONDS
    requires k as real * pieceLength <= position <= k as real * pieceLength + pieceLength
    requires position <= Length(g, line)
    ensures InsideSlot(g, pieces, slots, t, position, k)
  {
    PieceOffset(g, line, pieceLength, pieces, k);
    WithinPiece(g, line, pieceLength, pieces, k, position);
  }

  lemma WithinPiece<P(!new)>(g: Geodesy<P>, line: seq<P>, pieceLength: real, pieces: seq<seq<P>>, k: nat, position: real)
    requires IsSplit(g, line, pieceLength, pieces) && k < |pieces|
    requires position <= TotalLength(g, pieces[..k]) + pieceLength && position <= Length(g, line)
    ensures position <= TotalLength(g, pieces[..k]) + Length(g, pieces[k])
  {
    assert k == |pieces| - 1 ==> TotalLength(g, pieces) == TotalLength(g, pieces[..k]) + Length(g, pieces[k]);
  }

  lemma SlotAt(n: nat, v: real, pieceLength: real, elapsed: real, position: real) returns (k: nat)
    requires v > 0.0 && n >= 1 && pieceLength == v * SLOT_SECONDS && position == v * elapsed
    requires 0.0 <= position <= n as real * pieceLength
    ensures k < n && SLOT_SECONDS * k as real <= elapsed <= SLOT_SECONDS * k as real + SLOT_SECONDS
    ensures k as real * pieceLength <= position <= k as real * pieceLength + pieceLength
  {
    ElapsedBounds(n, v, pieceLength, elapsed, position);
    var full := (elapsed / SLOT_SECONDS).Floor;
    k := if full < n then full else n - 1;
    Scaled(k, v, pieceLength, elapsed, position);
  }

  lemma ElapsedBounds(n: nat, v: real, d: real, elapsed: real, position: real)
    requires v > 0.0 && d == v * SLOT_SECONDS && position == v * elapsed
    requires 0.0 <= position <= n as real * d
    ensures 0.0 <= elapsed <= SLOT_SECONDS * n as real
  {
    assert n as real * d == (SLOT_SECONDS * n as real) * v;
    assert (SLOT_SECONDS * n as real - elapsed) * v == (SLOT_SECONDS * n as real) * v - position;
  }

  lemma Scaled(k: nat, v: real, d: real, elapsed: real, position: real)
    requires v > 0.0 && d == v * SLOT_SECONDS && position == v * elapsed
    requires SLOT_SECONDS * k as real <= elapsed <= SLOT_SECONDS * k as real + SLOT_SECONDS
    ensures k as real * d <= position <= k as real * d + d
  {
    var kd := k as real * d;
    assert kd == (SLOT_SECONDS * k as real) * v;
    var early, late := elapsed - SLOT_SECONDS * k as real, SLOT_SECONDS * k as real + SLOT_SECONDS - elapsed;
    assert early * v == position - kd;
    assert late * v == kd + d - position;
  }

  // ---------- Several lines flown in turn ----------

  /** At time `t`, an aircraft that left the start of a line at `begin` is `position` metres along it. */
  predicate FlyingAt(speed: real, begin: real, length: real, t: real, position: real) {
    position == speed * (t - begin) && 0.0 <= position <= length
  }

  ghost predicate InSomeSlot<P(!new)>(g: Geodesy<P>, pieces: seq<seq<P>>, slots: seq<Slot<P>>, t: real, position: real) {
    exists k :: InsideSlot(g, pieces, slots, t, position, k)
  }

  ghost predicate StaysInSlots<P(!new)>(g: Geodesy<P>, line: seq<P>, speed: real, begin: real, slots: seq<Slot<P>>) {
    forall t, position :: FlyingAt(speed, begin, Length(g, line), t, position) ==>
      InSomeSlot(g, Pieces(slots), slots, t, position)
  }

  /** The line is begun when its first slot opens, or is flown in full during its first slot. */
  predicate OnSchedule(first: real, begin: real, duration: real) {
    begin == first || (begin > first && begin + duration <= first + SLOT_SECONDS)
  }

  /** An aircraft that begins a line at `begin` stays in its running slots if and only if it is on
      schedule. */
  lemma StaysInSlotsIff<P(!new)>(g: Geodesy<P>, line: seq<P>, speed: real, first: real, begin: real, slots: seq<Slot<P>>)
    requires speed > 0.0 && IsSplit(g, line, speed * SLOT_SECONDS, Pieces(slots)) && IsSchedule(Pieces(slots), first, slots)
    ensures StaysInSlots(g, line, speed, begin, slots) <==> OnSchedule(first, begin, Length(g, line) / speed)
  {
    PieceBounds(g, line, speed * SLOT_SECONDS, Pieces(slots));
    if OnSchedule(first, begin, Length(g, line) / speed) {
      forall t, position | FlyingAt(speed, begin, Length(g, line), t, position)
        ensures InSomeSlot(g, Pieces(slots), slots, t, position)
      {
        if begin == first {
          FlightStaysInSlots(g, line, speed, speed * SLOT_SECONDS, Pieces(slots), first, slots, t, position);
        } else {
          InFirstSlot(g, line, speed, first, begin, slots, t, position);
        }
      }
    } else if begin < first {
      assert FlyingAt(speed, begin, Length(g, line), begin, 0.0);
      assert !InSomeSlot(g, Pieces(slots), slots, begin, 0.0);
    } else {
      var t, position := LateMoment(speed, first, begin, Length(g, line));
      NotInAnySlot(g, line, speed, first, slots, t, position);
    }
  }

  lemma InFirstSlot<P(!new)>(g: Geodesy<P>, line: seq<P>, speed: real, first: real, begin: real, slots: seq<Slot<P>>,
                             t: real, position: real)
    requires speed > 0.0 && IsSplit(g, line, speed * SLOT_SECONDS, Pieces(slots)) && IsSchedule(Pieces(slots), first, slots)
    requires begin > first && begin + Length(g, line) / speed <= first + SLOT_SECONDS
    requires FlyingAt(speed, begin, Length(g, line), t, position)
    ensures InSomeSlot(g, Pieces(slots), slots, t, position)
  {
    FlyingTimes(speed, begin, Length(g, line), t, position);
    SlotHolds(g, line, speed * SLOT_SECONDS, Pieces(slots), first, slots, t, position, 0);
  }

  /** A moment of a flight of at most the given length lies between its begin and its end. */
  lemma FlyingTimes(speed: real, begin: real, length: real, t: real, position: real)
    requires speed > 0.0 && FlyingAt(speed, begin, length, t, position)
    ensures begin <= t <= begin + length / speed
    ensures t - begin <= SLOT_SECONDS ==> position <= speed * SLOT_SECONDS
  {
    NoTimeNoLength(length, speed);
    ElapsedOf(speed, t - begin, length / speed, position, length, SLOT_SECONDS);
  }

  lemma ElapsedOf(v: real, u: real, d: real, x: real, length: real, s: real)
    requires v > 0.0 && x == v * u && length == v * d && 0.0 <= x <= length
    ensures 0.0 <= u <= d
    ensures u <= s ==> x <= v * s
  {
    if u < 0.0 {
      SmallerProduct(v, u, 0.0);
    }
    if d < u {
      SmallerProduct(v, d, u);
    }
    if u <= s {
      SmallerProduct(v, u, s);
    }
  }

  /** Late for the first slot, there is a moment in the first three seconds of flight, or at its end, when that
      slot is closed already. */
  lemma LateMoment(speed: real, first: real, begin: real, length: real) returns (t: real, position: real)
    requires speed > 0.0 && length >= 0.0 && begin > first && begin + length / speed > first + SLOT_SECONDS
    ensures FlyingAt(speed, begin, length, t, position)
    ensures t > first + SLOT_SECONDS && position < speed * SLOT_SECONDS
  {
    var d := length / speed;
    var closes := if first + SLOT_SECONDS - begin > 0.0 then first + SLOT_SECONDS - begin else 0.0;
    var u := if d < SLOT_SECONDS then d else (closes + SLOT_SECONDS) / 2.0;
    NoTimeNoLength(length, speed);
    position := DistanceFlown(speed, u, d, length, SLOT_SECONDS);
    t := begin + u;
  }

  lemma DistanceFlown(v: real, u: real, d: real, length: real, s: real) returns (x: real)
    requires v > 0.0 && length == v * d && 0.0 <= u <= d && u < s
    ensures x == v * u && 0.0 <= x <= length && x < v * s
  {
    x := v * u;
    SmallerProduct(v, 0.0, u);
    SmallerProduct(v, u, d);
    SmallerProduct(v, u, s);
  }

  lemma SmallerProduct(v: real, a: real, b: real)
    requires v > 0.0 && a <= b
    ensures v * a <= v * b
    ensures a < b ==> v * a < v * b
  {
    Distributed(v, a, b - a);
    if a < b {
      PositiveProduct(v, b - a);
    }
  }

  lemma Distributed(v: real, a: real, d: real)
    ensures v * (a + d) == v * a + v * d
  {
  }

  lemma PositiveProduct(v: real, d: real)
    requires v > 0.0 && d > 0.0
    ensures v * d > 0.0
  {
  }

  lemma LaterPiece<P(!new)>(g: Geodesy<P>, line: seq<P>, pieceLength: real, pieces: seq<seq<P>>, k: nat)
    requires pieceLength > 0.0 && IsSplit(g, line, pieceLength, pieces) && 1 <= k < |pieces|
    ensures TotalLength(g, pieces[..k]) >= pieceLength
  {
    PieceOffset(g, line, pieceLength, pieces, k);
    AtLeastOnce(k, pieceLength);
  }

  lemma AtLeastOnce(k: nat, d: real)
    requires k >= 1 && d > 0.0
    ensures k as real * d >= d
  {
    assert (k as real - 1.0) * d >= 0.0;
  }

  lemma NotInAnySlot<P(!new)>(g: Geodesy<P>, line: seq<P>, speed: real, first: real, slots: seq<Slot<P>>,
                              t: real, position: real)
    requires speed > 0.0 && IsSplit(g, line, speed * SLOT_SECONDS, Pieces(slots)) && IsSchedule(Pieces(slots), first, slots)
    requires t > first + SLOT_SECONDS && position < speed * SLOT_SECONDS
    ensures !InSomeSlot(g, Pieces(slots), slots, t, position)
  {
    forall k ensures !InsideSlot(g, Pieces(slots), slots, t, position, k) {
      if 1 <= k < |slots| {
        LaterPiece(g, line, speed * SLOT_SECONDS, Pieces(slots), k);
      }
    }
  }

  /** When line `j` is begun by an aircraft that leaves with the first slot of the first line and flies
      one line right after the other. */
  ghost function Begin<P(!new)>(g: Geodesy<P>, features: seq<Feature<P>>, takeoffStart: real, speed: real, climbRate: real, j: nat): real
    requires speed > 0.0 && climbRate > 0.0 && j < |features|
  {
    if j == 0 then FirstSlot(features[0], takeoffStart, climbRate)
    else Begin(g, features, takeoffStart, speed, climbRate, j - 1) + Length(g, features[j - 1].line) / speed
  }

  /** Flying the lines in turn, an aircraft stays in the slots of the line it is on if and only if it
      is on schedule on every line; every line counts its slots from take-off anew. */
  lemma LinesInTurnIff<P(!new)>(g: Geodesy<P>, features: seq<Feature<P>>, takeoffStart: real, speed: real, climbRate: real,
                                parts: seq<seq<Slot<P>>>)
    requires speed > 0.0 && climbRate > 0.0 && |parts| == |features|
    requires forall j :: 0 <= j < |features| ==> IsScheduled(g, features[j], takeoffStart, speed, climbRate, parts[j])
    ensures (forall j :: 0 <= j < |features| ==>
               StaysInSlots(g, features[j].line, speed, Begin(g, features, takeoffStart, speed, climbRate, j), parts[j])) <==>
            (forall j :: 0 <= j < |features| ==>
               OnSchedule(FirstSlot(features[j], takeoffStart, climbRate),
                          Begin(g, features, takeoffStart, speed, climbRate, j), Length(g, features[j].line) / speed))
  {
    forall j | 0 <= j < |features|
      ensures StaysInSlots(g, features[j].line, speed, Begin(g, features, takeoffStart, speed, climbRate, j), parts[j]) <==>
              OnSchedule(FirstSlot(features[j], takeoffStart, climbRate),
                         Begin(g, features, takeoffStart, speed, climbRate, j), Length(g, features[j].line) / speed)
    {
      StaysInSlotsIff(g, features[j].line, speed, FirstSlot(features[j], takeoffStart, climbRate),
                      Begin(g, features, takeoffStart, speed, climbRate, j), parts[j]);
    }
  }

  /** At one altitude range, the second of two lines is flown in its slots if and only if the first has
      no length or both together take no more than three seconds. */
  lemma SecondLineIff<P(!new)>(g: Geodesy<P>, a: Feature<P>, b: Feature<P>, takeoffStart: real, speed: real, climbRate: real,
                               slots: seq<Slot<P>>)
    requires speed > 0.0 && climbRate > 0.0 && IsScheduled(g, b, takeoffStart, speed, climbRate, slots)
    requires a.minAltitude == b.minAltitude && a.maxAltitude == b.maxAltitude && Length(g, a.line) >= 0.0
    ensures StaysInSlots(g, b.line, speed, Begin(g, [a, b], takeoffStart, speed, climbRate, 1), slots) <==>
            Length(g, a.line) == 0.0 || Length(g, a.line) / speed + Length(g, b.line) / speed <= SLOT_SECONDS
  {
    var first := FirstSlot(b, takeoffStart, climbRate);
    StaysInSlotsIff(g, b.line, speed, first, first + Length(g, a.line) / speed, slots);
    assert [a, b][0] == a && [a, b][1] == b;
    NoTimeNoLength(Length(g, a.line), speed);
  }

  lemma NoTimeNoLength(length: real, speed: real)
    requires speed > 0.0 && length >= 0.0
    ensures length / speed >= 0.0 && speed * (length / speed) == length
    ensures length / speed == 0.0 <==> length == 0.0
  {
    Quotient(0.0, speed, length);
  }
}
