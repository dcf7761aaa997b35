/**
 Cutting a flight path into pieces of at most `pieceLength` metres
 (`CustomVolumeGenerator._break_linestring_to_smaller_pieces`).

 Points are abstract.  The geodesic solver is a pair of functions: `inv` measures the
 distance between two points and `fwd(a, b, r)` walks `r` metres from `a` towards `b`.
 */
module LinestringSplitter {

  datatype Geodesy<!P(!new)> = Geodesy(inv: (P, P) -> real, fwd: (P, P, real) -> P) {
    /** Distances are non-negative, and walking `r` metres along a segment splits its length
        into `r` and the rest. */
    ghost predicate Lawful() {
      && (forall a, b :: inv(a, b) >= 0.0)
      && (forall a, b, r {:trigger fwd(a, b, r)} :: 0.0 <= r <= inv(a, b) ==>
            inv(a, fwd(a, b, r)) == r && inv(fwd(a, b, r), b) == inv(a, b) - r)
    }
  }

  /** Measuring points by their position along a straight road gives a lawful geodesy. */
  function Road(): Geodesy<real> {
    Geodesy((a: real, b: real) => if a <= b then b - a else a - b,
            (a: real, b: real, r: real) => if a <= b then a + r else a - r)
  }

  lemma RoadIsLawful()
    ensures Road().Lawful()
  {
  }

  // ---------- Lengths ----------

  /** Length of the walk that starts at `p` and visits `vs` in order. */
  ghost function Ahead<P(!new)>(g: Geodesy<P>, p: P, vs: seq<P>): real {
    if vs == [] then 0.0 else g.inv(p, vs[0]) + Ahead(g, vs[0], vs[1..])
  }

  ghost function Length<P(!new)>(g: Geodesy<P>, piece: seq<P>): real {
    if piece == [] then 0.0 else Ahead(g, piece[0], piece[1..])
  }

  ghost function TotalLength<P(!new)>(g: Geodesy<P>, pieces: seq<seq<P>>): real {
    if pieces == [] then 0.0
    else TotalLength(g, pieces[..|pieces| - 1]) + Length(g, pieces[|pieces| - 1])
  }

  lemma {:induction false} AheadAppend<P(!new)>(g: Geodesy<P>, p: P, vs: seq<P>, x: P)
    ensures Ahead(g, p, vs + [x]) == Ahead(g, p, vs) + g.inv(if vs == [] then p else vs[|vs| - 1], x)
  {
    if vs == [] {
      assert vs + [x] == [x];
    } else {
      assert (vs + [x])[1..] == vs[1..] + [x];
      AheadAppend(g, vs[0], vs[1..], x);
    }
  }

  lemma LengthAppend<P(!new)>(g: Geodesy<P>, piece: seq<P>, x: P)
    requires piece != []
    ensures Length(g, piece + [x]) == Length(g, piece) + g.inv(piece[|piece| - 1], x)
  {
    assert (piece + [x])[1..] == piece[1..] + [x];
    AheadAppend(g, piece[0], piece[1..], x);
  }

  lemma {:induction false} AheadNonNegative<P(!new)>(g: Geodesy<P>, p: P, vs: seq<P>)
    requires g.Lawful()
    ensures Ahead(g, p, vs) >= 0.0
  {
    if vs != [] {
      AheadNonNegative(g, vs[0], vs[1..]);
    }
  }

  /** `n` full pieces add up to `n` times the piece length. */
  lemma {:induction false} FullPieces<P(!new)>(g: Geodesy<P>, pieces: seq<seq<P>>, pieceLength: real)
    requires forall k :: 0 <= k < |pieces| ==> Length(g, pieces[k]) == pieceLength
    ensures TotalLength(g, pieces) == |pieces| as real * pieceLength
  {
    if pieces != [] {
      FullPieces(g, pieces[..|pieces| - 1], pieceLength);
    }
  }

  // ---------- What a split is ----------

  ghost function DropLast<P>(s: seq<P>): seq<P> {
    if s == [] then [] else s[..|s| - 1]
  }

  /** The vertices left when the cut points, which end one piece and start the next, are taken out. */
  ghost function Vertices<P>(pieces: seq<seq<P>>): seq<P>
    requires forall k :: 0 <= k < |pieces| ==> pieces[k] != []
  {
    if pieces == [] then []
    else if |pieces| == 1 then pieces[0]
    else DropLast(Vertices(pieces[..|pieces| - 1])) + pieces[|pieces| - 1][1..]
  }

  ghost predicate Chained<P>(pieces: seq<seq<P>>)
    requires forall k :: 0 <= k < |pieces| ==> pieces[k] != []
  {
    forall k :: 0 <= k < |pieces| - 1 ==> pieces[k][|pieces[k]| - 1] == pieces[k + 1][0]
  }

  ghost predicate IsSplit<P(!new)>(g: Geodesy<P>, line: seq<P>, pieceLength: real, pieces: seq<seq<P>>) {
    var n := |pieces|;
    && n >= 1
    && (forall k :: 0 <= k < n ==> pieces[k] != [])
    && Chained(pieces)
    && Vertices(pieces) == line
    && TotalLength(g, pieces) == Length(g, line)
    && (forall k :: 0 <= k < n - 1 ==> Length(g, pieces[k]) == pieceLength)
    && 0.0 <= Length(g, pieces[n - 1]) <= pieceLength
    && (n > 1 ==> Length(g, pieces[n - 1]) > 0.0)
  }

  // ---------- The state of the loop ----------

  /** After `i` vertices: `closed` holds the full pieces, `current` the one being filled, and
      what is cut off, what is being filled and what lies ahead add up to the whole path. */
  ghost predicate Progress<P(!new)>(g: Geodesy<P>, line: seq<P>, pieceLength: real,
                                    closed: seq<seq<P>>, current: seq<P>, i: int) {
    && 1 <= i <= |line|
    && current != []
    && Length(g, current) <= pieceLength
    && (forall k :: 0 <= k < |closed| ==> closed[k] != [] && Length(g, closed[k]) == pieceLength)
    && Chained(closed)
    && (closed != [] ==> closed[|closed| - 1][|closed[|closed| - 1]| - 1] == current[0])
    && VerticesSoFar(closed, current) == line[..i]
    && TotalLength(g, closed) + Length(g, current) + Ahead(g, current[|current| - 1], line[i..]) == Length(g, line)
    && (closed != [] ==> Length(g, current) + Ahead(g, current[|current| - 1], line[i..]) > 0.0)
  }

  ghost function VerticesSoFar<P>(closed: seq<seq<P>>, current: seq<P>): seq<P>
    requires current != []
    requires forall k :: 0 <= k < |closed| ==> closed[k] != []
  {
    if closed == [] then current else DropLast(Vertices(closed)) + current[1..]
  }

  lemma VerticesClosed<P>(closed: seq<seq<P>>, current: seq<P>)
    requires current != []
    requires forall k :: 0 <= k < |closed| ==> closed[k] != []
    ensures Vertices(closed + [current]) == VerticesSoFar(closed, current)
  {
  }

  lemma AppendVertex<P(!new)>(g: Geodesy<P>, line: seq<P>, pieceLength: real,
                              closed: seq<seq<P>>, current: seq<P>, i: int)
    requires Progress(g, line, pieceLength, closed, current, i) && i < |line|
    requires Length(g, current) + g.inv(current[|current| - 1], line[i]) <= pieceLength
    ensures Progress(g, line, pieceLength, closed, current + [line[i]], i + 1)
  {
    LengthAppend(g, current, line[i]);
    VerticesAppend(closed, current, line[i]);
    assert line[i..][1..] == line[i + 1..];
    assert line[..i + 1] == line[..i] + [line[i]];
  }

  lemma VerticesAppend<P>(closed: seq<seq<P>>, current: seq<P>, vertex: P)
    requires current != []
    requires forall k :: 0 <= k < |closed| ==> closed[k] != []
    ensures VerticesSoFar(closed, current + [vertex]) == VerticesSoFar(closed, current) + [vertex]
  {
    assert (current + [vertex])[1..] == current[1..] + [vertex];
  }

  lemma CutPiece<P(!new)>(g: Geodesy<P>, line: seq<P>, pieceLength: real,
                          closed: seq<seq<P>>, current: seq<P>, i: int, cut: P)
    requires g.Lawful() && pieceLength > 0.0
    requires Progress(g, line, pieceLength, closed, current, i) && i < |line|
    requires Length(g, current) + g.inv(current[|current| - 1], line[i]) > pieceLength
    requires cut == g.fwd(current[|current| - 1], line[i], pieceLength - Length(g, current))
    ensures Progress(g, line, pieceLength, closed + [current + [cut]], [cut], i)
  {
    var full := current + [cut];
    LengthAppend(g, current, cut);
    CutVertices(closed, current, cut);
    CutDistance(g, line, current[|current| - 1], i, pieceLength - Length(g, current));
    OnePieceMore(g, closed, full);
  }

  lemma OnePieceMore<P(!new)>(g: Geodesy<P>, closed: seq<seq<P>>, piece: seq<P>)
    requires piece != [] && (forall k :: 0 <= k < |closed| ==> closed[k] != []) && Chained(closed)
    requires closed != [] ==> closed[|closed| - 1][|closed[|closed| - 1]| - 1] == piece[0]
    ensures (forall k :: 0 <= k <= |closed| ==> (closed + [piece])[k] != []) && Chained(closed + [piece])
    ensures TotalLength(g, closed + [piece]) == TotalLength(g, closed) + Length(g, piece)
  {
    assert (closed + [piece])[..|closed|] == closed;
  }

  lemma CutVertices<P>(closed: seq<seq<P>>, current: seq<P>, cut: P)
    requires current != []
    requires forall k :: 0 <= k < |closed| ==> closed[k] != []
    ensures VerticesSoFar(closed + [current + [cut]], [cut]) == VerticesSoFar(closed, current)
  {
    var full := current + [cut];
    VerticesClosed(closed, full);
    VerticesAppend(closed, current, cut);
    assert VerticesSoFar(closed + [full], [cut]) == DropLast(VerticesSoFar(closed, full));
  }

  /** Cutting `r` metres into the segment ahead leaves a path shorter by `r`, and not used up. */
  lemma CutDistance<P(!new)>(g: Geodesy<P>, line: seq<P>, from_: P, i: nat, r: real)
    requires g.Lawful() && i < |line| && 0.0 <= r < g.inv(from_, line[i])
    ensures var cut := g.fwd(from_, line[i], r);
            && g.inv(from_, cut) == r
            && Ahead(g, cut, line[i..]) == Ahead(g, from_, line[i..]) - r
            && Ahead(g, cut, line[i..]) > 0.0
  {
    AheadNonNegative(g, line[i], line[i + 1..]);
    assert line[i..][1..] == line[i + 1..];
  }

  lemma Finish<P(!new)>(g: Geodesy<P>, line: seq<P>, pieceLength: real, closed: seq<seq<P>>, current: seq<P>)
    requires g.Lawful()
    requires Progress(g, line, pieceLength, closed, current, |line|)
    ensures IsSplit(g, line, pieceLength, closed + [current])
  {
    assert line[..|line|] == line && line[|line|..] == [];
    VerticesClosed(closed, current);
    AheadNonNegative(g, current[0], current[1..]);
    OnePieceMore(g, closed, current);
  }

  /** Full pieces never outnumber what the path has room for. */
  lemma ClosedBelow<P(!new)>(g: Geodesy<P>, line: seq<P>, pieceLength: real,
                             closed: seq<seq<P>>, current: seq<P>, i: int)
    requires g.Lawful() && pieceLength > 0.0
    requires Progress(g, line, pieceLength, closed, current, i)
    ensures |closed| <= (Length(g, line) / pieceLength).Floor
  {
    assert TotalLength(g, closed) <= Length(g, line) by {
      AheadNonNegative(g, current[0], current[1..]);
      AheadNonNegative(g, current[|current| - 1], line[i..]);
    }
    FullPiecesFit(g, closed, pieceLength, Length(g, line));
  }

  lemma FullPiecesFit<P(!new)>(g: Geodesy<P>, pieces: seq<seq<P>>, pieceLength: real, room: real)
    requires pieceLength > 0.0
    requires forall k :: 0 <= k < |pieces| ==> Length(g, pieces[k]) == pieceLength
    requires TotalLength(g, pieces) <= room
    ensures |pieces| <= (room / pieceLength).Floor
  {
    FullPieces(g, pieces, pieceLength);
    FloorBound(|pieces|, pieceLength, room);
  }

  lemma FloorBound(n: nat, d: real, x: real)
    requires d > 0.0 && n as real * d <= x
    ensures n <= (x / d).Floor
  {
    Quotient(n as real, d, x);
  }

  lemma Quotient(n: real, d: real, x: real)
    requires d > 0.0
    ensures n * d <= x <==> n <= x / d
    ensures n * d < x <==> n < x / d
  {
    var q := x / d;
    assert (n - q) * d == n * d - x;
  }

  // ---------- The algorithm ----------

  /** The closing branch does not advance `i`: the loop terminates because every cut uses up one
      of the finitely many piece lengths the path has room for. */
  method BreakLinestring<P(!new)>(g: Geodesy<P>, line: seq<P>, pieceLength: real) returns (pieces: seq<seq<P>>)
    requires g.Lawful()
    requires pieceLength > 0.0
    ensures |line| < 2 ==> pieces == [line]
    ensures line != [] ==> IsSplit(g, line, pieceLength, pieces)
  {
    if |line| < 2 {
      assert [line][..0] == [];
      return [line];
    }
    pieces := [];
    var current := [line[0]];
    var currentLength := 0.0;
    var i := 1;
    assert line[..1] == [line[0]];
    while i < |line|
      invariant Progress(g, line, pieceLength, pieces, current, i)
      invariant currentLength == Length(g, current)
      decreases (Length(g, line) / pieceLength).Floor - |pieces|, |line| - i
    {
      var startPoint, endPoint := current[|current| - 1], line[i];
      var dist := g.inv(startPoint, endPoint);
      if currentLength + dist <= pieceLength {
        AppendVertex(g, line, pieceLength, pieces, current, i);
        LengthAppend(g, current, endPoint);
        current := current + [endPoint];
        currentLength := currentLength + dist;
        i := i + 1;
      } else {
        var remaining := pieceLength - currentLength;
        var interpPoint := g.fwd(startPoint, endPoint, remaining);
        CutPiece(g, line, pieceLength, pieces, current, i, interpPoint);
        ClosedBelow(g, line, pieceLength, pieces + [current + [interpPoint]], [interpPoint], i);
        current := current + [interpPoint];
        pieces := pieces + [current];
        current := [interpPoint];
        currentLength := 0.0;
      }
    }
    Finish(g, line, pieceLength, pieces, current);
    pieces := pieces + [current];
  }

  // ---------- Consequences of being a split ----------

  /** A split of a path of length `D` has exactly max(1, ceil(D / pieceLength)) pieces. */
  lemma PieceCount<P(!new)>(g: Geodesy<P>, line: seq<P>, pieceLength: real, pieces: seq<seq<P>>)
    requires pieceLength > 0.0 && IsSplit(g, line, pieceLength, pieces)
    ensures Length(g, line) <= |pieces| as real * pieceLength
    ensures |pieces| > 1 ==> (|pieces| - 1) as real * pieceLength < Length(g, line)
    ensures |pieces| == var c := -(-(Length(g, line) / pieceLength)).Floor; if c < 1 then 1 else c
  {
    PieceBounds(g, line, pieceLength, pieces);
    CountFormula(|pieces|, pieceLength, Length(g, line));
  }

  lemma PieceBounds<P(!new)>(g: Geodesy<P>, line: seq<P>, pieceLength: real, pieces: seq<seq<P>>)
    requires pieceLength > 0.0 && IsSplit(g, line, pieceLength, pieces)
    ensures 0.0 <= Length(g, line) <= |pieces| as real * pieceLength
    ensures |pieces| > 1 ==> (|pieces| - 1) as real * pieceLength < Length(g, line)
  {
    var last := LastPiece(g, line, pieceLength, pieces);
    RoomFor(|pieces|, pieceLength, last, Length(g, line));
  }

  lemma LastPiece<P(!new)>(g: Geodesy<P>, line: seq<P>, pieceLength: real, pieces: seq<seq<P>>) returns (last: real)
    requires IsSplit(g, line, pieceLength, pieces)
    ensures Length(g, line) == (|pieces| - 1) as real * pieceLength + last
    ensures 0.0 <= last <= pieceLength && (|pieces| > 1 ==> last > 0.0)
  {
    PieceOffset(g, line, pieceLength, pieces, |pieces| - 1);
    last := Length(g, pieces[|pieces| - 1]);
  }

  lemma RoomFor(n: nat, d: real, last: real, x: real)
    requires n >= 1 && d > 0.0 && 0.0 <= last <= d
    requires x == (n - 1) as real * d + last
    ensures 0.0 <= x <= n as real * d
  {
    assert n as real * d == (n - 1) as real * d + d;
    assert 0.0 <= (n - 1) as real * d;
  }

  lemma CountFormula(n: nat, d: real, x: real)
    requires d > 0.0 && n >= 1 && 0.0 <= x <= n as real * d
    requires n > 1 ==> (n - 1) as real * d < x
    ensures n == var c := -(-(x / d)).Floor; if c < 1 then 1 else c
  {
    Quotient(n as real, d, x);
    Quotient((n - 1) as real, d, x);
  }

  /** Piece `k` starts exactly `k` piece lengths along the path. */
  lemma PieceOffset<P(!new)>(g: Geodesy<P>, line: seq<P>, pieceLength: real, pieces: seq<seq<P>>, k: nat)
    requires IsSplit(g, line, pieceLength, pieces) && k < |pieces|
    ensures TotalLength(g, pieces[..k]) == k as real * pieceLength
  {
    FullPieces(g, pieces[..k], pieceLength);
  }
}
