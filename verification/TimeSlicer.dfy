/**
 Dividing a time window across the features of a collection in proportion to their length
 (`HelloWorldVolumeGenerator.build_v4d_from_geojson`).  Times and durations are exact seconds.
 */
module TimeSlicer {

  datatype Slice = Slice(start: real, end: real)

  function Sum(xs: seq<real>): real {
    if xs == [] then 0.0 else xs[0] + Sum(xs[1..])
  }

  function Max(a: real, b: real): real {
    if a >= b then a else b
  }

  function TotalLength(lengths: seq<real>): real {
    if Sum(lengths) == 0.0 then 1.0 else Sum(lengths)
  }

  /** The part of `seconds` that is proportional to each length. */
  function Shares(lengths: seq<real>, seconds: real): seq<real> {
    Scaled(lengths, seconds, TotalLength(lengths))
  }

  function Scaled(xs: seq<real>, c: real, total: real): seq<real>
    requires total != 0.0
  {
    seq(|xs|, k requires 0 <= k < |xs| => c * (xs[k] / total))
  }

  /** Slice `k` lasts its share but at least a second, is cut off at the end of the window, and
      the last slice takes what is left. */
  ghost predicate IsSlicing(shares: seq<real>, start: real, end: real, slices: seq<Slice>) {
    && |slices| == |shares|
    && (slices != [] ==> slices[0].start == start)
    && (forall k :: 0 <= k < |slices| - 1 ==> slices[k].end == slices[k + 1].start)
    && (forall k :: 0 <= k < |slices| ==>
          var wanted := slices[k].start + Max(shares[k], 1.0);
          slices[k].end == if k == |slices| - 1 || wanted > end then end else wanted)
  }

  method BuildSlices(lengths: seq<real>, start: real, end: real) returns (slices: seq<Slice>)
    ensures IsSlicing(Shares(lengths, end - start), start, end, slices)
  {
    var totalSecs := end - start;
    var totalLength := TotalLength(lengths);
    slices := [];
    var cursor := start;
    ghost var shares := Shares(lengths, totalSecs);
    for idx := 0 to |lengths|
      invariant |slices| == idx
      invariant cursor == if idx == 0 then start else slices[idx - 1].end
      invariant idx > 0 ==> slices[0].start == start
      invariant forall k :: 0 <= k < idx - 1 ==> slices[k].end == slices[k + 1].start
      invariant forall k :: 0 <= k < idx ==>
          var wanted := slices[k].start + Max(shares[k], 1.0);
          slices[k].end == if k == |lengths| - 1 || wanted > end then end else wanted
    {
      var fraction := lengths[idx] / totalLength;
      var durationSecs := Max(totalSecs * fraction, 1.0);
      var segmentEnd := cursor + durationSecs;
      if idx == |lengths| - 1 || segmentEnd > end {
        segmentEnd := end;
      }
      slices := slices + [Slice(cursor, segmentEnd)];
      cursor := segmentEnd;
    }
  }

  /** The slices tile the window: they stay inside it, run forwards, and end exactly at its end.
      Running forwards needs, and only needs, a window that does. */
  lemma {:induction false} SlicesTileWindow(shares: seq<real>, start: real, end: real, slices: seq<Slice>)
    requires IsSlicing(shares, start, end, slices) && slices != []
    ensures slices[0].start == start && slices[|slices| - 1].end == end
    ensures start <= end <==> forall k :: 0 <= k < |slices| ==> start <= slices[k].start <= slices[k].end <= end
  {
    if start <= end {
      for k := 0 to |slices|
        invariant forall j :: 0 <= j < k ==> start <= slices[j].start <= slices[j].end <= end
      {
        assert k > 0 ==> slices[k - 1].end == slices[k].start;
      }
    } else {
      assert !(start <= slices[0].start <= slices[0].end <= end);
    }
  }

  /** Every slice before the last lasts its share and a second at least, and one of the two exactly,
      unless the window ends before. */
  lemma SliceLengths(shares: seq<real>, start: real, end: real, slices: seq<Slice>, k: nat)
    requires IsSlicing(shares, start, end, slices) && k + 1 < |slices|
    ensures var length := slices[k].end - slices[k].start;
            && (slices[k].start + shares[k] <= end && slices[k].start + 1.0 <= end ==>
                  length >= shares[k] && length >= 1.0 && (length == shares[k] || length == 1.0))
            && (slices[k].start + shares[k] > end || slices[k].start + 1.0 > end ==> slices[k].end == end)
  {
  }

  ghost predicate Proportional(shares: seq<real>, slices: seq<Slice>)
    requires |slices| == |shares|
  {
    forall k :: 0 <= k < |slices| ==> slices[k].end - slices[k].start == shares[k]
  }

  /** For any window, forwards or backwards, the slices are exactly proportional if and only if there
      is something to share (some length, or no time), and every feature but the last either earns a
      full second or is followed only by features without a share. */
  lemma ProportionalIff(lengths: seq<real>, start: real, end: real, slices: seq<Slice>)
    requires forall k :: 0 <= k < |lengths| ==> lengths[k] >= 0.0
    requires IsSlicing(Shares(lengths, end - start), start, end, slices)
    ensures var shares := Shares(lengths, end - start);
            Proportional(shares, slices) <==>
            lengths == [] ||
            ((Sum(lengths) > 0.0 || start == end) &&
             forall k :: 0 <= k < |shares| - 1 ==> shares[k] >= 1.0 || Sum(shares[k + 1..]) == 0.0)
  {
    SumNonNegative(lengths);
    if Sum(lengths) > 0.0 || start == end {
      SharesAddUp(lengths, end - start);
      ScaledOneSign(lengths, end - start, TotalLength(lengths));
      ProportionalSharesIff(Shares(lengths, end - start), start, end, slices);
    } else if lengths != [] {
      NoLength(lengths);
      NoFirstShare(lengths, end - start);
      NothingToShare(Shares(lengths, end - start), start, end, slices);
    }
  }

  /** A share is to the whole window what the length is to all lengths. */
  lemma ShareOfLength(lengths: seq<real>, seconds: real, k: nat)
    requires Sum(lengths) > 0.0 && k < |lengths|
    ensures Shares(lengths, seconds)[k] * Sum(lengths) == seconds * lengths[k]
  {
    InProportion(seconds, lengths[k], Sum(lengths));
  }

  lemma InProportion(c: real, x: real, total: real)
    requires total > 0.0
    ensures (c * (x / total)) * total == c * x
  {
    assert (x / total) * total == x;
  }

  /** Without length but with time, somebody gets time without a share. */
  lemma NothingToShare(shares: seq<real>, start: real, end: real, slices: seq<Slice>)
    requires IsSlicing(shares, start, end, slices) && shares != [] && start != end
    requires shares[0] == 0.0
    ensures !Proportional(shares, slices)
  {
    assert slices[0].end != slices[0].start;
  }

  ghost predicate OneSign(xs: seq<real>) {
    (forall k :: 0 <= k < |xs| ==> xs[k] >= 0.0) || (forall k :: 0 <= k < |xs| ==> xs[k] <= 0.0)
  }

  /** The shares add up to what is shared out. */
  lemma SharesAddUp(lengths: seq<real>, seconds: real)
    requires Sum(lengths) > 0.0 || seconds == 0.0
    ensures Sum(Shares(lengths, seconds)) == seconds
  {
    SharesSum(lengths, seconds, TotalLength(lengths));
    if Sum(lengths) > 0.0 {
      Whole(seconds, Sum(lengths));
    } else {
      NothingShared(Sum(lengths) / TotalLength(lengths));
    }
  }

  lemma NothingShared(x: real)
    ensures 0.0 * x == 0.0
  {
  }

  lemma NoFirstShare(lengths: seq<real>, seconds: real)
    requires lengths != [] && Sum(lengths) == 0.0 && lengths[0] == 0.0
    ensures Shares(lengths, seconds)[0] == 0.0
  {
    assert Shares(lengths, seconds)[0] == seconds * (lengths[0] / 1.0);
  }

  lemma {:induction false} NoLength(lengths: seq<real>)
    requires Sum(lengths) == 0.0 && forall k :: 0 <= k < |lengths| ==> lengths[k] >= 0.0
    ensures lengths != [] ==> lengths[0] == 0.0
  {
    if lengths != [] {
      SumNonNegative(lengths[1..]);
    }
  }

  lemma Whole(c: real, total: real)
    requires total > 0.0
    ensures c * (total / total) == c
  {
  }

  lemma ScaledOneSign(xs: seq<real>, c: real, total: real)
    requires total > 0.0 && forall k :: 0 <= k < |xs| ==> xs[k] >= 0.0
    ensures OneSign(Scaled(xs, c, total))
  {
    forall k | 0 <= k < |xs|
      ensures if c >= 0.0 then Scaled(xs, c, total)[k] >= 0.0 else Scaled(xs, c, total)[k] <= 0.0
    {
      ProductSign(c, xs[k] / total);
    }
  }

  lemma ProductSign(c: real, x: real)
    requires x >= 0.0
    ensures if c >= 0.0 then c * x >= 0.0 else c * x <= 0.0
  {
  }

  lemma ProportionalSharesIff(shares: seq<real>, start: real, end: real, slices: seq<Slice>)
    requires IsSlicing(shares, start, end, slices) && Sum(shares) == end - start
    requires OneSign(shares)
    ensures Proportional(shares, slices) <==>
            forall k :: 0 <= k < |shares| - 1 ==> shares[k] >= 1.0 || Sum(shares[k + 1..]) == 0.0
  {
    if Proportional(shares, slices) {
      EarnedOrLast(shares, start, end, slices);
    }
    if forall k :: 0 <= k < |shares| - 1 ==> shares[k] >= 1.0 || Sum(shares[k + 1..]) == 0.0 {
      SlicesFollowShares(shares, start, end, slices);
    }
  }

  lemma EarnedOrLast(shares: seq<real>, start: real, end: real, slices: seq<Slice>)
    requires IsSlicing(shares, start, end, slices) && Sum(shares) == end - start
    requires Proportional(shares, slices)
    ensures forall k :: 0 <= k < |shares| - 1 ==> shares[k] >= 1.0 || Sum(shares[k + 1..]) == 0.0
  {
    forall k | 0 <= k < |shares| - 1 ensures shares[k] >= 1.0 || Sum(shares[k + 1..]) == 0.0 {
      CursorAt(shares, start, end, slices, k);
      assert shares[k..][1..] == shares[k + 1..];
    }
  }

  lemma SlicesFollowShares(shares: seq<real>, start: real, end: real, slices: seq<Slice>)
    requires IsSlicing(shares, start, end, slices) && Sum(shares) == end - start
    requires OneSign(shares)
    requires forall k :: 0 <= k < |shares| - 1 ==> shares[k] >= 1.0 || Sum(shares[k + 1..]) == 0.0
    ensures Proportional(shares, slices)
  {
    for k := 0 to |shares|
      invariant forall j :: 0 <= j < k ==> slices[j].end - slices[j].start == shares[j]
    {
      CursorAt(shares, start, end, slices, k);
      assert shares[k..][1..] == shares[k + 1..];
      if shares[k] >= 1.0 {
        SumNonNegative(shares[k + 1..]);
      }
    }
  }

  lemma {:induction false} SharesSum(xs: seq<real>, c: real, total: real)
    requires total != 0.0
    ensures Sum(Scaled(xs, c, total)) == c * (Sum(xs) / total)
  {
    if xs == [] {
      assert 0.0 / total == 0.0;
    } else {
      SharesSum(xs[1..], c, total);
      ScaledTail(xs, c, total);
      Distribute(c, xs[0], Sum(xs[1..]), total);
    }
  }

  lemma ScaledTail(xs: seq<real>, c: real, total: real)
    requires total != 0.0 && xs != []
    ensures Scaled(xs, c, total)[1..] == Scaled(xs[1..], c, total)
  {
    var tail := xs[1..];
    assert forall k :: 0 <= k < |tail| ==> tail[k] == xs[k + 1];
    forall k | 0 <= k < |tail| ensures Scaled(xs, c, total)[1..][k] == Scaled(tail, c, total)[k] {
      assert Scaled(xs, c, total)[1..][k] == c * (xs[k + 1] / total) == c * (tail[k] / total);
    }
  }

  lemma Distribute(c: real, x: real, y: real, total: real)
    requires total != 0.0
    ensures c * ((x + y) / total) == c * (x / total) + c * (y / total)
  {
  }

  lemma {:induction false} SumNonNegative(xs: seq<real>)
    requires forall k :: 0 <= k < |xs| ==> xs[k] >= 0.0
    ensures Sum(xs) >= 0.0
  {
    if xs != [] {
      SumNonNegative(xs[1..]);
    }
  }

  /** As long as the slices have been proportional, what is left of the window is what the
      remaining shares add up to. */
  lemma {:induction false} CursorAt(shares: seq<real>, start: real, end: real, slices: seq<Slice>, k: nat)
    requires IsSlicing(shares, start, end, slices) && k < |shares|
    requires Sum(shares) == end - start
    requires forall j :: 0 <= j < k ==> slices[j].end - slices[j].start == shares[j]
    ensures end - slices[k].start == Sum(shares[k..])
  {
    if k == 0 {
      assert shares[0..] == shares;
    } else {
      CursorAt(shares, start, end, slices, k - 1);
      assert shares[k - 1..][1..] == shares[k..];
      assert slices[k - 1].end == slices[k].start;
    }
  }
}
