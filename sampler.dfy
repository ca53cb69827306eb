/** Rejection sampling of candidate locations inside a country (sample_points).
    The uniform draws over the bounding box and the point-in-polygon test are
    not modelled: the draws are given as two coordinate sequences and the test
    as a predicate on points. */
module Sampler {

  /** A candidate location, longitude first, as sample_points returns it. */
  datatype Point = Point(long: real, lat: real)

  /** Pairs the i-th x draw with the i-th y draw (points_from_xy). */
  function PointsFromXY(xs: seq<real>, ys: seq<real>): (ps: seq<Point>)
    requires |xs| == |ys|
    ensures |ps| == |xs|
    ensures forall k :: 0 <= k < |xs| ==> ps[k] == Point(xs[k], ys[k])
  {
    seq(|xs|, k requires 0 <= k < |xs| => Point(xs[k], ys[k]))
  }

  /** Keeps the points that lie inside the region, in their original order. */
  function KeepWithin(ps: seq<Point>, within: Point -> bool): (r: seq<Point>)
    ensures |r| <= |ps|
    ensures forall k :: 0 <= k < |r| ==> within(r[k])
    ensures forall k :: 0 <= k < |ps| && within(ps[k]) ==> ps[k] in r
    ensures forall p :: p in r ==> p in ps
    decreases |ps|
  {
    if ps == [] then []
    else
      var rest := KeepWithin(ps[..|ps| - 1], within);
      var last := ps[|ps| - 1];
      assert forall k :: 0 <= k < |ps| - 1 ==> ps[k] == ps[..|ps| - 1][k];
      if within(last) then rest + [last] else rest
  }

  /** The points of one batch: the n draws that survive the containment test.
      The batch holds drawn points only, all inside the region, every inside
      draw among them, and exactly as many points as there are inside draws. */
  function SamplePoints(xs: seq<real>, ys: seq<real>, within: Point -> bool): (r: seq<Point>)
    requires |xs| == |ys|
    ensures |r| <= |xs|
    ensures forall k :: 0 <= k < |r| ==> within(r[k])
    ensures forall k :: 0 <= k < |xs| && within(Point(xs[k], ys[k])) ==> Point(xs[k], ys[k]) in r
    ensures forall p :: p in r ==> p in PointsFromXY(xs, ys)
    ensures |r| == |Inside(PointsFromXY(xs, ys), within)|
  {
    var ps := PointsFromXY(xs, ys);
    KeepWithinCount(ps, within);
    KeepWithin(ps, within)
  }

  /** Sampling the draws in two parts gives the two batches one after the
      other: the surviving points keep the order in which they were drawn. */
  lemma SamplePointsAppend(xs1: seq<real>, ys1: seq<real>, xs2: seq<real>, ys2: seq<real>,
                           within: Point -> bool)
    requires |xs1| == |ys1| && |xs2| == |ys2|
    ensures SamplePoints(xs1 + xs2, ys1 + ys2, within) ==
            SamplePoints(xs1, ys1, within) + SamplePoints(xs2, ys2, within)
  {
    var ps1, ps2 := PointsFromXY(xs1, ys1), PointsFromXY(xs2, ys2);
    assert PointsFromXY(xs1 + xs2, ys1 + ys2) == ps1 + ps2;
    KeepWithinAppend(ps1, ps2, within);
  }

  /** Filtering commutes with concatenation: the points keep their sampled order. */
  lemma {:induction false} KeepWithinAppend(a: seq<Point>, b: seq<Point>, within: Point -> bool)
    ensures KeepWithin(a + b, within) == KeepWithin(a, within) + KeepWithin(b, within)
    decreases |b|
  {
    if b == [] {
      assert a + b == a;
    } else {
      var b' := b[..|b| - 1];
      assert (a + b)[..|a + b| - 1] == a + b';
      assert (a + b)[|a + b| - 1] == b[|b| - 1];
      KeepWithinAppend(a, b', within);
    }
  }

  /** When every draw lies inside the region all n of them come back, so n
      points, not fewer, is the most a batch can hold. */
  lemma {:induction false} KeepWithinAllInside(ps: seq<Point>, within: Point -> bool)
    requires forall k :: 0 <= k < |ps| ==> within(ps[k])
    ensures KeepWithin(ps, within) == ps
    decreases |ps|
  {
    if ps != [] {
      var ps' := ps[..|ps| - 1];
      assert forall k :: 0 <= k < |ps'| ==> ps'[k] == ps[k];
      KeepWithinAllInside(ps', within);
      assert ps' + [ps[|ps| - 1]] == ps;
    }
  }

  /** The positions of the draws inside the region. */
  function Inside(ps: seq<Point>, within: Point -> bool): set<nat>
  {
    set k: nat | k < |ps| && within(ps[k])
  }

  /** One more draw adds its own position to the inside positions when it lies
      inside, and nothing otherwise. */
  lemma InsideSnoc(ps: seq<Point>, within: Point -> bool)
    requires ps != []
    ensures var n := |ps| - 1;
      Inside(ps, within) == Inside(ps[..n], within) + (if within(ps[n]) then {n} else {})
    ensures |ps| - 1 !in Inside(ps[..|ps| - 1], within)
  {
    var n := |ps| - 1;
    assert forall k :: 0 <= k < n ==> ps[..n][k] == ps[k];
  }

  /** A batch holds exactly as many points as there are draws inside the region. */
  lemma {:induction false} KeepWithinCount(ps: seq<Point>, within: Point -> bool)
    ensures |KeepWithin(ps, within)| == |Inside(ps, within)|
    decreases |ps|
  {
    if ps != [] {
      KeepWithinCount(ps[..|ps| - 1], within);
      InsideSnoc(ps, within);
    }
  }
}
