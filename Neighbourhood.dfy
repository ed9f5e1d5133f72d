/** The static neighbour graph: fireflies whose positions lie closer than the
    radius are neighbours, and no firefly is its own neighbour. */
module Neighbourhood {
  import opened FireflyRules

  /** A firefly's position: one row of the hive's coordinate array. */
  datatype Point = Point(x: real, y: real)

  /** Square of the Euclidean distance between two positions. */
  function SqDist(p: Point, q: Point): (d: real)
    ensures d >= 0.0
  {
    (p.x - q.x) * (p.x - q.x) + (p.y - q.y) * (p.y - q.y)
  }

  /** The entry `distance_matrix[i, j] < radius` of the boolean matrix. A
      Euclidean distance is never negative, so nothing is closer than a radius
      that is zero or negative; for a positive radius, comparing the square
      root of `SqDist` with it is comparing `SqDist` with its square. */
  predicate Within(p: Point, q: Point, radius: real) {
    radius > 0.0 && SqDist(p, q) < radius * radius
  }

  lemma WithinSymmetric(p: Point, q: Point, radius: real)
    ensures Within(p, q, radius) <==> Within(q, p, radius)
  {
  }

  /** Entry `[i, j]` of the boolean matrix once its diagonal is cleared. */
  predicate Adjacent(pts: seq<Point>, radius: real, i: nat, j: nat)
    requires i < |pts| && j < |pts|
  {
    i != j && Within(pts[i], pts[j], radius)
  }

  /** The indices `j < k` set in row `i` of the cleared matrix, ascending:
      the prefix of `[j for j, val in enumerate(row) if val]` that has read
      the first `k` entries. */
  function Row(pts: seq<Point>, radius: real, i: nat, k: nat): (r: seq<nat>)
    requires i < |pts| && k <= |pts|
    ensures |r| <= k
  {
    if k == 0 then []
    else Row(pts, radius, i, k - 1) + (if Adjacent(pts, radius, i, k - 1) then [k - 1] else [])
  }

  /** The neighbour list `get_neighbours` assigns to firefly `i`. */
  function NeighbourList(pts: seq<Point>, radius: real, i: nat): seq<nat>
    requires i < |pts|
  {
    Row(pts, radius, i, |pts|)
  }

  /** Strictly ascending, hence free of repetitions. */
  predicate Ascending(s: seq<nat>) {
    forall a, b :: 0 <= a < b < |s| ==> s[a] < s[b]
  }

  /** Exactly the adjacent indices below `k` are listed, in ascending order. */
  lemma {:induction false} RowContents(pts: seq<Point>, radius: real, i: nat, k: nat)
    requires i < |pts| && k <= |pts|
    ensures forall j: nat :: j in Row(pts, radius, i, k) <==> j < k && Adjacent(pts, radius, i, j)
    ensures Ascending(Row(pts, radius, i, k))
    ensures InRange(Row(pts, radius, i, k), k)
  {
    if k > 0 {
      RowContents(pts, radius, i, k - 1);
    }
  }

  /** `j` is a neighbour of `i` exactly when the two are distinct and closer
      than the radius; the list is ascending and indexes the population. */
  lemma NeighbourListContents(pts: seq<Point>, radius: real, i: nat)
    requires i < |pts|
    ensures forall j: nat :: j in NeighbourList(pts, radius, i) <==> j < |pts| && j != i && Within(pts[i], pts[j], radius)
    ensures Ascending(NeighbourList(pts, radius, i))
    ensures InRange(NeighbourList(pts, radius, i), |pts|)
  {
    RowContents(pts, radius, i, |pts|);
  }

  /** No firefly is its own neighbour. */
  lemma NotOwnNeighbour(pts: seq<Point>, radius: real, i: nat)
    requires i < |pts|
    ensures i !in NeighbourList(pts, radius, i)
  {
    NeighbourListContents(pts, radius, i);
  }

  /** The neighbour relation is symmetric, because distance is. */
  lemma NeighbourSymmetric(pts: seq<Point>, radius: real, i: nat, j: nat)
    requires i < |pts| && j < |pts|
    ensures j in NeighbourList(pts, radius, i) <==> i in NeighbourList(pts, radius, j)
  {
    NeighbourListContents(pts, radius, i);
    NeighbourListContents(pts, radius, j);
    WithinSymmetric(pts[i], pts[j], radius);
  }

  /** With a radius that is zero or negative every neighbour list is empty. */
  lemma {:induction false} NoRadiusNoNeighbours(pts: seq<Point>, radius: real, i: nat, k: nat)
    requires i < |pts| && k <= |pts|
    requires radius <= 0.0
    ensures Row(pts, radius, i, k) == []
  {
    if k > 0 {
      NoRadiusNoNeighbours(pts, radius, i, k - 1);
    }
  }

  /** Every firefly's neighbour list, indexed like the population. */
  function NeighbourGraph(pts: seq<Point>, radius: real): (g: seq<seq<nat>>)
    ensures |g| == |pts|
    ensures forall i :: 0 <= i < |pts| ==> InRange(g[i], |pts|)
  {
    var g := seq(|pts|, i requires 0 <= i < |pts| => NeighbourList(pts, radius, i));
    assert forall i :: 0 <= i < |pts| ==> InRange(g[i], |pts|) by {
      forall i | 0 <= i < |pts| ensures InRange(g[i], |pts|) {
        NeighbourListContents(pts, radius, i);
      }
    }
    g
  }
}
