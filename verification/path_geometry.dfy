/**
  Grid geometry used by the A* search of `src/pathfinding.rs`: the
  column-major node index, the octile distance heuristic and the
  bounds-checked 8-neighbourhood.
 */
module PathGeometry {

  /** Cost of an orthogonal step. */
  const STRAIGHT_COST: nat := 10
  /** Cost of a diagonal step. */
  const DIAGONAL_COST: nat := 14

  datatype Point = Point(x: nat, y: nat)

  function AbsDiff(a: nat, b: nat): nat {
    if a > b then a - b else b - a
  }

  function Min(a: nat, b: nat): nat {
    if a < b then a else b
  }

  function Max(a: nat, b: nat): nat {
    if a < b then b else a
  }

  /** King-move distance: the number of 8-directional steps between two points. */
  function Chebyshev(a: Point, b: Point): nat {
    Max(AbsDiff(a.x, b.x), AbsDiff(a.y, b.y))
  }

  /** Taxicab distance. */
  function Manhattan(a: Point, b: Point): nat {
    AbsDiff(a.x, b.x) + AbsDiff(a.y, b.y)
  }

  /** `a` and `b` are distinct and one king move apart. */
  predicate Adjacent(a: Point, b: Point) {
    Chebyshev(a, b) == 1
  }

  // ---------------------------------------------------------------------------
  // Column-major index
  // ---------------------------------------------------------------------------

  /**
    Position of node `(x, y)` in a node list filled column by column
    (all `y` of column 0, then column 1, ...).
   */
  function CalculateIndex(x: nat, y: nat, gridHeight: nat): nat {
    y + x * gridHeight
  }

  /** An in-bounds coordinate pair lands inside the node list. */
  lemma IndexInBounds(x: nat, y: nat, width: nat, height: nat)
    requires x < width && y < height
    ensures CalculateIndex(x, y, height) < width * height
  {
    calc {
      CalculateIndex(x, y, height);
    <  height + x * height;
    == (x + 1) * height;
    <= { MulMonotone(x + 1, width, height); }
      width * height;
    }
  }

  lemma MulMonotone(a: nat, b: nat, c: nat)
    requires a <= b
    ensures a * c <= b * c
  {
    assert b * c == a * c + (b - a) * c;
  }

  /** Distinct in-bounds coordinate pairs have distinct indices. */
  lemma IndexInjective(x1: nat, y1: nat, x2: nat, y2: nat, height: nat)
    requires y1 < height && y2 < height
    requires CalculateIndex(x1, y1, height) == CalculateIndex(x2, y2, height)
    ensures x1 == x2 && y1 == y2
  {
    if x1 < x2 {
      MulMonotone(x1 + 1, x2, height);
      assert false;
    } else if x2 < x1 {
      MulMonotone(x2 + 1, x1, height);
      assert false;
    }
  }

  /** The index can be decoded back to its coordinates by division. */
  lemma IndexRoundTrip(x: nat, y: nat, height: nat)
    requires y < height
    ensures CalculateIndex(x, y, height) / height == x
    ensures CalculateIndex(x, y, height) % height == y
  {
    var i := CalculateIndex(x, y, height);
    var q, r := i / height, i % height;
    assert i == q * height + r;
    IndexInjective(x, y, q, r, height);
  }

  // ---------------------------------------------------------------------------
  // Octile distance
  // ---------------------------------------------------------------------------

  /**
    Octile distance: diagonal steps for the shared part of the two axis
    distances, straight steps for the rest. The result is the weighted sum
    of the king-move and taxicab distances, which is what makes it a metric.
   */
  function CalculateDistCost(aX: nat, aY: nat, bX: nat, bY: nat): (d: nat)
    ensures d == 6 * Chebyshev(Point(aX, aY), Point(bX, bY)) + 4 * Manhattan(Point(aX, aY), Point(bX, bY))
  {
    var xDist := AbsDiff(aX, bX);
    var yDist := AbsDiff(aY, bY);
    var remainder := AbsDiff(xDist, yDist);
    DIAGONAL_COST * Min(xDist, yDist) + STRAIGHT_COST * remainder
  }

  /** Octile distance between two points. */
  function Dist(a: Point, b: Point): nat {
    CalculateDistCost(a.x, a.y, b.x, b.y)
  }

  lemma DistSymmetric(a: Point, b: Point)
    ensures Dist(a, b) == Dist(b, a)
  {
  }

  lemma DistZeroIffEqual(a: Point, b: Point)
    ensures Dist(a, b) == 0 <==> a == b
  {
  }

  /** The worked example in the comment of `calculate_dist_cost`: (0,1) to (3,1) is three straight steps. */
  lemma DistExample()
    ensures CalculateDistCost(0, 1, 3, 1) == 30
  {
  }

  /** One king move costs a straight step or a diagonal step. */
  lemma DistAdjacent(a: Point, b: Point)
    requires Adjacent(a, b)
    ensures Dist(a, b) == (if a.x == b.x || a.y == b.y then STRAIGHT_COST else DIAGONAL_COST)
  {
  }

  lemma ChebyshevTriangle(a: Point, b: Point, c: Point)
    ensures Chebyshev(a, c) <= Chebyshev(a, b) + Chebyshev(b, c)
  {
  }

  lemma ManhattanTriangle(a: Point, b: Point, c: Point)
    ensures Manhattan(a, c) <= Manhattan(a, b) + Manhattan(b, c)
  {
  }

  /** The heuristic is a metric: going through `b` is never shorter. */
  lemma DistTriangle(a: Point, b: Point, c: Point)
    ensures Dist(a, c) <= Dist(a, b) + Dist(b, c)
  {
    ChebyshevTriangle(a, b, c);
    ManhattanTriangle(a, b, c);
  }

  /** Sum of the step costs between consecutive points of a walk. */
  function WalkCost(ps: seq<Point>): nat
    decreases |ps|
  {
    if |ps| < 2 then 0 else Dist(ps[0], ps[1]) + WalkCost(ps[1..])
  }

  /**
    No walk between two points costs less than the heuristic between them,
    so the heuristic is admissible and a walk that meets it is cheapest.
   */
  lemma {:induction false} WalkCostLowerBound(ps: seq<Point>)
    requires |ps| >= 1
    ensures WalkCost(ps) >= Dist(ps[0], ps[|ps| - 1])
    decreases |ps|
  {
    if |ps| >= 2 {
      WalkCostLowerBound(ps[1..]);
      DistTriangle(ps[0], ps[1], ps[|ps| - 1]);
    }
  }

  /** One unit from `a` toward `b`, or `a` itself when they are equal. */
  function StepCoord(a: nat, b: nat): nat {
    if a < b then a + 1 else if a > b then a - 1 else a
  }

  /** One king move from `p` toward `t`: each coordinate moves one unit closer unless already equal. */
  function StepToward(p: Point, t: Point): Point {
    Point(StepCoord(p.x, t.x), StepCoord(p.y, t.y))
  }

  lemma StepCoordSplits(a: nat, b: nat)
    ensures var e := if a == b then 0 else 1;
            && AbsDiff(b, StepCoord(a, b)) == AbsDiff(a, b) - e
            && AbsDiff(StepCoord(a, b), a) == e
            && AbsDiff(b, a) == AbsDiff(a, b)
            && Min(a, b) <= StepCoord(a, b) <= Max(a, b)
  {
  }

  /**
    A step toward `t` lies on a cheapest route to it: it is one king move,
    it stays within the box spanned by `p` and `t`, and the rest of the way
    costs exactly the step less.
   */
  lemma StepTowardIsOnRoute(p: Point, t: Point)
    requires p != t
    ensures var q := StepToward(p, t);
            && Adjacent(q, p)
            && Min(p.x, t.x) <= q.x <= Max(p.x, t.x) && Min(p.y, t.y) <= q.y <= Max(p.y, t.y)
            && Dist(t, q) + Dist(q, p) == Dist(t, p)
  {
    var q := StepToward(p, t);
    StepCoordSplits(p.x, t.x);
    StepCoordSplits(p.y, t.y);
    assert Chebyshev(t, q) + Chebyshev(q, p) == Chebyshev(t, p);
    assert Manhattan(t, q) + Manhattan(q, p) == Manhattan(t, p);
  }

  // ---------------------------------------------------------------------------
  // Neighbours
  // ---------------------------------------------------------------------------

  /**
    The 8-neighbours of `(x, y)` that stay inside a `width` by `height`
    grid, in the order `get_neighbour_indicies` pushes them: up, up-right, right,
    down-right, down, down-left, left, up-left. Each move is guarded so
    that no coordinate goes below zero or past the last column or row.
   */
  function NeighbourPoints(x: nat, y: nat, width: nat, height: nat): (ps: seq<Point>)
    requires width >= 1 && height >= 1
    ensures |ps| <= 8
    ensures forall k :: 0 <= k < |ps| ==> Adjacent(ps[k], Point(x, y))
  {
    var h := height - 1;
    var w := width - 1;
    (if y < h then [Point(x, y + 1)] else [])
    + (if y < h && x < w then [Point(x + 1, y + 1)] else [])
    + (if x < w then [Point(x + 1, y)] else [])
    + (if y > 0 then (if x < w then [Point(x + 1, y - 1)] else []) + [Point(x, y - 1)] else [])
    + (if y > 0 && x > 0 then [Point(x - 1, y - 1)] else [])
    + (if x > 0 then [Point(x - 1, y)] + (if y < h then [Point(x - 1, y + 1)] else []) else [])
  }

  /** No neighbour is listed twice. */
  lemma NeighboursDistinct(x: nat, y: nat, width: nat, height: nat)
    requires width >= 1 && height >= 1
    ensures var ps := NeighbourPoints(x, y, width, height);
            forall k, l :: 0 <= k < l < |ps| ==> ps[k] != ps[l]
  {
  }

  /** Every neighbour of an in-bounds point is in bounds. */
  lemma NeighboursInBounds(x: nat, y: nat, width: nat, height: nat)
    requires width >= 1 && height >= 1
    ensures var ps := NeighbourPoints(x, y, width, height);
            x < width && y < height ==> forall k :: 0 <= k < |ps| ==> ps[k].x < width && ps[k].y < height
  {
  }

  /** Every in-bounds point one king move away is listed. */
  lemma NeighboursComplete(x: nat, y: nat, width: nat, height: nat, p: Point)
    requires x < width && y < height
    requires p.x < width && p.y < height && Adjacent(p, Point(x, y))
    ensures p in NeighbourPoints(x, y, width, height)
  {
  }

  /** The node-list indices of the in-bounds 8-neighbours of `(x, y)`. */
  function GetNeighbourIndices(x: nat, y: nat, width: nat, height: nat): (ns: seq<nat>)
    requires width >= 1 && height >= 1
    ensures |ns| == |NeighbourPoints(x, y, width, height)| <= 8
    ensures forall k :: 0 <= k < |ns| ==>
              var p := NeighbourPoints(x, y, width, height)[k];
              ns[k] == CalculateIndex(p.x, p.y, height)
    ensures x < width && y < height ==> forall k :: 0 <= k < |ns| ==> ns[k] < width * height
    ensures x < width && y < height ==> CalculateIndex(x, y, height) !in ns
    ensures x < width && y < height ==> forall k, l :: 0 <= k < l < |ns| ==> ns[k] != ns[l]
  {
    var ps := NeighbourPoints(x, y, width, height);
    var ns := seq(|ps|, k requires 0 <= k < |ps| => CalculateIndex(ps[k].x, ps[k].y, height));
    NeighboursDistinct(x, y, width, height);
    NeighboursInBounds(x, y, width, height);
    IndicesOfInBoundsPoints(ps, ns, x, y, width, height);
    ns
  }

  /** Distinct in-bounds points other than `(x, y)` give distinct indices other than its own. */
  lemma IndicesOfInBoundsPoints(ps: seq<Point>, ns: seq<nat>, x: nat, y: nat, width: nat, height: nat)
    requires |ns| == |ps|
    requires forall k :: 0 <= k < |ps| ==> ns[k] == CalculateIndex(ps[k].x, ps[k].y, height)
    requires forall k :: 0 <= k < |ps| ==> ps[k] != Point(x, y)
    requires forall k, l :: 0 <= k < l < |ps| ==> ps[k] != ps[l]
    requires x < width && y < height ==>
               forall k :: 0 <= k < |ps| ==> ps[k].x < width && ps[k].y < height
    ensures x < width && y < height ==> forall k :: 0 <= k < |ns| ==> ns[k] < width * height
    ensures x < width && y < height ==> CalculateIndex(x, y, height) !in ns
    ensures x < width && y < height ==> forall k, l :: 0 <= k < l < |ns| ==> ns[k] != ns[l]
  {
    if x < width && y < height {
      forall k | 0 <= k < |ns|
        ensures ns[k] < width * height
        ensures ns[k] != CalculateIndex(x, y, height)
      {
        IndexInBounds(ps[k].x, ps[k].y, width, height);
        if ns[k] == CalculateIndex(x, y, height) {
          IndexInjective(ps[k].x, ps[k].y, x, y, height);
        }
      }
      forall k, l | 0 <= k < l < |ns|
        ensures ns[k] != ns[l]
      {
        if ns[k] == ns[l] {
          IndexInjective(ps[k].x, ps[k].y, ps[l].x, ps[l].y, height);
        }
      }
    }
  }

  /** A corner node has exactly three neighbours. */
  lemma CornerHasThreeNeighbours(width: nat, height: nat)
    requires width >= 2 && height >= 2
    ensures |GetNeighbourIndices(0, 0, width, height)| == 3
  {
  }

  /** An interior node has all eight neighbours. */
  lemma InteriorHasEightNeighbours(x: nat, y: nat, width: nat, height: nat)
    requires 0 < x < width - 1 && 0 < y < height - 1
    ensures |GetNeighbourIndices(x, y, width, height)| == 8
  {
  }
}
