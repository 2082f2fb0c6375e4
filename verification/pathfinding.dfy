/**
  The A* search of `src/pathfinding.rs` over its fixed, all-walkable
  4 by 5 grid: nodes with `g`/`h`/`f` costs and a predecessor link, an
  open and a closed list of node indices, a search loop capped at 50
  iterations, and the reconstruction of the predecessor chain, which
  lists the path goal first.
 */
module Pathfinding {
  import opened Options
  import opened PathGeometry

  /** `usize::MAX` on a 64-bit target: the "unvisited" cost and the saturation value of `f`. */
  const MAX: nat := 0xFFFF_FFFF_FFFF_FFFF
  const GRID_WIDTH: nat := 4
  const GRID_HEIGHT: nat := 5
  /** The search gives up after this many iterations. */
  const MAX_ITERATIONS: nat := 50

  /**
    A search node: its coordinates, its position in the node list, the
    cost `g` from the start, the heuristic `h` to the goal, `f = g + h`,
    and the node it was reached from.
   */
  datatype PathNode = PathNode(
    x: nat,
    y: nat,
    index: nat,
    g: nat,
    h: nat,
    f: nat,
    isWalkable: bool,
    cameFromIndex: Option<nat>)

  function Location(n: PathNode): Point {
    Point(n.x, n.y)
  }

  /** Two versions of a node that differ at most in their costs and predecessor. */
  predicate SameSite(a: PathNode, b: PathNode) {
    a.x == b.x && a.y == b.y && a.index == b.index && a.h == b.h && a.isWalkable == b.isWalkable
  }

  /**
    Recomputes `f` from `g` and `h`. The guard compares `g` against
    `MAX - h` instead of adding, so the sum saturates at `MAX` and never
    wraps around.
   */
  /** `f` is the saturated sum of `g` and `h`, as `calculate_f_cost` leaves it. */
  predicate FCostFresh(n: PathNode) {
    n.f == if n.g + n.h <= MAX then n.g + n.h else MAX
  }

  function CalculateFCost(node: PathNode): (r: PathNode)
    ensures r.f <= MAX
    ensures node.g + node.h <= MAX ==> r.f == node.g + node.h
    ensures node.g + node.h > MAX ==> r.f == MAX
    ensures r.(f := node.f) == node
  {
    if node.g > MAX - node.h then node.(f := MAX) else node.(f := node.g + node.h)
  }

  // ---------------------------------------------------------------------------
  // Node list
  // ---------------------------------------------------------------------------

  /** A fresh node: unreached, walkable, with the heuristic towards the goal. */
  function NewNode(x: nat, y: nat, gridHeight: nat, endX: nat, endY: nat): PathNode {
    PathNode(x, y, CalculateIndex(x, y, gridHeight), MAX, CalculateDistCost(x, y, endX, endY), MAX, true, None)
  }

  predicate Fresh(n: PathNode, endX: nat, endY: nat) {
    n.g == MAX && n.f == MAX && n.isWalkable && n.cameFromIndex == None
    && n.h == CalculateDistCost(n.x, n.y, endX, endY)
  }

  /** The node stored at position `k` has coordinates whose column-major index is `k`. */
  predicate Placed(n: PathNode, k: nat, width: nat, height: nat) {
    n.index == k && n.x < width && n.y < height && CalculateIndex(n.x, n.y, height) == k
  }

  /** The nodes of column `x`, in the order the inner loop pushes them. */
  function Column(x: nat, height: nat, endX: nat, endY: nat): seq<PathNode> {
    seq(height, y requires 0 <= y < height => NewNode(x, y, height, endX, endY))
  }

  /**
    The node list of a `width` by `height` grid, pushed column by column;
    every node sits at its own column-major index.
   */
  function InitialNodes(width: nat, height: nat, endX: nat, endY: nat): (nodes: seq<PathNode>)
    ensures |nodes| == width * height
    ensures forall k :: 0 <= k < |nodes| ==> Placed(nodes[k], k, width, height) && Fresh(nodes[k], endX, endY)
  {
    if width == 0 then []
    else
      var previous := InitialNodes(width - 1, height, endX, endY);
      assert |previous| + height == width * height;
      previous + Column(width - 1, height, endX, endY)
  }

  /** A node list in which every node is placed at its index. */
  ghost predicate AllPlaced(nodes: seq<PathNode>, width: nat, height: nat) {
    && |nodes| == width * height
    && forall k :: 0 <= k < |nodes| ==> Placed(nodes[k], k, width, height)
  }

  /** In a placed node list, the node at the index of `(x, y)` is the node of `(x, y)`. */
  lemma PlacedLookup(nodes: seq<PathNode>, width: nat, height: nat, x: nat, y: nat)
    requires AllPlaced(nodes, width, height)
    ensures x < width && y < height ==>
              CalculateIndex(x, y, height) < |nodes|
              && Location(nodes[CalculateIndex(x, y, height)]) == Point(x, y)
  {
    if x < width && y < height {
      var k := CalculateIndex(x, y, height);
      IndexInBounds(x, y, width, height);
      IndexInjective(nodes[k].x, nodes[k].y, x, y, height);
    }
  }

  /** The node pushed for `(x, y)` ends up at the index of `(x, y)`. */
  lemma InitialNodeAt(width: nat, height: nat, endX: nat, endY: nat, x: nat, y: nat)
    requires x < width && y < height
    ensures var nodes := InitialNodes(width, height, endX, endY);
            CalculateIndex(x, y, height) < |nodes|
            && nodes[CalculateIndex(x, y, height)] == NewNode(x, y, height, endX, endY)
  {
    PlacedLookup(InitialNodes(width, height, endX, endY), width, height, x, y);
  }

  // ---------------------------------------------------------------------------
  // Lowest f
  // ---------------------------------------------------------------------------

  /** Every entry of `open` names a node of `nodes`. */
  predicate ValidIndices(open: seq<nat>, nodes: seq<PathNode>) {
    forall i :: 0 <= i < |open| ==> open[i] < |nodes|
  }

  /**
    Position in `open` of the first entry whose node has the smallest `f`:
    a later entry replaces the best so far only when strictly smaller.
   */
  function LowestFCostPosition(open: seq<nat>, nodes: seq<PathNode>): (k: nat)
    requires |open| > 0 && ValidIndices(open, nodes)
    ensures k < |open|
    ensures forall i :: 0 <= i < |open| ==> nodes[open[k]].f <= nodes[open[i]].f
    ensures forall i :: 0 <= i < k ==> nodes[open[i]].f > nodes[open[k]].f
    decreases |open|
  {
    if |open| == 1 then 0
    else
      var k := LowestFCostPosition(open[..|open| - 1], nodes);
      if nodes[open[|open| - 1]].f < nodes[open[k]].f then |open| - 1 else k
  }

  /** The open node with the smallest `f`, ties going to the earliest; `None` for an empty list. */
  function GetLowestFCostIndex(open: seq<nat>, nodes: seq<PathNode>): (r: Option<nat>)
    requires ValidIndices(open, nodes)
    ensures r.None? <==> |open| == 0
    ensures r.Some? ==> r.value in open
    ensures r.Some? ==> forall i :: 0 <= i < |open| ==> nodes[r.value].f <= nodes[open[i]].f
    ensures r.Some? ==> exists k :: 0 <= k < |open| && open[k] == r.value
                                    && forall i :: 0 <= i < k ==> nodes[open[i]].f > nodes[r.value].f
  {
    if |open| == 0 then None else Some(open[LowestFCostPosition(open, nodes)])
  }

  // ---------------------------------------------------------------------------
  // Open list
  // ---------------------------------------------------------------------------

  predicate NoDuplicates(s: seq<nat>) {
    forall i, j :: 0 <= i < j < |s| ==> s[i] != s[j]
  }

  /** Removes the first occurrence of `v`, keeping the order of the rest. */
  function RemoveFirst(s: seq<nat>, v: nat): (r: seq<nat>)
    ensures |r| == if v in s then |s| - 1 else |s|
  {
    if |s| == 0 then []
    else if s[0] == v then s[1..]
    else [s[0]] + RemoveFirst(s[1..], v)
  }

  /** The position of the first `v` in `s`. */
  function FirstPosition(s: seq<nat>, v: nat): (i: nat)
    requires v in s
    ensures i < |s| && s[i] == v && v !in s[..i]
  {
    if s[0] == v then 0
    else
      var i := FirstPosition(s[1..], v);
      assert s[..i + 1] == [s[0]] + s[1..][..i];
      i + 1
  }

  /**
    Which copy goes: a list without `v` comes back unchanged, and otherwise
    its first `v` is cut out and the entries on either side keep their order.
   */
  lemma {:induction false} RemoveFirstKeepsOrder(s: seq<nat>, v: nat)
    ensures v !in s ==> RemoveFirst(s, v) == s
    ensures v in s ==> var i := FirstPosition(s, v);
                       RemoveFirst(s, v) == s[..i] + s[i + 1..]
    decreases |s|
  {
    if |s| > 0 && s[0] != v {
      RemoveFirstKeepsOrder(s[1..], v);
      assert v in s <==> v in s[1..];
      if v in s {
        var i := FirstPosition(s[1..], v);
        assert s[..i + 1] == [s[0]] + s[1..][..i];
        assert s[i + 2..] == s[1..][i + 1..];
      }
    }
  }

  /**
    Removing `v` keeps every other value's membership, and on a list without
    duplicates it leaves no copy of `v` and no duplicates behind.
   */
  lemma {:induction false} RemoveFirstMembers(s: seq<nat>, v: nat)
    ensures forall x :: x != v ==> (x in RemoveFirst(s, v) <==> x in s)
    ensures NoDuplicates(s) ==> NoDuplicates(RemoveFirst(s, v)) && v !in RemoveFirst(s, v)
    decreases |s|
  {
    if |s| > 0 && s[0] != v {
      var rest := RemoveFirst(s[1..], v);
      RemoveFirstMembers(s[1..], v);
      assert forall x :: x in s <==> x == s[0] || x in s[1..];
      assert NoDuplicates(s) ==> NoDuplicates(s[1..]) && s[0] !in s[1..];
      ConsNoDuplicates(s[0], rest);
    }
  }

  lemma ConsNoDuplicates(a: nat, s: seq<nat>)
    ensures a !in s && NoDuplicates(s) ==> NoDuplicates([a] + s)
  {
  }

  // ---------------------------------------------------------------------------
  // One iteration of the search
  // ---------------------------------------------------------------------------

  datatype SearchState = SearchState(nodes: seq<PathNode>, open: seq<nat>, closed: seq<nat>)

  /** Cost of reaching `neighbour` by one step from `current`. */
  function Tentative(current: PathNode, neighbour: PathNode): nat {
    current.g + Dist(Location(current), Location(neighbour))
  }

  /** Node `n` exists, is neither closed nor blocked, and is cheaper to reach through `current`. */
  predicate Improves(s: SearchState, current: PathNode, n: nat) {
    n < |s.nodes| && n !in s.closed && s.nodes[n].isWalkable && Tentative(current, s.nodes[n]) < s.nodes[n].g
  }

  /**
    Each node of `after` is either the node of `before` or that node with a
    strictly smaller `g` and `via` as its new predecessor.
   */
  ghost predicate ImprovedVia(before: seq<PathNode>, after: seq<PathNode>, via: nat) {
    && |after| == |before|
    && forall k {:trigger after[k], before[k]} :: 0 <= k < |before| ==>
         after[k] == before[k]
         || (after[k].g < before[k].g && after[k].cameFromIndex == Some(via) && SameSite(after[k], before[k]))
  }

  /** Each node of `after` is the node of `before` or a strict improvement of it. */
  ghost predicate ImprovedOnly(before: seq<PathNode>, after: seq<PathNode>) {
    && |after| == |before|
    && forall k {:trigger after[k], before[k]} :: 0 <= k < |before| ==>
         after[k] == before[k] || (after[k].g < before[k].g && SameSite(after[k], before[k]))
  }

  /**
    Handles one neighbour `n` of the node being expanded: a node that is
    closed, missing or blocked is skipped; otherwise, when the step through
    `current` is strictly cheaper, the node takes the new `g`, recomputes
    `f`, records `currentIndex` as its predecessor and joins the open list
    unless already there.
   */
  function Relax(s: SearchState, current: PathNode, currentIndex: nat, n: nat): (r: SearchState)
    ensures r.closed == s.closed
    ensures !Improves(s, current, n) ==> r == s
    ensures Improves(s, current, n) ==>
              && |r.nodes| == |s.nodes|
              && (forall k :: 0 <= k < |s.nodes| && k != n ==> r.nodes[k] == s.nodes[k])
              && r.nodes[n].g == Tentative(current, s.nodes[n])
              && r.nodes[n].cameFromIndex == Some(currentIndex)
              && SameSite(r.nodes[n], s.nodes[n])
              && r.nodes[n].f <= MAX
              && FCostFresh(r.nodes[n])
    ensures ImprovedVia(s.nodes, r.nodes, currentIndex)
    ensures |s.open| <= |r.open| && r.open[..|s.open|] == s.open
    ensures forall i :: i in r.open <==> i in s.open || (Improves(s, current, n) && i == s.nodes[n].index)
    ensures NoDuplicates(s.open) ==> NoDuplicates(r.open)
  {
    if n in s.closed then s
    else if n >= |s.nodes| then s
    else
      var neighbour := s.nodes[n];
      if !neighbour.isWalkable then s
      else
        var tentative := Tentative(current, neighbour);
        if tentative < neighbour.g then
          var updated := CalculateFCost(neighbour.(cameFromIndex := Some(currentIndex), g := tentative));
          var open := if updated.index in s.open then s.open else s.open + [updated.index];
          SearchState(s.nodes[n := updated], open, s.closed)
        else s
  }

  /**
    Relaxes the neighbours `ns` one after another, in list order. Afterwards
    every listed neighbour that is open to relaxation costs at most the step
    through `current`; closed nodes are untouched, and every node that
    changed is on the open list.
   */
  function RelaxAll(s: SearchState, current: PathNode, currentIndex: nat, ns: seq<nat>): (r: SearchState)
    ensures r.closed == s.closed
    ensures ImprovedVia(s.nodes, r.nodes, currentIndex)
    ensures |s.open| <= |r.open| && r.open[..|s.open|] == s.open
    ensures NoDuplicates(s.open) ==> NoDuplicates(r.open)
    ensures forall m | 0 <= m < |ns| && ns[m] < |s.nodes| && ns[m] !in s.closed && s.nodes[ns[m]].isWalkable ::
              r.nodes[ns[m]].g <= Tentative(current, s.nodes[ns[m]])
    ensures forall k | 0 <= k < |s.nodes| && k in s.closed :: r.nodes[k] == s.nodes[k]
    ensures forall k | 0 <= k < |s.nodes| && r.nodes[k] != s.nodes[k] :: s.nodes[k].index in r.open
    ensures (forall k | 0 <= k < |s.nodes| :: FCostFresh(s.nodes[k]))
            ==> forall k | 0 <= k < |r.nodes| :: FCostFresh(r.nodes[k])
    ensures (forall k | 0 <= k < |s.nodes| :: s.nodes[k].index == k)
            ==> forall i | i in r.open && i !in s.open :: i !in s.closed
    decreases |ns|
  {
    if |ns| == 0 then s
    else
      var t := Relax(s, current, currentIndex, ns[0]);
      var r := RelaxAll(t, current, currentIndex, ns[1..]);
      RelaxAllStep(s, t, r, current, currentIndex, ns);
      r
  }

  /** The step case of `RelaxAll`'s contract: relaxing `ns[0]`, then the rest. */
  lemma RelaxAllStep(s: SearchState, t: SearchState, r: SearchState, current: PathNode, currentIndex: nat, ns: seq<nat>)
    requires |ns| > 0 && t == Relax(s, current, currentIndex, ns[0])
    requires r.closed == t.closed
    requires ImprovedVia(t.nodes, r.nodes, currentIndex)
    requires |t.open| <= |r.open| && r.open[..|t.open|] == t.open
    requires NoDuplicates(t.open) ==> NoDuplicates(r.open)
    requires (forall k | 0 <= k < |t.nodes| :: FCostFresh(t.nodes[k]))
             ==> forall k | 0 <= k < |r.nodes| :: FCostFresh(r.nodes[k])
    requires forall m | 0 <= m < |ns[1..]| && ns[1..][m] < |t.nodes| && ns[1..][m] !in t.closed && t.nodes[ns[1..][m]].isWalkable ::
               r.nodes[ns[1..][m]].g <= Tentative(current, t.nodes[ns[1..][m]])
    requires forall k | 0 <= k < |t.nodes| && k in t.closed :: r.nodes[k] == t.nodes[k]
    requires forall k | 0 <= k < |t.nodes| && r.nodes[k] != t.nodes[k] :: t.nodes[k].index in r.open
    requires (forall k | 0 <= k < |t.nodes| :: t.nodes[k].index == k)
             ==> forall i | i in r.open && i !in t.open :: i !in t.closed
    ensures r.closed == s.closed
    ensures ImprovedVia(s.nodes, r.nodes, currentIndex)
    ensures |s.open| <= |r.open| && r.open[..|s.open|] == s.open
    ensures NoDuplicates(s.open) ==> NoDuplicates(r.open)
    ensures forall m | 0 <= m < |ns| && ns[m] < |s.nodes| && ns[m] !in s.closed && s.nodes[ns[m]].isWalkable ::
              r.nodes[ns[m]].g <= Tentative(current, s.nodes[ns[m]])
    ensures forall k | 0 <= k < |s.nodes| && k in s.closed :: r.nodes[k] == s.nodes[k]
    ensures forall k | 0 <= k < |s.nodes| && r.nodes[k] != s.nodes[k] :: s.nodes[k].index in r.open
    ensures (forall k | 0 <= k < |s.nodes| :: FCostFresh(s.nodes[k]))
            ==> forall k | 0 <= k < |r.nodes| :: FCostFresh(r.nodes[k])
    ensures (forall k | 0 <= k < |s.nodes| :: s.nodes[k].index == k)
            ==> forall i | i in r.open && i !in s.open :: i !in s.closed
  {
    hide Dist, CalculateDistCost, Relax, RelaxAll;
    assert forall k | 0 <= k < |s.nodes| :: SameSite(t.nodes[k], s.nodes[k]) && t.nodes[k].g <= s.nodes[k].g;
    assert forall k | 0 <= k < |t.nodes| :: r.nodes[k].g <= t.nodes[k].g;
    forall m | 0 <= m < |ns| && ns[m] < |s.nodes| && ns[m] !in s.closed && s.nodes[ns[m]].isWalkable
      ensures r.nodes[ns[m]].g <= Tentative(current, s.nodes[ns[m]])
    {
      if m > 0 {
        assert ns[1..][m - 1] == ns[m];
      }
    }
    forall i | i in t.open
      ensures i in r.open
    {
      var j :| 0 <= j < |t.open| && t.open[j] == i;
      assert r.open[j] == i;
    }
  }

  /**
    One iteration past the goal test: moves `currentIndex` from the open
    list to the closed list and relaxes its in-bounds neighbours.
   */
  function Expand(s: SearchState, currentIndex: nat): (r: SearchState)
    requires currentIndex < |s.nodes|
    ensures r.closed == s.closed + [s.nodes[currentIndex].index]
    ensures ImprovedVia(s.nodes, r.nodes, currentIndex)
    ensures var rest := RemoveFirst(s.open, currentIndex);
            |rest| <= |r.open| && r.open[..|rest|] == rest
    ensures (forall k | 0 <= k < |s.nodes| :: s.nodes[k].index == k) && NoDuplicates(s.open)
            ==> currentIndex !in r.open
    ensures var ns := GetNeighbourIndices(s.nodes[currentIndex].x, s.nodes[currentIndex].y, GRID_WIDTH, GRID_HEIGHT);
            forall m | 0 <= m < |ns| && ns[m] < |s.nodes| && ns[m] !in r.closed && s.nodes[ns[m]].isWalkable ::
              r.nodes[ns[m]].g <= Tentative(s.nodes[currentIndex], s.nodes[ns[m]])
  {
    var current := s.nodes[currentIndex];
    var open := RemoveFirst(s.open, currentIndex);
    var closed := s.closed + [current.index];
    var neighbours := GetNeighbourIndices(current.x, current.y, GRID_WIDTH, GRID_HEIGHT);
    RemoveFirstMembers(s.open, currentIndex);
    RelaxAll(SearchState(s.nodes, open, closed), current, currentIndex, neighbours)
  }

  // ---------------------------------------------------------------------------
  // Search invariant
  // ---------------------------------------------------------------------------

  /**
    The predecessor link of node `k` is sound: a node without predecessor is
    the start or unreached; a predecessor is a different, closed, adjacent
    node, and `g` is the predecessor's `g` plus the cost of the step.
   */
  ghost predicate LinkOk(s: SearchState, k: nat, start: nat)
    requires k < |s.nodes|
  {
    match s.nodes[k].cameFromIndex
    case None => k == start || s.nodes[k].g == MAX
    case Some(c) =>
      && c < |s.nodes|
      && c in s.closed
      && c != k
      && Adjacent(Location(s.nodes[c]), Location(s.nodes[k]))
      && s.nodes[k].g == s.nodes[c].g + Dist(Location(s.nodes[c]), Location(s.nodes[k]))
  }

  /**
    What holds at the top of every iteration of the search loop, where
    `bound` caps every finite `g` (14 per iteration so far):
    - every node sits at its own index and is walkable;
    - the open list holds reached nodes only, has no duplicates and is
      disjoint from the closed list;
    - the start keeps `g == 0`, and every predecessor link is sound.
   */
  ghost predicate SearchInv(s: SearchState, start: nat, bound: nat) {
    && AllPlaced(s.nodes, GRID_WIDTH, GRID_HEIGHT)
    && (forall k :: 0 <= k < |s.nodes| ==> s.nodes[k].isWalkable)
    && (forall i :: 0 <= i < |s.open| ==>
          s.open[i] < |s.nodes| && s.nodes[s.open[i]].g < MAX && s.open[i] !in s.closed)
    && NoDuplicates(s.open)
    && (forall i :: 0 <= i < |s.closed| ==> s.closed[i] < |s.nodes|)
    && start < |s.nodes|
    && s.nodes[start].g == 0
    && (forall k :: 0 <= k < |s.nodes| ==> s.nodes[k].g == MAX || s.nodes[k].g <= bound)
    && (forall k :: 0 <= k < |s.nodes| ==> LinkOk(s, k, start))
  }

  /** The bound never overflows: after 50 iterations finite costs stay far below `MAX`. */
  lemma BoundBelowMax(count: nat)
    requires count <= MAX_ITERATIONS
    ensures DIAGONAL_COST * count + DIAGONAL_COST < MAX
  {
  }

  lemma RelaxKeepsInvariant(s: SearchState, current: PathNode, currentIndex: nat, n: nat, start: nat, bound: nat)
    requires SearchInv(s, start, bound)
    requires currentIndex < |s.nodes| && s.nodes[currentIndex] == current && currentIndex in s.closed
    requires current.g + DIAGONAL_COST <= bound < MAX
    requires n < |s.nodes| && Adjacent(Location(s.nodes[n]), Location(current))
    ensures SearchInv(Relax(s, current, currentIndex, n), start, bound)
  {
    hide Dist, CalculateDistCost;
    if Improves(s, current, n) {
      DistAdjacent(Location(s.nodes[n]), Location(current));
      DistSymmetric(Location(s.nodes[n]), Location(current));
      RelaxKeepsLinks(s, current, currentIndex, n, start, bound);
    }
  }

  /** An improving step keeps every predecessor link sound. */
  lemma RelaxKeepsLinks(s: SearchState, current: PathNode, currentIndex: nat, n: nat, start: nat, bound: nat)
    requires SearchInv(s, start, bound)
    requires currentIndex < |s.nodes| && s.nodes[currentIndex] == current && currentIndex in s.closed
    requires Improves(s, current, n)
    requires Adjacent(Location(current), Location(s.nodes[n]))
    ensures var r := Relax(s, current, currentIndex, n);
            forall k :: 0 <= k < |r.nodes| ==> LinkOk(r, k, start)
  {
    var r := Relax(s, current, currentIndex, n);
    forall k | 0 <= k < |r.nodes|
      ensures LinkOk(r, k, start)
    {
      assert LinkOk(s, k, start);
      if k != n {
        match r.nodes[k].cameFromIndex
        case None =>
        case Some(c) =>
          assert c in s.closed;
          assert c != n;
      }
    }
  }

  lemma {:induction false} RelaxAllKeepsInvariant(s: SearchState, current: PathNode, currentIndex: nat, ns: seq<nat>, start: nat, bound: nat)
    requires SearchInv(s, start, bound)
    requires currentIndex < |s.nodes| && s.nodes[currentIndex] == current && currentIndex in s.closed
    requires current.g + DIAGONAL_COST <= bound < MAX
    requires forall m :: 0 <= m < |ns| ==> ns[m] < |s.nodes| && Adjacent(Location(s.nodes[ns[m]]), Location(current))
    ensures SearchInv(RelaxAll(s, current, currentIndex, ns), start, bound)
    decreases |ns|
  {
    if |ns| > 0 {
      var t := Relax(s, current, currentIndex, ns[0]);
      RelaxKeepsInvariant(s, current, currentIndex, ns[0], start, bound);
      assert forall m :: 0 <= m < |ns| ==> Location(t.nodes[ns[m]]) == Location(s.nodes[ns[m]]);
      RelaxAllKeepsInvariant(t, current, currentIndex, ns[1..], start, bound);
    }
  }

  /** Expanding an open node keeps the invariant, with the cost bound grown by one diagonal step. */
  lemma ExpandKeepsInvariant(s: SearchState, currentIndex: nat, start: nat, count: nat)
    requires count < MAX_ITERATIONS
    requires SearchInv(s, start, DIAGONAL_COST * count)
    requires currentIndex in s.open
    ensures SearchInv(Expand(s, currentIndex), start, DIAGONAL_COST * (count + 1))
  {
    var bound := DIAGONAL_COST * (count + 1);
    BoundBelowMax(count);
    var current := s.nodes[currentIndex];
    var t := SearchState(s.nodes, RemoveFirst(s.open, currentIndex), s.closed + [current.index]);
    RemoveFirstMembers(s.open, currentIndex);
    assert current.index == currentIndex;
    assert SearchInv(t, start, bound) by {
      forall i | 0 <= i < |t.open|
        ensures t.open[i] in s.open && t.open[i] != currentIndex
      {
        assert t.open[i] in t.open;
      }
      forall k | 0 <= k < |t.nodes|
        ensures LinkOk(t, k, start)
      {
        assert LinkOk(s, k, start);
      }
    }
    var ns := GetNeighbourIndices(current.x, current.y, GRID_WIDTH, GRID_HEIGHT);
    var ps := NeighbourPoints(current.x, current.y, GRID_WIDTH, GRID_HEIGHT);
    NeighboursInBounds(current.x, current.y, GRID_WIDTH, GRID_HEIGHT);
    forall m | 0 <= m < |ns|
      ensures ns[m] < |t.nodes| && Adjacent(Location(t.nodes[ns[m]]), Location(current))
    {
      PlacedLookup(t.nodes, GRID_WIDTH, GRID_HEIGHT, ps[m].x, ps[m].y);
    }
    RelaxAllKeepsInvariant(t, current, currentIndex, ns, start, bound);
  }

  // ---------------------------------------------------------------------------
  // Search loop
  // ---------------------------------------------------------------------------

  /** Final search state and the number of loop iterations that were started. */
  datatype Outcome = Outcome(state: SearchState, iterations: nat)

  /**
    The search loop from iteration `count` on. An iteration starts while the
    open list is non-empty and fewer than 50 have started; it picks the
    lowest-`f` open node, stops there if that node is the goal, and
    otherwise expands it.
   */
  function SearchLoop(s: SearchState, start: nat, endIndex: nat, count: nat): (out: Outcome)
    requires count <= MAX_ITERATIONS
    requires SearchInv(s, start, DIAGONAL_COST * count)
    ensures count <= out.iterations <= MAX_ITERATIONS
    ensures |s.open| == 0 || count == MAX_ITERATIONS ==> out == Outcome(s, count)
    ensures |s.open| > 0 && count < MAX_ITERATIONS && GetLowestFCostIndex(s.open, s.nodes) == Some(endIndex)
            ==> out == Outcome(s, count + 1)
    decreases MAX_ITERATIONS - count
  {
    if |s.open| > 0 && count < MAX_ITERATIONS then
      var currentIndex := GetLowestFCostIndex(s.open, s.nodes).value;
      if currentIndex == endIndex then Outcome(s, count + 1)
      else
        ExpandKeepsInvariant(s, currentIndex, start, count);
        SearchLoop(Expand(s, currentIndex), start, endIndex, count + 1)
    else Outcome(s, count)
  }

  /**
    What the loop leaves behind: the invariant still holds with the bound of
    the iterations started, every node is unchanged or strictly improved, and
    the loop stopped on an empty open list, on the iteration cap, or with the
    goal as the lowest-`f` open node.
   */
  lemma {:induction false} SearchLoopInvariant(s: SearchState, start: nat, endIndex: nat, count: nat)
    requires count <= MAX_ITERATIONS
    requires SearchInv(s, start, DIAGONAL_COST * count)
    ensures var out := SearchLoop(s, start, endIndex, count);
            && SearchInv(out.state, start, DIAGONAL_COST * out.iterations)
            && ImprovedOnly(s.nodes, out.state.nodes)
            && (|out.state.open| == 0
                || out.iterations == MAX_ITERATIONS
                || GetLowestFCostIndex(out.state.open, out.state.nodes) == Some(endIndex))
    decreases MAX_ITERATIONS - count
  {
    hide Expand, SearchLoop;
    if |s.open| > 0 && count < MAX_ITERATIONS {
      var currentIndex := GetLowestFCostIndex(s.open, s.nodes).value;
      if currentIndex == endIndex {
        InvariantWeakens(s, start, DIAGONAL_COST * count, DIAGONAL_COST * (count + 1));
      } else {
        var next := Expand(s, currentIndex);
        SearchLoopStep(s, start, endIndex, count, currentIndex, next);
        SearchLoopInvariant(next, start, endIndex, count + 1);
        var out := SearchLoop(next, start, endIndex, count + 1);
        ImprovementsCompose(s.nodes, next.nodes, out.state.nodes, currentIndex);
        assert SearchLoop(s, start, endIndex, count) == out;
      }
    }
  }

  lemma InvariantWeakens(s: SearchState, start: nat, bound: nat, bound': nat)
    requires SearchInv(s, start, bound) && bound <= bound'
    ensures SearchInv(s, start, bound')
  {
  }

  lemma ImprovementsCompose(a: seq<PathNode>, b: seq<PathNode>, c: seq<PathNode>, via: nat)
    requires ImprovedVia(a, b, via) && ImprovedOnly(b, c)
    ensures ImprovedOnly(a, c)
  {
    forall k | 0 <= k < |a|
      ensures c[k] == a[k] || (c[k].g < a[k].g && SameSite(c[k], a[k]))
    {
      assert b[k] == a[k] || (b[k].g < a[k].g && SameSite(b[k], a[k]));
      assert c[k] == b[k] || (c[k].g < b[k].g && SameSite(c[k], b[k]));
    }
  }

  /**
    One iteration that does not meet the goal: the loop goes on from the
    expanded state with the counter advanced, and the invariant carries over.
   */
  lemma SearchLoopStep(s: SearchState, start: nat, endIndex: nat, count: nat, currentIndex: nat, next: SearchState)
    requires count < MAX_ITERATIONS && SearchInv(s, start, DIAGONAL_COST * count)
    requires GetLowestFCostIndex(s.open, s.nodes) == Some(currentIndex) && currentIndex != endIndex
    requires Expand(s, currentIndex) == next
    ensures SearchInv(next, start, DIAGONAL_COST * (count + 1))
    ensures SearchLoop(s, start, endIndex, count) == SearchLoop(next, start, endIndex, count + 1)
  {
    ExpandKeepsInvariant(s, currentIndex, start, count);
  }

  /**
    `next` is what one iteration that picks `currentIndex` and does not meet
    the goal makes of `s`.
   */
  predicate IterationStep(s: SearchState, currentIndex: nat, endIndex: nat, next: SearchState) {
    && ValidIndices(s.open, s.nodes)
    && GetLowestFCostIndex(s.open, s.nodes) == Some(currentIndex)
    && currentIndex != endIndex
    && currentIndex < |s.nodes|
    && Expand(s, currentIndex) == next
  }

  /** From position `from` on, `states` is a run of iterations expanding `currents` in turn. */
  predicate IterationRun(states: seq<SearchState>, currents: seq<nat>, endIndex: nat, from: nat)
    requires |states| == |currents| + 1 && from <= |currents|
    decreases |currents| - from
  {
    from == |currents|
    || (IterationStep(states[from], currents[from], endIndex, states[from + 1])
        && IterationRun(states, currents, endIndex, from + 1))
  }

  /**
    A run of iterations that ends with the goal as the lowest-`f` open node
    is exactly what the search loop does: it stops one iteration later, in
    the run's last state.
   */
  lemma {:induction false} SearchLoopRun(states: seq<SearchState>, currents: seq<nat>, start: nat, endIndex: nat,
                                         from: nat, count: nat)
    requires |states| == |currents| + 1 && from <= |currents|
    requires count + |currents| - from < MAX_ITERATIONS
    requires SearchInv(states[from], start, DIAGONAL_COST * count)
    requires IterationRun(states, currents, endIndex, from)
    requires ValidIndices(states[|currents|].open, states[|currents|].nodes)
    requires GetLowestFCostIndex(states[|currents|].open, states[|currents|].nodes) == Some(endIndex)
    ensures SearchLoop(states[from], start, endIndex, count)
            == Outcome(states[|currents|], count + |currents| - from + 1)
    decreases |currents| - from
  {
    hide Expand, SearchLoop, RemoveFirst, GetNeighbourIndices, Tentative, NoDuplicates, ImprovedVia,
         RelaxAll, Relax, Dist, CalculateDistCost, SearchInv, GetLowestFCostIndex, LowestFCostPosition;
    if from < |currents| {
      SearchLoopStep(states[from], start, endIndex, count, currents[from], states[from + 1]);
      SearchLoopRun(states, currents, start, endIndex, from + 1, count + 1);
    }
  }

  // ---------------------------------------------------------------------------
  // Optimality on the open grid
  // ---------------------------------------------------------------------------

  /** Any two points of the 4 by 5 grid are at most 100 apart, so costs on it never saturate. */
  lemma GridDistBound(a: Point, b: Point)
    requires a.x < GRID_WIDTH && a.y < GRID_HEIGHT && b.x < GRID_WIDTH && b.y < GRID_HEIGHT
    ensures Dist(a, b) <= 100
  {
  }

  /**
    Closed node `c` is settled: its `g` is the heuristic distance from
    `origin`, the cheapest cost on the open grid, and no node one king move
    away costs more than the step through it.
   */
  ghost predicate Settled(s: SearchState, origin: Point, c: nat) {
    && c < |s.nodes|
    && s.nodes[c].g == Dist(origin, Location(s.nodes[c]))
    && forall k :: 0 <= k < |s.nodes| && Adjacent(Location(s.nodes[c]), Location(s.nodes[k])) ==>
         s.nodes[k].g <= s.nodes[c].g + Dist(Location(s.nodes[c]), Location(s.nodes[k]))
  }

  /**
    What the A* argument needs on top of `SearchInv`, for a search from node
    `start` at `origin` towards node `endIndex` at `goal`:
    - every `h` is the heuristic to the goal and every `f` the saturated `g + h`;
    - every reached node is on the open or on the closed list;
    - every closed node is settled, no node is closed twice, and the goal
      is never closed.
   */
  ghost predicate AStarInv(s: SearchState, start: nat, origin: Point, endIndex: nat, goal: Point) {
    && start < |s.nodes| && Location(s.nodes[start]) == origin
    && endIndex < |s.nodes| && Location(s.nodes[endIndex]) == goal
    && (forall k :: 0 <= k < |s.nodes| ==> s.nodes[k].h == Dist(Location(s.nodes[k]), goal) && FCostFresh(s.nodes[k]))
    && (forall k :: 0 <= k < |s.nodes| && s.nodes[k].g < MAX ==> k in s.open || k in s.closed)
    && (forall c :: c in s.closed ==> Settled(s, origin, c))
    && NoDuplicates(s.closed)
    && endIndex !in s.closed
  }

  /** No reached node is cheaper than the heuristic from the origin: links run through settled nodes. */
  lemma LowerBound(s: SearchState, start: nat, origin: Point, endIndex: nat, goal: Point, bound: nat, k: nat)
    requires SearchInv(s, start, bound) && AStarInv(s, start, origin, endIndex, goal)
    requires k < |s.nodes| && s.nodes[k].g < MAX
    ensures Dist(origin, Location(s.nodes[k])) <= s.nodes[k].g
  {
    assert LinkOk(s, k, start);
    match s.nodes[k].cameFromIndex
    case None =>
      DistZeroIffEqual(origin, origin);
    case Some(c) =>
      assert Settled(s, origin, c);
      DistTriangle(origin, Location(s.nodes[c]), Location(s.nodes[k]));
  }

  /**
    The A* frontier: when the node at `p`, on a cheapest route from the
    origin to `target`, is not closed, some open node on that route already
    has its cheapest cost. Found by walking from `p` back toward the origin
    until the next step is closed.
   */
  lemma {:induction false} Frontier(s: SearchState, start: nat, origin: Point, endIndex: nat, goal: Point, bound: nat,
                                    target: Point, p: Point) returns (q: nat)
    requires SearchInv(s, start, bound) && AStarInv(s, start, origin, endIndex, goal)
    requires p.x < GRID_WIDTH && p.y < GRID_HEIGHT
    requires Dist(origin, p) + Dist(p, target) == Dist(origin, target)
    requires CalculateIndex(p.x, p.y, GRID_HEIGHT) !in s.closed
    ensures q in s.open && q < |s.nodes|
    ensures s.nodes[q].g == Dist(origin, Location(s.nodes[q]))
    ensures Dist(origin, Location(s.nodes[q])) + Dist(Location(s.nodes[q]), target) == Dist(origin, target)
    decreases Dist(origin, p)
  {
    hide Dist, CalculateDistCost;
    var k := CalculateIndex(p.x, p.y, GRID_HEIGHT);
    PlacedLookup(s.nodes, GRID_WIDTH, GRID_HEIGHT, p.x, p.y);
    assert Placed(s.nodes[start], start, GRID_WIDTH, GRID_HEIGHT);
    if p == origin {
      q := k;
    } else {
      var p' := StepToward(p, origin);
      StepTowardIsOnRoute(p, origin);
      DistZeroIffEqual(p', p);
      DistTriangle(p', p, target);
      DistTriangle(origin, p', target);
      var k' := CalculateIndex(p'.x, p'.y, GRID_HEIGHT);
      if k' !in s.closed {
        q := Frontier(s, start, origin, endIndex, goal, bound, target, p');
      } else {
        PlacedLookup(s.nodes, GRID_WIDTH, GRID_HEIGHT, p'.x, p'.y);
        assert Settled(s, origin, k');
        GridDistBound(origin, p);
        LowerBound(s, start, origin, endIndex, goal, bound, k);
        q := k;
      }
    }
  }

  /**
    The node picked as lowest-`f` already has its cheapest cost: an open
    node on a cheapest route to it has `f` at most the cheapest cost plus
    its `h`, because the heuristic is consistent.
   */
  lemma SettleLowest(s: SearchState, start: nat, origin: Point, endIndex: nat, goal: Point, count: nat, u: nat)
    requires count <= MAX_ITERATIONS
    requires SearchInv(s, start, DIAGONAL_COST * count) && AStarInv(s, start, origin, endIndex, goal)
    requires GetLowestFCostIndex(s.open, s.nodes) == Some(u)
    ensures u < |s.nodes| && s.nodes[u].g == Dist(origin, Location(s.nodes[u]))
  {
    hide Dist, CalculateDistCost, LowestFCostPosition, Expand, RelaxAll, Relax;
    var pu := Location(s.nodes[u]);
    assert Placed(s.nodes[u], u, GRID_WIDTH, GRID_HEIGHT);
    DistZeroIffEqual(pu, pu);
    var q := Frontier(s, start, origin, endIndex, goal, DIAGONAL_COST * count, pu, pu);
    var pq := Location(s.nodes[q]);
    assert Placed(s.nodes[q], q, GRID_WIDTH, GRID_HEIGHT);
    GridDistBound(pq, goal);
    GridDistBound(pu, goal);
    DistTriangle(pq, pu, goal);
    var i :| 0 <= i < |s.open| && s.open[i] == q;
    assert s.nodes[u].f <= s.nodes[q].f;
    LowerBound(s, start, origin, endIndex, goal, DIAGONAL_COST * count, u);
  }

  /** `Expand` moves the node from the open to the closed list, then relaxes its neighbours. */
  lemma ExpandUnfolds(s: SearchState, u: nat)
    requires u < |s.nodes|
    ensures Expand(s, u)
            == RelaxAll(SearchState(s.nodes, RemoveFirst(s.open, u), s.closed + [s.nodes[u].index]),
                        s.nodes[u], u, GetNeighbourIndices(s.nodes[u].x, s.nodes[u].y, GRID_WIDTH, GRID_HEIGHT))
  {
  }

  /** A neighbour of the node just closed costs at most that node's cost plus the step. */
  lemma ExpandRelaxesNeighbour(s: SearchState, start: nat, origin: Point, endIndex: nat, goal: Point, bound: nat, u: nat, k: nat)
    requires SearchInv(s, start, bound) && AStarInv(s, start, origin, endIndex, goal)
    requires u in s.open && s.nodes[u].g == Dist(origin, Location(s.nodes[u]))
    requires k < |s.nodes| && Adjacent(Location(s.nodes[u]), Location(s.nodes[k]))
    ensures Expand(s, u).nodes[k].g <= s.nodes[u].g + Dist(Location(s.nodes[u]), Location(s.nodes[k]))
  {
    hide Expand, RelaxAll, Relax, RemoveFirst, GetNeighbourIndices, LowestFCostPosition, Dist, CalculateDistCost;
    var current := s.nodes[u];
    var pu := Location(current);
    var pk := Location(s.nodes[k]);
    assert Placed(current, u, GRID_WIDTH, GRID_HEIGHT);
    assert Placed(s.nodes[k], k, GRID_WIDTH, GRID_HEIGHT);
    var ps := NeighbourPoints(current.x, current.y, GRID_WIDTH, GRID_HEIGHT);
    var ns := GetNeighbourIndices(current.x, current.y, GRID_WIDTH, GRID_HEIGHT);
    var r := Expand(s, u);
    assert r.nodes[k].g <= s.nodes[k].g by {
      assert ImprovedVia(s.nodes, r.nodes, u);
    }
    NeighboursComplete(current.x, current.y, GRID_WIDTH, GRID_HEIGHT, pk);
    var m :| 0 <= m < |ps| && ps[m] == pk;
    assert ns[m] == k;
    if k in s.closed {
      assert Settled(s, origin, k);
      DistTriangle(origin, pu, pk);
    } else {
      assert k != u;
      assert k !in r.closed;
    }
  }

  /** The node just closed is settled: each of its neighbours was relaxed, or was settled already. */
  lemma ExpandSettles(s: SearchState, start: nat, origin: Point, endIndex: nat, goal: Point, bound: nat, u: nat)
    requires SearchInv(s, start, bound) && AStarInv(s, start, origin, endIndex, goal)
    requires u in s.open && s.nodes[u].g == Dist(origin, Location(s.nodes[u]))
    ensures Settled(Expand(s, u), origin, u)
  {
    hide Expand, RelaxAll, Relax, RemoveFirst, GetNeighbourIndices, LowestFCostPosition, Dist, CalculateDistCost;
    var current := s.nodes[u];
    var pu := Location(current);
    assert Placed(current, u, GRID_WIDTH, GRID_HEIGHT);
    var t := SearchState(s.nodes, RemoveFirst(s.open, u), s.closed + [u]);
    ExpandUnfolds(s, u);
    var r := Expand(s, u);
    assert r == RelaxAll(t, current, u, GetNeighbourIndices(current.x, current.y, GRID_WIDTH, GRID_HEIGHT));
    assert u in t.closed;
    assert r.nodes[u] == current;
    assert ImprovedVia(s.nodes, r.nodes, u);
    forall k | 0 <= k < |r.nodes| && Adjacent(pu, Location(r.nodes[k]))
      ensures r.nodes[k].g <= current.g + Dist(pu, Location(r.nodes[k]))
    {
      assert SameSite(r.nodes[k], s.nodes[k]);
      ExpandRelaxesNeighbour(s, start, origin, endIndex, goal, bound, u, k);
    }
  }

  /** Expanding `u` keeps every earlier closed node settled: they are untouched and costs only fall. */
  lemma ExpandKeepsSettled(s: SearchState, start: nat, origin: Point, endIndex: nat, goal: Point, bound: nat, u: nat, c: nat)
    requires SearchInv(s, start, bound) && AStarInv(s, start, origin, endIndex, goal)
    requires u in s.open && c in s.closed
    ensures Settled(Expand(s, u), origin, c)
  {
    hide Expand, RelaxAll, Relax, RemoveFirst, GetNeighbourIndices, LowestFCostPosition, Dist, CalculateDistCost;
    var current := s.nodes[u];
    assert Placed(current, u, GRID_WIDTH, GRID_HEIGHT);
    var t := SearchState(s.nodes, RemoveFirst(s.open, u), s.closed + [u]);
    ExpandUnfolds(s, u);
    var r := Expand(s, u);
    assert r == RelaxAll(t, current, u, GetNeighbourIndices(current.x, current.y, GRID_WIDTH, GRID_HEIGHT));
    assert Settled(s, origin, c);
    assert c in t.closed;
    assert r.nodes[c] == s.nodes[c];
    forall k | 0 <= k < |r.nodes| && Adjacent(Location(r.nodes[c]), Location(r.nodes[k]))
      ensures r.nodes[k].g <= r.nodes[c].g + Dist(Location(r.nodes[c]), Location(r.nodes[k]))
    {
      assert SameSite(r.nodes[k], s.nodes[k]) && r.nodes[k].g <= s.nodes[k].g;
      assert Location(r.nodes[k]) == Location(s.nodes[k]);
    }
  }

  /** After expanding `u` every reached node is still open or closed. */
  lemma ExpandKeepsReached(s: SearchState, start: nat, origin: Point, endIndex: nat, goal: Point, bound: nat, u: nat)
    requires SearchInv(s, start, bound) && AStarInv(s, start, origin, endIndex, goal)
    requires u in s.open
    ensures var r := Expand(s, u);
            forall k :: 0 <= k < |r.nodes| && r.nodes[k].g < MAX ==> k in r.open || k in r.closed
  {
    hide Expand, RelaxAll, Relax, RemoveFirst, GetNeighbourIndices, LowestFCostPosition, Dist, CalculateDistCost;
    var current := s.nodes[u];
    assert Placed(current, u, GRID_WIDTH, GRID_HEIGHT);
    var rest := RemoveFirst(s.open, u);
    var t := SearchState(s.nodes, rest, s.closed + [u]);
    ExpandUnfolds(s, u);
    var r := Expand(s, u);
    assert r == RelaxAll(t, current, u, GetNeighbourIndices(current.x, current.y, GRID_WIDTH, GRID_HEIGHT));
    RemoveFirstMembers(s.open, u);
    forall k | 0 <= k < |r.nodes| && r.nodes[k].g < MAX
      ensures k in r.open || k in r.closed
    {
      assert Placed(s.nodes[k], k, GRID_WIDTH, GRID_HEIGHT);
      if r.nodes[k] == s.nodes[k] && k != u && k !in s.closed {
        assert k in rest;
        var j :| 0 <= j < |rest| && rest[j] == k;
        assert r.open[j] == k;
      }
    }
  }

  /** Expanding keeps every heuristic exact and every `f` fresh, and moves no node. */
  lemma ExpandKeepsCosts(s: SearchState, start: nat, origin: Point, endIndex: nat, goal: Point, bound: nat, u: nat)
    requires SearchInv(s, start, bound) && AStarInv(s, start, origin, endIndex, goal)
    requires u in s.open
    ensures var r := Expand(s, u);
            && |r.nodes| == |s.nodes|
            && Location(r.nodes[start]) == origin && Location(r.nodes[endIndex]) == goal
            && forall k | 0 <= k < |r.nodes| :: r.nodes[k].h == Dist(Location(r.nodes[k]), goal) && FCostFresh(r.nodes[k])
  {
    hide Expand, RelaxAll, Relax, RemoveFirst, GetNeighbourIndices, LowestFCostPosition, Dist, CalculateDistCost;
    var current := s.nodes[u];
    assert Placed(current, u, GRID_WIDTH, GRID_HEIGHT);
    var r := Expand(s, u);
    assert |r.nodes| == |s.nodes| && forall k | 0 <= k < |r.nodes| :: SameSite(r.nodes[k], s.nodes[k]) by {
      assert ImprovedVia(s.nodes, r.nodes, u);
    }
    var t := SearchState(s.nodes, RemoveFirst(s.open, u), s.closed + [s.nodes[u].index]);
    ExpandUnfolds(s, u);
    assert r == RelaxAll(t, current, u, GetNeighbourIndices(current.x, current.y, GRID_WIDTH, GRID_HEIGHT));
    forall k | 0 <= k < |r.nodes|
      ensures Location(r.nodes[k]) == Location(s.nodes[k])
    {
    }
  }

  /** Expanding the lowest node closes it once, settled, and keeps the goal open. */
  lemma ExpandKeepsClosed(s: SearchState, start: nat, origin: Point, endIndex: nat, goal: Point, count: nat, u: nat)
    requires count < MAX_ITERATIONS
    requires SearchInv(s, start, DIAGONAL_COST * count) && AStarInv(s, start, origin, endIndex, goal)
    requires GetLowestFCostIndex(s.open, s.nodes) == Some(u) && u != endIndex
    ensures var r := Expand(s, u);
            && NoDuplicates(r.closed) && endIndex !in r.closed
            && forall c | c in r.closed :: Settled(r, origin, c)
  {
    hide Expand, RelaxAll, Relax, RemoveFirst, GetNeighbourIndices, LowestFCostPosition,
         GetLowestFCostIndex, Dist, CalculateDistCost;
    SettleLowest(s, start, origin, endIndex, goal, count, u);
    var bound := DIAGONAL_COST * count;
    assert u in s.open && u !in s.closed && s.nodes[u].index == u;
    var r := Expand(s, u);
    assert r.closed == s.closed + [u];
    ExpandSettles(s, start, origin, endIndex, goal, bound, u);
    forall c | c in r.closed
      ensures Settled(r, origin, c)
    {
      if c != u {
        ExpandKeepsSettled(s, start, origin, endIndex, goal, bound, u, c);
      }
    }
    assert NoDuplicates(r.closed);
  }

  /** One iteration that does not meet the goal keeps `AStarInv`. */
  lemma ExpandKeepsAStarInv(s: SearchState, start: nat, origin: Point, endIndex: nat, goal: Point, count: nat, u: nat)
    requires count < MAX_ITERATIONS
    requires SearchInv(s, start, DIAGONAL_COST * count) && AStarInv(s, start, origin, endIndex, goal)
    requires GetLowestFCostIndex(s.open, s.nodes) == Some(u) && u != endIndex
    ensures AStarInv(Expand(s, u), start, origin, endIndex, goal)
  {
    hide Expand, RelaxAll, Relax, RemoveFirst, GetNeighbourIndices, LowestFCostPosition,
         GetLowestFCostIndex, Dist, CalculateDistCost, Settled;
    var bound := DIAGONAL_COST * count;
    SettleLowest(s, start, origin, endIndex, goal, count, u);
    ExpandKeepsCosts(s, start, origin, endIndex, goal, bound, u);
    ExpandKeepsClosed(s, start, origin, endIndex, goal, count, u);
    ExpandKeepsReached(s, start, origin, endIndex, goal, bound, u);
  }

  /** A duplicate-free list of numbers below `n` has at most `n` entries. */
  lemma {:induction false} DistinctBelow(s: seq<nat>, n: nat)
    requires NoDuplicates(s) && forall i :: 0 <= i < |s| ==> s[i] < n
    ensures |s| <= n
    decreases n
  {
    if |s| == 0 {
    } else if (assert s[0] < n; n - 1 in s) {
      var rest := RemoveFirst(s, n - 1);
      RemoveFirstMembers(s, n - 1);
      forall i | 0 <= i < |rest|
        ensures rest[i] < n - 1
      {
        assert rest[i] in rest;
      }
      DistinctBelow(rest, n - 1);
    } else {
      forall i | 0 <= i < |s|
        ensures s[i] < n - 1
      {
        assert s[i] in s;
      }
      DistinctBelow(s, n - 1);
    }
  }

  /** While the goal is open, so is the open list: the frontier toward the goal is on it. */
  lemma OpenWhileGoalOpen(s: SearchState, start: nat, origin: Point, endIndex: nat, goal: Point, bound: nat)
    requires SearchInv(s, start, bound) && AStarInv(s, start, origin, endIndex, goal)
    ensures |s.open| > 0
  {
    assert Placed(s.nodes[endIndex], endIndex, GRID_WIDTH, GRID_HEIGHT);
    DistZeroIffEqual(goal, goal);
    var q := Frontier(s, start, origin, endIndex, goal, bound, goal, goal);
  }

  /** Every closed node is a distinct node other than the goal, so fewer than 20 are closed. */
  lemma ClosedBelowGrid(s: SearchState, start: nat, origin: Point, endIndex: nat, goal: Point, bound: nat)
    requires SearchInv(s, start, bound) && AStarInv(s, start, origin, endIndex, goal)
    ensures |s.closed| < GRID_WIDTH * GRID_HEIGHT
  {
    ConsNoDuplicates(endIndex, s.closed);
    DistinctBelow([endIndex] + s.closed, |s.nodes|);
  }

  /**
    On the open grid the loop always stops with the goal as the lowest-`f`
    open node: while the goal is not closed the frontier keeps the open list
    non-empty, and each iteration closes a new node, so fewer than 20
    iterations ever run.
   */
  lemma {:induction false} SearchLoopReachesGoal(s: SearchState, start: nat, origin: Point, endIndex: nat, goal: Point,
                                                 count: nat)
    requires count <= MAX_ITERATIONS && |s.closed| == count
    requires SearchInv(s, start, DIAGONAL_COST * count) && AStarInv(s, start, origin, endIndex, goal)
    ensures var out := SearchLoop(s, start, endIndex, count);
            && AStarInv(out.state, start, origin, endIndex, goal)
            && SearchInv(out.state, start, DIAGONAL_COST * out.iterations)
            && GetLowestFCostIndex(out.state.open, out.state.nodes) == Some(endIndex)
    decreases MAX_ITERATIONS - count
  {
    hide Expand, SearchLoop, RelaxAll, Relax, RemoveFirst, GetNeighbourIndices, LowestFCostPosition,
         GetLowestFCostIndex, Dist, CalculateDistCost, Settled, AStarInv;
    SearchLoopInvariant(s, start, endIndex, count);
    OpenWhileGoalOpen(s, start, origin, endIndex, goal, DIAGONAL_COST * count);
    ClosedBelowGrid(s, start, origin, endIndex, goal, DIAGONAL_COST * count);
    var u := GetLowestFCostIndex(s.open, s.nodes).value;
    if u != endIndex {
      var next := Expand(s, u);
      SearchLoopStep(s, start, endIndex, count, u, next);
      ExpandKeepsAStarInv(s, start, origin, endIndex, goal, count, u);
      SearchLoopReachesGoal(next, start, origin, endIndex, goal, count + 1);
    }
  }

  /** The search's starting state satisfies `AStarInv`. */
  lemma InitialAStarInv(startIndex: nat, endX: nat, endY: nat)
    requires startIndex < GRID_WIDTH * GRID_HEIGHT && endX < GRID_WIDTH && endY < GRID_HEIGHT
    ensures var s := InitialState(startIndex, endX, endY);
            AStarInv(s, startIndex, Location(s.nodes[startIndex]), CalculateIndex(endX, endY, GRID_HEIGHT), Point(endX, endY))
  {
    var s := InitialState(startIndex, endX, endY);
    var initial := InitialNodes(GRID_WIDTH, GRID_HEIGHT, endX, endY);
    InitialNodeAt(GRID_WIDTH, GRID_HEIGHT, endX, endY, endX, endY);
    assert initial[startIndex].index == startIndex;
    forall k | 0 <= k < |s.nodes|
      ensures s.nodes[k].h == Dist(Location(s.nodes[k]), Point(endX, endY)) && FCostFresh(s.nodes[k])
      ensures s.nodes[k].g < MAX ==> k in s.open
    {
      assert Fresh(initial[k], endX, endY);
    }
  }

  /**
    On the open grid the search ends with the goal reached at its cheapest
    cost, the heuristic distance from the start, and with a predecessor
    unless the goal is the start.
   */
  lemma SearchSettlesGoal(startIndex: nat, endIndex: nat, endX: nat, endY: nat)
    requires startIndex < GRID_WIDTH * GRID_HEIGHT
    ensures SearchInv(InitialState(startIndex, endX, endY), startIndex, 0)
    ensures var nodes := SearchLoop(InitialState(startIndex, endX, endY), startIndex, endIndex, 0).state.nodes;
            endX < GRID_WIDTH && endY < GRID_HEIGHT && endIndex == CalculateIndex(endX, endY, GRID_HEIGHT) ==>
              && startIndex < |nodes| && endIndex < |nodes|
              && nodes[endIndex].g == Dist(Location(nodes[startIndex]), Point(endX, endY))
              && (endIndex != startIndex ==> nodes[endIndex].cameFromIndex.Some?)
  {
    var s0 := InitialState(startIndex, endX, endY);
    InitialStateInvariant(startIndex, endX, endY);
    if endX < GRID_WIDTH && endY < GRID_HEIGHT && endIndex == CalculateIndex(endX, endY, GRID_HEIGHT) {
      var origin := Location(s0.nodes[startIndex]);
      var goal := Point(endX, endY);
      InitialAStarInv(startIndex, endX, endY);
      SearchLoopReachesGoal(s0, startIndex, origin, endIndex, goal, 0);
      var out := SearchLoop(s0, startIndex, endIndex, 0);
      SettleLowest(out.state, startIndex, origin, endIndex, goal, out.iterations, endIndex);
      assert LinkOk(out.state, endIndex, startIndex);
    }
  }

  // ---------------------------------------------------------------------------
  // Path reconstruction
  // ---------------------------------------------------------------------------

  /** Every predecessor link names a node with a strictly smaller `g`, so following links ends. */
  ghost predicate LinksDescend(nodes: seq<PathNode>) {
    forall k :: 0 <= k < |nodes| ==>
      match nodes[k].cameFromIndex
      case None => true
      case Some(c) => c < |nodes| && nodes[c].g < nodes[k].g
  }

  /** Every predecessor is one king move away and `g` grows by exactly the step cost. */
  ghost predicate LinksAreSteps(nodes: seq<PathNode>) {
    forall k :: 0 <= k < |nodes| ==>
      match nodes[k].cameFromIndex
      case None => true
      case Some(c) =>
        c < |nodes| && Adjacent(Location(nodes[c]), Location(nodes[k]))
        && nodes[k].g == nodes[c].g + Dist(Location(nodes[c]), Location(nodes[k]))
  }

  /** The locations of node `i` and of its predecessors, following links until a node has none. */
  function Trace(nodes: seq<PathNode>, i: nat): (r: seq<Point>)
    requires i < |nodes| && LinksDescend(nodes)
    ensures |r| >= 1 && r[0] == Location(nodes[i])
    ensures LinksAreSteps(nodes) ==> forall m :: 0 <= m < |r| - 1 ==> Adjacent(r[m], r[m + 1])
    ensures (forall k :: 0 <= k < |nodes| ==> nodes[k].x < GRID_WIDTH && nodes[k].y < GRID_HEIGHT)
            ==> forall m :: 0 <= m < |r| ==> r[m].x < GRID_WIDTH && r[m].y < GRID_HEIGHT
    decreases nodes[i].g
  {
    match nodes[i].cameFromIndex
    case None => [Location(nodes[i])]
    case Some(c) => [Location(nodes[i])] + Trace(nodes, c)
  }

  /**
    Following links from a reached node ends at the start, when the start
    is the only reached node without a predecessor.
   */
  lemma {:induction false} TraceEndsAtStart(nodes: seq<PathNode>, i: nat, start: nat)
    requires i < |nodes| && LinksDescend(nodes) && start < |nodes|
    requires forall k :: 0 <= k < |nodes| && nodes[k].cameFromIndex == None && k != start ==> nodes[k].g == MAX
    requires nodes[i].g < MAX
    ensures Trace(nodes, i)[|Trace(nodes, i)| - 1] == Location(nodes[start])
    decreases nodes[i].g
  {
    match nodes[i].cameFromIndex
    case None =>
    case Some(c) =>
      TraceEndsAtStart(nodes, c, start);
  }

  /** When links are steps and the chain ends at a node with `g == 0`, the trace costs exactly `g`. */
  lemma {:induction false} TraceCost(nodes: seq<PathNode>, i: nat)
    requires i < |nodes| && LinksDescend(nodes) && LinksAreSteps(nodes)
    requires forall k :: 0 <= k < |nodes| && nodes[k].cameFromIndex == None && nodes[k].g < MAX ==> nodes[k].g == 0
    requires nodes[i].g < MAX
    ensures WalkCost(Trace(nodes, i)) == nodes[i].g
    decreases nodes[i].g
  {
    match nodes[i].cameFromIndex
    case None =>
    case Some(c) =>
      var rest := Trace(nodes, c);
      TraceCost(nodes, c);
      DistSymmetric(Location(nodes[c]), Location(nodes[i]));
      assert ([Location(nodes[i])] + rest)[1..] == rest;
  }

  /**
    The path from the goal back to the start, goal first; empty when the
    goal node has no predecessor.
   */
  function CalculatePath(nodes: seq<PathNode>, endNode: PathNode): (path: seq<Point>)
    requires LinksDescend(nodes)
    requires endNode.cameFromIndex.Some? ==> endNode.cameFromIndex.value < |nodes|
    ensures path == [] <==> endNode.cameFromIndex == None
    ensures path != [] ==> |path| >= 2 && path[0] == Location(endNode)
    ensures path != [] ==> path[1..] == Trace(nodes, endNode.cameFromIndex.value)
  {
    match endNode.cameFromIndex
    case None => []
    case Some(c) => [Location(endNode)] + Trace(nodes, c)
  }

  // ---------------------------------------------------------------------------
  // find_path
  // ---------------------------------------------------------------------------

  /** The search's state after the start node gets `g = 0` and is put on the open list. */
  function InitialState(startIndex: nat, endX: nat, endY: nat): (s: SearchState)
    requires startIndex < GRID_WIDTH * GRID_HEIGHT
    ensures AllPlaced(s.nodes, GRID_WIDTH, GRID_HEIGHT)
    ensures s.open == [startIndex] && s.closed == []
    ensures s.nodes[startIndex].g == 0 && FCostFresh(s.nodes[startIndex])
            && Fresh(s.nodes[startIndex].(g := MAX, f := MAX), endX, endY)
    ensures forall k | 0 <= k < |s.nodes| && k != startIndex :: Fresh(s.nodes[k], endX, endY)
  {
    var nodes := InitialNodes(GRID_WIDTH, GRID_HEIGHT, endX, endY);
    var startNode := CalculateFCost(nodes[startIndex].(g := 0));
    SearchState(nodes[startIndex := startNode], [startNode.index], [])
  }

  lemma InitialStateInvariant(startIndex: nat, endX: nat, endY: nat)
    requires startIndex < GRID_WIDTH * GRID_HEIGHT
    ensures SearchInv(InitialState(startIndex, endX, endY), startIndex, 0)
  {
    var s := InitialState(startIndex, endX, endY);
    forall k | 0 <= k < |s.nodes|
      ensures LinkOk(s, k, startIndex)
    {
    }
  }

  /**
    Searches the 4 by 5 grid from `(startX, startY)` to `(endX, endY)` and
    returns the path found, goal first, or the empty sequence when there is
    none. A start whose index falls outside the node list yields no path.
   */
  function FindPath(startX: nat, startY: nat, endX: nat, endY: nat): (path: seq<Point>)
    ensures path == [] || |path| >= 2
    ensures forall m :: 0 <= m < |path| - 1 ==> Adjacent(path[m], path[m + 1])
    ensures forall m :: 0 <= m < |path| ==> path[m].x < GRID_WIDTH && path[m].y < GRID_HEIGHT
    ensures path != [] && endX < GRID_WIDTH && endY < GRID_HEIGHT ==> path[0] == Point(endX, endY)
    ensures path != [] && startX < GRID_WIDTH && startY < GRID_HEIGHT
            ==> path[|path| - 1] == Point(startX, startY)
    ensures CalculateIndex(startX, startY, GRID_HEIGHT) == CalculateIndex(endX, endY, GRID_HEIGHT) ==> path == []
    ensures startX < GRID_WIDTH && startY < GRID_HEIGHT && endX < GRID_WIDTH && endY < GRID_HEIGHT
            && Point(startX, startY) != Point(endX, endY)
            ==> path != [] && WalkCost(path) == Dist(Point(startX, startY), Point(endX, endY))
  {
    var startIndex := CalculateIndex(startX, startY, GRID_HEIGHT);
    if startIndex >= GRID_WIDTH * GRID_HEIGHT then []
    else
      var endIndex := CalculateIndex(endX, endY, GRID_HEIGHT);
      var nodes := SearchedNodes(startIndex, endIndex, endX, endY);
      if endIndex >= |nodes| then []
      else
        ReconstructedPath(nodes, startX, startY, endX, endY);
        FoundPathIsCheapest(nodes, startX, startY, endX, endY);
        CalculatePath(nodes, nodes[endIndex])
  }

  /**
    Between two distinct cells of the grid the reconstructed path is not
    empty and costs exactly the heuristic distance between them.
   */
  lemma FoundPathIsCheapest(nodes: seq<PathNode>, startX: nat, startY: nat, endX: nat, endY: nat)
    requires CalculateIndex(startX, startY, GRID_HEIGHT) < GRID_WIDTH * GRID_HEIGHT
    requires CalculateIndex(endX, endY, GRID_HEIGHT) < |nodes|
    requires nodes == SearchedNodes(CalculateIndex(startX, startY, GRID_HEIGHT), CalculateIndex(endX, endY, GRID_HEIGHT), endX, endY)
    ensures LinksDescend(nodes)
    ensures var endNode := nodes[CalculateIndex(endX, endY, GRID_HEIGHT)];
            && (endNode.cameFromIndex.Some? ==> endNode.cameFromIndex.value < |nodes|)
            && (startX < GRID_WIDTH && startY < GRID_HEIGHT && endX < GRID_WIDTH && endY < GRID_HEIGHT
                && Point(startX, startY) != Point(endX, endY)
                ==> var path := CalculatePath(nodes, endNode);
                    path != [] && WalkCost(path) == Dist(Point(startX, startY), Point(endX, endY)))
  {
    var startIndex := CalculateIndex(startX, startY, GRID_HEIGHT);
    var endIndex := CalculateIndex(endX, endY, GRID_HEIGHT);
    hide SearchedNodes, SearchLoop, InitialState, CalculatePath, Trace, WalkCost, Dist;
    ReconstructedPath(nodes, startX, startY, endX, endY);
    if startX < GRID_WIDTH && startY < GRID_HEIGHT && endX < GRID_WIDTH && endY < GRID_HEIGHT
       && Point(startX, startY) != Point(endX, endY) {
      PlacedLookup(nodes, GRID_WIDTH, GRID_HEIGHT, startX, startY);
      if startIndex == endIndex {
        IndexInjective(startX, startY, endX, endY, GRID_HEIGHT);
      }
    }
  }

  /**
    The node list the search loop leaves behind: one node per cell, whose
    predecessor links form rooted chains, and in which a goal on the grid
    is reached at its cheapest cost, with a predecessor unless it is the start.
   */
  function SearchedNodes(startIndex: nat, endIndex: nat, endX: nat, endY: nat): (nodes: seq<PathNode>)
    requires startIndex < GRID_WIDTH * GRID_HEIGHT
    ensures RootedChains(nodes, startIndex)
    ensures AllPlaced(nodes, GRID_WIDTH, GRID_HEIGHT)
    ensures endX < GRID_WIDTH && endY < GRID_HEIGHT && endIndex == CalculateIndex(endX, endY, GRID_HEIGHT) ==>
              && startIndex < |nodes| && endIndex < |nodes|
              && nodes[endIndex].g == Dist(Location(nodes[startIndex]), Point(endX, endY))
              && (endIndex != startIndex ==> nodes[endIndex].cameFromIndex.Some?)
  {
    SearchSettlesGoal(startIndex, endIndex, endX, endY);
    InitialStateInvariant(startIndex, endX, endY);
    SearchLoopInvariant(InitialState(startIndex, endX, endY), startIndex, endIndex, 0);
    var out := SearchLoop(InitialState(startIndex, endX, endY), startIndex, endIndex, 0);
    BoundBelowMax(out.iterations);
    FinalNodesFacts(out.state, startIndex, DIAGONAL_COST * out.iterations);
    out.state.nodes
  }

  /** The path read off a search state that satisfies the loop invariant. */
  lemma ReconstructedPath(nodes: seq<PathNode>, startX: nat, startY: nat, endX: nat, endY: nat)
    requires RootedChains(nodes, CalculateIndex(startX, startY, GRID_HEIGHT))
    requires CalculateIndex(endX, endY, GRID_HEIGHT) < |nodes|
    ensures var endNode := nodes[CalculateIndex(endX, endY, GRID_HEIGHT)];
            && (endNode.cameFromIndex.Some? ==> endNode.cameFromIndex.value < |nodes|)
            && var path := CalculatePath(nodes, endNode);
            && (forall m :: 0 <= m < |path| - 1 ==> Adjacent(path[m], path[m + 1]))
            && (forall m :: 0 <= m < |path| ==> path[m].x < GRID_WIDTH && path[m].y < GRID_HEIGHT)
            && (path != [] && endX < GRID_WIDTH && endY < GRID_HEIGHT ==> path[0] == Point(endX, endY))
            && (path != [] && startX < GRID_WIDTH && startY < GRID_HEIGHT
                ==> path[|path| - 1] == Point(startX, startY))
            && (CalculateIndex(startX, startY, GRID_HEIGHT) == CalculateIndex(endX, endY, GRID_HEIGHT) ==> path == [])
            && (path != [] ==> WalkCost(path) == endNode.g)
  {
    hide Dist, CalculateDistCost, WalkCost;
    var start := CalculateIndex(startX, startY, GRID_HEIGHT);
    var endIndex := CalculateIndex(endX, endY, GRID_HEIGHT);
    var endNode := nodes[endIndex];
    var path := CalculatePath(nodes, endNode);
    PlacedLookup(nodes, GRID_WIDTH, GRID_HEIGHT, startX, startY);
    PlacedLookup(nodes, GRID_WIDTH, GRID_HEIGHT, endX, endY);
    if path != [] {
      ChainPath(nodes, start, endIndex);
    }
  }

  /** A goal with a predecessor yields a walk of king moves from the goal to the start costing its `g`. */
  lemma ChainPath(nodes: seq<PathNode>, start: nat, endIndex: nat)
    requires RootedChains(nodes, start)
    requires endIndex < |nodes| && nodes[endIndex].cameFromIndex.Some?
    ensures var path := CalculatePath(nodes, nodes[endIndex]);
            && (forall m :: 0 <= m < |path| - 1 ==> Adjacent(path[m], path[m + 1]))
            && path[|path| - 1] == Location(nodes[start])
            && WalkCost(path) == nodes[endIndex].g
  {
    hide Dist, CalculateDistCost;
    var endNode := nodes[endIndex];
    var path := CalculatePath(nodes, endNode);
    var c := endNode.cameFromIndex.value;
    var rest := Trace(nodes, c);
    assert path == [Location(endNode)] + rest;
    TraceEndsAtStart(nodes, c, start);
    assert path[|path| - 1] == rest[|rest| - 1];
    assert Adjacent(path[0], path[1]) by {
      assert LinksAreSteps(nodes);
    }
    TraceCost(nodes, c);
    DistSymmetric(Location(nodes[c]), Location(endNode));
    assert path[1..] == rest;
  }

  /**
    Predecessor links form chains that descend in `g`, consist of king
    moves whose costs add up to `g`, and end at the start, which is the
    only reached node without a predecessor.
   */
  ghost predicate RootedChains(nodes: seq<PathNode>, start: nat) {
    && LinksDescend(nodes)
    && LinksAreSteps(nodes)
    && AllPlaced(nodes, GRID_WIDTH, GRID_HEIGHT)
    && start < |nodes|
    && nodes[start].g == 0
    && nodes[start].cameFromIndex == None
    && (forall k :: 0 <= k < |nodes| && nodes[k].cameFromIndex == None && k != start ==> nodes[k].g == MAX)
    && (forall k :: 0 <= k < |nodes| && nodes[k].cameFromIndex.Some? ==>
          nodes[nodes[k].cameFromIndex.value].g < MAX)
  }

  /** The loop invariant leaves the predecessor links in the shape path reconstruction needs. */
  lemma FinalNodesFacts(s: SearchState, start: nat, bound: nat)
    requires SearchInv(s, start, bound) && bound < MAX
    ensures RootedChains(s.nodes, start)
  {
    LinksFromInvariant(s, start, bound);
    assert LinkOk(s, start, start);
    forall k | 0 <= k < |s.nodes| && s.nodes[k].cameFromIndex == None && k != start
      ensures s.nodes[k].g == MAX
    {
      assert LinkOk(s, k, start);
    }
  }

  lemma LinksFromInvariant(s: SearchState, start: nat, bound: nat)
    requires SearchInv(s, start, bound) && bound < MAX
    ensures LinksDescend(s.nodes) && LinksAreSteps(s.nodes)
    ensures forall k :: 0 <= k < |s.nodes| && s.nodes[k].cameFromIndex.Some? ==>
              s.nodes[s.nodes[k].cameFromIndex.value].g < MAX
  {
    forall k | 0 <= k < |s.nodes| && s.nodes[k].cameFromIndex.Some?
      ensures var c := s.nodes[k].cameFromIndex.value;
              c < |s.nodes| && s.nodes[c].g < s.nodes[k].g && s.nodes[c].g < MAX
              && Adjacent(Location(s.nodes[c]), Location(s.nodes[k]))
              && s.nodes[k].g == s.nodes[c].g + Dist(Location(s.nodes[c]), Location(s.nodes[k]))
    {
      assert LinkOk(s, k, start);
      var c := s.nodes[k].cameFromIndex.value;
      DistAdjacent(Location(s.nodes[c]), Location(s.nodes[k]));
    }
  }
}
