module PathExample {
  import opened Options
  import opened PathGeometry
  import opened Pathfinding

  /** The node list for the goal (3, 1), before the start is seeded. */
  const FRESH_NODES: seq<PathNode> := [
    PathNode(0, 0, 0, MAX, 34, MAX, true, None),
    PathNode(0, 1, 1, MAX, 30, MAX, true, None),
    PathNode(0, 2, 2, MAX, 34, MAX, true, None),
    PathNode(0, 3, 3, MAX, 38, MAX, true, None),
    PathNode(0, 4, 4, MAX, 42, MAX, true, None),
    PathNode(1, 0, 5, MAX, 24, MAX, true, None),
    PathNode(1, 1, 6, MAX, 20, MAX, true, None),
    PathNode(1, 2, 7, MAX, 24, MAX, true, None),
    PathNode(1, 3, 8, MAX, 28, MAX, true, None),
    PathNode(1, 4, 9, MAX, 38, MAX, true, None),
    PathNode(2, 0, 10, MAX, 14, MAX, true, None),
    PathNode(2, 1, 11, MAX, 10, MAX, true, None),
    PathNode(2, 2, 12, MAX, 14, MAX, true, None),
    PathNode(2, 3, 13, MAX, 24, MAX, true, None),
    PathNode(2, 4, 14, MAX, 34, MAX, true, None),
    PathNode(3, 0, 15, MAX, 10, MAX, true, None),
    PathNode(3, 1, 16, MAX, 0, MAX, true, None),
    PathNode(3, 2, 17, MAX, 10, MAX, true, None),
    PathNode(3, 3, 18, MAX, 20, MAX, true, None),
    PathNode(3, 4, 19, MAX, 30, MAX, true, None)
  ]

  /** The state when the loop starts: the start (0, 0) seeded and open. */
  const NODES_0: seq<PathNode> := [
    PathNode(0, 0, 0, 0, 34, 34, true, None),
    PathNode(0, 1, 1, MAX, 30, MAX, true, None),
    PathNode(0, 2, 2, MAX, 34, MAX, true, None),
    PathNode(0, 3, 3, MAX, 38, MAX, true, None),
    PathNode(0, 4, 4, MAX, 42, MAX, true, None),
    PathNode(1, 0, 5, MAX, 24, MAX, true, None),
    PathNode(1, 1, 6, MAX, 20, MAX, true, None),
    PathNode(1, 2, 7, MAX, 24, MAX, true, None),
    PathNode(1, 3, 8, MAX, 28, MAX, true, None),
    PathNode(1, 4, 9, MAX, 38, MAX, true, None),
    PathNode(2, 0, 10, MAX, 14, MAX, true, None),
    PathNode(2, 1, 11, MAX, 10, MAX, true, None),
    PathNode(2, 2, 12, MAX, 14, MAX, true, None),
    PathNode(2, 3, 13, MAX, 24, MAX, true, None),
    PathNode(2, 4, 14, MAX, 34, MAX, true, None),
    PathNode(3, 0, 15, MAX, 10, MAX, true, None),
    PathNode(3, 1, 16, MAX, 0, MAX, true, None),
    PathNode(3, 2, 17, MAX, 10, MAX, true, None),
    PathNode(3, 3, 18, MAX, 20, MAX, true, None),
    PathNode(3, 4, 19, MAX, 30, MAX, true, None)
  ]

  const START_NODE: PathNode := PathNode(0, 0, 0, 0, 34, 34, true, None)
  const STATE_0: SearchState := SearchState(NODES_0, [0], [])

  // Iteration 1 expands node 0.
  const CURRENT_1: PathNode := PathNode(0, 0, 0, 0, 34, 34, true, None)
  const STEP_1_0: SearchState := SearchState(NODES_0, [], [0])
  const STEP_1_1: SearchState := SearchState(STEP_1_0.nodes[1 := PathNode(0, 1, 1, 10, 30, 40, true, Some(0))], [1], [0])
  const STEP_1_2: SearchState := SearchState(STEP_1_1.nodes[6 := PathNode(1, 1, 6, 14, 20, 34, true, Some(0))], [1, 6], [0])
  const STEP_1_3: SearchState := SearchState(STEP_1_2.nodes[5 := PathNode(1, 0, 5, 10, 24, 34, true, Some(0))], [1, 6, 5], [0])
  const NODES_1: seq<PathNode> := [
    PathNode(0, 0, 0, 0, 34, 34, true, None),
    PathNode(0, 1, 1, 10, 30, 40, true, Some(0)),
    PathNode(0, 2, 2, MAX, 34, MAX, true, None),
    PathNode(0, 3, 3, MAX, 38, MAX, true, None),
    PathNode(0, 4, 4, MAX, 42, MAX, true, None),
    PathNode(1, 0, 5, 10, 24, 34, true, Some(0)),
    PathNode(1, 1, 6, 14, 20, 34, true, Some(0)),
    PathNode(1, 2, 7, MAX, 24, MAX, true, None),
    PathNode(1, 3, 8, MAX, 28, MAX, true, None),
    PathNode(1, 4, 9, MAX, 38, MAX, true, None),
    PathNode(2, 0, 10, MAX, 14, MAX, true, None),
    PathNode(2, 1, 11, MAX, 10, MAX, true, None),
    PathNode(2, 2, 12, MAX, 14, MAX, true, None),
    PathNode(2, 3, 13, MAX, 24, MAX, true, None),
    PathNode(2, 4, 14, MAX, 34, MAX, true, None),
    PathNode(3, 0, 15, MAX, 10, MAX, true, None),
    PathNode(3, 1, 16, MAX, 0, MAX, true, None),
    PathNode(3, 2, 17, MAX, 10, MAX, true, None),
    PathNode(3, 3, 18, MAX, 20, MAX, true, None),
    PathNode(3, 4, 19, MAX, 30, MAX, true, None)
  ]
  const STATE_1: SearchState := SearchState(NODES_1, [1, 6, 5], [0])

  // Iteration 2 expands node 6.
  const CURRENT_2: PathNode := PathNode(1, 1, 6, 14, 20, 34, true, Some(0))
  const STEP_2_0: SearchState := SearchState(NODES_1, [1, 5], [0, 6])
  const STEP_2_1: SearchState := SearchState(STEP_2_0.nodes[7 := PathNode(1, 2, 7, 24, 24, 48, true, Some(6))], [1, 5, 7], [0, 6])
  const STEP_2_2: SearchState := SearchState(STEP_2_1.nodes[12 := PathNode(2, 2, 12, 28, 14, 42, true, Some(6))], [1, 5, 7, 12], [0, 6])
  const STEP_2_3: SearchState := SearchState(STEP_2_2.nodes[11 := PathNode(2, 1, 11, 24, 10, 34, true, Some(6))], [1, 5, 7, 12, 11], [0, 6])
  const STEP_2_4: SearchState := SearchState(STEP_2_3.nodes[10 := PathNode(2, 0, 10, 28, 14, 42, true, Some(6))], [1, 5, 7, 12, 11, 10], [0, 6])
  const STEP_2_5: SearchState := STEP_2_4
  const STEP_2_6: SearchState := STEP_2_5
  const STEP_2_7: SearchState := STEP_2_6
  const STEP_2_8: SearchState := SearchState(STEP_2_7.nodes[2 := PathNode(0, 2, 2, 28, 34, 62, true, Some(6))], [1, 5, 7, 12, 11, 10, 2], [0, 6])
  const NODES_2: seq<PathNode> := [
    PathNode(0, 0, 0, 0, 34, 34, true, None),
    PathNode(0, 1, 1, 10, 30, 40, true, Some(0)),
    PathNode(0, 2, 2, 28, 34, 62, true, Some(6)),
    PathNode(0, 3, 3, MAX, 38, MAX, true, None),
    PathNode(0, 4, 4, MAX, 42, MAX, true, None),
    PathNode(1, 0, 5, 10, 24, 34, true, Some(0)),
    PathNode(1, 1, 6, 14, 20, 34, true, Some(0)),
    PathNode(1, 2, 7, 24, 24, 48, true, Some(6)),
    PathNode(1, 3, 8, MAX, 28, MAX, true, None),
    PathNode(1, 4, 9, MAX, 38, MAX, true, None),
    PathNode(2, 0, 10, 28, 14, 42, true, Some(6)),
    PathNode(2, 1, 11, 24, 10, 34, true, Some(6)),
    PathNode(2, 2, 12, 28, 14, 42, true, Some(6)),
    PathNode(2, 3, 13, MAX, 24, MAX, true, None),
    PathNode(2, 4, 14, MAX, 34, MAX, true, None),
    PathNode(3, 0, 15, MAX, 10, MAX, true, None),
    PathNode(3, 1, 16, MAX, 0, MAX, true, None),
    PathNode(3, 2, 17, MAX, 10, MAX, true, None),
    PathNode(3, 3, 18, MAX, 20, MAX, true, None),
    PathNode(3, 4, 19, MAX, 30, MAX, true, None)
  ]
  const STATE_2: SearchState := SearchState(NODES_2, [1, 5, 7, 12, 11, 10, 2], [0, 6])

  // Iteration 3 expands node 5.
  const CURRENT_3: PathNode := PathNode(1, 0, 5, 10, 24, 34, true, Some(0))
  const STEP_3_0: SearchState := SearchState(NODES_2, [1, 7, 12, 11, 10, 2], [0, 6, 5])
  const STEP_3_1: SearchState := STEP_3_0
  const STEP_3_2: SearchState := STEP_3_1
  const STEP_3_3: SearchState := SearchState(STEP_3_2.nodes[10 := PathNode(2, 0, 10, 20, 14, 34, true, Some(5))], [1, 7, 12, 11, 10, 2], [0, 6, 5])
  const STEP_3_4: SearchState := STEP_3_3
  const STEP_3_5: SearchState := STEP_3_4
  const NODES_3: seq<PathNode> := [
    PathNode(0, 0, 0, 0, 34, 34, true, None),
    PathNode(0, 1, 1, 10, 30, 40, true, Some(0)),
    PathNode(0, 2, 2, 28, 34, 62, true, Some(6)),
    PathNode(0, 3, 3, MAX, 38, MAX, true, None),
    PathNode(0, 4, 4, MAX, 42, MAX, true, None),
    PathNode(1, 0, 5, 10, 24, 34, true, Some(0)),
    PathNode(1, 1, 6, 14, 20, 34, true, Some(0)),
    PathNode(1, 2, 7, 24, 24, 48, true, Some(6)),
    PathNode(1, 3, 8, MAX, 28, MAX, true, None),
    PathNode(1, 4, 9, MAX, 38, MAX, true, None),
    PathNode(2, 0, 10, 20, 14, 34, true, Some(5)),
    PathNode(2, 1, 11, 24, 10, 34, true, Some(6)),
    PathNode(2, 2, 12, 28, 14, 42, true, Some(6)),
    PathNode(2, 3, 13, MAX, 24, MAX, true, None),
    PathNode(2, 4, 14, MAX, 34, MAX, true, None),
    PathNode(3, 0, 15, MAX, 10, MAX, true, None),
    PathNode(3, 1, 16, MAX, 0, MAX, true, None),
    PathNode(3, 2, 17, MAX, 10, MAX, true, None),
    PathNode(3, 3, 18, MAX, 20, MAX, true, None),
    PathNode(3, 4, 19, MAX, 30, MAX, true, None)
  ]
  const STATE_3: SearchState := SearchState(NODES_3, [1, 7, 12, 11, 10, 2], [0, 6, 5])

  // Iteration 4 expands node 11.
  const CURRENT_4: PathNode := PathNode(2, 1, 11, 24, 10, 34, true, Some(6))
  const STEP_4_0: SearchState := SearchState(NODES_3, [1, 7, 12, 10, 2], [0, 6, 5, 11])
  const STEP_4_1: SearchState := STEP_4_0
  const STEP_4_2: SearchState := SearchState(STEP_4_1.nodes[17 := PathNode(3, 2, 17, 38, 10, 48, true, Some(11))], [1, 7, 12, 10, 2, 17], [0, 6, 5, 11])
  const STEP_4_3: SearchState := SearchState(STEP_4_2.nodes[16 := PathNode(3, 1, 16, 34, 0, 34, true, Some(11))], [1, 7, 12, 10, 2, 17, 16], [0, 6, 5, 11])
  const STEP_4_4: SearchState := SearchState(STEP_4_3.nodes[15 := PathNode(3, 0, 15, 38, 10, 48, true, Some(11))], [1, 7, 12, 10, 2, 17, 16, 15], [0, 6, 5, 11])
  const STEP_4_5: SearchState := STEP_4_4
  const STEP_4_6: SearchState := STEP_4_5
  const STEP_4_7: SearchState := STEP_4_6
  const STEP_4_8: SearchState := STEP_4_7
  const NODES_4: seq<PathNode> := [
    PathNode(0, 0, 0, 0, 34, 34, true, None),
    PathNode(0, 1, 1, 10, 30, 40, true, Some(0)),
    PathNode(0, 2, 2, 28, 34, 62, true, Some(6)),
    PathNode(0, 3, 3, MAX, 38, MAX, true, None),
    PathNode(0, 4, 4, MAX, 42, MAX, true, None),
    PathNode(1, 0, 5, 10, 24, 34, true, Some(0)),
    PathNode(1, 1, 6, 14, 20, 34, true, Some(0)),
    PathNode(1, 2, 7, 24, 24, 48, true, Some(6)),
    PathNode(1, 3, 8, MAX, 28, MAX, true, None),
    PathNode(1, 4, 9, MAX, 38, MAX, true, None),
    PathNode(2, 0, 10, 20, 14, 34, true, Some(5)),
    PathNode(2, 1, 11, 24, 10, 34, true, Some(6)),
    PathNode(2, 2, 12, 28, 14, 42, true, Some(6)),
    PathNode(2, 3, 13, MAX, 24, MAX, true, None),
    PathNode(2, 4, 14, MAX, 34, MAX, true, None),
    PathNode(3, 0, 15, 38, 10, 48, true, Some(11)),
    PathNode(3, 1, 16, 34, 0, 34, true, Some(11)),
    PathNode(3, 2, 17, 38, 10, 48, true, Some(11)),
    PathNode(3, 3, 18, MAX, 20, MAX, true, None),
    PathNode(3, 4, 19, MAX, 30, MAX, true, None)
  ]
  const STATE_4: SearchState := SearchState(NODES_4, [1, 7, 12, 10, 2, 17, 16, 15], [0, 6, 5, 11])

  // Iteration 5 expands node 10.
  const CURRENT_5: PathNode := PathNode(2, 0, 10, 20, 14, 34, true, Some(5))
  const STEP_5_0: SearchState := SearchState(NODES_4, [1, 7, 12, 2, 17, 16, 15], [0, 6, 5, 11, 10])
  const STEP_5_1: SearchState := STEP_5_0
  const STEP_5_2: SearchState := STEP_5_1
  const STEP_5_3: SearchState := SearchState(STEP_5_2.nodes[15 := PathNode(3, 0, 15, 30, 10, 40, true, Some(10))], [1, 7, 12, 2, 17, 16, 15], [0, 6, 5, 11, 10])
  const STEP_5_4: SearchState := STEP_5_3
  const STEP_5_5: SearchState := STEP_5_4
  const NODES_5: seq<PathNode> := [
    PathNode(0, 0, 0, 0, 34, 34, true, None),
    PathNode(0, 1, 1, 10, 30, 40, true, Some(0)),
    PathNode(0, 2, 2, 28, 34, 62, true, Some(6)),
    PathNode(0, 3, 3, MAX, 38, MAX, true, None),
    PathNode(0, 4, 4, MAX, 42, MAX, true, None),
    PathNode(1, 0, 5, 10, 24, 34, true, Some(0)),
    PathNode(1, 1, 6, 14, 20, 34, true, Some(0)),
    PathNode(1, 2, 7, 24, 24, 48, true, Some(6)),
    PathNode(1, 3, 8, MAX, 28, MAX, true, None),
    PathNode(1, 4, 9, MAX, 38, MAX, true, None),
    PathNode(2, 0, 10, 20, 14, 34, true, Some(5)),
    PathNode(2, 1, 11, 24, 10, 34, true, Some(6)),
    PathNode(2, 2, 12, 28, 14, 42, true, Some(6)),
    PathNode(2, 3, 13, MAX, 24, MAX, true, None),
    PathNode(2, 4, 14, MAX, 34, MAX, true, None),
    PathNode(3, 0, 15, 30, 10, 40, true, Some(10)),
    PathNode(3, 1, 16, 34, 0, 34, true, Some(11)),
    PathNode(3, 2, 17, 38, 10, 48, true, Some(11)),
    PathNode(3, 3, 18, MAX, 20, MAX, true, None),
    PathNode(3, 4, 19, MAX, 30, MAX, true, None)
  ]
  const STATE_5: SearchState := SearchState(NODES_5, [1, 7, 12, 2, 17, 16, 15], [0, 6, 5, 11, 10])

  /** One step of removing `v` from a non-empty list. */
  lemma RemoveFirstStep(s: seq<nat>, v: nat)
    requires |s| > 0
    ensures RemoveFirst(s, v) == if s[0] == v then s[1..] else [s[0]] + RemoveFirst(s[1..], v)
  {
  }

  /** Relaxing a closed node changes nothing. */
  lemma RelaxSkipsClosed(s: SearchState, current: PathNode, currentIndex: nat, n: nat)
    requires n in s.closed
    ensures Relax(s, current, currentIndex, n) == s
  {
  }

  /** Relaxing an open node that is already as cheap as the route through `current` changes nothing. */
  lemma RelaxKeepsCheaper(s: SearchState, current: PathNode, currentIndex: nat, n: nat)
    requires n !in s.closed && n < |s.nodes| && s.nodes[n].isWalkable
    requires Tentative(current, s.nodes[n]) >= s.nodes[n].g
    ensures Relax(s, current, currentIndex, n) == s
  {
  }

  /** Relaxing a node that the route through `current` improves records the new node and opens it. */
  lemma RelaxImproves(s: SearchState, current: PathNode, currentIndex: nat, n: nat,
                      tentative: nat, updated: PathNode, open: seq<nat>)
    requires n !in s.closed && n < |s.nodes| && s.nodes[n].isWalkable
    requires tentative == Tentative(current, s.nodes[n]) && tentative < s.nodes[n].g
    requires tentative + s.nodes[n].h <= MAX
    requires updated == s.nodes[n].(cameFromIndex := Some(currentIndex), g := tentative, f := tentative + s.nodes[n].h)
    requires open == if updated.index in s.open then s.open else s.open + [updated.index]
    ensures Relax(s, current, currentIndex, n) == SearchState(s.nodes[n := updated], open, s.closed)
  {
  }

  /** The index of `(x, y)` on the 4 by 5 grid, in plain arithmetic. */
  lemma IndexValue(x: nat, y: nat)
    ensures CalculateIndex(x, y, 5) == y + 5 * x
  {
  }

  /** The octile distance, in plain arithmetic. */
  lemma DistValue(x1: nat, y1: nat, x2: nat, y2: nat)
    ensures var dx := if x1 > x2 then x1 - x2 else x2 - x1;
            var dy := if y1 > y2 then y1 - y2 else y2 - y1;
            CalculateDistCost(x1, y1, x2, y2)
            == (if dx < dy then 14 * dx + 10 * (dy - dx) else 14 * dy + 10 * (dx - dy))
  {
  }

  lemma Node0_0Example()
    ensures NewNode(0, 0, 5, 3, 1) == PathNode(0, 0, 0, MAX, 34, MAX, true, None)
  {
    hide CalculateIndex, CalculateDistCost;
    IndexValue(0, 0);
    DistValue(0, 0, 3, 1);
  }

  lemma Node0_1Example()
    ensures NewNode(0, 1, 5, 3, 1) == PathNode(0, 1, 1, MAX, 30, MAX, true, None)
  {
    hide CalculateIndex, CalculateDistCost;
    IndexValue(0, 1);
    DistValue(0, 1, 3, 1);
  }

  lemma Node0_2Example()
    ensures NewNode(0, 2, 5, 3, 1) == PathNode(0, 2, 2, MAX, 34, MAX, true, None)
  {
    hide CalculateIndex, CalculateDistCost;
    IndexValue(0, 2);
    DistValue(0, 2, 3, 1);
  }

  lemma Node0_3Example()
    ensures NewNode(0, 3, 5, 3, 1) == PathNode(0, 3, 3, MAX, 38, MAX, true, None)
  {
    hide CalculateIndex, CalculateDistCost;
    IndexValue(0, 3);
    DistValue(0, 3, 3, 1);
  }

  lemma Node0_4Example()
    ensures NewNode(0, 4, 5, 3, 1) == PathNode(0, 4, 4, MAX, 42, MAX, true, None)
  {
    hide CalculateIndex, CalculateDistCost;
    IndexValue(0, 4);
    DistValue(0, 4, 3, 1);
  }

  lemma Column0Example()
    ensures Column(0, 5, 3, 1) == FRESH_NODES[0..5]
  {
    hide NewNode;
    var c := Column(0, 5, 3, 1);
    forall y | 0 <= y < 5
      ensures c[y] == FRESH_NODES[0 + y]
    {
      if y == 0 {
        Node0_0Example();
      } else if y == 1 {
        Node0_1Example();
      } else if y == 2 {
        Node0_2Example();
      } else if y == 3 {
        Node0_3Example();
      } else {
        Node0_4Example();
      }
    }
  }

  lemma Node1_0Example()
    ensures NewNode(1, 0, 5, 3, 1) == PathNode(1, 0, 5, MAX, 24, MAX, true, None)
  {
    hide CalculateIndex, CalculateDistCost;
    IndexValue(1, 0);
    DistValue(1, 0, 3, 1);
  }

  lemma Node1_1Example()
    ensures NewNode(1, 1, 5, 3, 1) == PathNode(1, 1, 6, MAX, 20, MAX, true, None)
  {
    hide CalculateIndex, CalculateDistCost;
    IndexValue(1, 1);
    DistValue(1, 1, 3, 1);
  }

  lemma Node1_2Example()
    ensures NewNode(1, 2, 5, 3, 1) == PathNode(1, 2, 7, MAX, 24, MAX, true, None)
  {
    hide CalculateIndex, CalculateDistCost;
    IndexValue(1, 2);
    DistValue(1, 2, 3, 1);
  }

  lemma Node1_3Example()
    ensures NewNode(1, 3, 5, 3, 1) == PathNode(1, 3, 8, MAX, 28, MAX, true, None)
  {
    hide CalculateIndex, CalculateDistCost;
    IndexValue(1, 3);
    DistValue(1, 3, 3, 1);
  }

  lemma Node1_4Example()
    ensures NewNode(1, 4, 5, 3, 1) == PathNode(1, 4, 9, MAX, 38, MAX, true, None)
  {
    hide CalculateIndex, CalculateDistCost;
    IndexValue(1, 4);
    DistValue(1, 4, 3, 1);
  }

  lemma Column1Example()
    ensures Column(1, 5, 3, 1) == FRESH_NODES[5..10]
  {
    hide NewNode;
    var c := Column(1, 5, 3, 1);
    forall y | 0 <= y < 5
      ensures c[y] == FRESH_NODES[5 + y]
    {
      if y == 0 {
        Node1_0Example();
      } else if y == 1 {
        Node1_1Example();
      } else if y == 2 {
        Node1_2Example();
      } else if y == 3 {
        Node1_3Example();
      } else {
        Node1_4Example();
      }
    }
  }

  lemma Node2_0Example()
    ensures NewNode(2, 0, 5, 3, 1) == PathNode(2, 0, 10, MAX, 14, MAX, true, None)
  {
    hide CalculateIndex, CalculateDistCost;
    IndexValue(2, 0);
    DistValue(2, 0, 3, 1);
  }

  lemma Node2_1Example()
    ensures NewNode(2, 1, 5, 3, 1) == PathNode(2, 1, 11, MAX, 10, MAX, true, None)
  {
    hide CalculateIndex, CalculateDistCost;
    IndexValue(2, 1);
    DistValue(2, 1, 3, 1);
  }

  lemma Node2_2Example()
    ensures NewNode(2, 2, 5, 3, 1) == PathNode(2, 2, 12, MAX, 14, MAX, true, None)
  {
    hide CalculateIndex, CalculateDistCost;
    IndexValue(2, 2);
    DistValue(2, 2, 3, 1);
  }

  lemma Node2_3Example()
    ensures NewNode(2, 3, 5, 3, 1) == PathNode(2, 3, 13, MAX, 24, MAX, true, None)
  {
    hide CalculateIndex, CalculateDistCost;
    IndexValue(2, 3);
    DistValue(2, 3, 3, 1);
  }

  lemma Node2_4Example()
    ensures NewNode(2, 4, 5, 3, 1) == PathNode(2, 4, 14, MAX, 34, MAX, true, None)
  {
    hide CalculateIndex, CalculateDistCost;
    IndexValue(2, 4);
    DistValue(2, 4, 3, 1);
  }

  lemma Column2Example()
    ensures Column(2, 5, 3, 1) == FRESH_NODES[10..15]
  {
    hide NewNode;
    var c := Column(2, 5, 3, 1);
    forall y | 0 <= y < 5
      ensures c[y] == FRESH_NODES[10 + y]
    {
      if y == 0 {
        Node2_0Example();
      } else if y == 1 {
        Node2_1Example();
      } else if y == 2 {
        Node2_2Example();
      } else if y == 3 {
        Node2_3Example();
      } else {
        Node2_4Example();
      }
    }
  }

  lemma Node3_0Example()
    ensures NewNode(3, 0, 5, 3, 1) == PathNode(3, 0, 15, MAX, 10, MAX, true, None)
  {
    hide CalculateIndex, CalculateDistCost;
    IndexValue(3, 0);
    DistValue(3, 0, 3, 1);
  }

  lemma Node3_1Example()
    ensures NewNode(3, 1, 5, 3, 1) == PathNode(3, 1, 16, MAX, 0, MAX, true, None)
  {
    hide CalculateIndex, CalculateDistCost;
    IndexValue(3, 1);
    DistValue(3, 1, 3, 1);
  }

  lemma Node3_2Example()
    ensures NewNode(3, 2, 5, 3, 1) == PathNode(3, 2, 17, MAX, 10, MAX, true, None)
  {
    hide CalculateIndex, CalculateDistCost;
    IndexValue(3, 2);
    DistValue(3, 2, 3, 1);
  }

  lemma Node3_3Example()
    ensures NewNode(3, 3, 5, 3, 1) == PathNode(3, 3, 18, MAX, 20, MAX, true, None)
  {
    hide CalculateIndex, CalculateDistCost;
    IndexValue(3, 3);
    DistValue(3, 3, 3, 1);
  }

  lemma Node3_4Example()
    ensures NewNode(3, 4, 5, 3, 1) == PathNode(3, 4, 19, MAX, 30, MAX, true, None)
  {
    hide CalculateIndex, CalculateDistCost;
    IndexValue(3, 4);
    DistValue(3, 4, 3, 1);
  }

  lemma Column3Example()
    ensures Column(3, 5, 3, 1) == FRESH_NODES[15..20]
  {
    hide NewNode;
    var c := Column(3, 5, 3, 1);
    forall y | 0 <= y < 5
      ensures c[y] == FRESH_NODES[15 + y]
    {
      if y == 0 {
        Node3_0Example();
      } else if y == 1 {
        Node3_1Example();
      } else if y == 2 {
        Node3_2Example();
      } else if y == 3 {
        Node3_3Example();
      } else {
        Node3_4Example();
      }
    }
  }

  lemma Prefix1Example()
    ensures InitialNodes(1, 5, 3, 1) == FRESH_NODES[..5]
  {
    hide Column;
    Column0Example();
  }

  lemma Prefix2Example()
    ensures InitialNodes(2, 5, 3, 1) == FRESH_NODES[..10]
  {
    hide Column;
    Column1Example();
    Prefix1Example();
    assert FRESH_NODES[..5] + FRESH_NODES[5..10] == FRESH_NODES[..10];
  }

  lemma Prefix3Example()
    ensures InitialNodes(3, 5, 3, 1) == FRESH_NODES[..15]
  {
    hide Column;
    Column2Example();
    Prefix2Example();
    assert FRESH_NODES[..10] + FRESH_NODES[10..15] == FRESH_NODES[..15];
  }

  lemma Prefix4Example()
    ensures InitialNodes(4, 5, 3, 1) == FRESH_NODES[..20]
  {
    hide Column;
    Column3Example();
    Prefix3Example();
    assert FRESH_NODES[..15] + FRESH_NODES[15..20] == FRESH_NODES[..20];
  }

  lemma FreshNodesExample()
    ensures InitialNodes(GRID_WIDTH, GRID_HEIGHT, 3, 1) == FRESH_NODES
  {
    hide InitialNodes;
    Prefix4Example();
  }

  lemma InitialStateExample()
    ensures InitialState(0, 3, 1) == STATE_0
  {
    FreshNodesExample();
    StartNodeExample();
  }

  lemma StartNodeExample()
    ensures CalculateFCost(FRESH_NODES[0].(g := 0)) == START_NODE
    ensures FRESH_NODES[0 := START_NODE] == NODES_0
  {
  }

  lemma InitialInvariantExample()
    ensures SearchInv(STATE_0, 0, DIAGONAL_COST * 0)
  {
    hide SearchInv, InitialState, InitialNodes, Fresh, FCostFresh, AllPlaced, Placed, CalculateDistCost;
    InitialStateExample();
    InitialStateInvariant(0, 3, 1);
  }

  lemma Lowest1_1()
    ensures LowestFCostPosition([0], NODES_0) == 0
  {
  }

  lemma Lowest1()
    ensures GetLowestFCostIndex(STATE_0.open, STATE_0.nodes) == Some(0)
  {
    Lowest1_1();
  }

  lemma Neighbours1()
    ensures GetNeighbourIndices(0, 0, GRID_WIDTH, GRID_HEIGHT) == [1, 6, 5]
  {
  }

  lemma Current1()
    ensures STATE_0.nodes[0] == CURRENT_1
    ensures STATE_0.closed + [0] == STEP_1_0.closed
  {
  }

  lemma Remove1_0()
    ensures RemoveFirst([0], 0) == []
  {
    hide RemoveFirst;
    RemoveFirstStep([0], 0);
    assert [0][1..] == [];
  }

  lemma Remove1()
    ensures RemoveFirst(STATE_0.open, 0) == STEP_1_0.open
  {
    Remove1_0();
  }

  lemma Before1_1()
    ensures STEP_1_0.nodes[1] == PathNode(0, 1, 1, MAX, 30, MAX, true, None)
    ensures |STEP_1_0.nodes| == 20 && STEP_1_0.open == [] && STEP_1_0.closed == [0]
    ensures Tentative(CURRENT_1, STEP_1_0.nodes[1]) == 10
  {
    hide CalculateDistCost;
    DistValue(0, 0, 0, 1);
  }

  lemma Relax1_1()
    ensures Relax(STEP_1_0, CURRENT_1, 0, 1) == STEP_1_1
  {
    Before1_1();
    hide Relax, CalculateDistCost, CalculateFCost, ImprovedVia, NoDuplicates, Improves, SameSite, Tentative, STEP_1_0;
    RelaxImproves(STEP_1_0, CURRENT_1, 0, 1, 10, PathNode(0, 1, 1, 10, 30, 40, true, Some(0)), [1]);
  }

  lemma Before1_2()
    ensures STEP_1_1.nodes[6] == PathNode(1, 1, 6, MAX, 20, MAX, true, None)
    ensures |STEP_1_1.nodes| == 20 && STEP_1_1.open == [1] && STEP_1_1.closed == [0]
    ensures Tentative(CURRENT_1, STEP_1_1.nodes[6]) == 14
  {
    hide CalculateDistCost;
    DistValue(0, 0, 1, 1);
  }

  lemma Relax1_2()
    ensures Relax(STEP_1_1, CURRENT_1, 0, 6) == STEP_1_2
  {
    Before1_2();
    hide Relax, CalculateDistCost, CalculateFCost, ImprovedVia, NoDuplicates, Improves, SameSite, Tentative, STEP_1_1;
    RelaxImproves(STEP_1_1, CURRENT_1, 0, 6, 14, PathNode(1, 1, 6, 14, 20, 34, true, Some(0)), [1, 6]);
  }

  lemma Before1_3()
    ensures STEP_1_2.nodes[5] == PathNode(1, 0, 5, MAX, 24, MAX, true, None)
    ensures |STEP_1_2.nodes| == 20 && STEP_1_2.open == [1, 6] && STEP_1_2.closed == [0]
    ensures Tentative(CURRENT_1, STEP_1_2.nodes[5]) == 10
  {
    hide CalculateDistCost;
    DistValue(0, 0, 1, 0);
  }

  lemma Relax1_3()
    ensures Relax(STEP_1_2, CURRENT_1, 0, 5) == STEP_1_3
  {
    Before1_3();
    hide Relax, CalculateDistCost, CalculateFCost, ImprovedVia, NoDuplicates, Improves, SameSite, Tentative, STEP_1_2;
    RelaxImproves(STEP_1_2, CURRENT_1, 0, 5, 10, PathNode(1, 0, 5, 10, 24, 34, true, Some(0)), [1, 6, 5]);
  }

  lemma Settle1()
    ensures STEP_1_3 == STATE_1
  {
  }

  lemma Chain1_2()
    ensures RelaxAll(STEP_1_2, CURRENT_1, 0, [5]) == STATE_1
  {
    Relax1_3();
    Settle1();
  }

  lemma Chain1_1()
    ensures RelaxAll(STEP_1_1, CURRENT_1, 0, [6, 5]) == STATE_1
  {
    Relax1_2();
    Chain1_2();
    assert [6, 5][1..] == [5];
  }

  lemma Chain1_0()
    ensures RelaxAll(STEP_1_0, CURRENT_1, 0, [1, 6, 5]) == STATE_1
  {
    Relax1_1();
    Chain1_1();
    assert [1, 6, 5][1..] == [6, 5];
  }

  lemma Iteration1()
    ensures GetLowestFCostIndex(STATE_0.open, STATE_0.nodes) == Some(0)
    ensures Expand(STATE_0, 0) == STATE_1
  {
    Lowest1();
    Current1();
    Remove1();
    Neighbours1();
    Chain1_0();
  }

  lemma Lowest2_1()
    ensures LowestFCostPosition([1], NODES_1) == 0
  {
  }

  lemma Lowest2_2()
    ensures LowestFCostPosition([1, 6], NODES_1) == 1
  {
    Lowest2_1();
    assert [1, 6][..1] == [1];
  }

  lemma Lowest2_3()
    ensures LowestFCostPosition([1, 6, 5], NODES_1) == 1
  {
    Lowest2_2();
    assert [1, 6, 5][..2] == [1, 6];
  }

  lemma Lowest2()
    ensures GetLowestFCostIndex(STATE_1.open, STATE_1.nodes) == Some(6)
  {
    Lowest2_3();
  }

  lemma Neighbours2()
    ensures GetNeighbourIndices(1, 1, GRID_WIDTH, GRID_HEIGHT) == [7, 12, 11, 10, 5, 0, 1, 2]
  {
  }

  lemma Current2()
    ensures STATE_1.nodes[6] == CURRENT_2
    ensures STATE_1.closed + [6] == STEP_2_0.closed
  {
  }

  lemma Remove2_1()
    ensures RemoveFirst([6, 5], 6) == [5]
  {
    hide RemoveFirst;
    RemoveFirstStep([6, 5], 6);
    assert [6, 5][1..] == [5];
  }

  lemma Remove2_0()
    ensures RemoveFirst([1, 6, 5], 6) == [1, 5]
  {
    hide RemoveFirst;
    RemoveFirstStep([1, 6, 5], 6);
    Remove2_1();
    assert [1, 6, 5][1..] == [6, 5];
    assert [1] + [5] == [1, 5];
  }

  lemma Remove2()
    ensures RemoveFirst(STATE_1.open, 6) == STEP_2_0.open
  {
    Remove2_0();
  }

  lemma Before2_1()
    ensures STEP_2_0.nodes[7] == PathNode(1, 2, 7, MAX, 24, MAX, true, None)
    ensures |STEP_2_0.nodes| == 20 && STEP_2_0.open == [1, 5] && STEP_2_0.closed == [0, 6]
    ensures Tentative(CURRENT_2, STEP_2_0.nodes[7]) == 24
  {
    hide CalculateDistCost;
    DistValue(1, 1, 1, 2);
  }

  lemma Relax2_1()
    ensures Relax(STEP_2_0, CURRENT_2, 6, 7) == STEP_2_1
  {
    Before2_1();
    hide Relax, CalculateDistCost, CalculateFCost, ImprovedVia, NoDuplicates, Improves, SameSite, Tentative, STEP_2_0;
    RelaxImproves(STEP_2_0, CURRENT_2, 6, 7, 24, PathNode(1, 2, 7, 24, 24, 48, true, Some(6)), [1, 5, 7]);
  }

  lemma Before2_2()
    ensures STEP_2_1.nodes[12] == PathNode(2, 2, 12, MAX, 14, MAX, true, None)
    ensures |STEP_2_1.nodes| == 20 && STEP_2_1.open == [1, 5, 7] && STEP_2_1.closed == [0, 6]
    ensures Tentative(CURRENT_2, STEP_2_1.nodes[12]) == 28
  {
    hide CalculateDistCost;
    DistValue(1, 1, 2, 2);
  }

  lemma Relax2_2()
    ensures Relax(STEP_2_1, CURRENT_2, 6, 12) == STEP_2_2
  {
    Before2_2();
    hide Relax, CalculateDistCost, CalculateFCost, ImprovedVia, NoDuplicates, Improves, SameSite, Tentative, STEP_2_1;
    RelaxImproves(STEP_2_1, CURRENT_2, 6, 12, 28, PathNode(2, 2, 12, 28, 14, 42, true, Some(6)), [1, 5, 7, 12]);
  }

  lemma Before2_3()
    ensures STEP_2_2.nodes[11] == PathNode(2, 1, 11, MAX, 10, MAX, true, None)
    ensures |STEP_2_2.nodes| == 20 && STEP_2_2.open == [1, 5, 7, 12] && STEP_2_2.closed == [0, 6]
    ensures Tentative(CURRENT_2, STEP_2_2.nodes[11]) == 24
  {
    hide CalculateDistCost;
    DistValue(1, 1, 2, 1);
  }

  lemma Relax2_3()
    ensures Relax(STEP_2_2, CURRENT_2, 6, 11) == STEP_2_3
  {
    Before2_3();
    hide Relax, CalculateDistCost, CalculateFCost, ImprovedVia, NoDuplicates, Improves, SameSite, Tentative, STEP_2_2;
    RelaxImproves(STEP_2_2, CURRENT_2, 6, 11, 24, PathNode(2, 1, 11, 24, 10, 34, true, Some(6)), [1, 5, 7, 12, 11]);
  }

  lemma Before2_4()
    ensures STEP_2_3.nodes[10] == PathNode(2, 0, 10, MAX, 14, MAX, true, None)
    ensures |STEP_2_3.nodes| == 20 && STEP_2_3.open == [1, 5, 7, 12, 11] && STEP_2_3.closed == [0, 6]
    ensures Tentative(CURRENT_2, STEP_2_3.nodes[10]) == 28
  {
    hide CalculateDistCost;
    DistValue(1, 1, 2, 0);
  }

  lemma Relax2_4()
    ensures Relax(STEP_2_3, CURRENT_2, 6, 10) == STEP_2_4
  {
    Before2_4();
    hide Relax, CalculateDistCost, CalculateFCost, ImprovedVia, NoDuplicates, Improves, SameSite, Tentative, STEP_2_3;
    RelaxImproves(STEP_2_3, CURRENT_2, 6, 10, 28, PathNode(2, 0, 10, 28, 14, 42, true, Some(6)), [1, 5, 7, 12, 11, 10]);
  }

  lemma Before2_5()
    ensures STEP_2_4.nodes[5] == PathNode(1, 0, 5, 10, 24, 34, true, Some(0))
    ensures |STEP_2_4.nodes| == 20 && STEP_2_4.open == [1, 5, 7, 12, 11, 10] && STEP_2_4.closed == [0, 6]
    ensures Tentative(CURRENT_2, STEP_2_4.nodes[5]) == 24
  {
    hide CalculateDistCost;
    DistValue(1, 1, 1, 0);
  }

  lemma Relax2_5()
    ensures Relax(STEP_2_4, CURRENT_2, 6, 5) == STEP_2_5
  {
    Before2_5();
    hide Relax, CalculateDistCost, CalculateFCost, ImprovedVia, NoDuplicates, Improves, SameSite, Tentative, STEP_2_4;
    RelaxKeepsCheaper(STEP_2_4, CURRENT_2, 6, 5);
  }

  lemma Before2_6()
    ensures |STEP_2_5.nodes| == 20 && STEP_2_5.open == [1, 5, 7, 12, 11, 10] && STEP_2_5.closed == [0, 6]
  {
  }

  lemma Relax2_6()
    ensures Relax(STEP_2_5, CURRENT_2, 6, 0) == STEP_2_6
  {
    Before2_6();
    hide Relax, CalculateDistCost, CalculateFCost, ImprovedVia, NoDuplicates, Improves, SameSite, Tentative, STEP_2_5;
    RelaxSkipsClosed(STEP_2_5, CURRENT_2, 6, 0);
  }

  lemma Before2_7()
    ensures STEP_2_6.nodes[1] == PathNode(0, 1, 1, 10, 30, 40, true, Some(0))
    ensures |STEP_2_6.nodes| == 20 && STEP_2_6.open == [1, 5, 7, 12, 11, 10] && STEP_2_6.closed == [0, 6]
    ensures Tentative(CURRENT_2, STEP_2_6.nodes[1]) == 24
  {
    hide CalculateDistCost;
    DistValue(1, 1, 0, 1);
  }

  lemma Relax2_7()
    ensures Relax(STEP_2_6, CURRENT_2, 6, 1) == STEP_2_7
  {
    Before2_7();
    hide Relax, CalculateDistCost, CalculateFCost, ImprovedVia, NoDuplicates, Improves, SameSite, Tentative, STEP_2_6;
    RelaxKeepsCheaper(STEP_2_6, CURRENT_2, 6, 1);
  }

  lemma Before2_8()
    ensures STEP_2_7.nodes[2] == PathNode(0, 2, 2, MAX, 34, MAX, true, None)
    ensures |STEP_2_7.nodes| == 20 && STEP_2_7.open == [1, 5, 7, 12, 11, 10] && STEP_2_7.closed == [0, 6]
    ensures Tentative(CURRENT_2, STEP_2_7.nodes[2]) == 28
  {
    hide CalculateDistCost;
    DistValue(1, 1, 0, 2);
  }

  lemma Relax2_8()
    ensures Relax(STEP_2_7, CURRENT_2, 6, 2) == STEP_2_8
  {
    Before2_8();
    hide Relax, CalculateDistCost, CalculateFCost, ImprovedVia, NoDuplicates, Improves, SameSite, Tentative, STEP_2_7;
    RelaxImproves(STEP_2_7, CURRENT_2, 6, 2, 28, PathNode(0, 2, 2, 28, 34, 62, true, Some(6)), [1, 5, 7, 12, 11, 10, 2]);
  }

  lemma Settle2()
    ensures STEP_2_8 == STATE_2
  {
  }

  lemma Chain2_7()
    ensures RelaxAll(STEP_2_7, CURRENT_2, 6, [2]) == STATE_2
  {
    Relax2_8();
    Settle2();
  }

  lemma Chain2_6()
    ensures RelaxAll(STEP_2_6, CURRENT_2, 6, [1, 2]) == STATE_2
  {
    Relax2_7();
    Chain2_7();
    assert [1, 2][1..] == [2];
  }

  lemma Chain2_5()
    ensures RelaxAll(STEP_2_5, CURRENT_2, 6, [0, 1, 2]) == STATE_2
  {
    Relax2_6();
    Chain2_6();
    assert [0, 1, 2][1..] == [1, 2];
  }

  lemma Chain2_4()
    ensures RelaxAll(STEP_2_4, CURRENT_2, 6, [5, 0, 1, 2]) == STATE_2
  {
    Relax2_5();
    Chain2_5();
    assert [5, 0, 1, 2][1..] == [0, 1, 2];
  }

  lemma Chain2_3()
    ensures RelaxAll(STEP_2_3, CURRENT_2, 6, [10, 5, 0, 1, 2]) == STATE_2
  {
    Relax2_4();
    Chain2_4();
    assert [10, 5, 0, 1, 2][1..] == [5, 0, 1, 2];
  }

  lemma Chain2_2()
    ensures RelaxAll(STEP_2_2, CURRENT_2, 6, [11, 10, 5, 0, 1, 2]) == STATE_2
  {
    Relax2_3();
    Chain2_3();
    assert [11, 10, 5, 0, 1, 2][1..] == [10, 5, 0, 1, 2];
  }

  lemma Chain2_1()
    ensures RelaxAll(STEP_2_1, CURRENT_2, 6, [12, 11, 10, 5, 0, 1, 2]) == STATE_2
  {
    Relax2_2();
    Chain2_2();
    assert [12, 11, 10, 5, 0, 1, 2][1..] == [11, 10, 5, 0, 1, 2];
  }

  lemma Chain2_0()
    ensures RelaxAll(STEP_2_0, CURRENT_2, 6, [7, 12, 11, 10, 5, 0, 1, 2]) == STATE_2
  {
    Relax2_1();
    Chain2_1();
    assert [7, 12, 11, 10, 5, 0, 1, 2][1..] == [12, 11, 10, 5, 0, 1, 2];
  }

  lemma Iteration2()
    ensures GetLowestFCostIndex(STATE_1.open, STATE_1.nodes) == Some(6)
    ensures Expand(STATE_1, 6) == STATE_2
  {
    Lowest2();
    Current2();
    Remove2();
    Neighbours2();
    Chain2_0();
  }

  lemma Lowest3_1()
    ensures LowestFCostPosition([1], NODES_2) == 0
  {
  }

  lemma Lowest3_2()
    ensures LowestFCostPosition([1, 5], NODES_2) == 1
  {
    Lowest3_1();
    assert [1, 5][..1] == [1];
  }

  lemma Lowest3_3()
    ensures LowestFCostPosition([1, 5, 7], NODES_2) == 1
  {
    Lowest3_2();
    assert [1, 5, 7][..2] == [1, 5];
  }

  lemma Lowest3_4()
    ensures LowestFCostPosition([1, 5, 7, 12], NODES_2) == 1
  {
    Lowest3_3();
    assert [1, 5, 7, 12][..3] == [1, 5, 7];
  }

  lemma Lowest3_5()
    ensures LowestFCostPosition([1, 5, 7, 12, 11], NODES_2) == 1
  {
    Lowest3_4();
    assert [1, 5, 7, 12, 11][..4] == [1, 5, 7, 12];
  }

  lemma Lowest3_6()
    ensures LowestFCostPosition([1, 5, 7, 12, 11, 10], NODES_2) == 1
  {
    Lowest3_5();
    assert [1, 5, 7, 12, 11, 10][..5] == [1, 5, 7, 12, 11];
  }

  lemma Lowest3_7()
    ensures LowestFCostPosition([1, 5, 7, 12, 11, 10, 2], NODES_2) == 1
  {
    Lowest3_6();
    assert [1, 5, 7, 12, 11, 10, 2][..6] == [1, 5, 7, 12, 11, 10];
  }

  lemma Lowest3()
    ensures GetLowestFCostIndex(STATE_2.open, STATE_2.nodes) == Some(5)
  {
    Lowest3_7();
  }

  lemma Neighbours3()
    ensures GetNeighbourIndices(1, 0, GRID_WIDTH, GRID_HEIGHT) == [6, 11, 10, 0, 1]
  {
  }

  lemma Current3()
    ensures STATE_2.nodes[5] == CURRENT_3
    ensures STATE_2.closed + [5] == STEP_3_0.closed
  {
  }

  lemma Remove3_1()
    ensures RemoveFirst([5, 7, 12, 11, 10, 2], 5) == [7, 12, 11, 10, 2]
  {
    hide RemoveFirst;
    RemoveFirstStep([5, 7, 12, 11, 10, 2], 5);
    assert [5, 7, 12, 11, 10, 2][1..] == [7, 12, 11, 10, 2];
  }

  lemma Remove3_0()
    ensures RemoveFirst([1, 5, 7, 12, 11, 10, 2], 5) == [1, 7, 12, 11, 10, 2]
  {
    hide RemoveFirst;
    RemoveFirstStep([1, 5, 7, 12, 11, 10, 2], 5);
    Remove3_1();
    assert [1, 5, 7, 12, 11, 10, 2][1..] == [5, 7, 12, 11, 10, 2];
    assert [1] + [7, 12, 11, 10, 2] == [1, 7, 12, 11, 10, 2];
  }

  lemma Remove3()
    ensures RemoveFirst(STATE_2.open, 5) == STEP_3_0.open
  {
    Remove3_0();
  }

  lemma Before3_1()
    ensures |STEP_3_0.nodes| == 20 && STEP_3_0.open == [1, 7, 12, 11, 10, 2] && STEP_3_0.closed == [0, 6, 5]
  {
  }

  lemma Relax3_1()
    ensures Relax(STEP_3_0, CURRENT_3, 5, 6) == STEP_3_1
  {
    Before3_1();
    hide Relax, CalculateDistCost, CalculateFCost, ImprovedVia, NoDuplicates, Improves, SameSite, Tentative, STEP_3_0;
    RelaxSkipsClosed(STEP_3_0, CURRENT_3, 5, 6);
  }

  lemma Before3_2()
    ensures STEP_3_1.nodes[11] == PathNode(2, 1, 11, 24, 10, 34, true, Some(6))
    ensures |STEP_3_1.nodes| == 20 && STEP_3_1.open == [1, 7, 12, 11, 10, 2] && STEP_3_1.closed == [0, 6, 5]
    ensures Tentative(CURRENT_3, STEP_3_1.nodes[11]) == 24
  {
    hide CalculateDistCost;
    DistValue(1, 0, 2, 1);
  }

  lemma Relax3_2()
    ensures Relax(STEP_3_1, CURRENT_3, 5, 11) == STEP_3_2
  {
    Before3_2();
    hide Relax, CalculateDistCost, CalculateFCost, ImprovedVia, NoDuplicates, Improves, SameSite, Tentative, STEP_3_1;
    RelaxKeepsCheaper(STEP_3_1, CURRENT_3, 5, 11);
  }

  lemma Before3_3()
    ensures STEP_3_2.nodes[10] == PathNode(2, 0, 10, 28, 14, 42, true, Some(6))
    ensures |STEP_3_2.nodes| == 20 && STEP_3_2.open == [1, 7, 12, 11, 10, 2] && STEP_3_2.closed == [0, 6, 5]
    ensures Tentative(CURRENT_3, STEP_3_2.nodes[10]) == 20
  {
    hide CalculateDistCost;
    DistValue(1, 0, 2, 0);
  }

  lemma Relax3_3()
    ensures Relax(STEP_3_2, CURRENT_3, 5, 10) == STEP_3_3
  {
    Before3_3();
    hide Relax, CalculateDistCost, CalculateFCost, ImprovedVia, NoDuplicates, Improves, SameSite, Tentative, STEP_3_2;
    RelaxImproves(STEP_3_2, CURRENT_3, 5, 10, 20, PathNode(2, 0, 10, 20, 14, 34, true, Some(5)), [1, 7, 12, 11, 10, 2]);
  }

  lemma Before3_4()
    ensures |STEP_3_3.nodes| == 20 && STEP_3_3.open == [1, 7, 12, 11, 10, 2] && STEP_3_3.closed == [0, 6, 5]
  {
  }

  lemma Relax3_4()
    ensures Relax(STEP_3_3, CURRENT_3, 5, 0) == STEP_3_4
  {
    Before3_4();
    hide Relax, CalculateDistCost, CalculateFCost, ImprovedVia, NoDuplicates, Improves, SameSite, Tentative, STEP_3_3;
    RelaxSkipsClosed(STEP_3_3, CURRENT_3, 5, 0);
  }

  lemma Before3_5()
    ensures STEP_3_4.nodes[1] == PathNode(0, 1, 1, 10, 30, 40, true, Some(0))
    ensures |STEP_3_4.nodes| == 20 && STEP_3_4.open == [1, 7, 12, 11, 10, 2] && STEP_3_4.closed == [0, 6, 5]
    ensures Tentative(CURRENT_3, STEP_3_4.nodes[1]) == 24
  {
    hide CalculateDistCost;
    DistValue(1, 0, 0, 1);
  }

  lemma Relax3_5()
    ensures Relax(STEP_3_4, CURRENT_3, 5, 1) == STEP_3_5
  {
    Before3_5();
    hide Relax, CalculateDistCost, CalculateFCost, ImprovedVia, NoDuplicates, Improves, SameSite, Tentative, STEP_3_4;
    RelaxKeepsCheaper(STEP_3_4, CURRENT_3, 5, 1);
  }

  lemma Settle3()
    ensures STEP_3_5 == STATE_3
  {
  }

  lemma Chain3_4()
    ensures RelaxAll(STEP_3_4, CURRENT_3, 5, [1]) == STATE_3
  {
    Relax3_5();
    Settle3();
  }

  lemma Chain3_3()
    ensures RelaxAll(STEP_3_3, CURRENT_3, 5, [0, 1]) == STATE_3
  {
    Relax3_4();
    Chain3_4();
    assert [0, 1][1..] == [1];
  }

  lemma Chain3_2()
    ensures RelaxAll(STEP_3_2, CURRENT_3, 5, [10, 0, 1]) == STATE_3
  {
    Relax3_3();
    Chain3_3();
    assert [10, 0, 1][1..] == [0, 1];
  }

  lemma Chain3_1()
    ensures RelaxAll(STEP_3_1, CURRENT_3, 5, [11, 10, 0, 1]) == STATE_3
  {
    Relax3_2();
    Chain3_2();
    assert [11, 10, 0, 1][1..] == [10, 0, 1];
  }

  lemma Chain3_0()
    ensures RelaxAll(STEP_3_0, CURRENT_3, 5, [6, 11, 10, 0, 1]) == STATE_3
  {
    Relax3_1();
    Chain3_1();
    assert [6, 11, 10, 0, 1][1..] == [11, 10, 0, 1];
  }

  lemma Iteration3()
    ensures GetLowestFCostIndex(STATE_2.open, STATE_2.nodes) == Some(5)
    ensures Expand(STATE_2, 5) == STATE_3
  {
    Lowest3();
    Current3();
    Remove3();
    Neighbours3();
    Chain3_0();
  }

  lemma Lowest4_1()
    ensures LowestFCostPosition([1], NODES_3) == 0
  {
  }

  lemma Lowest4_2()
    ensures LowestFCostPosition([1, 7], NODES_3) == 0
  {
    Lowest4_1();
    assert [1, 7][..1] == [1];
  }

  lemma Lowest4_3()
    ensures LowestFCostPosition([1, 7, 12], NODES_3) == 0
  {
    Lowest4_2();
    assert [1, 7, 12][..2] == [1, 7];
  }

  lemma Lowest4_4()
    ensures LowestFCostPosition([1, 7, 12, 11], NODES_3) == 3
  {
    Lowest4_3();
    assert [1, 7, 12, 11][..3] == [1, 7, 12];
  }

  lemma Lowest4_5()
    ensures LowestFCostPosition([1, 7, 12, 11, 10], NODES_3) == 3
  {
    Lowest4_4();
    assert [1, 7, 12, 11, 10][..4] == [1, 7, 12, 11];
  }

  lemma Lowest4_6()
    ensures LowestFCostPosition([1, 7, 12, 11, 10, 2], NODES_3) == 3
  {
    Lowest4_5();
    assert [1, 7, 12, 11, 10, 2][..5] == [1, 7, 12, 11, 10];
  }

  lemma Lowest4()
    ensures GetLowestFCostIndex(STATE_3.open, STATE_3.nodes) == Some(11)
  {
    Lowest4_6();
  }

  lemma Neighbours4()
    ensures GetNeighbourIndices(2, 1, GRID_WIDTH, GRID_HEIGHT) == [12, 17, 16, 15, 10, 5, 6, 7]
  {
  }

  lemma Current4()
    ensures STATE_3.nodes[11] == CURRENT_4
    ensures STATE_3.closed + [11] == STEP_4_0.closed
  {
  }

  lemma Remove4_3()
    ensures RemoveFirst([11, 10, 2], 11) == [10, 2]
  {
    hide RemoveFirst;
    RemoveFirstStep([11, 10, 2], 11);
    assert [11, 10, 2][1..] == [10, 2];
  }

  lemma Remove4_2()
    ensures RemoveFirst([12, 11, 10, 2], 11) == [12, 10, 2]
  {
    hide RemoveFirst;
    RemoveFirstStep([12, 11, 10, 2], 11);
    Remove4_3();
    assert [12, 11, 10, 2][1..] == [11, 10, 2];
    assert [12] + [10, 2] == [12, 10, 2];
  }

  lemma Remove4_1()
    ensures RemoveFirst([7, 12, 11, 10, 2], 11) == [7, 12, 10, 2]
  {
    hide RemoveFirst;
    RemoveFirstStep([7, 12, 11, 10, 2], 11);
    Remove4_2();
    assert [7, 12, 11, 10, 2][1..] == [12, 11, 10, 2];
    assert [7] + [12, 10, 2] == [7, 12, 10, 2];
  }

  lemma Remove4_0()
    ensures RemoveFirst([1, 7, 12, 11, 10, 2], 11) == [1, 7, 12, 10, 2]
  {
    hide RemoveFirst;
    RemoveFirstStep([1, 7, 12, 11, 10, 2], 11);
    Remove4_1();
    assert [1, 7, 12, 11, 10, 2][1..] == [7, 12, 11, 10, 2];
    assert [1] + [7, 12, 10, 2] == [1, 7, 12, 10, 2];
  }

  lemma Remove4()
    ensures RemoveFirst(STATE_3.open, 11) == STEP_4_0.open
  {
    Remove4_0();
  }

  lemma Before4_1()
    ensures STEP_4_0.nodes[12] == PathNode(2, 2, 12, 28, 14, 42, true, Some(6))
    ensures |STEP_4_0.nodes| == 20 && STEP_4_0.open == [1, 7, 12, 10, 2] && STEP_4_0.closed == [0, 6, 5, 11]
    ensures Tentative(CURRENT_4, STEP_4_0.nodes[12]) == 34
  {
    hide CalculateDistCost;
    DistValue(2, 1, 2, 2);
  }

  lemma Relax4_1()
    ensures Relax(STEP_4_0, CURRENT_4, 11, 12) == STEP_4_1
  {
    Before4_1();
    hide Relax, CalculateDistCost, CalculateFCost, ImprovedVia, NoDuplicates, Improves, SameSite, Tentative, STEP_4_0;
    RelaxKeepsCheaper(STEP_4_0, CURRENT_4, 11, 12);
  }

  lemma Before4_2()
    ensures STEP_4_1.nodes[17] == PathNode(3, 2, 17, MAX, 10, MAX, true, None)
    ensures |STEP_4_1.nodes| == 20 && STEP_4_1.open == [1, 7, 12, 10, 2] && STEP_4_1.closed == [0, 6, 5, 11]
    ensures Tentative(CURRENT_4, STEP_4_1.nodes[17]) == 38
  {
    hide CalculateDistCost;
    DistValue(2, 1, 3, 2);
  }

  lemma Relax4_2()
    ensures Relax(STEP_4_1, CURRENT_4, 11, 17) == STEP_4_2
  {
    Before4_2();
    hide Relax, CalculateDistCost, CalculateFCost, ImprovedVia, NoDuplicates, Improves, SameSite, Tentative, STEP_4_1;
    RelaxImproves(STEP_4_1, CURRENT_4, 11, 17, 38, PathNode(3, 2, 17, 38, 10, 48, true, Some(11)), [1, 7, 12, 10, 2, 17]);
  }

  lemma Before4_3()
    ensures STEP_4_2.nodes[16] == PathNode(3, 1, 16, MAX, 0, MAX, true, None)
    ensures |STEP_4_2.nodes| == 20 && STEP_4_2.open == [1, 7, 12, 10, 2, 17] && STEP_4_2.closed == [0, 6, 5, 11]
    ensures Tentative(CURRENT_4, STEP_4_2.nodes[16]) == 34
  {
    hide CalculateDistCost;
    DistValue(2, 1, 3, 1);
  }

  lemma Relax4_3()
    ensures Relax(STEP_4_2, CURRENT_4, 11, 16) == STEP_4_3
  {
    Before4_3();
    hide Relax, CalculateDistCost, CalculateFCost, ImprovedVia, NoDuplicates, Improves, SameSite, Tentative, STEP_4_2;
    RelaxImproves(STEP_4_2, CURRENT_4, 11, 16, 34, PathNode(3, 1, 16, 34, 0, 34, true, Some(11)), [1, 7, 12, 10, 2, 17, 16]);
  }

  lemma Before4_4()
    ensures STEP_4_3.nodes[15] == PathNode(3, 0, 15, MAX, 10, MAX, true, None)
    ensures |STEP_4_3.nodes| == 20 && STEP_4_3.open == [1, 7, 12, 10, 2, 17, 16] && STEP_4_3.closed == [0, 6, 5, 11]
    ensures Tentative(CURRENT_4, STEP_4_3.nodes[15]) == 38
  {
    hide CalculateDistCost;
    DistValue(2, 1, 3, 0);
  }

  lemma Relax4_4()
    ensures Relax(STEP_4_3, CURRENT_4, 11, 15) == STEP_4_4
  {
    Before4_4();
    hide Relax, CalculateDistCost, CalculateFCost, ImprovedVia, NoDuplicates, Improves, SameSite, Tentative, STEP_4_3;
    RelaxImproves(STEP_4_3, CURRENT_4, 11, 15, 38, PathNode(3, 0, 15, 38, 10, 48, true, Some(11)), [1, 7, 12, 10, 2, 17, 16, 15]);
  }

  lemma Before4_5()
    ensures STEP_4_4.nodes[10] == PathNode(2, 0, 10, 20, 14, 34, true, Some(5))
    ensures |STEP_4_4.nodes| == 20 && STEP_4_4.open == [1, 7, 12, 10, 2, 17, 16, 15] && STEP_4_4.closed == [0, 6, 5, 11]
    ensures Tentative(CURRENT_4, STEP_4_4.nodes[10]) == 34
  {
    hide CalculateDistCost;
    DistValue(2, 1, 2, 0);
  }

  lemma Relax4_5()
    ensures Relax(STEP_4_4, CURRENT_4, 11, 10) == STEP_4_5
  {
    Before4_5();
    hide Relax, CalculateDistCost, CalculateFCost, ImprovedVia, NoDuplicates, Improves, SameSite, Tentative, STEP_4_4;
    RelaxKeepsCheaper(STEP_4_4, CURRENT_4, 11, 10);
  }

  lemma Before4_6()
    ensures |STEP_4_5.nodes| == 20 && STEP_4_5.open == [1, 7, 12, 10, 2, 17, 16, 15] && STEP_4_5.closed == [0, 6, 5, 11]
  {
  }

  lemma Relax4_6()
    ensures Relax(STEP_4_5, CURRENT_4, 11, 5) == STEP_4_6
  {
    Before4_6();
    hide Relax, CalculateDistCost, CalculateFCost, ImprovedVia, NoDuplicates, Improves, SameSite, Tentative, STEP_4_5;
    RelaxSkipsClosed(STEP_4_5, CURRENT_4, 11, 5);
  }

  lemma Before4_7()
    ensures |STEP_4_6.nodes| == 20 && STEP_4_6.open == [1, 7, 12, 10, 2, 17, 16, 15] && STEP_4_6.closed == [0, 6, 5, 11]
  {
  }

  lemma Relax4_7()
    ensures Relax(STEP_4_6, CURRENT_4, 11, 6) == STEP_4_7
  {
    Before4_7();
    hide Relax, CalculateDistCost, CalculateFCost, ImprovedVia, NoDuplicates, Improves, SameSite, Tentative, STEP_4_6;
    RelaxSkipsClosed(STEP_4_6, CURRENT_4, 11, 6);
  }

  lemma Before4_8()
    ensures STEP_4_7.nodes[7] == PathNode(1, 2, 7, 24, 24, 48, true, Some(6))
    ensures |STEP_4_7.nodes| == 20 && STEP_4_7.open == [1, 7, 12, 10, 2, 17, 16, 15] && STEP_4_7.closed == [0, 6, 5, 11]
    ensures Tentative(CURRENT_4, STEP_4_7.nodes[7]) == 38
  {
    hide CalculateDistCost;
    DistValue(2, 1, 1, 2);
  }

  lemma Relax4_8()
    ensures Relax(STEP_4_7, CURRENT_4, 11, 7) == STEP_4_8
  {
    Before4_8();
    hide Relax, CalculateDistCost, CalculateFCost, ImprovedVia, NoDuplicates, Improves, SameSite, Tentative, STEP_4_7;
    RelaxKeepsCheaper(STEP_4_7, CURRENT_4, 11, 7);
  }

  lemma Settle4()
    ensures STEP_4_8 == STATE_4
  {
  }

  lemma Chain4_7()
    ensures RelaxAll(STEP_4_7, CURRENT_4, 11, [7]) == STATE_4
  {
    Relax4_8();
    Settle4();
  }

  lemma Chain4_6()
    ensures RelaxAll(STEP_4_6, CURRENT_4, 11, [6, 7]) == STATE_4
  {
    Relax4_7();
    Chain4_7();
    assert [6, 7][1..] == [7];
  }

  lemma Chain4_5()
    ensures RelaxAll(STEP_4_5, CURRENT_4, 11, [5, 6, 7]) == STATE_4
  {
    Relax4_6();
    Chain4_6();
    assert [5, 6, 7][1..] == [6, 7];
  }

  lemma Chain4_4()
    ensures RelaxAll(STEP_4_4, CURRENT_4, 11, [10, 5, 6, 7]) == STATE_4
  {
    Relax4_5();
    Chain4_5();
    assert [10, 5, 6, 7][1..] == [5, 6, 7];
  }

  lemma Chain4_3()
    ensures RelaxAll(STEP_4_3, CURRENT_4, 11, [15, 10, 5, 6, 7]) == STATE_4
  {
    Relax4_4();
    Chain4_4();
    assert [15, 10, 5, 6, 7][1..] == [10, 5, 6, 7];
  }

  lemma Chain4_2()
    ensures RelaxAll(STEP_4_2, CURRENT_4, 11, [16, 15, 10, 5, 6, 7]) == STATE_4
  {
    Relax4_3();
    Chain4_3();
    assert [16, 15, 10, 5, 6, 7][1..] == [15, 10, 5, 6, 7];
  }

  lemma Chain4_1()
    ensures RelaxAll(STEP_4_1, CURRENT_4, 11, [17, 16, 15, 10, 5, 6, 7]) == STATE_4
  {
    Relax4_2();
    Chain4_2();
    assert [17, 16, 15, 10, 5, 6, 7][1..] == [16, 15, 10, 5, 6, 7];
  }

  lemma Chain4_0()
    ensures RelaxAll(STEP_4_0, CURRENT_4, 11, [12, 17, 16, 15, 10, 5, 6, 7]) == STATE_4
  {
    Relax4_1();
    Chain4_1();
    assert [12, 17, 16, 15, 10, 5, 6, 7][1..] == [17, 16, 15, 10, 5, 6, 7];
  }

  lemma Iteration4()
    ensures GetLowestFCostIndex(STATE_3.open, STATE_3.nodes) == Some(11)
    ensures Expand(STATE_3, 11) == STATE_4
  {
    Lowest4();
    Current4();
    Remove4();
    Neighbours4();
    Chain4_0();
  }

  lemma Lowest5_1()
    ensures LowestFCostPosition([1], NODES_4) == 0
  {
  }

  lemma Lowest5_2()
    ensures LowestFCostPosition([1, 7], NODES_4) == 0
  {
    Lowest5_1();
    assert [1, 7][..1] == [1];
  }

  lemma Lowest5_3()
    ensures LowestFCostPosition([1, 7, 12], NODES_4) == 0
  {
    Lowest5_2();
    assert [1, 7, 12][..2] == [1, 7];
  }

  lemma Lowest5_4()
    ensures LowestFCostPosition([1, 7, 12, 10], NODES_4) == 3
  {
    Lowest5_3();
    assert [1, 7, 12, 10][..3] == [1, 7, 12];
  }

  lemma Lowest5_5()
    ensures LowestFCostPosition([1, 7, 12, 10, 2], NODES_4) == 3
  {
    Lowest5_4();
    assert [1, 7, 12, 10, 2][..4] == [1, 7, 12, 10];
  }

  lemma Lowest5_6()
    ensures LowestFCostPosition([1, 7, 12, 10, 2, 17], NODES_4) == 3
  {
    Lowest5_5();
    assert [1, 7, 12, 10, 2, 17][..5] == [1, 7, 12, 10, 2];
  }

  lemma Lowest5_7()
    ensures LowestFCostPosition([1, 7, 12, 10, 2, 17, 16], NODES_4) == 3
  {
    Lowest5_6();
    assert [1, 7, 12, 10, 2, 17, 16][..6] == [1, 7, 12, 10, 2, 17];
  }

  lemma Lowest5_8()
    ensures LowestFCostPosition([1, 7, 12, 10, 2, 17, 16, 15], NODES_4) == 3
  {
    Lowest5_7();
    assert [1, 7, 12, 10, 2, 17, 16, 15][..7] == [1, 7, 12, 10, 2, 17, 16];
  }

  lemma Lowest5()
    ensures GetLowestFCostIndex(STATE_4.open, STATE_4.nodes) == Some(10)
  {
    Lowest5_8();
  }

  lemma Neighbours5()
    ensures GetNeighbourIndices(2, 0, GRID_WIDTH, GRID_HEIGHT) == [11, 16, 15, 5, 6]
  {
  }

  lemma Current5()
    ensures STATE_4.nodes[10] == CURRENT_5
    ensures STATE_4.closed + [10] == STEP_5_0.closed
  {
  }

  lemma Remove5_3()
    ensures RemoveFirst([10, 2, 17, 16, 15], 10) == [2, 17, 16, 15]
  {
    hide RemoveFirst;
    RemoveFirstStep([10, 2, 17, 16, 15], 10);
    assert [10, 2, 17, 16, 15][1..] == [2, 17, 16, 15];
  }

  lemma Remove5_2()
    ensures RemoveFirst([12, 10, 2, 17, 16, 15], 10) == [12, 2, 17, 16, 15]
  {
    hide RemoveFirst;
    RemoveFirstStep([12, 10, 2, 17, 16, 15], 10);
    Remove5_3();
    assert [12, 10, 2, 17, 16, 15][1..] == [10, 2, 17, 16, 15];
    assert [12] + [2, 17, 16, 15] == [12, 2, 17, 16, 15];
  }

  lemma Remove5_1()
    ensures RemoveFirst([7, 12, 10, 2, 17, 16, 15], 10) == [7, 12, 2, 17, 16, 15]
  {
    hide RemoveFirst;
    RemoveFirstStep([7, 12, 10, 2, 17, 16, 15], 10);
    Remove5_2();
    assert [7, 12, 10, 2, 17, 16, 15][1..] == [12, 10, 2, 17, 16, 15];
    assert [7] + [12, 2, 17, 16, 15] == [7, 12, 2, 17, 16, 15];
  }

  lemma Remove5_0()
    ensures RemoveFirst([1, 7, 12, 10, 2, 17, 16, 15], 10) == [1, 7, 12, 2, 17, 16, 15]
  {
    hide RemoveFirst;
    RemoveFirstStep([1, 7, 12, 10, 2, 17, 16, 15], 10);
    Remove5_1();
    assert [1, 7, 12, 10, 2, 17, 16, 15][1..] == [7, 12, 10, 2, 17, 16, 15];
    assert [1] + [7, 12, 2, 17, 16, 15] == [1, 7, 12, 2, 17, 16, 15];
  }

  lemma Remove5()
    ensures RemoveFirst(STATE_4.open, 10) == STEP_5_0.open
  {
    Remove5_0();
  }

  lemma Before5_1()
    ensures |STEP_5_0.nodes| == 20 && STEP_5_0.open == [1, 7, 12, 2, 17, 16, 15] && STEP_5_0.closed == [0, 6, 5, 11, 10]
  {
  }

  lemma Relax5_1()
    ensures Relax(STEP_5_0, CURRENT_5, 10, 11) == STEP_5_1
  {
    Before5_1();
    hide Relax, CalculateDistCost, CalculateFCost, ImprovedVia, NoDuplicates, Improves, SameSite, Tentative, STEP_5_0;
    RelaxSkipsClosed(STEP_5_0, CURRENT_5, 10, 11);
  }

  lemma Before5_2()
    ensures STEP_5_1.nodes[16] == PathNode(3, 1, 16, 34, 0, 34, true, Some(11))
    ensures |STEP_5_1.nodes| == 20 && STEP_5_1.open == [1, 7, 12, 2, 17, 16, 15] && STEP_5_1.closed == [0, 6, 5, 11, 10]
    ensures Tentative(CURRENT_5, STEP_5_1.nodes[16]) == 34
  {
    hide CalculateDistCost;
    DistValue(2, 0, 3, 1);
  }

  lemma Relax5_2()
    ensures Relax(STEP_5_1, CURRENT_5, 10, 16) == STEP_5_2
  {
    Before5_2();
    hide Relax, CalculateDistCost, CalculateFCost, ImprovedVia, NoDuplicates, Improves, SameSite, Tentative, STEP_5_1;
    RelaxKeepsCheaper(STEP_5_1, CURRENT_5, 10, 16);
  }

  lemma Before5_3()
    ensures STEP_5_2.nodes[15] == PathNode(3, 0, 15, 38, 10, 48, true, Some(11))
    ensures |STEP_5_2.nodes| == 20 && STEP_5_2.open == [1, 7, 12, 2, 17, 16, 15] && STEP_5_2.closed == [0, 6, 5, 11, 10]
    ensures Tentative(CURRENT_5, STEP_5_2.nodes[15]) == 30
  {
    hide CalculateDistCost;
    DistValue(2, 0, 3, 0);
  }

  lemma Relax5_3()
    ensures Relax(STEP_5_2, CURRENT_5, 10, 15) == STEP_5_3
  {
    Before5_3();
    hide Relax, CalculateDistCost, CalculateFCost, ImprovedVia, NoDuplicates, Improves, SameSite, Tentative, STEP_5_2;
    RelaxImproves(STEP_5_2, CURRENT_5, 10, 15, 30, PathNode(3, 0, 15, 30, 10, 40, true, Some(10)), [1, 7, 12, 2, 17, 16, 15]);
  }

  lemma Before5_4()
    ensures |STEP_5_3.nodes| == 20 && STEP_5_3.open == [1, 7, 12, 2, 17, 16, 15] && STEP_5_3.closed == [0, 6, 5, 11, 10]
  {
  }

  lemma Relax5_4()
    ensures Relax(STEP_5_3, CURRENT_5, 10, 5) == STEP_5_4
  {
    Before5_4();
    hide Relax, CalculateDistCost, CalculateFCost, ImprovedVia, NoDuplicates, Improves, SameSite, Tentative, STEP_5_3;
    RelaxSkipsClosed(STEP_5_3, CURRENT_5, 10, 5);
  }

  lemma Before5_5()
    ensures |STEP_5_4.nodes| == 20 && STEP_5_4.open == [1, 7, 12, 2, 17, 16, 15] && STEP_5_4.closed == [0, 6, 5, 11, 10]
  {
  }

  lemma Relax5_5()
    ensures Relax(STEP_5_4, CURRENT_5, 10, 6) == STEP_5_5
  {
    Before5_5();
    hide Relax, CalculateDistCost, CalculateFCost, ImprovedVia, NoDuplicates, Improves, SameSite, Tentative, STEP_5_4;
    RelaxSkipsClosed(STEP_5_4, CURRENT_5, 10, 6);
  }

  lemma Settle5()
    ensures STEP_5_5 == STATE_5
  {
  }

  lemma Chain5_4()
    ensures RelaxAll(STEP_5_4, CURRENT_5, 10, [6]) == STATE_5
  {
    Relax5_5();
    Settle5();
  }

  lemma Chain5_3()
    ensures RelaxAll(STEP_5_3, CURRENT_5, 10, [5, 6]) == STATE_5
  {
    Relax5_4();
    Chain5_4();
    assert [5, 6][1..] == [6];
  }

  lemma Chain5_2()
    ensures RelaxAll(STEP_5_2, CURRENT_5, 10, [15, 5, 6]) == STATE_5
  {
    Relax5_3();
    Chain5_3();
    assert [15, 5, 6][1..] == [5, 6];
  }

  lemma Chain5_1()
    ensures RelaxAll(STEP_5_1, CURRENT_5, 10, [16, 15, 5, 6]) == STATE_5
  {
    Relax5_2();
    Chain5_2();
    assert [16, 15, 5, 6][1..] == [15, 5, 6];
  }

  lemma Chain5_0()
    ensures RelaxAll(STEP_5_0, CURRENT_5, 10, [11, 16, 15, 5, 6]) == STATE_5
  {
    Relax5_1();
    Chain5_1();
    assert [11, 16, 15, 5, 6][1..] == [16, 15, 5, 6];
  }

  lemma Iteration5()
    ensures GetLowestFCostIndex(STATE_4.open, STATE_4.nodes) == Some(10)
    ensures Expand(STATE_4, 10) == STATE_5
  {
    Lowest5();
    Current5();
    Remove5();
    Neighbours5();
    Chain5_0();
  }

  lemma Lowest6_1()
    ensures LowestFCostPosition([1], NODES_5) == 0
  {
  }

  lemma Lowest6_2()
    ensures LowestFCostPosition([1, 7], NODES_5) == 0
  {
    Lowest6_1();
    assert [1, 7][..1] == [1];
  }

  lemma Lowest6_3()
    ensures LowestFCostPosition([1, 7, 12], NODES_5) == 0
  {
    Lowest6_2();
    assert [1, 7, 12][..2] == [1, 7];
  }

  lemma Lowest6_4()
    ensures LowestFCostPosition([1, 7, 12, 2], NODES_5) == 0
  {
    Lowest6_3();
    assert [1, 7, 12, 2][..3] == [1, 7, 12];
  }

  lemma Lowest6_5()
    ensures LowestFCostPosition([1, 7, 12, 2, 17], NODES_5) == 0
  {
    Lowest6_4();
    assert [1, 7, 12, 2, 17][..4] == [1, 7, 12, 2];
  }

  lemma Lowest6_6()
    ensures LowestFCostPosition([1, 7, 12, 2, 17, 16], NODES_5) == 5
  {
    Lowest6_5();
    assert [1, 7, 12, 2, 17, 16][..5] == [1, 7, 12, 2, 17];
  }

  lemma Lowest6_7()
    ensures LowestFCostPosition([1, 7, 12, 2, 17, 16, 15], NODES_5) == 5
  {
    Lowest6_6();
    assert [1, 7, 12, 2, 17, 16, 15][..6] == [1, 7, 12, 2, 17, 16];
  }

  lemma Lowest6()
    ensures GetLowestFCostIndex(STATE_5.open, STATE_5.nodes) == Some(16)
  {
    Lowest6_7();
  }


  /** The walk `find_path` reconstructs for this search, goal first. */
  const EXAMPLE_PATH: seq<Point> := [Point(3, 1), Point(2, 1), Point(1, 1), Point(0, 0)]

  /**
    From (0, 0) to (3, 1) on the open 4 by 5 grid the search expands nodes
    0, 6, 5, 11 and 10 and stops in its sixth iteration, with the goal 16 as
    the lowest-`f` open node; the links it leaves are those of `NODES_5`.
   */
  lemma SearchExample()
    ensures SearchInv(InitialState(0, 3, 1), 0, 0)
    ensures SearchLoop(InitialState(0, 3, 1), 0, 16, 0) == Outcome(STATE_5, 6)
    ensures SearchedNodes(0, 16, 3, 1) == NODES_5
  {
    hide SearchLoop, Expand, SearchInv, InitialState, InitialNodes, RelaxAll, Relax, GetLowestFCostIndex, IterationRun,
         Fresh, FCostFresh, AllPlaced, Placed, CalculateDistCost;
    InitialStateExample();
    InitialInvariantExample();
    RunFrom0();
    Lowest6();
    SearchLoopRun(EXAMPLE_STATES, EXAMPLE_CURRENTS, 0, 16, 0, 0);
  }

  /** The states at the top of the first six iterations, and the nodes expanded in the first five. */
  const EXAMPLE_STATES: seq<SearchState> := [STATE_0, STATE_1, STATE_2, STATE_3, STATE_4, STATE_5]
  const EXAMPLE_CURRENTS: seq<nat> := [0, 6, 5, 11, 10]

  /** Past the fifth iteration nothing remains of the run. */
  lemma RunFrom5()
    ensures IterationRun(EXAMPLE_STATES, EXAMPLE_CURRENTS, 16, 5)
  {
  }

  /** The fifth iteration expands its node and leads to the last state. */
  lemma RunFrom4()
    ensures IterationRun(EXAMPLE_STATES, EXAMPLE_CURRENTS, 16, 4)
  {
    hide SearchLoop, Expand, SearchInv, InitialState, InitialNodes, RelaxAll, Relax, GetLowestFCostIndex,
         RemoveFirst, GetNeighbourIndices, Tentative, NoDuplicates, ImprovedVia, LowestFCostPosition;
    Iteration5();
    RunFrom5();
  }

  /** Iterations 4 to 5 each expand their node and lead to the next state. */
  lemma RunFrom3()
    ensures IterationRun(EXAMPLE_STATES, EXAMPLE_CURRENTS, 16, 3)
  {
    hide SearchLoop, Expand, SearchInv, InitialState, InitialNodes, RelaxAll, Relax, GetLowestFCostIndex,
         RemoveFirst, GetNeighbourIndices, Tentative, NoDuplicates, ImprovedVia, LowestFCostPosition;
    Iteration4();
    RunFrom4();
  }

  /** Iterations 3 to 5 each expand their node and lead to the next state. */
  lemma RunFrom2()
    ensures IterationRun(EXAMPLE_STATES, EXAMPLE_CURRENTS, 16, 2)
  {
    hide SearchLoop, Expand, SearchInv, InitialState, InitialNodes, RelaxAll, Relax, GetLowestFCostIndex,
         RemoveFirst, GetNeighbourIndices, Tentative, NoDuplicates, ImprovedVia, LowestFCostPosition;
    Iteration3();
    RunFrom3();
  }

  /** Iterations 2 to 5 each expand their node and lead to the next state. */
  lemma RunFrom1()
    ensures IterationRun(EXAMPLE_STATES, EXAMPLE_CURRENTS, 16, 1)
  {
    hide SearchLoop, Expand, SearchInv, InitialState, InitialNodes, RelaxAll, Relax, GetLowestFCostIndex,
         RemoveFirst, GetNeighbourIndices, Tentative, NoDuplicates, ImprovedVia, LowestFCostPosition;
    Iteration2();
    RunFrom2();
  }

  /** Iterations 1 to 5 each expand their node and lead to the next state. */
  lemma RunFrom0()
    ensures IterationRun(EXAMPLE_STATES, EXAMPLE_CURRENTS, 16, 0)
  {
    hide SearchLoop, Expand, SearchInv, InitialState, InitialNodes, RelaxAll, Relax, GetLowestFCostIndex,
         RemoveFirst, GetNeighbourIndices, Tentative, NoDuplicates, ImprovedVia, LowestFCostPosition;
    Iteration1();
    RunFrom1();
  }

  /** The predecessor links the search leaves lead from node 11 back to the start. */
  lemma TraceExample()
    ensures LinksDescend(NODES_5) && Trace(NODES_5, 11) == [Point(2, 1), Point(1, 1), Point(0, 0)]
  {
    hide SearchedNodes, SearchLoop, Expand, SearchInv, InitialState, InitialNodes, LinksDescend, LinksAreSteps, AllPlaced;
    SearchExample();
    assert RootedChains(NODES_5, 0);
    assert Trace(NODES_5, 0) == [Point(0, 0)];
    assert Trace(NODES_5, 6) == [Point(1, 1), Point(0, 0)];
  }

  /** The search above reports the goal-first path (3, 1), (2, 1), (1, 1), (0, 0). */
  lemma FindPathExample()
    ensures FindPath(0, 0, 3, 1) == EXAMPLE_PATH
  {
    hide SearchedNodes, SearchLoop, Expand, SearchInv, InitialState, InitialNodes, LinksDescend, LinksAreSteps, AllPlaced, Trace;
    SearchExample();
    TraceExample();
  }

  /**
    The example path costs 14 + 10 + 10 = 34, the heuristic distance between
    its ends, so no walk between (3, 1) and (0, 0) is cheaper.
   */
  lemma ExamplePathIsCheapest(walk: seq<Point>)
    requires |walk| >= 1 && walk[0] == Point(3, 1) && walk[|walk| - 1] == Point(0, 0)
    ensures WalkCost(EXAMPLE_PATH) == 34 == Dist(Point(0, 0), Point(3, 1))
    ensures WalkCost(walk) >= WalkCost(EXAMPLE_PATH)
  {
    WalkCostLowerBound(walk);
    assert EXAMPLE_PATH[1..][1..][1..] == [Point(0, 0)];
    assert WalkCost(EXAMPLE_PATH[1..][1..][1..]) == 0;
    assert Dist(Point(1, 1), Point(0, 0)) == 14;
    assert WalkCost(EXAMPLE_PATH[1..][1..]) == 14;
    assert WalkCost(EXAMPLE_PATH[1..]) == 24;
  }
}
