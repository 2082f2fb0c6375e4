# MinesweeperTD core in Dafny

A Dafny model of the deterministic game logic of MinesweeperTD, a Bevy tower-defence game. It covers four parts:

- **A\* pathfinding** (`src/pathfinding.rs`). The model covers:
  - the column-major node index;
  - the octile heuristic, 10 per straight step and 14 per diagonal step;
  - the saturating `f = g + h`;
  - bounds-checked 8-neighbour generation;
  - lowest-`f` selection that keeps the first minimum;
  - the open/closed-list search loop, capped at 50 iterations;
  - predecessor-chain reconstruction, which yields the path goal-first.

  `find_path` returns the reconstructed path instead of printing it. The search loop is a tail-recursive function over an explicit state of node list, open list and closed list. An invariant predicate (`SearchInv`) is carried through every iteration.

  On the open 4 by 5 grid the search is optimal. A second invariant (`AStarInv`) says that every closed node is settled at its cheapest cost. Because the heuristic is consistent, the lowest-`f` open node is always settled when it is picked. The goal therefore ends with `g` equal to the heuristic distance from the start. So for any two distinct cells `find_path` returns a path whose cost is that distance, and no walk is cheaper. The loop never reaches its cap of 50: it closes a new cell each iteration and there are only 20.

  A fully evaluated run of `find_path(0, 0, 3, 1)` is proved step by step in module `PathExample`.
- **The tile grid** (`src/grid.rs`). The model covers:
  - the 18 by 14 column-major lookup `get_xy`;
  - the fill order and checkerboard colouring of `setup`;
  - the four per-frame systems `clear_interaction`, `interaction`, `tile_interaction` and `clear_selection`. Each is a pure function over a map from entity to tile state. `RunFrame` composes them in their scheduled order.
- **Territory growth** (`src/castle.rs`): `TerritoryInfo::new`, and `number_filled` as a step on the radius and centre, folded over any sequence of frames.
- **Enemies** (`src/enemy.rs`):
  - `Enemy::new`;
  - saturating `take_damage` on 32-bit health;
  - `tick_enemy` as a fold that despawns dead enemies and pays every castle one coin per death.

Modules: `Options` (the `Option` type), `PathGeometry` (points, index, distance, neighbours), `Pathfinding`, `PathExample`, `Grid`, `Castle`, `Enemy`.

Modelling conventions:

- `usize` values are `nat`, and `MAX` stands for `usize::MAX` (64 bits). Every `g` in the search is proved to stay below `14 * 51`, so the source's unchecked additions of a distance to `g` cannot overflow.
- `u32` is a newtype bounded by `0xFFFF_FFFF`.
- Engine resources, events and input are explicit parameters: the hovered tile, whether the left button or Space was just pressed, the number of pending events. Outputs are explicit results: queued `Selection` insertions and removals, despawned entities, expand events sent.
- Bevy applies deferred commands at the end of the stage. The model therefore returns the `Selection` insertions and removals as sets and applies them after all four systems, in system order. So `clear_selection` sees the selections as they stood when the frame began.

About the example search from (0, 0) to (3, 1):

- The code produces the path (3, 1), (2, 1), (1, 1), (0, 0), as the comment at `src/pathfinding.rs:68-72` records. That path costs 14 + 10 + 10 = 34, which equals the heuristic between its ends, so no walk is cheaper.
- The 30 worked out in the comment at `src/pathfinding.rs:308-311` is the heuristic from (0, 1) to (3, 1).
- `PathExample.FindPathExample` and `PathExample.ExamplePathIsCheapest` state the path and its cost 34; `PathGeometry.DistExample` states the 30.

## Model

| member | source | states |
|---|---|---|
| PathGeometry.IndexInBounds | src/pathfinding.rs:282-297 | an in-bounds pair `(x, y)` gets an index below `width * height` |
| PathGeometry.IndexInjective | src/pathfinding.rs:282-297 | two pairs with `y` below the height and equal indices are the same pair |
| PathGeometry.IndexRoundTrip | src/pathfinding.rs:282-297 | the index decodes back to `x` by division and to `y` by remainder |
| PathGeometry.CalculateDistCost | src/pathfinding.rs:299-317 | the cost equals `6 * chebyshev + 4 * manhattan`, i.e. 14 per diagonal and 10 per remaining straight step |
| PathGeometry.DistSymmetric | src/pathfinding.rs:299-317 | the distance from a to b equals the distance from b to a |
| PathGeometry.DistZeroIffEqual | src/pathfinding.rs:299-317 | the distance is 0 exactly when the two points are equal |
| PathGeometry.DistExample | src/pathfinding.rs:308-311 | the distance from (0, 1) to (3, 1) is 30 |
| PathGeometry.DistAdjacent | src/pathfinding.rs:299-317 | between king-adjacent points the distance is 10 for an orthogonal step and 14 for a diagonal one |
| PathGeometry.StepTowardIsOnRoute | src/pathfinding.rs:299-317 | one king step from `p` toward `t` stays inside their bounding box and lies on a cheapest route: the heuristic splits exactly at it |
| PathGeometry.DistTriangle | src/pathfinding.rs:299-317 | the heuristic satisfies the triangle inequality (it is consistent) |
| PathGeometry.WalkCostLowerBound | src/pathfinding.rs:299-317 | every walk costs at least the heuristic between its ends (the heuristic is admissible) |
| PathGeometry.NeighbourPoints | src/pathfinding.rs:243-273 | at most 8 points, each at Chebyshev distance exactly 1 from `(x, y)` (so never `(x, y)` itself) |
| PathGeometry.NeighboursDistinct | src/pathfinding.rs:243-273 | the neighbour points are pairwise distinct |
| PathGeometry.NeighboursInBounds | src/pathfinding.rs:243-273 | for an in-bounds centre every neighbour is in bounds |
| PathGeometry.NeighboursComplete | src/pathfinding.rs:243-273 | every in-bounds king neighbour of an in-bounds point is listed |
| PathGeometry.GetNeighbourIndices | src/pathfinding.rs:243-273 | the indices are those of the neighbour points; for an in-bounds centre they are in range, pairwise distinct and never the centre's own index |
| PathGeometry.CornerHasThreeNeighbours | src/pathfinding.rs:243-273 | the corner (0, 0) has exactly 3 neighbours |
| PathGeometry.InteriorHasEightNeighbours | src/pathfinding.rs:243-273 | an interior point has exactly 8 neighbours |
| Pathfinding.CalculateFCost | src/pathfinding.rs:44-52 | `f` is `g + h` when that fits in `MAX`, otherwise `MAX`; it never exceeds `MAX`, and no other field changes |
| Pathfinding.InitialNodes | src/pathfinding.rs:90-108 | the list has `width * height` nodes, and node `k` sits at index `k` with its coordinates in bounds, `g = f = MAX`, walkable, no predecessor and `h` the distance to the goal |
| Pathfinding.PlacedLookup | src/pathfinding.rs:90-107 | in a placed list the node at `calculate_index(x, y)` has coordinates `(x, y)` |
| Pathfinding.InitialNodeAt | src/pathfinding.rs:90-107 | the node pushed for `(x, y)` is at `calculate_index(x, y)` |
| Pathfinding.LowestFCostPosition | src/pathfinding.rs:275-280 | the chosen position has minimal `f`, and every earlier position has a strictly larger `f` (first minimum) |
| Pathfinding.GetLowestFCostIndex | src/pathfinding.rs:275-280 | the result is None exactly when the open list is empty; otherwise it is an open entry with minimal `f`, and no earlier entry ties with it |
| Pathfinding.RemoveFirst | src/pathfinding.rs:136-144 | the list shrinks by one exactly when the value occurs in it |
| Pathfinding.FirstPosition | src/pathfinding.rs:136-138 | the scan stops at an entry equal to the value, and no earlier entry equals it |
| Pathfinding.RemoveFirstKeepsOrder | src/pathfinding.rs:136-144 | a list without the value comes back unchanged; otherwise exactly its first copy is cut out and the entries before and after it keep their order, which fixes the order `get_lowest_fcost_index` breaks ties by |
| Pathfinding.RemoveFirstMembers | src/pathfinding.rs:136-144 | every other value keeps its membership; in a duplicate-free list the value is gone and the list stays duplicate-free |
| Pathfinding.Relax | src/pathfinding.rs:156-184 | a closed, missing, blocked or not-improved neighbour leaves the state unchanged. An improved one alone changes: `g` becomes the tentative cost, the predecessor becomes the current node, `f` is recomputed as `g + h` saturated at `MAX`, and its index is appended to the open list unless already there. Closed list unchanged, open list extended, no duplicates introduced |
| Pathfinding.RelaxAll | src/pathfinding.rs:156-185 | over all neighbours, nodes only improve through the current node. Afterwards every listed neighbour that is in range, not closed and walkable has `g` at most the cost through the current node. Closed nodes are untouched, every changed node is on the open list, and `f` stays the saturated `g + h`. The closed list is unchanged and the open list only grows, without duplicates |
| Pathfinding.Expand | src/pathfinding.rs:132-185 | expanding a node removes its first occurrence from the open list, keeping the rest in order, so a duplicate-free open list no longer holds it. It appends the node to the closed list and changes nodes only by improvements through it. Every unclosed walkable neighbour ends with `g` at most the cost through it |
| Pathfinding.BoundBelowMax | src/pathfinding.rs:167-173 | after at most 50 iterations the cost bound plus one diagonal step, `14 * count + 14`, stays below `usize::MAX`; since `SearchInv` keeps every finite `g` at or under `14 * count`, the tentative cost `g + 14` cannot wrap |
| Pathfinding.RelaxKeepsInvariant | src/pathfinding.rs:156-184 | relaxing one neighbour preserves the search invariant: placed walkable nodes; open entries valid, reached, not closed and duplicate-free; start at `g = 0`; every `g` is `MAX` or at most the bound; every predecessor link is a closed king-neighbour with a smaller `g` accounting for the step |
| Pathfinding.RelaxKeepsLinks | src/pathfinding.rs:174-177 | setting `came_from` only on a strict improvement keeps every predecessor link sound |
| Pathfinding.RelaxAllKeepsInvariant | src/pathfinding.rs:156-185 | relaxing all neighbours preserves the search invariant |
| Pathfinding.ExpandKeepsInvariant | src/pathfinding.rs:132-185 | one iteration on an open node preserves the invariant, with the `g` bound growing by 14 |
| Pathfinding.SearchLoop | src/pathfinding.rs:122-191 | the loop runs at most 50 iterations. It stops at once on an empty open list or at the cap, and exactly one iteration later when the goal is the lowest-`f` open node |
| Pathfinding.SearchLoopInvariant | src/pathfinding.rs:122-191 | the loop ends in a state satisfying the invariant. Each node's `g` only decreased. The open list is empty, or the cap is reached, or the goal is the lowest-`f` open node |
| Pathfinding.SearchLoopStep | src/pathfinding.rs:124-191 | an iteration that picks a non-goal node expands it and continues from the next state |
| Pathfinding.SearchLoopRun | src/pathfinding.rs:124-191 | a run of iterations that ends with the goal as the lowest-`f` open node is what the loop computes, one iteration past the run |
| Pathfinding.Trace | src/pathfinding.rs:226-237 | following predecessors yields a walk that starts at the node, moves by king steps and stays on the grid |
| Pathfinding.TraceEndsAtStart | src/pathfinding.rs:226-237 | the predecessor walk of a reached node ends at the start |
| Pathfinding.TraceCost | src/pathfinding.rs:226-237 | the step costs of the predecessor walk add up to the node's `g` |
| Pathfinding.CalculatePath | src/pathfinding.rs:215-241 | the path is empty exactly when the goal has no predecessor; otherwise it starts at the goal, followed by the predecessor walk |
| Pathfinding.InitialState | src/pathfinding.rs:90-118 | the seeded state has one node per cell at its own index. Only the start is open and nothing is closed. The start has `g = 0`, `f` the saturated `h`, and is otherwise fresh; every other node is fresh |
| Pathfinding.InitialStateInvariant | src/pathfinding.rs:110-118 | the seeded start state (start `g = 0`, only the start open) satisfies the invariant |
| Pathfinding.SearchedNodes | src/pathfinding.rs:110-191 | after the loop every node sits at its own index. Every predecessor link is a king step to a reached node with smaller `g`, and `g` grows by exactly the step cost. The start has `g = 0` and no predecessor; any other node without one is unreached (`g = MAX`). A goal on the grid ends with `g` equal to the heuristic distance from the start, and with a predecessor unless it is the start |
| Pathfinding.FindPath | src/pathfinding.rs:84-207 | the returned path is empty or has at least two points. Consecutive points are king-adjacent and every point is on the grid. A non-empty path starts at the goal and ends at the start. Start equal to goal gives no path. For distinct start and goal on the grid the path is non-empty and costs exactly the heuristic distance between them, so it is a cheapest walk |
| Pathfinding.FoundPathIsCheapest | src/pathfinding.rs:193-205 | for distinct cells on the grid the goal has a predecessor, so the reconstructed path is non-empty, and it costs the heuristic distance |
| Pathfinding.ReconstructedPath | src/pathfinding.rs:193-205 | reconstructing from the searched nodes gives a path with the properties of `FindPath`, whose step costs add up to the goal's `g` |
| Pathfinding.ChainPath | src/pathfinding.rs:215-241 | a goal with a predecessor yields a king walk from the goal to the start costing the goal's `g` |
| Pathfinding.FinalNodesFacts | src/pathfinding.rs:122-191 | the search invariant implies the chain facts path reconstruction needs |
| Pathfinding.LinksFromInvariant | src/pathfinding.rs:174-177 | every predecessor link the search sets points to a reached node with a smaller `g`, one king step away |
| Pathfinding.GridDistBound | src/pathfinding.rs:299-317 | any two cells of the 4 by 5 grid are at most 100 apart, so `f` never saturates on it |
| Pathfinding.LowerBound | src/pathfinding.rs:167-177 | under the A* invariant no reached node's `g` is below the heuristic distance from the start |
| Pathfinding.Frontier | src/pathfinding.rs:124-185 | for any cell not closed on a cheapest route from the start, some open node on that route already has its cheapest cost |
| Pathfinding.SettleLowest | src/pathfinding.rs:275-280 | the lowest-`f` open node has `g` equal to the heuristic distance from the start (the heuristic is consistent) |
| Pathfinding.ExpandRelaxesNeighbour | src/pathfinding.rs:156-184 | after expanding a settled node, each king neighbour costs at most that node's `g` plus the step |
| Pathfinding.ExpandSettles | src/pathfinding.rs:132-185 | expanding the lowest-`f` node leaves it settled: its cost is cheapest and no neighbour costs more than the step through it |
| Pathfinding.ExpandKeepsSettled | src/pathfinding.rs:156-184 | an expansion leaves every earlier closed node settled |
| Pathfinding.ExpandKeepsReached | src/pathfinding.rs:146-181 | after an expansion every reached node is open or closed |
| Pathfinding.ExpandKeepsCosts | src/pathfinding.rs:174-177 | an expansion moves no node, keeps every `h` the heuristic to the goal and every `f` the saturated `g + h` |
| Pathfinding.ExpandKeepsClosed | src/pathfinding.rs:126-146 | expanding a non-goal lowest node closes it once and settled, and the goal stays unclosed |
| Pathfinding.ExpandKeepsAStarInv | src/pathfinding.rs:124-185 | one iteration that does not meet the goal preserves the A* invariant |
| Pathfinding.OpenWhileGoalOpen | src/pathfinding.rs:124 | while the goal is not closed the open list is non-empty, so the loop never stops for lack of open nodes |
| Pathfinding.ClosedBelowGrid | src/pathfinding.rs:124-146 | fewer than 20 nodes are ever closed, so the cap of 50 is never what stops the loop |
| Pathfinding.SearchLoopReachesGoal | src/pathfinding.rs:124-130 | the loop always stops with the goal as the lowest-`f` open node, preserving both invariants |
| Pathfinding.InitialAStarInv | src/pathfinding.rs:90-118 | the seeded state satisfies the A* invariant |
| Pathfinding.SearchSettlesGoal | src/pathfinding.rs:110-191 | a search toward a goal on the grid ends with the goal's `g` equal to the heuristic distance from the start, and with a predecessor unless it is the start |
| PathExample.SearchExample | src/pathfinding.rs:84-191 | searching from (0, 0) to (3, 1) runs exactly six iterations and leaves the state `STATE_5`, whose node list `NODES_5` fixes every node's costs and predecessor. The first five iterations expand nodes 0, 6, 5, 11 and 10; the sixth finds the goal 16 as the lowest-`f` open node |
| PathExample.TraceExample | src/pathfinding.rs:226-237 | after that search the predecessors of node 11 are (2, 1), (1, 1), (0, 0) |
| PathExample.FindPathExample | src/pathfinding.rs:55-73 | `find_path(0, 0, 3, 1)` yields (3, 1), (2, 1), (1, 1), (0, 0), goal first |
| PathExample.ExamplePathIsCheapest | src/pathfinding.rs:55-73 | the example path costs 34, equal to the heuristic from the start, so no walk between its ends is cheaper |
| Grid.TileIndexRoundTrip | src/grid.rs:66 | an in-bounds pair gets an index in `[0, 252)` that decodes back to the pair |
| Grid.TileIndexInjective | src/grid.rs:66 | distinct in-bounds pairs get distinct indices, and equal pairs equal ones |
| Grid.TileIndexCovers | src/grid.rs:66 | every index below 252 is the index of an in-bounds pair |
| Grid.GetXY | src/grid.rs:60-74 | None whenever `x >= 18` or `y >= 14`. Some exactly for in-bounds pairs whose index is in the list, and then the entry at `x * 14 + y` |
| Grid.SameColourIffSameParity | src/grid.rs:86-105 | two tiles share a base colour exactly when their coordinate sums have the same parity |
| Grid.AdjacentTilesDiffer | src/grid.rs:86-105 | orthogonally adjacent tiles always have different base colours |
| Grid.Setup | src/grid.rs:77-126 | exactly 252 tiles are pushed in x-major, then y order, so `get_xy` finds for every in-bounds pair the entity spawned for that pair. Each tile starts with its parity colour, no interaction and no selection |
| Grid.ClearInteraction | src/grid.rs:129-145 | only the interaction changes. Afterwards no tile is hovered, and a tile is clicked exactly when it was clicked and selected |
| Grid.UpdateInteraction | src/grid.rs:148-177 | only the tile under the mouse changes. It is never left at None, and it is clicked exactly when it was clicked or the left button was just pressed |
| Grid.HoveredBranchUnreachable | src/grid.rs:158-174 | because `clear_interaction` runs first, deleting the `Hovered` branch of `interaction` changes nothing |
| Grid.TileInteraction | src/grid.rs:182-200 | each sprite shows the tile's selection, hover or base colour by interaction. Selection is queued for exactly the clicked tiles. Nothing else changes |
| Grid.ClearSelection | src/grid.rs:202-214 | on Space or a pending clear event the events are consumed and every selected tile gets a removal queued; otherwise nothing happens |
| Grid.RunFrame | src/grid.rs:9-16 | one frame keeps the set of tiles and every tile's colours, and leaves no clear request pending |
| Grid.FrameOutcome | src/grid.rs:8-17 | over one scheduled frame a tile ends selected exactly when it was selected and no clear was requested, or it was unselected and ends clicked. A tile is clicked only if it was clicked and selected, or it is under the mouse at a press. Only the tile under the mouse can be hovered |
| Grid.SelectedClickPersists | src/grid.rs:131-136 | a clicked and selected tile stays clicked and selected through a frame without a clear request |
| Grid.ClickSelects | src/grid.rs:168-191 | pressing on a tile leaves it clicked and selected, unless it was selected and a clear is requested in the same frame |
| Castle.NewTerritory | src/castle.rs:23-31 | a new territory has radius 1 (odd, at least 1) and centre (10, 10) |
| Castle.NumberFilled | src/castle.rs:44-64 | a non-empty batch grows the radius by exactly 2 and sends one expand event; an empty batch changes nothing and sends nothing. The pending events are consumed, the centre never moves, and an odd radius stays odd |
| Castle.BatchSizeIrrelevant | src/castle.rs:49-52 | any two non-empty batches have the same effect |
| Castle.RunFramesGrowth | src/castle.rs:49-62 | over any sequence of frames the radius grows by 2 per non-empty batch, and as many expand events are sent. The centre stays fixed |
| Castle.RadiusInvariant | src/castle.rs:24-52 | from a new territory the radius stays odd and at least 1 and never decreases from a prefix of the frames to the whole |
| Enemy.NewEnemy | src/enemy.rs:24-26 | a new enemy has exactly the health it is given |
| Enemy.TakeDamage | src/enemy.rs:28-34 | damage above the health leaves 0, otherwise the difference (0 when equal). Health never grows, and damage 0 changes nothing |
| Enemy.DamageAccumulates | src/enemy.rs:24-34 | a new enemy of health `h` hit by a sequence of damages has `h` minus their total left, or 0 once the total reaches `h` |
| Enemy.TickEnemy | src/enemy.rs:76-90 | each enemy is either kept or despawned, and every castle's money grows by exactly the number despawned |
| Enemy.TickEnemyMembers | src/enemy.rs:81-83 | the enemies kept are exactly those with non-zero health, unchanged, and every zero-health enemy is despawned |
| Enemy.TickEnemyPaysPerDeath | src/enemy.rs:84-87 | the number despawned, and so each castle's gain, is the number of zero healths among the enemies |

## Left out

- `Grid::get_vec2` (`src/grid.rs:49-58`) converts a float world position to tile coordinates. It is replaced by the parameter `hovered` of `Grid.UpdateInteraction`, the entity it would find.
- The sprite, transform and colour-bundle spawning in `setup` is engine plumbing. The model keeps the fill order, the tile's colours and its starting components.
- The engine's entity allocator is modelled by `Grid.Setup` handing out consecutive ids from `firstEntity`.
- Bevy events live in a double buffer and are dropped after two frames. `Grid.ClearSelection` and `Castle.NumberFilled` keep unread events pending indefinitely.
- The `startup` system of `src/castle.rs:38-42`, which sends an expand event on the F key, is not modelled. It is keyboard handling outside the radius state machine.
- `bombs_percent` in `src/castle.rs` is an `f32`. It is omitted, like the `println!` in `number_filled`.
- Castle.NumberFilled: does not model the wrap-around of the `i32` radius, because that needs more than a billion expansions.
- The `Castle` component is not part of this model. Its `money` is modelled as an unbounded `nat`, so the `+= 1` of `tick_enemy` is not checked for overflow.
- `movement` and `spawn_enemy` in `src/enemy.rs` are float translation and physics setup. `despawn_recursive` is returned as a list of despawned entities.
- The `println!` output of `find_path` (`src/pathfinding.rs:193-205`) is replaced by returning the path. The `test_path` startup system is modelled as the example lemmas in `PathExample`.
- The `else` branch at `src/pathfinding.rs:187-190` cannot run while the open list is non-empty, and `nodes.get(current_node_index)` at line 132 always succeeds. The model proves both facts instead of modelling a fall-through.
- `calculate_path` loops forever if a predecessor index is out of range, and also if the predecessor links form a cycle. The search never produces either: `Pathfinding.LinksFromInvariant` proves `LinksDescend`, under which every link is in range and leads to a node of strictly smaller cost, so a cycle is impossible. The model therefore needs no such case.
- `get_neighbour_indicies` computes `height - 1` and `width - 1` in `usize`. For a zero dimension a debug build panics there, and a release build wraps to `usize::MAX` and returns indices without panicking. `PathGeometry.NeighbourPoints` therefore requires both dimensions to be at least 1. `find_path` always passes 4 and 5.
- `find_path` computes in `usize` and the model uses unbounded arithmetic. Two computations can overflow for large coordinates:
  - the node index `y + x * 5`, for coordinates so large that it wraps, so the source would look up a different node;
  - the heuristic `h` (`src/pathfinding.rs:93`), which `calculate_dist_cost` computes with a multiplication and an addition (`src/pathfinding.rs:316`); it overflows once a goal coordinate reaches about `usize::MAX / 14`.

  A debug build panics on such an overflow, and a release build wraps. Neither happens for cells of the 4 by 5 grid.
- `src/utility.rs` (float intercept maths and Bézier helpers), `src/ui.rs`, `src/tower.rs`, `src/director.rs`, `src/loading.rs` and `src/main.rs` are UI, engine or float code outside this model.
