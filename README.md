# 8-puzzle search algorithms, modelled in Dafny

The model covers the search core of an 8-puzzle visualiser. A board is a 3x3 grid holding the tiles 0..8, where 0 is the blank. A move slides the blank up, down, left or right. Each move is charged a cost from a table keyed by the direction. The library solves a board in four ways:

- **Uninformed search:** breadth-first, depth-first, uniform-cost and iterative deepening.
- **Informed search:** greedy best-first, A* and IDA*, all on the Manhattan heuristic.
- **Local search:** steepest-ascent, first-improvement and stochastic hill climbing, and beam search.
- **Constraint satisfaction and non-classical search:**
  - a constraint-satisfaction formulation with backtracking, forward checking and AC-3;
  - AND-OR search in two variants;
  - sensorless and partially observable belief-state search;
  - three greedy step-by-step walkers.

Every search returns three things:

- a path of boards;
- its cumulative cost list;
- a log (`all_paths`) of the partial paths it explored, each with its cost.

## Layout

| file | module | source |
|---|---|---|
| wrappers.dfy | Wrappers | `Option`, for `None` results and `float('inf')` sentinels |
| utils.dfy | Utils | algorithms/utils.py: blank lookup, move direction, neighbours, cumulative costs, the parity repair of a shuffled board |
| space.dfy | Space | the finite state space: the rearrangements of the start board's cells, which bound every search loop |
| search.dfy | Search | what the frontier searches share: the `all_paths` log, frontier entries, Python's order on heap entries and the visited-on-push bookkeeping |
| uninformed.dfy | Uninformed | algorithms/uninformed.py |
| informed.dfy | Informed | algorithms/informed.py |
| local.dfy | Local | algorithms/local.py |
| constraint.dfy | Constraint | algorithms/constraint.py |
| nondeterministic.dfy | Nondeterministic | algorithms/nondeterministic.py |
| complex.dfy | Complex | algorithms/complex.py |
| sensor.dfy | Sensor | algorithms/sensor_based.py |
| agreement.dfy | Agreement | the action and result functions that complex.py, nondeterministic.py and sensor_based.py each re-implement, tied to get_neighbors |

## Conventions

- **Boards.** A board is the row-major list of its nine cells (`seq<int>`). Python compares tuples of rows lexicographically, which is the same as comparing the flattened lists lexicographically. That order breaks ties in the heaps and in the `sort()` calls.
- **Move costs.** `MOVE_COSTS` comes from a `constants` module that is not part of this model. It is a parameter `mc: map<Dir, nat>`.
  - `MOVE_COSTS[d]` requires `d in mc`. Where the source indexes the table, the members require `Complete(mc)`; a missing key is a `KeyError` in the source.
  - `MOVE_COSTS.get(a, 1)` is `CostOr1`.
- **Sentinels.** `float('inf')` is `None` in an `Option<nat>`.
- **Randomness.** `random.choice` is an arbitrary choice (`:|`) from the same non-empty list. The shuffle of `generate_random_state` is an input.
- **Set iteration order.** Where the result can depend on Python's set iteration order, the model iterates in an arbitrary order. Each member's contract holds for every order. This covers the AC-3 neighbour set and the common actions of the sensorless search.
- **Shared mutable state.** The state the constraint solver threads through its recursion is the field state of the class `Constraint.Solver`:
  - the domain dictionary;
  - the assignment;
  - the grid trail;
  - the one-element counter lists.
  The other searches keep their frontier, visited set and log as loop variables of a method.
- **Hill-climbing log aliasing.** The hill-climbing functions put the list `path` itself into `all_paths` as record 0 (local.py:13, 45, 73). That record therefore shows the final path when the function returns. `Local.Publish` models this as written.
- **The nondeterministic blank scan.** In nondeterministic.py and sensor_based.py, the blank scan's `break` leaves only the inner loop. On a board with more than one 0 the scan therefore finds the first blank of the last row that has one. `Nondeterministic.ScanRows` models this. On boards with one blank it is the blank (`Nondeterministic.ScanBlankUnique`).
- **AC-3 directionality.** AC-3 revises only the first variable of each queued pair, against the constraints stated in that direction. The model keeps this directional revision.

## Model

| member | source | states |
|---|---|---|
| Utils.FirstZeroFrom | algorithms/utils.py:3-8 | the first cell at or after k holding 0, with every cell before it non-blank; None when no cell from k on holds 0 |
| Utils.BlankIndex | algorithms/utils.py:3-8 | the blank cell get_zero_position stops at: it holds 0 and no earlier cell in row-major order does |
| Utils.ZeroPosition | algorithms/utils.py:3-8 | None exactly when no cell holds 0; otherwise the (row, column) of the row-major-first blank |
| Utils.PermutationHasUniqueBlank | algorithms/utils.py:42-49 | a board holding each of 0..8 once has exactly one blank |
| Utils.MoveDirection | algorithms/utils.py:10-17 | get_move_direction answers None exactly when both boards have their blank in the same cell |
| Utils.MoveDirectionByPosition | algorithms/utils.py:10-17 | the answer is up, down, left, right or None by comparing the two (row, column) pairs of get_zero_position, rows first |
| Utils.Step | algorithms/utils.py:23-26 | a target cell, when the blank has one in that direction, lies on the 3x3 board and is not the cell it starts from |
| Utils.LegalAt | algorithms/utils.py:23-26 | the directions of a list, in order, that keep the blank on the grid, and no others |
| Utils.StepFacts | algorithms/utils.py:13-26 | stepping back in the opposite direction returns to the start cell, and the target lies above, below, left or right as the direction says |
| Utils.SwapFacts | algorithms/utils.py:28 | exchanging two cells swaps their values, keeps every other cell and keeps the multiset of values |
| Utils.SwapPermutation | algorithms/utils.py:28 | a swap keeps a permutation of 0..8 a permutation |
| Utils.SwapBack | algorithms/utils.py:28 | swapping the same two cells again restores the board |
| Utils.Move | algorithms/utils.py:24-29 | a move in a direction exists exactly when the blank's target cell is on the grid |
| Utils.MoveFacts | algorithms/utils.py:27-29 | a move keeps the tiles, puts the blank on the target cell and is the swap of the blank with that cell |
| Utils.CollectStep | algorithms/utils.py:24-29 | one round of the loop appends the swapped copy exactly when the target (nx, ny) is on the grid |
| Utils.GetNeighbors | algorithms/utils.py:19-30 | the loop over the four directions returns the neighbour list Neighbors |
| Utils.NeighborsInOrder | algorithms/utils.py:19-30 | the neighbours are the legal moves listed up, down, left, right |
| Utils.CollectMember | algorithms/utils.py:24-29 | a board is collected exactly when some tried direction moves to it |
| Utils.NeighborsExactly | algorithms/utils.py:19-30 | a board is a neighbour exactly when a move in some direction produces it |
| Utils.NeighborsKeepTiles | algorithms/utils.py:27-29 | every neighbour keeps the multiset of tiles and still has a blank |
| Utils.NeighborsCount | algorithms/utils.py:19-30 | the number of neighbours is 2 in a corner, 3 on an edge and 4 in the centre |
| Utils.MovedBlank | algorithms/utils.py:28 | after a move from a board with one blank, the blank is unique and sits at the target cell |
| Utils.NeighborOfPermutation | algorithms/utils.py:27-29 | a neighbour of a permutation is a permutation and differs from it exactly by swapping the two blank cells |
| Utils.MoveDirectionOfMove | algorithms/utils.py:10-30 | on a board with one blank, get_move_direction names the direction of the move that produced the neighbour |
| Utils.MoveDirectionSame | algorithms/utils.py:17 | get_move_direction of a board and itself is None |
| Utils.MoveInverse | algorithms/utils.py:19-30 | the move in the opposite direction undoes a move |
| Utils.NeighborsSymmetric | algorithms/utils.py:10-30 | the neighbour relation is symmetric on boards with one blank, and the direction back is the opposite one |
| Utils.WalkSnoc | algorithms/utils.py:19-30 | a walk extended by a neighbour of its last board is a walk |
| Utils.Costs | algorithms/utils.py:32-38 | the cost list has one entry per board of a non-empty path (one for the empty path) and starts with 0 |
| Utils.CostsStep | algorithms/utils.py:35-37 | costs[i] = costs[i-1] + MOVE_COSTS of the direction of step i, or + 0 when get_move_direction gives None |
| Utils.CostsNondecreasing | algorithms/utils.py:32-38 | with non-negative move costs the cumulative costs never decrease |
| Utils.CostsSnoc | algorithms/utils.py:35-37 | extending a path by one board adds that step's cost to the last cumulative cost |
| Utils.CostsExtend | algorithms/utils.py:35-37 | the cost list of an extended path is the old list plus one entry |
| Utils.CalculateCosts | algorithms/utils.py:32-38 | the loop of calculate_costs returns the cost list Costs of the path |
| Utils.NonBlank | algorithms/utils.py:51 | the tiles of a board without its blanks are no more than its cells |
| Utils.Refill | algorithms/utils.py:65-76 | refilling the non-blank cells from a tile list gives a board of the same size |
| Utils.SwapFrontParity | algorithms/utils.py:60-63 | exchanging two different adjacent values changes the inversion count by exactly one |
| Utils.NonBlankNoZero | algorithms/utils.py:51 | the flattened tile list holds no 0 |
| Utils.NonBlankMultiset | algorithms/utils.py:51 | the flattened tile list holds every non-zero value of the board and nothing more |
| Utils.RefillMultiset | algorithms/utils.py:65-76 | the refilled board holds the board's blanks plus the given tiles |
| Utils.RefillNonBlank | algorithms/utils.py:65-76 | flattening the refilled board gives back the tile list |
| Utils.RefillKeepsBlanks | algorithms/utils.py:70-71 | the refilled board has its blanks exactly where the original board has them |
| Utils.FirstTilePair | algorithms/utils.py:60-63 | the first position whose pair holds two tiles, or the length when there is none |
| Utils.CountInversions | algorithms/utils.py:52-56 | the double loop counts the inversions of the tile list |
| Utils.SwapFirstTilePair | algorithms/utils.py:60-63 | the loop swaps the first adjacent pair of tiles and stops, and changes nothing when there is none |
| Utils.Rebuild | algorithms/utils.py:65-76 | the nested loops with the counter build the refilled board |
| Utils.RefillFacts | algorithms/utils.py:65-76 | refilling with a rearrangement of the tiles keeps the multiset, the blank cells, and flattens back to the new tile list |
| Utils.GenerateRandomState | algorithms/utils.py:40-78 | from a shuffled permutation, the result keeps the multiset of values and the blank's cell, and has an even inversion count among its tiles; an even shuffle is returned unchanged |
| Utils.SwapFront | algorithms/utils.py:60-63 | swapping the two first tiles keeps the tiles and changes the inversion count by one |
| Utils.ParityRepaired | algorithms/utils.py:59-63 | on a shuffled permutation, the repair swap keeps the tiles and makes an odd inversion count even |
| Utils.RefillStep | algorithms/utils.py:67-74 | one cell of the refill loop: the counter advances exactly on a non-blank cell and stays within the tile list |
| Utils.RefillSnocBlank | algorithms/utils.py:70-71 | a blank cell keeps the refill's multiset balance |
| Utils.RefillSnocTile | algorithms/utils.py:72-74 | a tile cell takes the next tile and keeps the refill's multiset balance |
| Utils.TilesOfPermutation | algorithms/utils.py:51 | the flattened tiles of a shuffled 0..8 board hold no blank, at least two tiles, the first two different |
| Utils.TilesDistinct | algorithms/utils.py:59-63 | the first two flattened tiles differ, so the swap changes the list |
| Utils.CountLessFront | algorithms/utils.py:53-56 | the inversions counted for one position split off its first comparison |
| Utils.InvUpToTail | algorithms/utils.py:52-62 | swapping the first two tiles leaves the inversions among later positions unchanged |
| Space.InUniverse | algorithms/utils.py:27-29 | a board holding the start's multiset of values lies in the finite board space of the start |
| Space.NeighborsStay | algorithms/uninformed.py:15-17 | every neighbour of a board with the start's tiles keeps them and stays inside the finite space, so visited sets are bounded |
| Search.LexIrreflexive | algorithms/informed.py:19 | no heap key sorts before itself |
| Search.LexTransitive | algorithms/informed.py:19 | the tuple order heapq compares by is transitive |
| Search.ArgMin | algorithms/informed.py:19 | heappop takes an index of the frontier |
| Search.ArgMinMinimal | algorithms/informed.py:19 | no entry of the frontier has a key smaller than the one heappop takes |
| Search.ArgMinFirst | algorithms/uninformed.py:50 | the popped entry has the smallest leading field, the cost in ucs and the priority in greedy and astar |
| Search.Remove | algorithms/informed.py:19 | popping entry r keeps every other entry in its order |
| Search.TrackedStart | algorithms/uninformed.py:7 | the start entry ([start], 0) holds a walk with its calculate_costs total |
| Search.TrackedExtend | algorithms/uninformed.py:18-20 | a child entry (neighbour, path + [neighbour], cost + MOVE_COSTS[direction]) holds a walk with its calculate_costs total |
| Search.TrackedChild | algorithms/uninformed.py:18-20 | the same with the new cost computed by the caller |
| Search.WalkFront | algorithms/informed.py:60-64 | dropping the last board of a walk leaves a walk to a neighbour of that board |
| Search.PathSetSnoc | algorithms/sensor_based.py:53 | adding a board to the path adds it to the path's set of boards |
| Search.WalkKeepsTiles | algorithms/utils.py:27-29 | every board of a walk holds the start's tiles |
| Search.WalkInUniverse | algorithms/utils.py:27-29 | every board of a walk lies in the start's finite board space |
| Search.DistinctCard | algorithms/informed.py:60 | a path without repeats has as many distinct boards as entries |
| Search.PathGrows | algorithms/informed.py:60-64 | extending a repeat-free path by a new neighbour keeps it repeat-free and uses up one more board of the space |
| Search.CutLoop | algorithms/informed.py:60 | cutting out a loop of a walk leaves a walk with the same ends |
| Search.Shortcut | algorithms/informed.py:60 | every walk has a repeat-free walk with the same ends that is no longer |
| Search.ChildrenExhaustedNext | algorithms/informed.py:59-67 | one more failed child keeps all tried children failed |
| Search.ExhaustedStep | algorithms/informed.py:59-68 | when every child of a non-goal board fails, no repeat-free extension of its path reaches the goal |
| Search.ExhaustedUnreachable | algorithms/informed.py:76-77 | when the search from start fails with no bound left, the goal is unreachable from start |
| Search.InvInit | algorithms/uninformed.py:7-9 | the initial frontier, visited set and empty log satisfy the search invariant |
| Search.FrontierPush | algorithms/uninformed.py:16-20 | pushing an unvisited child and marking it visited keeps every frontier entry tracked and unexpanded |
| Search.CoveredPush | algorithms/uninformed.py:16-20 | marking the pushed child visited keeps every visited board either expanded or on the frontier |
| Search.InvPush | algorithms/uninformed.py:16-20 | pushing an unvisited child keeps the search invariant |
| Search.PushTracked | algorithms/uninformed.py:16-20 | pushing a child built from an expanded entry keeps the search invariant |
| Search.FrontierPop | algorithms/uninformed.py:11 | popping an entry keeps the rest of the frontier tracked and unexpanded |
| Search.CoveredPop | algorithms/uninformed.py:11 | the popped board counts as expanded, so visited boards stay covered |
| Search.LogAppend | algorithms/uninformed.py:12 | appending the popped entry to all_paths keeps every record tracked and every expanded board recorded once |
| Search.InvPop | algorithms/uninformed.py:11-13 | popping a non-goal entry keeps the invariant and uses up one more board of the finite space |
| Search.InvGoal | algorithms/uninformed.py:12-14 | popping the goal gives a walk from start to goal, its calculate_costs list, and a log whose last record holds that path |
| Search.ClosedAdd | algorithms/uninformed.py:15-17 | after the expansion loop every neighbour of the expanded board is visited |
| Search.WalkInside | algorithms/uninformed.py:15-17 | when the expanded boards are closed under neighbours, every walk from start stays among them |
| Search.InvExhausted | algorithms/uninformed.py:21 | an empty frontier means no walk leads from start to goal |
| Search.PrefixLogSnoc | algorithms/sensor_based.py:104-112 | the log of path prefixes grows by one record when the path grows by one board |
| Search.DistinctCons | algorithms/nondeterministic.py:101-105 | putting a new board in front of a repeat-free path keeps it repeat-free |
| Informed.CellDistanceFacts | algorithms/informed.py:6 | the Manhattan distance of two cells is at most 4 and zero exactly for the same cell |
| Informed.GoalTerms | algorithms/informed.py:10-12 | the distances from one tile to the goal cells holding it from cell m on are bounded by 4 per cell |
| Informed.TileTerm | algorithms/informed.py:6-12 | the contribution of one cell is at most 36 |
| Informed.CellTerms | algorithms/informed.py:6-12 | the sum over cells k..8 is at most 36 per cell |
| Informed.Heuristic | algorithms/informed.py:5-12 | the heuristic is a natural number no larger than 324 |
| Informed.Find | algorithms/informed.py:10-12 | the first goal cell at or after m holding a value, or None when none does |
| Informed.GoalTermsDistinct | algorithms/informed.py:10-12 | with a goal holding no value twice, a tile contributes the distance to its one goal cell |
| Informed.CellTermsZero | algorithms/informed.py:5-12 | the sum is zero exactly when every cell's term is zero |
| Informed.CellTermsDiffer | algorithms/informed.py:5-12 | two boards whose terms differ on two cells only have sums differing by those two differences |
| Informed.FindDistinct | algorithms/informed.py:10-12 | in a board holding no value twice, the value of cell j is found at j |
| Informed.HeuristicOfGoal | algorithms/informed.py:5-12 | heuristic(g, g) = 0 for a goal holding no value twice |
| Informed.RearrangedDistinct | algorithms/informed.py:5-12 | a rearrangement of a goal without repeats has no repeats |
| Informed.HeuristicZero | algorithms/informed.py:5-12 | for a rearrangement s of a permutation goal g, heuristic(s, g) = 0 exactly when s == g |
| Informed.StepAdjacent | algorithms/informed.py:6 | a legal step moves the blank to a cell at Manhattan distance one |
| Informed.DistanceAdjacent | algorithms/informed.py:6 | moving a cell to an adjacent one changes its distance to any cell by exactly one |
| Informed.HeuristicSwap | algorithms/informed.py:5-12 | sliding one tile into the adjacent blank changes the heuristic by exactly one |
| Informed.HeuristicStep | algorithms/informed.py:5-12 | for a rearrangement of a permutation goal, heuristic(n, g) and heuristic(s, g) differ by exactly one for every neighbour n of s |
| Informed.GreedyPrioPush | algorithms/informed.py:28 | a pushed entry's priority is the heuristic of its board |
| Informed.GreedyPrioRemove | algorithms/informed.py:19 | popping keeps every priority equal to its board's heuristic |
| Informed.Greedy | algorithms/informed.py:14-29 | on success a walk from start to goal with its calculate_costs list, logged last; on failure the goal is unreachable; every record is a tracked path and no board is expanded twice |
| Informed.GreedyPush | algorithms/informed.py:23-28 | the expansion loop pushes every unvisited neighbour with its heuristic, keeping the search invariant, and leaves every neighbour visited |
| Informed.AStarPrioPush | algorithms/informed.py:43-47 | a pushed entry has g equal to its cost and f = g + heuristic |
| Informed.AStarPrioRemove | algorithms/informed.py:36 | popping keeps g equal to cost and f = g + heuristic for every entry |
| Informed.AStar | algorithms/informed.py:31-48 | on success a walk from start to goal with its calculate_costs list, logged last; on failure the goal is unreachable; every record is tracked, no board is expanded twice |
| Informed.AStarPush | algorithms/informed.py:40-47 | the expansion loop pushes every unvisited neighbour with g = cost and f = g + heuristic, and leaves every neighbour visited |
| Informed.MaxStep | algorithms/informed.py:63 | the largest of the four move costs |
| Informed.CostsBound | algorithms/informed.py:62-63 | the cost of a path is at most the largest move cost times its number of moves |
| Informed.TimesMono | algorithms/informed.py:62-63 | the cost bound grows with the number of moves |
| Informed.FBound | algorithms/informed.py:53 | along a repeat-free path, f = g + heuristic stays below a cap fixed by the start board |
| Informed.MinBound | algorithms/informed.py:58-67 | min over an infinite sentinel: None only when both are, otherwise the smaller value |
| Informed.IdaSearch | algorithms/informed.py:51-57 | logs the call first; a solution has f within the bound, is repeat-free and extends the path; otherwise f is None or exceeds the bound; None means no repeat-free extension reaches the goal |
| Informed.IdaExpand | algorithms/informed.py:58-68 | the loop over neighbours not on the path returns the first child solution, else the least f over the cut children |
| Informed.IdaChild | algorithms/informed.py:61-64 | one child search with the child's cost and g |
| Informed.IdaChildReady | algorithms/informed.py:61-64 | the child path is a tracked, repeat-free walk ending in the neighbour, with cost plus the move's cost, and it uses up a board of the finite space |
| Informed.IdaStar | algorithms/informed.py:50-78 | on success a repeat-free walk from start to goal with its calculate_costs list, logged last; with no cut branch the goal is unreachable; every record of the log is a tracked walk from the start |
| Uninformed.WithinStep | algorithms/uninformed.py:15-17 | once every board within k moves is expanded and the expansions are closed, every board within k + 1 moves is visited |
| Uninformed.LayeredPop | algorithms/uninformed.py:11 | the FIFO queue holds paths in non-decreasing length, so the popped path is among the shortest not yet expanded |
| Uninformed.LayeredPush | algorithms/uninformed.py:20 | appending a child one move longer keeps the queue layered by path length |
| Uninformed.Bfs | algorithms/uninformed.py:6-21 | on success a walk from start to goal with its calculate_costs list, logged last, and no walk from start to goal has fewer boards; on failure the goal is unreachable; no board is expanded twice |
| Uninformed.BfsPush | algorithms/uninformed.py:15-20 | the expansion loop enqueues every unvisited neighbour, keeping the invariant and the layering, and leaves every neighbour visited |
| Uninformed.DfsRecursive | algorithms/uninformed.py:24-38 | logs the path first; a found path is a solution that extends the given path and has at most max_depth + 1 boards; the shared visited set only grows and no board is logged twice |
| Uninformed.DfsExpand | algorithms/uninformed.py:30-38 | the loop over unvisited neighbours marks each visited before recursing and returns the first solution |
| Uninformed.Dfs | algorithms/uninformed.py:23-43 | on success a walk from start to goal with its calculate_costs list and at most max_depth + 1 boards; no board is logged twice |
| Uninformed.UcsPop | algorithms/uninformed.py:50-51 | the popped cost is at least every cost logged before, so the logged costs never decrease |
| Uninformed.UcsPush | algorithms/uninformed.py:58-59 | a child's cost is its priority and not below the popped cost |
| Uninformed.Ucs | algorithms/uninformed.py:45-60 | on success a walk from start to goal with its calculate_costs list, logged last; on failure the goal is unreachable; no board is expanded twice and the logged costs never decrease |
| Uninformed.UcsExpand | algorithms/uninformed.py:54-59 | the expansion loop pushes every unvisited neighbour with cost + MOVE_COSTS[direction] and leaves every neighbour visited |
| Uninformed.Dls | algorithms/uninformed.py:63-77 | logs the path first, gives up below depth 0; a found path is a solution extending the given path by at most depth boards; visited only grows |
| Uninformed.DlsExpand | algorithms/uninformed.py:69-77 | the loop over unvisited neighbours recurses with one less depth and returns the first solution |
| Uninformed.Ids | algorithms/uninformed.py:62-88 | limits 0 to 50 with a fresh visited set each; on success a walk from start to goal with its calculate_costs list and at most 51 boards |
| Local.Publish | algorithms/local.py:13-38 | the log a climb returns has record 0 aliased to the final path, then one snapshot per move with its cost, and at most heuristic(start) + 1 records |
| Local.WalkInit | algorithms/local.py:9-13 | the initial path, costs, visited set and log of a climb |
| Local.TrailSnoc | algorithms/local.py:36 | one more move adds the record (path[:], new_cost) for the extended path |
| Local.WalkStep | algorithms/local.py:30-36 | a move to an unvisited neighbour appends its cost, the board, its visited mark and its record, keeping the climb's bookkeeping |
| Local.ClimbBound | algorithms/local.py:27-28 | along a path whose heuristic strictly decreases, length plus final heuristic is at most heuristic(start) + 1 |
| Local.BestOfNone | algorithms/local.py:20-25 | the scan finds no neighbour exactly when every neighbour is visited |
| Local.BestOfLeast | algorithms/local.py:20-25 | the scan's pick is an unvisited neighbour whose heuristic is minimal among the unvisited |
| Local.BestOfFirst | algorithms/local.py:23 | with strict `<`, ties go to the earlier neighbour in get_neighbors order |
| Local.BestNeighbor | algorithms/local.py:17-25 | the loop returns the scan's pick with its heuristic, and None exactly when it finds nothing |
| Local.FirstImprovingSpec | algorithms/local.py:80-92 | the first unvisited neighbour with a strictly smaller heuristic, none before it; nothing exactly when no such neighbour exists |
| Local.ChooseSpec | algorithms/local.py:20-28 | both hill-climbing rules (also the inner loop of local.py:80-94) stop exactly at a dead end and otherwise move to an unvisited strictly better neighbour |
| Local.RuleMove | algorithms/local.py:27-35 | a chosen move goes to an unvisited neighbour with a smaller heuristic |
| Local.DescendingSnoc | algorithms/local.py:27-34 | the heuristic keeps strictly decreasing along the extended path |
| Local.FollowsSnoc | algorithms/local.py:30-35 | the extended path still takes the rule's choice at every step |
| Local.RuleStuck | algorithms/local.py:27-28 | when the rule finds nothing (here or at local.py:93-94), the climb is stuck: no unvisited neighbour is better |
| Local.HillClimbing | algorithms/local.py:8-38 | on success a steepest-ascent climb to the goal with its cost list; on failure the last record is a stuck climb; the log has at most heuristic(start) + 1 records |
| Local.FirstBetterNeighbor | algorithms/local.py:80-92 | the inner loop returns the first unvisited strictly better neighbour |
| Local.SimpleHillClimbing | algorithms/local.py:68-95 | on success a first-improvement climb to the goal with its cost list; on failure the last record is a stuck climb; at most heuristic(start) + 1 records |
| Local.Unvisited | algorithms/local.py:51 | the neighbours not yet visited, and only those |
| Local.Improving | algorithms/local.py:55 | the neighbours whose heuristic is below the current one, and only those |
| Local.ImprovingStuck | algorithms/local.py:52-57 | an empty improving list means the climb is stuck |
| Local.ImprovingPick | algorithms/local.py:58 | any choice from the improving list is an unvisited neighbour with a smaller heuristic |
| Local.StochasticHillClimbing | algorithms/local.py:40-66 | on success a climb to the goal of at most 100 boards with its cost list; on failure the climb is stuck or used all 100 rounds; at most 101 records |
| Local.InsertPerm | algorithms/local.py:134 | insertion keeps the multiset of candidates |
| Local.InsertSorted | algorithms/local.py:134 | insertion into a list sorted by heuristic keeps it sorted |
| Local.InsertWithH | algorithms/local.py:134 | insertion is stable: candidates of each heuristic value keep their relative order |
| Local.SortByHSpec | algorithms/local.py:134 | the stable sort by heuristic: sorted, a permutation, and the same order within each heuristic value |
| Local.BeamSpec | algorithms/local.py:134 | the beam is the first min(beam_width, len) entries of the stable sort, and none outside it has a smaller heuristic |
| Local.BeamInit | algorithms/local.py:129-131 | the first queue and the first record |
| Local.BeamCandidates | algorithms/local.py:134 | cutting the queue keeps every candidate tracked |
| Local.CandidatesGrow | algorithms/local.py:139-141 | more visited boards keep the candidates valid |
| Local.CandidateExtend | algorithms/local.py:142-145 | a child candidate holds its heuristic, a walk extended by one neighbour and that walk's cost |
| Local.BeamLogPush | algorithms/local.py:141-146 | logging a newly visited board keeps every board logged once |
| Local.BeamPush | algorithms/local.py:140-146 | pushing an unvisited child keeps the queue and the log valid |
| Local.UnvisitedShrinks | algorithms/local.py:141 | visiting more boards shrinks the boards left in the finite space |
| Local.ExpandBeam | algorithms/local.py:135-147 | a round returns the first beam candidate on the goal together with the log including every record the round appended before reaching it, or pushes every unvisited neighbour; the log only grows and stays valid; a round that pushes something visits new boards |
| Local.BeamSearch | algorithms/local.py:128-148 | on success a repeat-free walk from start to goal with its calculate_costs list; the log, including the records of the last round, starts with ([start], 0), holds tracked paths, and each board at most once |
| Constraint.CreateConstraints | algorithms/constraint.py:9-19 | ten constraints: the five vertical pairs with "below is 3 more and the upper is not 0", then the five horizontal pairs with "right is 1 more and the left is not 0" |
| Constraint.NinthUnconstrained | algorithms/constraint.py:11-17 | no constraint mentions X9, and every constraint's first variable precedes its second |
| Constraint.CreateGrid | algorithms/constraint.py:1-7 | a 3x3 grid |
| Constraint.GridPlacement | algorithms/constraint.py:3-6 | cell ((k-1) // 3, (k-1) % 3) holds Xk's value, or 0 when Xk is unassigned |
| Constraint.GridRow | algorithms/constraint.py:3-7 | row r of the grid is the cells of X(3r+1), X(3r+2), X(3r+3) |
| Constraint.GoalGrid | algorithms/constraint.py:1-7 | the assignment Xk = k (X9 = 0) draws the goal grid |
| Constraint.ConstraintsHoldIff | algorithms/constraint.py:26-30 | the constraint scan succeeds exactly when no constraint with both variables assigned is broken |
| Constraint.IsConsistentExtends | algorithms/constraint.py:21-30 | from a valid assignment, is_consistent accepts a value exactly when the extended assignment is still valid (values distinct, constraints hold) |
| Constraint.SolutionIsGoal | algorithms/constraint.py:9-19 | a complete solution with values in 0..8 is Xk = k, X9 = 0, whose grid is the goal |
| Constraint.FilterMembers | algorithms/constraint.py:48-49 | the values kept after removal are the members that pass the test |
| Constraint.RejectedMembers | algorithms/constraint.py:39-46 | invalid_values collects exactly the members that fail the test |
| Constraint.FilterSplit | algorithms/constraint.py:39-49 | kept plus rejected values are the domain, as a multiset |
| Constraint.RemoveFirst | algorithms/constraint.py:49 | list.remove drops exactly one occurrence |
| Constraint.RemoveFirstAfter | algorithms/constraint.py:49 | list.remove takes the first occurrence of the value |
| Constraint.FilterSnoc | algorithms/constraint.py:39-46 | the scan's result for one more value |
| Constraint.DropNone | algorithms/constraint.py:48-49 | removing none of the invalid values leaves the domain |
| Constraint.DropAll | algorithms/constraint.py:48-49 | removing every invalid value, each by its first occurrence, leaves exactly the valid values in order |
| Constraint.DropNext | algorithms/constraint.py:48-49 | the next invalid value is still present and removing it takes one more step of the removal loop |
| Constraint.SameDomains | algorithms/constraint.py:52-53 | two domain maps over the nine variables that agree on each variable are equal |
| Constraint.RestoredAll | algorithms/constraint.py:52-78 | putting back the saved domain of each variable in the list restores the original map |
| Constraint.UnassignedFromMembers | algorithms/constraint.py:33 | the unassigned variables from Xk on, in ascending order |
| Constraint.UnassignedMembers | algorithms/constraint.py:83 | the unassigned variables, in the order of the domain map (also the choice at constraint.py:33) |
| Constraint.Prune | algorithms/constraint.py:32-55 | forward checking, as a function: a pruned domain map, or None when a domain empties |
| Constraint.PruneMeaning | algorithms/constraint.py:38-55 | forward checking succeeds exactly when every unassigned variable keeps a value consistent with the new assignment, and then each unassigned domain is filtered to those values |
| Constraint.RevisedShrinks | algorithms/constraint.py:122-131 | revising an arc only removes values |
| Constraint.RevisedRemovedUnsupported | algorithms/constraint.py:127-130 | a value revise removes has no support under some constraint on that arc |
| Constraint.RevisedKeptSupported | algorithms/constraint.py:127-130 | a value revise keeps has support under every constraint on that arc |
| Constraint.SizeOfUpdate | algorithms/constraint.py:111-119 | the total domain size after one domain is replaced |
| Constraint.SizeUpdate | algorithms/constraint.py:111-119 | the total size over all nine domains after one domain is replaced |
| Constraint.Seconds | algorithms/constraint.py:116 | the variables paired after v |
| Constraint.Firsts | algorithms/constraint.py:117 | the variables paired before v |
| Constraint.Neighbors | algorithms/constraint.py:116-117 | a variable is never its own neighbour |
| Constraint.PairsOfConstraints | algorithms/constraint.py:108-109 | every constraint's arc is among AC-3's starting pairs |
| Constraint.FirstsHas | algorithms/constraint.py:117 | a pair (n, v) makes n a neighbour of v |
| Constraint.FilterLength | algorithms/constraint.py:127-130 | filtering never lengthens, and keeps the list when it keeps the length |
| Constraint.RevisedLength | algorithms/constraint.py:122-131 | revise never lengthens, and a revise that keeps the length changes nothing |
| Constraint.RevisedUntouched | algorithms/constraint.py:124-125 | an arc without a constraint is left alone |
| Constraint.KeepStep | algorithms/constraint.py:111-113 | a revise that removes nothing keeps the arcs still owing a check accounted for |
| Constraint.RemoveStep | algorithms/constraint.py:113-119 | a revise that removes values, with the neighbours requeued, keeps the arcs owing a check accounted for |
| Constraint.ReviseKeepsSolutions | algorithms/constraint.py:122-131 | revising an arc never removes a value that a solution inside the domains uses |
| Constraint.ExtendsAgrees | algorithms/constraint.py:69-74 | an extension of the assignment agrees with it and with it extended by its own values |
| Constraint.ConstraintsHoldPart | algorithms/constraint.py:26-30 | constraints that hold on a full assignment hold on any part of it |
| Constraint.RefusedExcluded | algorithms/constraint.py:70 | a value is_consistent refuses is in no solution extending the assignment |
| Constraint.NoAllowedExcluded | algorithms/constraint.py:50-54 | a variable left without consistent values rules out the tried value |
| Constraint.PruneFailExcluded | algorithms/constraint.py:100-104 | failed forward checking rules out the tried value that backtrack then retracts (constraint.py:73) |
| Constraint.SearchExcluded | algorithms/constraint.py:74-76 | a failed deeper search rules out the tried value |
| Constraint.CutSearchExcluded | algorithms/constraint.py:73-76 | a failed deeper search over the pruned domains rules out the tried value |
| Constraint.PrunedSearchExcluded | algorithms/constraint.py:73-76 | the same, for the domains forward checking returned |
| Constraint.ExcludedSnoc | algorithms/constraint.py:69-80 | ruled-out values accumulate over the value loop |
| Constraint.AllExcluded | algorithms/constraint.py:69-81 | when every value of the variable is ruled out, no solution extends the assignment |
| Constraint.PruneWithin | algorithms/constraint.py:32-55 | forward checking only draws values from the domains it started with |
| Constraint.Reassigned | algorithms/constraint.py:41-47 | assigning after deleting equals assigning |
| Constraint.SetTwice | algorithms/constraint.py:35-41 | assigning the same value twice equals assigning once |
| Constraint.SetThenDelete | algorithms/constraint.py:47-79 | deleting a key just added gives back the map |
| Constraint.Deleted | algorithms/constraint.py:47 | deleting after assigning equals deleting |
| Constraint.InvalidValues | algorithms/constraint.py:39-47 | the inner loops collect exactly the rejected values, and leave the temporary assignment without the variable |
| Constraint.RemoveEach | algorithms/constraint.py:48-49 | removing each invalid value in turn leaves exactly the valid values in order |
| Constraint.Restore | algorithms/constraint.py:52-53 | the listed variables get their saved domains back and no other changes |
| Constraint.PruneOne | algorithms/constraint.py:38-50 | one variable's pass of forward checking keeps exactly its consistent values |
| Constraint.PruneDomains | algorithms/constraint.py:32-55 | the loop computes the forward-checking function: the pruned domains on success, the original domains on failure |
| Constraint.RestoreAll | algorithms/constraint.py:52-53 | putting back the saved domains of the touched variables restores the original map |
| Constraint.ScanStep | algorithms/constraint.py:127-130 | one step of the removal scan over a domain |
| Constraint.RemoveUnsupported | algorithms/constraint.py:126-130 | one constraint removes exactly the values without support, and reports removal exactly when something was removed |
| Constraint.ReviseArc | algorithms/constraint.py:122-131 | the loop over the constraints computes the revised domain, and reports removal exactly when the domain shrank |
| Constraint.RemovalFacts | algorithms/constraint.py:113-119 | a removing revise lowers the total domain size and keeps domains shrunk and solutions kept |
| Constraint.Requeue | algorithms/constraint.py:116-119 | the queue keeps its arcs and gains (n, first) for every neighbour n of first other than second |
| Constraint.Ac3Start | algorithms/constraint.py:108-110 | the starting queue satisfies the AC-3 invariant |
| Constraint.Ac3Keep | algorithms/constraint.py:111-113 | a revise that removes nothing keeps the AC-3 invariant |
| Constraint.Ac3Remove | algorithms/constraint.py:113-119 | a revise that removes values, followed by the requeue, keeps the AC-3 invariant |
| Constraint.Ac3Empty | algorithms/constraint.py:114-115 | a domain emptied by revise was not empty before AC-3 |
| Constraint.Arcs | algorithms/constraint.py:107-120 | the AC-3 loop terminates; domains only shrink and keep every solution's values; false exactly when a non-empty domain was emptied; on true every constraint is arc-consistent |
| Constraint.Solver.ForwardChecking | algorithms/constraint.py:82-105 | the domains become the pruned map on success and stay as they were on failure |
| Constraint.Solver.Backtrack | algorithms/constraint.py:57-81 | a result is the assignment itself and solves the puzzle; no result means no solution extends the entry assignment within the entry domains, which are restored; the node count grows; the grid trail only grows, starts with the entry grid for a non-empty assignment, and on failure ends with that grid again |
| Constraint.Solver.CountNode | algorithms/constraint.py:58-61 | one more node expanded, the depth at least the assignment's size, and the grid of a non-empty assignment appended to the trail |
| Constraint.Solver.TryEach | algorithms/constraint.py:69-80 | the loop over a copy of the variable's domain: the first solution found, or the assignment and domains put back, no solution using any of the values, and a trail that ends with the entry grid whenever it grew |
| Constraint.Solver.TryValue | algorithms/constraint.py:70-80 | one value: a solution, or the assignment and domains put back and no solution using the value; a refused value leaves the trail alone, an accepted one appends the grid with the value assigned, and a failed one ends the trail with the grid after the retraction |
| Constraint.Solver.Descend | algorithms/constraint.py:73-78 | plain deeper search: a solution, or the domains put back and the value ruled out |
| Constraint.Solver.DescendChecked | algorithms/constraint.py:73-78 | deeper search after forward checking: a solution, or the domains put back and the value ruled out |
| Constraint.Solver.CheckForward | algorithms/constraint.py:73 | forward checking as called from backtracking: pruned domains on success, the value ruled out on failure |
| Constraint.Solver.Run | algorithms/constraint.py:164-171 | the report answers the board: a solution grid comes from a solved assignment drawn from the board, none only when no such assignment exists |
| Constraint.Solver.RemoveInconsistentValues | algorithms/constraint.py:122-131 | only the first variable's domain changes, to its revision, and the answer says whether it shrank |
| Constraint.Solver.Ac3 | algorithms/constraint.py:107-120 | the domains only shrink and keep every solution's values; false exactly when a non-empty domain was emptied; on true every constraint is arc-consistent |
| Constraint.Flatten | algorithms/constraint.py:134 | the flattened board holds exactly the tiles of its rows |
| Constraint.InitialDomains | algorithms/constraint.py:135-137 | every variable's domain is the whole flattened board |
| Constraint.EmptyValid | algorithms/constraint.py:164 | the empty assignment is valid |
| Constraint.ShrunkWithin | algorithms/constraint.py:151-164 | after AC-3 the domains still draw from the board |
| Constraint.GoalHolds | algorithms/constraint.py:9-19 | the goal assignment satisfies every constraint |
| Constraint.GoalSolved | algorithms/constraint.py:9-19 | the goal assignment is a solution and draws the goal grid |
| Constraint.FullBoardSolvable | algorithms/constraint.py:133-137 | a board of exactly the tiles 0..8 admits a solution drawn from it |
| Constraint.FoundAnswers | algorithms/constraint.py:170 | the grid of a solution drawn from the board answers the board |
| Constraint.NoneFits | algorithms/constraint.py:151-157 | when AC-3 empties a domain, no solution draws from the board |
| Constraint.StartExcluded | algorithms/constraint.py:164-170 | a failed top-level search means no solution draws from the board |
| Constraint.Solve | algorithms/constraint.py:133-171 | the solution, if any, is the grid of a solved assignment drawn from the board; None only when none exists; a board of the tiles 0..8 always yields the goal grid; the AC-3 exit reports an empty path with one node |
| Constraint.Solver.constructor | algorithms/constraint.py:139-147 | the solver starts with the given domains and constraints, an empty assignment and path, and zero counters |
| Complex.PossibleActions | algorithms/complex.py:8-14 | exactly the directions in which the blank can move, at most four |
| Complex.FirstInDirection | algorithms/complex.py:17-21 | the first neighbour reached by moving the blank in the given direction, or the board itself when none is |
| Complex.Result | algorithms/complex.py:16-21 | the result keeps a blank |
| Complex.ResultIsMove | algorithms/complex.py:16-21 | on a board with one blank, result is the move in that direction when it is legal and the board itself otherwise |
| Complex.OrSearch | algorithms/complex.py:38-53 | failure beyond the depth bound and on a board already on the path; an empty plan exactly at the goal within the bound |
| Complex.TryActions | algorithms/complex.py:48-53 | the first possible action whose and-search succeeds, with that plan; failure only when every action's and-search fails |
| Complex.AndSearch | algorithms/complex.py:55-63 | the and-search returns either failure or a plan keyed by outcome, never a single step |
| Complex.AndSearchFacts | algorithms/complex.py:55-63 | failure exactly when the or-search of some outcome fails; otherwise the plan maps each outcome to its or-search plan |
| Complex.AndLoop | algorithms/complex.py:58-63 | the loop over the outcomes ends in failure or in the collected plans |
| Complex.AndLoopFails | algorithms/complex.py:58-63 | the loop over the outcomes fails exactly when one outcome's or-search fails |
| Complex.AndLoopPlans | algorithms/complex.py:58-63 | when the loop succeeds it records each outcome's or-search plan and keeps the plans collected before |
| Complex.ExtractPath | algorithms/complex.py:65-74 | the extracted path starts at the start board |
| Complex.FollowsCons | algorithms/complex.py:69-73 | a possible action's result followed by a followed path is a followed path |
| Complex.OrSearchSound | algorithms/complex.py:38-74 | the path extracted from a successful or-search ends at the goal, follows result one possible action at a time, repeats no board, avoids the path set and the goal before its end, and fits the depth bound |
| Complex.SoundCons | algorithms/complex.py:65-74 | one step of extract_path: prefixing a board that is not the goal and not on the path, and whose possible action leads to the head of a sound sub-path, gives a sound path one level higher |
| Complex.ReachesNeighbor | algorithms/complex.py:16-21 | the result of a possible action is a neighbour with one blank |
| Complex.FollowsWalk | algorithms/complex.py:65-74 | a followed path from a board with one blank is a walk of neighbours |
| Complex.AndOrGraphSearch | algorithms/complex.py:29-36 | (None, None, []) exactly when the or-search fails; otherwise a repeat-free followed path from start to goal, its calculate_costs list and one record per prefix |
| Complex.Image | algorithms/complex.py:95 | the next belief is exactly the results of the action over the belief |
| Complex.ImageSize | algorithms/complex.py:95 | the next belief is no larger than the belief and not empty when it is not |
| Complex.ImageSplit | algorithms/complex.py:95 | the image of a belief is the image without one board plus that board's result |
| Complex.CommonActions | algorithms/complex.py:93 | exactly the actions possible on every board of the belief, at most four |
| Complex.BeliefAfter | algorithms/complex.py:94-98 | the belief after a sequence of actions keeps a blank on every board |
| Complex.Replay | algorithms/complex.py:88-104 | the representative path has one board per action plus the start, beginning at the representative |
| Complex.ReplayInBelief | algorithms/complex.py:88-104 | the representative path ends inside the belief the actions lead to |
| Complex.ReplaySingleton | algorithms/complex.py:88-90 | for a one-board belief, the belief after the actions is the end of the replayed path |
| Complex.Rebuild | algorithms/complex.py:88-104 | the rebuilding loop computes the replayed path |
| Complex.Extend | algorithms/complex.py:94-101 | pushing the image under a common action, with the action appended and its cost added, keeps the entry tracked |
| Complex.ExploredPush | algorithms/complex.py:97-105 | pushing an unvisited belief keeps the queue, the visited set and the log consistent |
| Complex.LogPush | algorithms/complex.py:102-105 | the new record is the replayed path of the new actions with its cost |
| Complex.ExploredPop | algorithms/complex.py:85 | popping the front keeps the search consistent, the popped belief now checked |
| Complex.Expand | algorithms/complex.py:93-105 | expanding a belief keeps the search consistent and adds as many records as queue entries, at most four |
| Complex.NoObservationBeliefStateSearch | algorithms/complex.py:76-107 | a returned path replays common actions whose belief meets the goals, with its costs; each record is the replayed path of a tracked entry with a new belief; without a path and below the step limit no checked belief met the goals; at most max_steps + 3 records |
| Complex.LogFacts | algorithms/complex.py:102-105 | every record is the replayed path of a tracked, non-initial, distinct belief |
| Complex.NothingLeft | algorithms/complex.py:84-107 | when the queue runs out, the initial belief and every logged belief miss the goals |
| Complex.DigitsCard | algorithms/complex.py:111 | nine tiles 0..8 |
| Complex.HiddenAreNone | algorithms/complex.py:112 | every listed position is hidden |
| Complex.HiddenCovers | algorithms/complex.py:112 | every hidden position is listed |
| Complex.HiddenIncreasing | algorithms/complex.py:112 | positions are listed in row-major order |
| Complex.Hidden | algorithms/complex.py:112 | exactly the hidden positions, in row-major order |
| Complex.HiddenKnownCount | algorithms/complex.py:110-112 | hidden plus known cells are at most the cells |
| Complex.HiddenFewer | algorithms/complex.py:110-112 | at most as many hidden cells as missing tiles |
| Complex.Arrangements | algorithms/complex.py:121 | every arrangement of the missing tiles uses all of them |
| Complex.Assign | algorithms/complex.py:122-124 | the filled board has nine cells |
| Complex.AssignKeeps | algorithms/complex.py:122-124 | visible cells keep their values and the k-th hidden cell takes the k-th value of the arrangement |
| Complex.AssignFills | algorithms/complex.py:122-124 | an arrangement at least as long as the hidden cells fills every cell |
| Complex.ToBoard | algorithms/complex.py:125 | the board of a fully filled grid has each cell's value |
| Complex.CompletedByAdd | algorithms/complex.py:120-125 | adding one arrangement adds its completed board |
| Complex.DistinctValuesCard | algorithms/complex.py:121 | distinct values make a set of the list's size |
| Complex.HiddenValues | algorithms/complex.py:121-124 | a board's values at the hidden positions, in order |
| Complex.PermutationDigits | algorithms/complex.py:111 | a board holding each tile once uses only the tiles 0..8 |
| Complex.HiddenValuesArranged | algorithms/complex.py:110-124 | a board agreeing with the visible cells shows, at the hidden positions, an arrangement of the missing tiles |
| Complex.MaskedBoardCompleted | algorithms/complex.py:119-125 | every board that agrees with the visible cells is among the completions |
| Complex.BeliefAgrees | algorithms/complex.py:114-125 | every board in the initial belief agrees with the visible cells, and completions are added only when no given board matches and at most four tiles are missing |
| Complex.Fill | algorithms/complex.py:122-124 | the filling loop computes the filled grid |
| Complex.MoveOne | algorithms/complex.py:121 | moving an element from to-do to done keeps the partition |
| Complex.TrueBoardInBelief | algorithms/complex.py:114-125 | the true board, when given or recoverable by completion, is in the initial belief |
| Complex.MatchingStates | algorithms/complex.py:114-118 | the loop collects exactly the given boards that agree with the visible cells |
| Complex.CompleteVisible | algorithms/complex.py:120-125 | the loop collects exactly the completions of the visible board |
| Complex.BuildInitialBelief | algorithms/complex.py:110-125 | the initial belief is the matching boards, or else the completions when at most four tiles are missing |
| Complex.PartiallyObservableSearch | algorithms/complex.py:109-127 | builds the initial belief and runs the sensorless search on it; the result is a crash exactly when the belief is empty or holds a blankless board, misses the goals and the loop runs; otherwise it passes on the sensorless search's facts: a found path replays common actions into the goals, a failure within the step limit means neither the initial nor any logged belief meets the goals, and the logged beliefs are tracked, distinct and differ from the initial one |
| Nondeterministic.RowBlank | algorithms/nondeterministic.py:23-26 | the inner loop finds the first blank of a row from the given column, or none when that part of the row has no blank |
| Nondeterministic.ScanRows | algorithms/nondeterministic.py:22-26 | the scan keeps going after a row with a blank (the break leaves only the inner loop), so it answers the first blank of the last row that has one |
| Nondeterministic.ScanBlank | algorithms/nondeterministic.py:21-26 | the scan finds a cell holding 0 exactly when the board has a blank |
| Nondeterministic.FindBlank | algorithms/nondeterministic.py:21-47 | the nested loop computes the scan's position, and None exactly when there is no blank |
| Nondeterministic.ScanBlankUnique | algorithms/nondeterministic.py:21-26 | no blank lies in a later row than the one the scan finds, and on a board with one blank the scan finds it |
| Nondeterministic.ActionsLegal | algorithms/nondeterministic.py:17-38 | the actions are the directions in which the found blank can step, in the order up, down, left, right; on a board with one blank exactly the legal moves |
| Nondeterministic.StepSome | algorithms/nondeterministic.py:29-36 | up needs a row above, down a row below, left a column to the left, right a column to the right |
| Nondeterministic.LegalDirs | algorithms/nondeterministic.py:28-38 | the action list, written out as the four guarded appends |
| Nondeterministic.Apply | algorithms/nondeterministic.py:40-63 | the single result keeps the blank and the tiles |
| Nondeterministic.ApplyFacts | algorithms/nondeterministic.py:40-63 | on a board with one blank the result is the move when it is legal and the board itself otherwise; a possible action leads to a neighbour |
| Nondeterministic.BudgetShrinks | algorithms/nondeterministic.py:101-105 | adding an unseen board to the path dictionary lowers the count of boards left, so or_search terminates |
| Nondeterministic.OrSearch | algorithms/nondeterministic.py:96-113 | an empty plan exactly at the goal; failure on a board already on the path |
| Nondeterministic.TryActions | algorithms/nondeterministic.py:107-113 | the first action whose and-search succeeds, with that plan; failure only when every action's and-search fails |
| Nondeterministic.TryActionsFirst | algorithms/nondeterministic.py:107-111 | the action chosen is the first in order whose and-search succeeds: every earlier one failed |
| Nondeterministic.AndSearch | algorithms/nondeterministic.py:115-129 | an empty state list gives the empty plan |
| Nondeterministic.AndSearchFacts | algorithms/nondeterministic.py:115-129 | failure exactly when the or-search of some state fails; otherwise, for a non-empty list, the plan maps each state to its or-search plan |
| Nondeterministic.AndLoop | algorithms/nondeterministic.py:123-129 | the loop over the states ends in failure or in the collected plans |
| Nondeterministic.AndLoopFails | algorithms/nondeterministic.py:123-129 | the loop fails exactly when one state's or-search fails |
| Nondeterministic.AndLoopPlans | algorithms/nondeterministic.py:123-129 | when the loop succeeds it records each state's or-search plan and keeps the plans collected before |
| Nondeterministic.ExtractPath | algorithms/nondeterministic.py:79-94 | the extracted path starts at the start board |
| Nondeterministic.SteppedCons | algorithms/nondeterministic.py:88-92 | a possible action's result followed by a stepped path is a stepped path |
| Nondeterministic.OrSearchSound | algorithms/nondeterministic.py:79-113 | the path extracted from a successful or-search ends at the goal, steps one possible action at a time, repeats no board and avoids the path set and the goal before its end |
| Nondeterministic.AndOrGraphSearch | algorithms/nondeterministic.py:65-77 | (None, None, []) exactly when the or-search fails; otherwise a repeat-free stepped path from start to goal, its calculate_costs list and one record per prefix |
| Nondeterministic.SteppedWalk | algorithms/nondeterministic.py:79-94 | a stepped path from a board with one blank is a walk of neighbours |
| Sensor.ActionsNonempty | algorithms/sensor_based.py:176-194 | every board with a blank has at least two possible actions, so the action loops always find one |
| Sensor.Outside | algorithms/sensor_based.py:25-31 | the filtered neighbours are exactly those not in the excluded collection, in order |
| Sensor.Tail | algorithms/sensor_based.py:14-54 | path[-n:] (and a deque of maxlen n, lines 14, 31 and 54): the last min(n, len) boards |
| Sensor.Ahead | algorithms/sensor_based.py:37-38 | the number of unvisited neighbours whose (heuristic, board) pair sorts strictly before a key, at most their count |
| Sensor.LexTotal | algorithms/sensor_based.py:38 | tuple comparison is total on distinct keys of equal length |
| Sensor.ScoreTotal | algorithms/sensor_based.py:37-38 | two distinct boards never tie on their (heuristic, board) keys |
| Sensor.AheadZero | algorithms/sensor_based.py:41 | nothing sorts before a key exactly when no board's key is smaller |
| Sensor.SortedAhead | algorithms/sensor_based.py:37-44 | in the sorted list a board is among the first m exactly when fewer than m keys sort before its own |
| Sensor.SortedFirst | algorithms/sensor_based.py:41-43 | the head of a sorted list is within its first m exactly when fewer than m keys sort before it |
| Sensor.SortedRest | algorithms/sensor_based.py:38 | the tail of a sorted list is sorted, and the head counts once before every later board |
| Sensor.TakeCons | algorithms/sensor_based.py:43 | the first m of a list, for a board other than its head, are the first m - 1 of its tail |
| Sensor.BestUnique | algorithms/sensor_based.py:41 | at most one board has no key sorting before its own |
| Sensor.AheadAppend | algorithms/sensor_based.py:36-38 | the count of boards sorting before a key splits over a concatenation |
| Sensor.AheadPermutation | algorithms/sensor_based.py:36-38 | the count of boards sorting before a key is the same for any reordering of the list, so sorting does not change it |
| Sensor.SortedTake | algorithms/sensor_based.py:36-44 | a board is among the first m entries of any sorting of the pool exactly when it is in the pool and fewer than m pool boards sort before it; with m = 3 this is `neighbor_scores[:3]` |
| Sensor.SortedHead | algorithms/sensor_based.py:36-41 | `neighbor_scores[0]` is exactly the pool board that no other pool board sorts before |
| Sensor.Least | algorithms/sensor_based.py:38-41 | a non-empty list has a board with no key sorting before its own, the first of the sort |
| Sensor.Pool | algorithms/sensor_based.py:24-28 | the candidates are neighbours that are unvisited, or else outside the recent memory |
| Sensor.ChooseNext | algorithms/sensor_based.py:24-44 | the next board is a neighbour; with candidates it is the first of the sort before five steps without improvement and among the first three after; without candidates it avoids the last five path boards whenever some neighbour does |
| Sensor.LoggedSnoc | algorithms/sensor_based.py:55 | appending a record of a walk from start with its cost keeps every record such a walk |
| Sensor.WalkPrefix | algorithms/sensor_based.py:64-71 | cutting a walk leaves a walk from the same board whose cumulative costs are the first ones of the whole |
| Sensor.CostsFront | algorithms/utils.py:34-37 | the cumulative costs of a walk without its last board are those of the whole walk without the last entry |
| Sensor.WalkedStep | algorithms/sensor_based.py:46-55 | a move from a board other than the goal to a neighbour, with its cost and record, keeps the walk, its costs and its log consistent |
| Sensor.WalkedCut | algorithms/sensor_based.py:64-71 | cutting the path and costs at position_to_restart keeps the walk consistent and resumes from path[position_to_restart] |
| Sensor.SensorSearch | algorithms/sensor_based.py:7-73 | the returned path is a walk of neighbours from start with its calculate_costs list, has no goal before its end, and ends at the goal unless all max_steps steps were taken; the log starts with ([start], 0) and records walks from start with their costs |
| Sensor.CheapestAction | algorithms/sensor_based.py:93-103 | no action exactly when the list is empty; otherwise the first action of least MOVE_COSTS.get(action, 1) |
| Sensor.AppliedSnoc | algorithms/sensor_based.py:94-106 | appending result(board, action) keeps the path the replay of its actions |
| Sensor.ChosenSnoc | algorithms/sensor_based.py:93-106 | appending the cheapest action's result keeps every step the cheapest one |
| Sensor.SummedSnoc | algorithms/sensor_based.py:108-109 | adding the action's cost keeps the costs the running sums of the action costs |
| Sensor.CheapestWalkSnoc | algorithms/sensor_based.py:93-112 | one cheapest step keeps path, actions and costs consistent |
| Sensor.ActionStep | algorithms/sensor_based.py:176-219 | on a board with one blank, a possible action leads to a neighbour with one blank, at the cost calculate_costs charges |
| Sensor.ChosenLegal | algorithms/sensor_based.py:93-103 | every chosen action is a possible action of its board |
| Sensor.LegalBlanks | algorithms/sensor_based.py:196-215 | possible actions from a board with one blank keep one blank |
| Sensor.LegalCosts | algorithms/sensor_based.py:108-109 | the action costs summed along a legal path agree with calculate_costs at every position |
| Sensor.CheapestWalkCosts | algorithms/sensor_based.py:75-114 | from a board with one blank the cheapest-action path is a walk and its costs are its calculate_costs list |
| Sensor.SensorSearchBeliefStates | algorithms/sensor_based.py:75-114 | each step takes the first cheapest possible action; the costs are the running sums; the log is one record per prefix; no goal before the end; the walk ends at the goal unless all max_steps steps were taken |
| Sensor.CheapestMove | algorithms/sensor_based.py:105-112 | appending the cheapest action's board, its running cost and its record keeps the walk cheapest-first, the log one record per prefix, and the goal off every board before the last |
| Sensor.UnseenOf | algorithms/sensor_based.py:135-137 | one flag per action |
| Sensor.ScoresOf | algorithms/sensor_based.py:139-141 | one total per action |
| Sensor.UnseenAt | algorithms/sensor_based.py:135-137 | an action's flag says its result is unvisited |
| Sensor.ScoreAt | algorithms/sensor_based.py:139-141 | an action's total is its move cost plus the heuristic of its result |
| Sensor.Unseen | algorithms/sensor_based.py:128-137 | one flag per possible action |
| Sensor.Scores | algorithms/sensor_based.py:128-141 | one total per possible action |
| Sensor.Consider | algorithms/sensor_based.py:135-141 | an action's result is new exactly when unvisited, and then its total is the move cost plus the heuristic |
| Sensor.ScanStep | algorithms/sensor_based.py:143-146 | one step of the strict-minimum scan keeps the best so far |
| Sensor.ScanDone | algorithms/sensor_based.py:134-146 | the finished scan yields the first action of least total among those with unvisited results, or none |
| Sensor.BestAction | algorithms/sensor_based.py:130-146 | the loop yields the first unvisited result of least total, and none exactly when every result is visited |
| Sensor.StepOf | algorithms/sensor_based.py:124-169 | every step of a belief path is one of the permitted kinds |
| Sensor.StepAtSnoc | algorithms/sensor_based.py:154-169 | earlier steps keep their kind when the path grows |
| Sensor.BeliefStepsSnoc | algorithms/sensor_based.py:154-169 | appending a permitted step keeps every step permitted and the costs running |
| Sensor.BeliefChoice | algorithms/sensor_based.py:128-163 | stop exactly when the path is one board with no unvisited result and no unvisited neighbour; otherwise a best unvisited result, else a random unvisited neighbour, else path[-2] at cost 1, and it goes back exactly when the board is visited |
| Sensor.AvoidsSnoc | algorithms/sensor_based.py:125-126 | stepping from a board other than the goal keeps the goal off all but the last board |
| Sensor.BeliefStateSearch | algorithms/sensor_based.py:116-171 | every step is a permitted kind with its running cost; the log is one record per prefix; no goal before the end; the path ends at the goal, or used all max_steps steps, or stopped at a start with nowhere to go |
| Sensor.BeliefStepMoves | algorithms/sensor_based.py:128-169 | from a board with one blank, each permitted step moves to a neighbour with one blank |
| Sensor.StepMovesAt | algorithms/sensor_based.py:128-169 | the same, at a position of the path |
| Sensor.StepsMove | algorithms/sensor_based.py:116-171 | every step of the belief path moves to a neighbour |
| Sensor.MovesAt | algorithms/sensor_based.py:116-171 | every board of the belief path has one blank |
| Sensor.BeliefWalk | algorithms/sensor_based.py:116-171 | from a board with one blank the belief path is a walk of neighbours |
| Sensor.BeliefCosts | algorithms/sensor_based.py:139-167 | each step is charged MOVE_COSTS of its direction, or 1 for a backtrack |
| Agreement.Successors | algorithms/nondeterministic.py:40-63 | one result per action, each the nondeterministic result |
| Agreement.ActionsAgree | algorithms/complex.py:8-14 | on a board with one blank the complex module's actions equal the nondeterministic (and sensor) action list: up, down, left, right, each when legal |
| Agreement.ResultsAgree | algorithms/complex.py:16-21 | on a board with one blank the complex result equals the nondeterministic result: the move when legal, else the board; and the move's direction is the action |
| Agreement.SuccessorsAppend | algorithms/nondeterministic.py:40-63 | results of concatenated action lists concatenate |
| Agreement.SuccessorsLegal | algorithms/nondeterministic.py:51-58 | the result of a legal action is the move |
| Agreement.NeighborsAreSuccessors | algorithms/utils.py:19-30 | get_neighbors lists exactly the results of the possible actions, in the same order, for both modules |

## Left out

- The user interface (gui/), application start-up (main.py) and the reinforcement-learning agent (algorithms/Reforcement_learning.py) are not part of this model. They are rendering, timers and floating-point Q-value updates.
- Simulated annealing (algorithms/local.py:97-126) is not modelled. It relies on floating-point `math.exp`, a `random.random()` acceptance test and geometric cooling.
- The random distributions of `random.shuffle` and `random.choice` are not modelled. Each choice is an arbitrary one, so every contract holds for every outcome.
- The `constants` module is not part of this model. MOVE_COSTS is a parameter, and the board constants are inputs.
- Members that index MOVE_COSTS directly require every direction to be in the table. The model does not capture the `KeyError` the source raises otherwise.
- goal_test in complex.py, nondeterministic.py and sensor_based.py is board equality. It is written inline as `==` rather than as a member.
- sensor_based.py re-implements get_possible_actions and result (lines 176-215) identically to nondeterministic.py. `Sensor` reuses `Nondeterministic.Actions` and `Nondeterministic.Apply`, and `Agreement` ties both to the complex.py versions.
- calculate_action_cost (sensor_based.py:217-219) is `CostOr1` and has no member of its own.
- Complex.NoObservationBeliefStateSearch: the returned path is replayed from an arbitrary representative of the initial belief, as in the source. The contract promises that the belief reached meets the goals, not that the path ends at a goal. That holds only when the belief is a single board (`Complex.ReplaySingleton`).
- Complex.AndOrGraphSearch and Nondeterministic.AndOrGraphSearch: completeness is not claimed. A failure result only means the or-search failed under its depth bound and cycle guard.
- Sensor.SensorSearch: its ensures does not repeat the per-step preference (sorted unvisited neighbours, recent memory, last five boards). `Sensor.ChooseNext` states that preference for each step.
- Sensor.SensorSearch: the visited set, the ten-board recent memory and the best heuristic so far are kept as in the source. No invariant is stated about them beyond what each step's choice uses.
- Sensor.BeliefStateSearch: the step back to path[-2] adds 1 to the cost, whatever MOVE_COSTS says for that direction. The model keeps this charge as the source has it (`Sensor.BeliefCosts`).
- Uninformed.Ucs and Informed.AStar: cost-optimality is not claimed. Both mark boards visited when they are pushed, so a cheaper path found later is discarded.
- Informed.Greedy, Informed.AStar, Uninformed.Bfs and Uninformed.Ucs end on an empty frontier or at the goal; no step bound is modelled. Termination follows from the finite set of rearrangements of the start board's cells.
- Uninformed.Bfs, Uninformed.Dfs, Uninformed.Ucs, Uninformed.Ids, Informed.Greedy, Informed.AStar, Informed.IdaStar, Local.HillClimbing, Local.SimpleHillClimbing, Local.StochasticHillClimbing, Local.BeamSearch, Sensor.SensorSearch, Sensor.SensorSearchBeliefStates, Sensor.BeliefStateSearch, Complex.AndOrGraphSearch and Nondeterministic.AndOrGraphSearch require a start board holding a blank. On a blankless start that is not the goal, the source raises `TypeError` (unpacking the `None` of get_zero_position at utils.py:11 and 21, or comparing `None > 0` at nondeterministic.py:29 and sensor_based.py:185). A blankless start equal to the goal returns normally in the source, but the model does not cover that input either.
- Complex.NoObservationBeliefStateSearch requires a non-empty initial belief. On an empty one the source raises `StopIteration` at `next(iter(belief))` (complex.py:82). Only `Complex.PartiallyObservableSearch` models that crash, as its crash flag.
- Nondeterministic.OrSearch terminates through a finite budget of unvisited boards. The source's or_search/and_search recursion (nondeterministic.py:96-129) has no depth bound, so a deep descent can exceed CPython's recursion limit and raise `RecursionError`. The model does not capture that limit.
- Local.BeamSearch takes a natural beam width. A negative `beam_width` makes `[:beam_width]` (local.py:134) drop entries from the end of the sorted queue instead, and the model does not cover that.
- Uninformed.Dfs takes a natural `max_depth`. The source treats a negative `max_depth` like 0 (the `depth >= max_depth` test at uninformed.py:28), and the model does not cover that input.
- The `max_depth` and `nodes_expanded` counters of the constraint solver are modelled as fields. Only their growth is stated, not their exact values.
