/**
 * The informed searches of algorithms/informed.py: the Manhattan heuristic,
 * greedy best-first search, A* and IDA*.
 */
module Informed {
  import opened Wrappers
  import opened Utils
  import opened Space
  import opened Search

  // ---------------------------------------------------------------------
  // heuristic (algorithms/informed.py:5-12)

  function Abs(x: int): nat
  {
    if x < 0 then -x else x
  }

  /** |i - x| + |j - y| for the cells k = (i, j) and m = (x, y). */
  function CellDistance(k: nat, m: nat): nat
  {
    Abs(Row(k) - Row(m)) + Abs(Col(k) - Col(m))
  }

  lemma {:induction false} CellDistanceFacts(k: nat, m: nat)
    requires k < 9 && m < 9
    ensures CellDistance(k, m) <= 4
    ensures CellDistance(k, m) == 0 <==> k == m
  {
  }

  /** No value occupies two cells. */
  predicate DistinctCells(b: Board)
  {
    forall i, j :: 0 <= i < j < 9 ==> b[i] != b[j]
  }

  /**
   * The terms the comprehension adds for a tile of value v standing on cell
   * k: one distance per goal cell m, m+1, .., 8 that holds v.
   */
  function GoalTerms(k: nat, v: int, goal: Board, m: nat): (r: nat)
    requires k < 9 && m <= 9
    ensures r <= 4 * (9 - m)
    decreases 9 - m
  {
    if m == 9 then 0
    else
      CellDistanceFacts(k, m);
      (if goal[m] == v then CellDistance(k, m) else 0) + GoalTerms(k, v, goal, m + 1)
  }

  /** The terms for cell k of state: none for the blank (`if val`). */
  function TileTerm(state: Board, goal: Board, k: nat): (r: nat)
    requires k < 9
    ensures r <= 36
  {
    if state[k] != 0 then GoalTerms(k, state[k], goal, 0) else 0
  }

  /** The terms for cells k, k+1, .., 8 of state. */
  function CellTerms(state: Board, goal: Board, k: nat): (r: nat)
    requires k <= 9
    ensures r <= 36 * (9 - k)
    decreases 9 - k
  {
    if k == 9 then 0 else TileTerm(state, goal, k) + CellTerms(state, goal, k + 1)
  }

  /** heuristic: the sum of the Manhattan distances from each tile to every goal cell holding it. */
  function Heuristic(state: Board, goal: Board): (h: nat)
    ensures h <= 324
  {
    CellTerms(state, goal, 0)
  }

  /** The first cell at or after m holding v. */
  function Find(b: Board, v: int, m: nat): (r: Option<nat>)
    requires m <= 9
    ensures r.Some? ==> m <= r.value < 9 && b[r.value] == v
    ensures r.None? ==> forall j :: m <= j < 9 ==> b[j] != v
    decreases 9 - m
  {
    if m == 9 then None
    else if b[m] == v then Some(m)
    else Find(b, v, m + 1)
  }

  /** With a goal holding no value twice, a tile contributes the distance to its one goal cell. */
  lemma {:induction false} GoalTermsDistinct(k: nat, v: int, goal: Board, m: nat)
    requires DistinctCells(goal) && k < 9 && m <= 9
    ensures GoalTerms(k, v, goal, m) == match Find(goal, v, m) case None => 0 case Some(p) => CellDistance(k, p)
    decreases 9 - m
  {
    if m < 9 {
      GoalTermsDistinct(k, v, goal, m + 1);
      if goal[m] == v {
        assert Find(goal, v, m + 1).None?;
      }
    }
  }

  lemma {:induction false} CellTermsZero(state: Board, goal: Board, k: nat)
    requires k <= 9
    ensures CellTerms(state, goal, k) == 0 <==> forall j :: k <= j < 9 ==> TileTerm(state, goal, j) == 0
  {
    if CellTerms(state, goal, k) == 0 {
      forall j | k <= j < 9 ensures TileTerm(state, goal, j) == 0 {
        CellTermsZeroAt(state, goal, k, j);
      }
    }
    if forall j :: k <= j < 9 ==> TileTerm(state, goal, j) == 0 {
      CellTermsZeroAll(state, goal, k);
    }
  }

  /** A zero sum has a zero term at every cell it covers. */
  lemma {:induction false} CellTermsZeroAt(state: Board, goal: Board, k: nat, j: nat)
    requires k <= j < 9 && CellTerms(state, goal, k) == 0
    ensures TileTerm(state, goal, j) == 0
    decreases j - k
  {
    assert CellTerms(state, goal, k) == TileTerm(state, goal, k) + CellTerms(state, goal, k + 1);
    if k < j {
      CellTermsZeroAt(state, goal, k + 1, j);
    }
  }

  /** Zero terms on every covered cell make a zero sum. */
  lemma {:induction false} CellTermsZeroAll(state: Board, goal: Board, k: nat)
    requires k <= 9 && forall j :: k <= j < 9 ==> TileTerm(state, goal, j) == 0
    ensures CellTerms(state, goal, k) == 0
    decreases 9 - k
  {
    if k < 9 {
      CellTermsZeroAll(state, goal, k + 1);
    }
  }

  /**
   * Two boards whose terms differ only on cells i and t: their sums differ
   * by the differences on those two cells.
   */
  lemma {:induction false} CellTermsDiffer(s: Board, n: Board, goal: Board, k: nat, i: nat, t: nat)
    requires k <= 9 && i < 9 && t < 9 && i != t
    requires forall j :: k <= j < 9 && j != i && j != t ==> TileTerm(s, goal, j) == TileTerm(n, goal, j)
    ensures CellTerms(n, goal, k) - CellTerms(s, goal, k) ==
            (if k <= i then TileTerm(n, goal, i) - TileTerm(s, goal, i) else 0) +
            (if k <= t then TileTerm(n, goal, t) - TileTerm(s, goal, t) else 0)
    decreases 9 - k
  {
    if k < 9 {
      CellTermsDiffer(s, n, goal, k + 1, i, t);
      assert CellTerms(n, goal, k) == TileTerm(n, goal, k) + CellTerms(n, goal, k + 1);
      assert CellTerms(s, goal, k) == TileTerm(s, goal, k) + CellTerms(s, goal, k + 1);
    }
  }

  /** In a board holding no value twice, the value of cell j is found at j. */
  lemma {:induction false} FindDistinct(b: Board, j: nat)
    requires DistinctCells(b) && j < 9
    ensures Find(b, b[j], 0) == Some(j)
  {
    var p := Find(b, b[j], 0);
    assert p.Some?;
    assert b[p.value] == b[j];
  }

  /** heuristic(g, g) is 0 for a goal that holds no value twice. */
  lemma {:induction false} HeuristicOfGoal(goal: Board)
    requires DistinctCells(goal)
    ensures Heuristic(goal, goal) == 0
  {
    forall j | 0 <= j < 9 ensures TileTerm(goal, goal, j) == 0 {
      GoalTermsDistinct(j, goal[j], goal, 0);
      FindDistinct(goal, j);
    }
    CellTermsZero(goal, goal, 0);
  }

  /** A rearrangement of a board holding no value twice holds no value twice either. */
  lemma {:induction false} RearrangedDistinct(s: Board, goal: Board)
    requires DistinctCells(goal) && multiset(s) == multiset(goal)
    ensures DistinctCells(s)
  {
    forall i, j | 0 <= i < j < 9 ensures s[i] != s[j] {
      if s[i] == s[j] {
        var x := s[i];
        assert s == s[..j] + s[j..];
        assert x in s[..j] && x in s[j..];
        assert multiset(s)[x] == multiset(s[..j])[x] + multiset(s[j..])[x];
        DistinctCount(goal, x);
      }
    }
  }

  /** For a board that rearranges a permutation goal, heuristic is 0 exactly at the goal. */
  lemma {:induction false} HeuristicZero(s: Board, goal: Board)
    requires IsPermutation(goal) && multiset(s) == multiset(goal)
    ensures Heuristic(s, goal) == 0 <==> s == goal
  {
    if Heuristic(s, goal) == 0 {
      CellTermsZero(s, goal, 0);
      // every tile stands on its goal cell ...
      forall k | 0 <= k < 9 && s[k] != 0 ensures goal[k] == s[k] {
        assert s[k] in multiset(goal);
        GoalTermsDistinct(k, s[k], goal, 0);
        assert TileTerm(s, goal, k) == 0;
        CellDistanceFacts(k, Find(goal, s[k], 0).value);
      }
      // ... so the blank cells agree too
      forall k | 0 <= k < 9 && s[k] == 0 ensures goal[k] == 0 {
        assert goal[k] in multiset(s);
        var j :| 0 <= j < 9 && s[j] == goal[k];
        assert goal[j] == goal[k] || s[j] == 0;
      }
      assert s == goal;
    }
    if s == goal {
      HeuristicOfGoal(goal);
    }
  }

  /** Cells one move apart share a row or a column and differ by one in the other. */
  lemma {:induction false} StepAdjacent(k: nat, d: Dir)
    requires k < 9 && Step(k, d).Some?
    ensures var t := Step(k, d).value;
            (Row(t) == Row(k) && Abs(Col(t) - Col(k)) == 1) || (Col(t) == Col(k) && Abs(Row(t) - Row(k)) == 1)
  {
  }

  /** Moving to an adjacent cell changes the distance to any cell p by exactly one. */
  lemma {:induction false} DistanceAdjacent(i: nat, t: nat, p: nat)
    requires (Row(t) == Row(i) && Abs(Col(t) - Col(i)) == 1) || (Col(t) == Col(i) && Abs(Row(t) - Row(i)) == 1)
    ensures CellDistance(i, p) == CellDistance(t, p) + 1 || CellDistance(i, p) + 1 == CellDistance(t, p)
  {
  }

  /**
   * Exchanging the blank on cell i with the tile x on the adjacent cell t
   * changes heuristic by exactly one.
   */
  lemma {:induction false} HeuristicSwap(s: Board, goal: Board, n: Board, i: nat, t: nat)
    requires DistinctCells(goal) && i < 9 && t < 9 && i != t
    requires s[i] == 0 && s[t] != 0 && s[t] in goal && n[i] == s[t] && n[t] == 0
    requires forall j :: 0 <= j < 9 && j != i && j != t ==> n[j] == s[j]
    requires (Row(t) == Row(i) && Abs(Col(t) - Col(i)) == 1) || (Col(t) == Col(i) && Abs(Row(t) - Row(i)) == 1)
    ensures Heuristic(n, goal) == Heuristic(s, goal) + 1 || Heuristic(n, goal) + 1 == Heuristic(s, goal)
  {
    var x := s[t];
    GoalTermsDistinct(t, x, goal, 0);
    GoalTermsDistinct(i, x, goal, 0);
    var p := Find(goal, x, 0).value;
    assert TileTerm(s, goal, t) == CellDistance(t, p) && TileTerm(n, goal, i) == CellDistance(i, p);
    forall j | 0 <= j < 9 && j != i && j != t ensures TileTerm(s, goal, j) == TileTerm(n, goal, j) {
      assert n[j] == s[j];
    }
    CellTermsDiffer(s, n, goal, 0, i, t);
    DistanceAdjacent(i, t, p);
  }

  /**
   * One move changes heuristic by exactly one: a single tile moves to an
   * adjacent cell.
   */
  lemma {:induction false} HeuristicStep(s: Board, goal: Board, n: Board)
    requires IsPermutation(goal) && multiset(s) == multiset(goal) && HasBlank(s)
    requires n in Neighbors(s)
    ensures Heuristic(n, goal) == Heuristic(s, goal) + 1 || Heuristic(n, goal) + 1 == Heuristic(s, goal)
  {
    NeighborsExactly(s, n);
    var d :| Move(s, d) == Some(n);
    var i := BlankIndex(s);
    var t := Step(i, d).value;
    MoveFacts(s, d);
    SwapFacts(s, i, t);
    RearrangedDistinct(s, goal);
    assert s[t] in multiset(goal);
    StepAdjacent(i, d);
    HeuristicSwap(s, goal, n, i, t);
  }

  // ---------------------------------------------------------------------
  // greedy (algorithms/informed.py:14-29)

  /** Every heap entry of greedy carries the heuristic of its board. */
  predicate GreedyPrio(pq: seq<Node>, goal: Board)
  {
    forall j :: 0 <= j < |pq| ==> |pq[j].prio| == 1 && pq[j].prio[0] == Heuristic(pq[j].state, goal)
  }

  lemma {:induction false} GreedyPrioPush(pq: seq<Node>, goal: Board, n: Node)
    requires GreedyPrio(pq, goal) && |n.prio| == 1 && n.prio[0] == Heuristic(n.state, goal)
    ensures GreedyPrio(pq + [n], goal)
  {
  }

  lemma {:induction false} GreedyPrioRemove(pq: seq<Node>, goal: Board, r: nat)
    requires GreedyPrio(pq, goal) && r < |pq|
    ensures GreedyPrio(Remove(pq, r), goal)
  {
  }

  /**
   * Greedy best-first search: pops the entry of smallest heuristic, marks
   * boards visited when it pushes them, and logs each pop before the goal
   * test. On failure every board reachable from start has been expanded.
   */
  method Greedy(mc: MoveCosts, start: Board, goal: Board) returns (path: Option<seq<Board>>, costs: Option<seq<nat>>, allPaths: seq<Entry>)
    requires Complete(mc) && HasBlank(start)
    ensures path.Some? <==> costs.Some?
    ensures path.Some? ==> Solution(mc, start, goal, path.value, costs.value, allPaths)
    ensures path.None? ==> Unreachable(start, goal)
    ensures Logged(mc, start, allPaths) && ExpandedOnce(allPaths)
  {
    var pq := [Node([Heuristic(start, goal)], start, [start], 0)];
    var visited := {start};
    allPaths := [];
    ghost var closed: set<Board> := {};
    InvInit(mc, start, goal, [Heuristic(start, goal)]);
    while pq != []
      invariant Inv(mc, start, goal, pq, visited, closed, allPaths) && Closed(closed, visited)
      invariant GreedyPrio(pq, goal)
      decreases |Universe(start) - closed|
    {
      var r := ArgMin(pq);
      var node := pq[r];
      ghost var pq0, log0 := pq, allPaths;
      pq := Remove(pq, r);
      allPaths := allPaths + [Entry(node.path, node.cost)];
      if node.state == goal {
        InvGoal(mc, start, goal, pq0, visited, closed, log0, r);
        var c := CalculateCosts(mc, node.path);
        return Some(node.path), Some(c), allPaths;
      }
      InvPop(mc, start, goal, pq0, visited, closed, log0, r);
      GreedyPrioRemove(pq0, goal, r);
      ghost var expanded, visited0 := closed, visited;
      closed := closed + {node.state};
      pq, visited := GreedyPush(mc, start, goal, node, pq, visited, closed, allPaths);
      ClosedAdd(expanded, visited0, visited, node.state);
    }
    InvExhausted(mc, start, goal, visited, closed, allPaths);
    return None, None, allPaths;
  }

  /**
   * The neighbour loop of greedy: every neighbour not yet visited is marked
   * visited and pushed with its heuristic, its path and its cost.
   */
  method GreedyPush(mc: MoveCosts, start: Board, goal: Board, node: Node, pq: seq<Node>, visited: set<Board>,
                    ghost closed: set<Board>, ghost log: seq<Entry>) returns (pq': seq<Node>, visited': set<Board>)
    requires Inv(mc, start, goal, pq, visited, closed, log) && GreedyPrio(pq, goal)
    requires NodeOk(mc, start, node) && node.state in visited
    ensures Inv(mc, start, goal, pq', visited', closed, log) && GreedyPrio(pq', goal)
    ensures visited <= visited' && forall n :: n in Neighbors(node.state) ==> n in visited'
  {
    var state, path, cost := node.state, node.path, node.cost;
    pq', visited' := pq, visited;
    var neighbors := GetNeighbors(state);
    NeighborsKeepTiles(state);
    for i := 0 to |neighbors|
      invariant Inv(mc, start, goal, pq', visited', closed, log) && GreedyPrio(pq', goal)
      invariant visited <= visited' && AllIn(neighbors[..i], visited')
    {
      var neighbor := neighbors[i];
      ghost var before := visited';
      if neighbor !in visited' {
        var step := StepCost(mc, state, neighbor);
        var newCost := cost + step;
        var entry := Node([Heuristic(neighbor, goal)], neighbor, path + [neighbor], newCost);
        PushTracked(mc, start, goal, pq', visited', closed, log, node, entry);
        GreedyPrioPush(pq', goal, entry);
        visited' := visited' + {neighbor};
        pq' := pq' + [entry];
      }
      AllInStep(neighbors, i, before, visited');
    }
    assert neighbors[..|neighbors|] == neighbors;
  }

  // ---------------------------------------------------------------------
  // astar (algorithms/informed.py:31-48)

  /** Every heap entry of A* is (f, g, ...) with g equal to its cost field and f = g + heuristic. */
  predicate AStarPrio(pq: seq<Node>, goal: Board)
  {
    forall j :: 0 <= j < |pq| ==>
      |pq[j].prio| == 2 && pq[j].prio[1] == pq[j].cost && pq[j].prio[0] == pq[j].prio[1] + Heuristic(pq[j].state, goal)
  }

  lemma {:induction false} AStarPrioPush(pq: seq<Node>, goal: Board, n: Node)
    requires AStarPrio(pq, goal)
    requires |n.prio| == 2 && n.prio[1] == n.cost && n.prio[0] == n.prio[1] + Heuristic(n.state, goal)
    ensures AStarPrio(pq + [n], goal)
  {
  }

  lemma {:induction false} AStarPrioRemove(pq: seq<Node>, goal: Board, r: nat)
    requires AStarPrio(pq, goal) && r < |pq|
    ensures AStarPrio(Remove(pq, r), goal)
  {
  }

  /**
   * A*: pops the entry of smallest f = g + heuristic (then smallest g),
   * marks boards visited when it pushes them, and logs each pop before the
   * goal test. Every heap entry keeps its g field equal to its cost field.
   */
  method AStar(mc: MoveCosts, start: Board, goal: Board) returns (path: Option<seq<Board>>, costs: Option<seq<nat>>, allPaths: seq<Entry>)
    requires Complete(mc) && HasBlank(start)
    ensures path.Some? <==> costs.Some?
    ensures path.Some? ==> Solution(mc, start, goal, path.value, costs.value, allPaths)
    ensures path.None? ==> Unreachable(start, goal)
    ensures Logged(mc, start, allPaths) && ExpandedOnce(allPaths)
  {
    var pq := [Node([Heuristic(start, goal), 0], start, [start], 0)];
    var visited := {start};
    allPaths := [];
    ghost var closed: set<Board> := {};
    InvInit(mc, start, goal, [Heuristic(start, goal), 0]);
    while pq != []
      invariant Inv(mc, start, goal, pq, visited, closed, allPaths) && Closed(closed, visited)
      invariant AStarPrio(pq, goal)
      decreases |Universe(start) - closed|
    {
      var r := ArgMin(pq);
      var node := pq[r];
      ghost var pq0, log0 := pq, allPaths;
      pq := Remove(pq, r);
      allPaths := allPaths + [Entry(node.path, node.cost)];
      if node.state == goal {
        InvGoal(mc, start, goal, pq0, visited, closed, log0, r);
        var c := CalculateCosts(mc, node.path);
        return Some(node.path), Some(c), allPaths;
      }
      InvPop(mc, start, goal, pq0, visited, closed, log0, r);
      AStarPrioRemove(pq0, goal, r);
      ghost var expanded, visited0 := closed, visited;
      closed := closed + {node.state};
      pq, visited := AStarPush(mc, start, goal, node, pq, visited, closed, allPaths);
      ClosedAdd(expanded, visited0, visited, node.state);
    }
    InvExhausted(mc, start, goal, visited, closed, allPaths);
    return None, None, allPaths;
  }

  /**
   * The neighbour loop of astar: every neighbour not yet visited is marked
   * visited and pushed with g_new = g + the move's cost, f_new = g_new +
   * heuristic, its path and its cost.
   */
  method AStarPush(mc: MoveCosts, start: Board, goal: Board, node: Node, pq: seq<Node>, visited: set<Board>,
                   ghost closed: set<Board>, ghost log: seq<Entry>) returns (pq': seq<Node>, visited': set<Board>)
    requires Inv(mc, start, goal, pq, visited, closed, log) && AStarPrio(pq, goal)
    requires NodeOk(mc, start, node) && node.state in visited
    requires |node.prio| == 2 && node.prio[1] == node.cost
    ensures Inv(mc, start, goal, pq', visited', closed, log) && AStarPrio(pq', goal)
    ensures visited <= visited' && forall n :: n in Neighbors(node.state) ==> n in visited'
  {
    var g, state, path, cost := node.prio[1], node.state, node.path, node.cost;
    pq', visited' := pq, visited;
    var neighbors := GetNeighbors(state);
    NeighborsKeepTiles(state);
    for i := 0 to |neighbors|
      invariant Inv(mc, start, goal, pq', visited', closed, log) && AStarPrio(pq', goal)
      invariant visited <= visited' && AllIn(neighbors[..i], visited')
    {
      var neighbor := neighbors[i];
      ghost var before := visited';
      if neighbor !in visited' {
        var step := StepCost(mc, state, neighbor);
        var newCost := cost + step;
        var gNew := g + step;
        var fNew := gNew + Heuristic(neighbor, goal);
        var entry := Node([fNew, gNew], neighbor, path + [neighbor], newCost);
        assert gNew == newCost;
        PushTracked(mc, start, goal, pq', visited', closed, log, node, entry);
        AStarPrioPush(pq', goal, entry);
        visited' := visited' + {neighbor};
        pq' := pq' + [entry];
      }
      AllInStep(neighbors, i, before, visited');
    }
    assert neighbors[..|neighbors|] == neighbors;
  }

  // ---------------------------------------------------------------------
  // IDA* (`ida_star`): depth-first searches bounded by f = g + h, the bound
  // rising to the smallest f that exceeded it, until the goal is found or no
  // branch was cut.

  /** The dearest single move of the cost table. */
  function MaxStep(mc: MoveCosts): (m: nat)
    requires Complete(mc)
    ensures mc[Up] <= m && mc[Down] <= m && mc[Left] <= m && mc[Right] <= m
    ensures m == mc[Up] || m == mc[Down] || m == mc[Left] || m == mc[Right]
  {
    var a := if mc[Up] <= mc[Down] then mc[Down] else mc[Up];
    var b := if mc[Left] <= mc[Right] then mc[Right] else mc[Left];
    if a <= b then b else a
  }

  /** A path of n moves costs at most n times the dearest move. */
  lemma {:induction false} CostsBound(mc: MoveCosts, p: seq<Board>)
    requires Complete(mc) && AllBlanked(p) && |p| >= 1
    ensures Last(Costs(mc, p)) <= Times(MaxStep(mc), |p| - 1)
    decreases |p|
  {
    if |p| > 1 {
      var front := p[..|p| - 1];
      assert AllBlanked(front);
      CostsBound(mc, front);
      CostsSnoc(mc, front, Last(p));
      assert front + [Last(p)] == p;
      assert Last(front) == p[|p| - 2];
      var step := StepCost(mc, Last(front), Last(p));
      assert step <= MaxStep(mc);
    }
  }

  /**
   * An f-value no path without repeats can exceed: the dearest move once per
   * board of the universe, plus the largest heuristic.
   */
  function Cap(mc: MoveCosts, start: Board): nat
    requires Complete(mc)
  {
    Times(MaxStep(mc), |Universe(start)|) + 324
  }

  /** m * n, by repeated addition. */
  function Times(m: nat, n: nat): nat
  {
    if n == 0 then 0 else Times(m, n - 1) + m
  }

  lemma {:induction false} TimesMono(m: nat, a: nat, b: nat)
    requires a <= b
    ensures Times(m, a) <= Times(m, b)
    decreases b
  {
    if a < b {
      TimesMono(m, a, b - 1);
    }
  }

  /** The f-value of a path without repeated boards is at most the cap. */
  lemma {:induction false} FBound(mc: MoveCosts, start: Board, goal: Board, path: seq<Board>, cost: int)
    requires Tracked(mc, start, path, cost) && Distinct(path)
    ensures cost + Heuristic(Last(path), goal) <= Cap(mc, start)
  {
    CostsBound(mc, path);
    WalkInUniverse(start, path);
    DistinctCard(path);
    SubsetCard(PathSet(path), Universe(start));
    TimesMono(MaxStep(mc), |path| - 1, |Universe(start)|);
  }

  /** `min(min_bound, new_f)` with None standing for infinity. */
  function MinBound(a: Option<int>, b: Option<int>): (r: Option<int>)
    ensures r.None? <==> a.None? && b.None?
    ensures r == a || r == b
    ensures r.Some? ==> (a.Some? ==> r.value <= a.value) && (b.Some? ==> r.value <= b.value)
  {
    if a.None? then b
    else if b.None? then a
    else Some(Min(a.value, b.value))
  }

  /**
   * `search`: logs the path, cuts it when f exceeds the bound, stops at the
   * goal, and otherwise tries every neighbour not already on the path. The
   * result is either a solution within the bound, or the smallest f beyond
   * the bound among the cut branches (None when no branch was cut, in which
   * case no repeat-free walk extending the path reaches the goal).
   */
  method IdaSearch(mc: MoveCosts, start: Board, goal: Board, state: Board, g: int, bound: int,
                   path: seq<Board>, cost: int, log: seq<Entry>)
    returns (f: Option<int>, result: Option<seq<Board>>, resultCosts: Option<seq<nat>>, log': seq<Entry>)
    requires Tracked(mc, start, path, cost) && state == Last(path) && g == cost && Distinct(path)
    requires Logged(mc, start, log)
    ensures Logged(mc, start, log') && log + [Entry(path, cost)] <= log'
    ensures result.Some? <==> resultCosts.Some?
    ensures result.Some? ==> f.Some? && f.value <= bound && Solution(mc, start, goal, result.value, resultCosts.value, log')
    ensures result.Some? ==> Distinct(result.value) && path <= result.value
    ensures result.None? ==> f.None? || f.value > bound
    ensures result.None? && f.None? ==> Exhausted(goal, path)
    ensures f.Some? ==> f.value <= Cap(mc, start)
    decreases |Universe(start) - PathSet(path)|, 2
  {
    log' := log + [Entry(path, cost)];
    var fHere := g + Heuristic(state, goal);
    FBound(mc, start, goal, path, cost);
    if fHere > bound {
      return Some(fHere), None, None, log';
    }
    if state == goal {
      var c := CalculateCosts(mc, path);
      return Some(fHere), Some(path), Some(c), log';
    }
    ghost var log0 := log';
    f, result, resultCosts, log' := IdaExpand(mc, start, goal, g, bound, path, cost, log');
    assert log + [Entry(path, cost)] <= log0 <= log';
  }

  /** The loop of `search` over the neighbours of a board that is neither cut nor the goal. */
  method IdaExpand(mc: MoveCosts, start: Board, goal: Board, g: int, bound: int,
                   path: seq<Board>, cost: int, log: seq<Entry>)
    returns (f: Option<int>, result: Option<seq<Board>>, resultCosts: Option<seq<nat>>, log': seq<Entry>)
    requires Tracked(mc, start, path, cost) && g == cost && Distinct(path) && Last(path) != goal
    requires Logged(mc, start, log)
    ensures Logged(mc, start, log') && log <= log'
    ensures result.Some? <==> resultCosts.Some?
    ensures result.Some? ==> f.Some? && f.value <= bound && Solution(mc, start, goal, result.value, resultCosts.value, log')
    ensures result.Some? ==> Distinct(result.value) && path <= result.value
    ensures result.None? ==> f.None? || f.value > bound
    ensures result.None? && f.None? ==> Exhausted(goal, path)
    ensures f.Some? ==> f.value <= Cap(mc, start)
    decreases |Universe(start) - PathSet(path)|, 1
  {
    log' := log;
    var minBound: Option<int> := None;
    var neighbors := GetNeighbors(Last(path));
    for i := 0 to |neighbors|
      invariant Logged(mc, start, log') && log <= log'
      invariant minBound.None? || bound < minBound.value <= Cap(mc, start)
      invariant minBound.None? ==> ChildrenExhausted(goal, path, neighbors, i)
    {
      var neighbor := neighbors[i];
      if neighbor !in path {
        var newF, res, resCosts;
        newF, res, resCosts, log' := IdaChild(mc, start, goal, g, bound, path, cost, neighbor, log');
        if res.Some? {
          return newF, res, resCosts, log';
        }
        minBound := MinBound(minBound, newF);
      }
      if minBound.None? {
        ChildrenExhaustedNext(goal, path, neighbors, i);
      }
    }
    if minBound.None? {
      ExhaustedStep(goal, path);
    }
    return minBound, None, None, log';
  }

  /** What the recursive call of `search` on a neighbour not yet on the path needs. */
  lemma {:induction false} IdaChildReady(mc: MoveCosts, start: Board, path: seq<Board>, cost: int, neighbor: Board,
                                         child: seq<Board>, newCost: int)
    requires Tracked(mc, start, path, cost) && Distinct(path)
    requires neighbor in Neighbors(Last(path)) && neighbor !in path && HasBlank(neighbor)
    requires child == path + [neighbor] && newCost == cost + StepCost(mc, Last(path), neighbor)
    ensures Last(child) == neighbor && Tracked(mc, start, child, newCost) && Distinct(child)
    ensures |Universe(start) - PathSet(child)| < |Universe(start) - PathSet(path)|
  {
    TrackedExtend(mc, start, path, cost, neighbor);
    PathGrows(start, path, neighbor);
  }

  /**
   * One iteration of `search`'s loop for a neighbour not on the path: the
   * move's cost extends g and the path's cost, and the search recurses on
   * the extended path.
   */
  method IdaChild(mc: MoveCosts, start: Board, goal: Board, g: int, bound: int,
                  path: seq<Board>, cost: int, neighbor: Board, log: seq<Entry>)
    returns (f: Option<int>, result: Option<seq<Board>>, resultCosts: Option<seq<nat>>, log': seq<Entry>)
    requires Tracked(mc, start, path, cost) && g == cost && Distinct(path)
    requires neighbor in Neighbors(Last(path)) && neighbor !in path
    requires Logged(mc, start, log)
    ensures Logged(mc, start, log') && log <= log'
    ensures result.Some? <==> resultCosts.Some?
    ensures result.Some? ==> f.Some? && f.value <= bound && Solution(mc, start, goal, result.value, resultCosts.value, log')
    ensures result.Some? ==> Distinct(result.value) && path <= result.value
    ensures result.None? ==> f.None? || f.value > bound
    ensures result.None? && f.None? ==> Exhausted(goal, path + [neighbor])
    ensures f.Some? ==> f.value <= Cap(mc, start)
    decreases |Universe(start) - PathSet(path)|, 0
  {
    NeighborsKeepTiles(Last(path));
    var step := StepCost(mc, Last(path), neighbor);
    var newCost := cost + step;
    var child := path + [neighbor];
    IdaChildReady(mc, start, path, cost, neighbor, child, newCost);
    f, result, resultCosts, log' := IdaSearch(mc, start, goal, neighbor, newCost, bound, child, newCost, log);
    IdaChildOutcome(log, path, neighbor, Entry(child, newCost), log', result);
  }

  /** The child's log and path extend the parent's. */
  lemma {:induction false} IdaChildOutcome(log: seq<Entry>, path: seq<Board>, neighbor: Board, e: Entry,
                                           log': seq<Entry>, result: Option<seq<Board>>)
    requires log + [e] <= log'
    requires result.Some? ==> path + [neighbor] <= result.value
    ensures log <= log'
    ensures result.Some? ==> path <= result.value
  {
    PrefixSnoc(log, e, log');
    if result.Some? {
      PrefixSnoc(path, neighbor, result.value);
    }
  }

  /**
   * `ida_star`: repeats the bounded search from the start, raising the bound
   * to the returned f each time, until a solution is found or no branch was
   * cut. Each new bound exceeds the last and none exceeds the cap, so the
   * loop ends.
   */
  method IdaStar(mc: MoveCosts, start: Board, goal: Board) returns (path: Option<seq<Board>>, costs: Option<seq<nat>>, allPaths: seq<Entry>)
    requires Complete(mc) && HasBlank(start)
    ensures path.Some? <==> costs.Some?
    ensures path.Some? ==> Solution(mc, start, goal, path.value, costs.value, allPaths) && Distinct(path.value)
    ensures path.None? ==> Unreachable(start, goal)
    ensures Logged(mc, start, allPaths)
  {
    allPaths := [];
    var bound := Heuristic(start, goal);
    TrackedStart(mc, start);
    while true
      invariant Logged(mc, start, allPaths) && bound <= Cap(mc, start)
      decreases Cap(mc, start) - bound
    {
      var f, result, c;
      f, result, c, allPaths := IdaSearch(mc, start, goal, start, 0, bound, [start], 0, allPaths);
      if result.Some? {
        return result, c, allPaths;
      }
      if f.None? {
        ExhaustedUnreachable(start, goal);
        return None, None, allPaths;
      }
      bound := f.value;
    }
  }
}
