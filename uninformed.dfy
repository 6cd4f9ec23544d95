/**
 * The uninformed searches of algorithms/uninformed.py: breadth-first search
 * (a FIFO queue), depth-first search (recursive, depth-limited), uniform-cost
 * search (a heap ordered by path cost) and iterative deepening (repeated
 * depth-limited searches). All of them log every path they explore and mark
 * boards visited when they push them.
 */
module Uninformed {
  import opened Wrappers
  import opened Utils
  import opened Space
  import opened Search

  // ---------------------------------------------------------------------
  // Breadth-first search (`bfs`)

  /** Every walk from start to s has at least k boards. */
  ghost predicate NoShorter(start: Board, s: Board, k: nat)
  {
    forall w :: IsWalk(w) && w[0] == start && Last(w) == s ==> |w| >= k
  }

  /** Every walk from start with at most k boards ends in S. */
  ghost predicate Within(start: Board, k: nat, S: set<Board>)
  {
    forall w :: IsWalk(w) && w[0] == start && |w| <= k ==> Last(w) in S
  }

  /**
   * The queue holds the boards in layers: its paths have lo or lo + 1 boards,
   * in non-decreasing order, each as short as any walk to its board, and
   * every board reachable with fewer than lo boards has been expanded.
   */
  ghost predicate Layered(start: Board, q: seq<Node>, closed: set<Board>, lo: nat)
  {
    lo >= 1 && Within(start, lo - 1, closed) &&
    (forall j :: 0 <= j < |q| ==> lo <= |q[j].path| <= lo + 1 && NoShorter(start, q[j].state, |q[j].path|)) &&
    (forall i, j :: 0 <= i < j < |q| ==> |q[i].path| <= |q[j].path|)
  }

  /** Once the boards within k are expanded, the boards within k + 1 are visited. */
  lemma {:induction false} WithinStep(start: Board, k: nat, closed: set<Board>, visited: set<Board>)
    requires Within(start, k, closed) && Closed(closed, visited) && start in visited
    ensures Within(start, k + 1, visited)
  {
    forall w | IsWalk(w) && w[0] == start && |w| <= k + 1 ensures Last(w) in visited {
      if |w| > 1 {
        var front := w[..|w| - 1];
        WalkFront(w);
        assert Last(front) in closed;
        assert Last(w) in Neighbors(Last(front));
      } else {
        assert Last(w) == start;
      }
    }
  }

  /**
   * Popping the front of the queue raises the layer to the length of its
   * path: the boards reachable with fewer boards are already expanded, and
   * those reachable with as many are visited.
   */
  lemma {:induction false} LayeredPop(mc: MoveCosts, start: Board, goal: Board, q: seq<Node>, visited: set<Board>, closed: set<Board>, log: seq<Entry>, lo: nat)
    requires Inv(mc, start, goal, q, visited, closed, log) && Closed(closed, visited)
    requires Layered(start, q, closed, lo) && |q| > 0
    ensures Layered(start, q[1..], closed + {q[0].state}, |q[0].path|)
    ensures Within(start, |q[0].path|, visited)
  {
    var L := |q[0].path|;
    assert Within(start, L - 1, closed) by {
      if L == lo + 1 {
        WithinStep(start, lo - 1, closed, visited);
        forall w | IsWalk(w) && w[0] == start && |w| <= lo ensures Last(w) in closed {
          assert Last(w) in visited;
        }
      }
    }
    WithinStep(start, L - 1, closed, visited);
    var q' := q[1..];
    forall j | 0 <= j < |q'| ensures L <= |q'[j].path| <= L + 1 && NoShorter(start, q'[j].state, |q'[j].path|) {
      assert q'[j] == q[j + 1];
    }
    forall i, j | 0 <= i < j < |q'| ensures |q'[i].path| <= |q'[j].path| {
      assert q'[i] == q[i + 1] && q'[j] == q[j + 1];
    }
  }

  /** A board not visited when the boards within k are: every walk to it has more than k boards. */
  lemma {:induction false} LayeredPush(start: Board, q: seq<Node>, closed: set<Board>, lo: nat, visited: set<Board>, n: Node)
    requires Layered(start, q, closed, lo) && Within(start, lo, visited)
    requires n.state !in visited && |n.path| == lo + 1
    ensures Layered(start, q + [n], closed, lo)
  {
    var q' := q + [n];
    forall j | 0 <= j < |q'| ensures lo <= |q'[j].path| <= lo + 1 && NoShorter(start, q'[j].state, |q'[j].path|) {
      if j < |q| {
        assert q'[j] == q[j];
      }
    }
    forall i, j | 0 <= i < j < |q'| ensures |q'[i].path| <= |q'[j].path| {
      assert q'[i] == q[i];
      if j < |q| {
        assert q'[j] == q[j];
      }
    }
  }

  /**
   * `bfs`: pops the oldest entry, logs it, stops at the goal, and otherwise
   * enqueues every neighbour not yet visited. A found path has no more boards
   * than any walk from start to goal; an exhausted queue means no walk
   * reaches the goal.
   */
  method Bfs(mc: MoveCosts, start: Board, goal: Board) returns (path: Option<seq<Board>>, costs: Option<seq<nat>>, allPaths: seq<Entry>)
    requires Complete(mc) && HasBlank(start)
    ensures path.Some? <==> costs.Some?
    ensures path.Some? ==> Solution(mc, start, goal, path.value, costs.value, allPaths)
    ensures path.Some? ==> NoShorter(start, goal, |path.value|)
    ensures path.None? ==> Unreachable(start, goal)
    ensures Logged(mc, start, allPaths) && ExpandedOnce(allPaths)
  {
    var queue := [Node([], start, [start], 0)];
    var visited := {start};
    allPaths := [];
    ghost var closed: set<Board> := {};
    ghost var lo: nat := 1;
    InvInit(mc, start, goal, []);
    while queue != []
      invariant Inv(mc, start, goal, queue, visited, closed, allPaths) && Closed(closed, visited)
      invariant Layered(start, queue, closed, lo)
      decreases |Universe(start) - closed|
    {
      var node := queue[0];
      ghost var q0, log0 := queue, allPaths;
      queue := queue[1..];
      allPaths := allPaths + [Entry(node.path, node.cost)];
      assert Remove(q0, 0) == queue;
      if node.state == goal {
        InvGoal(mc, start, goal, q0, visited, closed, log0, 0);
        var c := CalculateCosts(mc, node.path);
        return Some(node.path), Some(c), allPaths;
      }
      InvPop(mc, start, goal, q0, visited, closed, log0, 0);
      LayeredPop(mc, start, goal, q0, visited, closed, log0, lo);
      lo := |node.path|;
      ghost var expanded, visited0 := closed, visited;
      closed := closed + {node.state};
      queue, visited := BfsPush(mc, start, goal, node, queue, visited, closed, allPaths, lo);
      ClosedAdd(expanded, visited0, visited, node.state);
    }
    InvExhausted(mc, start, goal, visited, closed, allPaths);
    return None, None, allPaths;
  }

  /** The loop of `bfs` over the neighbours of the popped board. */
  method BfsPush(mc: MoveCosts, start: Board, goal: Board, node: Node, queue: seq<Node>, visited: set<Board>,
                 ghost closed: set<Board>, ghost log: seq<Entry>, ghost lo: nat) returns (queue': seq<Node>, visited': set<Board>)
    requires Inv(mc, start, goal, queue, visited, closed, log) && Layered(start, queue, closed, lo)
    requires NodeOk(mc, start, node) && node.state in visited && |node.path| == lo && Within(start, lo, visited)
    ensures Inv(mc, start, goal, queue', visited', closed, log) && Layered(start, queue', closed, lo)
    ensures visited <= visited' && forall n :: n in Neighbors(node.state) ==> n in visited'
  {
    var state, path, cost := node.state, node.path, node.cost;
    queue', visited' := queue, visited;
    var neighbors := GetNeighbors(state);
    NeighborsKeepTiles(state);
    for i := 0 to |neighbors|
      invariant Inv(mc, start, goal, queue', visited', closed, log) && Layered(start, queue', closed, lo)
      invariant visited <= visited' && AllIn(neighbors[..i], visited')
    {
      var neighbor := neighbors[i];
      ghost var before := visited';
      if neighbor !in visited' {
        var step := StepCost(mc, state, neighbor);
        var newCost := cost + step;
        var entry := Node([], neighbor, path + [neighbor], newCost);
        PushTracked(mc, start, goal, queue', visited', closed, log, node, entry);
        LayeredPush(start, queue', closed, lo, visited, entry);
        visited' := visited' + {neighbor};
        queue' := queue' + [entry];
      }
      AllInStep(neighbors, i, before, visited');
    }
    assert neighbors[..|neighbors|] == neighbors;
  }

  // ---------------------------------------------------------------------
  // Depth-first search (`dfs`)

  /** The default depth limit of `dfs`. */
  const DfsMaxDepth: nat := 30

  /** Every logged path ends in a visited board. */
  predicate LoggedIn(log: seq<Entry>, visited: set<Board>)
  {
    forall i :: 0 <= i < |log| ==> |log[i].path| > 0 && Last(log[i].path) in visited
  }

  /**
   * `dfs_recursive`: logs the path, stops at the goal or at the depth limit,
   * and otherwise recurses into each neighbour not yet visited, marking it
   * visited first. The visited set is shared by the whole search and only
   * grows, so no board is explored twice; a found path has at most
   * maxDepth + 1 boards.
   */
  method DfsRecursive(mc: MoveCosts, start: Board, goal: Board, maxDepth: nat, state: Board, path: seq<Board>,
                      visited: set<Board>, depth: nat, costSoFar: int, log: seq<Entry>)
    returns (result: Option<seq<Board>>, resultCosts: Option<seq<nat>>, visited': set<Board>, log': seq<Entry>)
    requires Tracked(mc, start, path, costSoFar) && state == Last(path) && depth == |path| - 1 && depth <= maxDepth
    requires Logged(mc, start, log) && ExpandedOnce(log) && LoggedIn(log, visited)
    requires state in visited && forall i :: 0 <= i < |log| ==> Last(log[i].path) != state
    ensures Logged(mc, start, log') && log + [Entry(path, costSoFar)] <= log'
    ensures ExpandedOnce(log') && LoggedIn(log', visited') && visited <= visited'
    ensures result.Some? <==> resultCosts.Some?
    ensures result.Some? ==> Solution(mc, start, goal, result.value, resultCosts.value, log')
    ensures result.Some? ==> path <= result.value && |result.value| <= maxDepth + 1
    decreases maxDepth - depth, 1
  {
    log' := log + [Entry(path, costSoFar)];
    visited' := visited;
    if state == goal {
      var c := CalculateCosts(mc, path);
      return Some(path), Some(c), visited', log';
    }
    if depth >= maxDepth {
      return None, None, visited', log';
    }
    ghost var log0 := log';
    result, resultCosts, visited', log' := DfsExpand(mc, start, goal, maxDepth, path, visited', depth, costSoFar, log');
    assert log + [Entry(path, costSoFar)] <= log0 <= log';
  }

  /** The loop of `dfs_recursive` over the neighbours of a board that is neither the goal nor at the limit. */
  method DfsExpand(mc: MoveCosts, start: Board, goal: Board, maxDepth: nat, path: seq<Board>,
                   visited: set<Board>, depth: nat, costSoFar: int, log: seq<Entry>)
    returns (result: Option<seq<Board>>, resultCosts: Option<seq<nat>>, visited': set<Board>, log': seq<Entry>)
    requires Tracked(mc, start, path, costSoFar) && depth == |path| - 1 && depth < maxDepth
    requires Logged(mc, start, log) && ExpandedOnce(log) && LoggedIn(log, visited)
    ensures Logged(mc, start, log') && log <= log'
    ensures ExpandedOnce(log') && LoggedIn(log', visited') && visited <= visited'
    ensures result.Some? <==> resultCosts.Some?
    ensures result.Some? ==> Solution(mc, start, goal, result.value, resultCosts.value, log')
    ensures result.Some? ==> path <= result.value && |result.value| <= maxDepth + 1
    decreases maxDepth - depth, 0
  {
    var state := Last(path);
    log', visited' := log, visited;
    var neighbors := GetNeighbors(state);
    NeighborsKeepTiles(state);
    for i := 0 to |neighbors|
      invariant Logged(mc, start, log') && log <= log'
      invariant ExpandedOnce(log') && LoggedIn(log', visited') && visited <= visited'
    {
      var neighbor := neighbors[i];
      if neighbor !in visited' {
        visited' := visited' + {neighbor};
        var step := StepCost(mc, state, neighbor);
        var newCost := costSoFar + step;
        TrackedChild(mc, start, path, costSoFar, neighbor, newCost);
        var resultPath, resultPathCosts;
        ghost var log0 := log';
        resultPath, resultPathCosts, visited', log' := DfsRecursive(mc, start, goal, maxDepth, neighbor, path + [neighbor],
                                                                    visited', depth + 1, newCost, log');
        assert log <= log0 <= log';
        if resultPath.Some? {
          assert path <= path + [neighbor] <= resultPath.value;
          return resultPath, resultPathCosts, visited', log';
        }
      }
    }
    return None, None, visited', log';
  }

  /** `dfs`: the recursive search from the start with a fresh visited set and log. */
  method Dfs(mc: MoveCosts, start: Board, goal: Board, maxDepth: nat) returns (path: Option<seq<Board>>, costs: Option<seq<nat>>, allPaths: seq<Entry>)
    requires Complete(mc) && HasBlank(start)
    ensures path.Some? <==> costs.Some?
    ensures path.Some? ==> Solution(mc, start, goal, path.value, costs.value, allPaths) && |path.value| <= maxDepth + 1
    ensures Logged(mc, start, allPaths) && ExpandedOnce(allPaths)
  {
    var visited := {start};
    allPaths := [];
    TrackedStart(mc, start);
    path, costs, visited, allPaths := DfsRecursive(mc, start, goal, maxDepth, start, [start], visited, 0, 0, allPaths);
  }

  // ---------------------------------------------------------------------
  // Uniform-cost search (`ucs`)

  /** Heap entries are `(cost, state, path)`: the leading field is the path's cost. */
  predicate UcsPrio(pq: seq<Node>)
  {
    forall j :: 0 <= j < |pq| ==> |pq[j].prio| == 1 && pq[j].prio[0] == pq[j].cost
  }

  /** No heap entry is cheaper than floor. */
  predicate Above(pq: seq<Node>, floor: int)
  {
    forall j :: 0 <= j < |pq| ==> pq[j].cost >= floor
  }

  /** The logged costs never decrease. */
  predicate CostsSorted(log: seq<Entry>)
  {
    forall i, j :: 0 <= i < j < |log| ==> log[i].cost <= log[j].cost
  }

  /** No logged cost exceeds floor. */
  predicate LogBelow(log: seq<Entry>, floor: int)
  {
    forall i :: 0 <= i < |log| ==> log[i].cost <= floor
  }

  /**
   * heappop takes an entry of least cost, no cheaper than anything logged
   * before it: logging it keeps the log sorted, and it becomes the new floor.
   */
  lemma {:induction false} UcsPop(pq: seq<Node>, log: seq<Entry>, floor: int, r: nat)
    requires |pq| > 0 && r == ArgMin(pq)
    requires UcsPrio(pq) && Above(pq, floor) && LogBelow(log, floor) && CostsSorted(log)
    ensures UcsPrio(Remove(pq, r)) && Above(Remove(pq, r), pq[r].cost)
    ensures LogBelow(log + [Entry(pq[r].path, pq[r].cost)], pq[r].cost)
    ensures CostsSorted(log + [Entry(pq[r].path, pq[r].cost)])
  {
    ArgMinFirst(pq);
    var c := pq[r].cost;
    var q' := Remove(pq, r);
    forall j | 0 <= j < |q'| ensures |q'[j].prio| == 1 && q'[j].prio[0] == q'[j].cost && q'[j].cost >= c {
      var k := if j < r then j else j + 1;
      assert q'[j] == pq[k];
      assert pq[r].prio[0] <= pq[k].prio[0];
    }
    var log' := log + [Entry(pq[r].path, c)];
    forall i | 0 <= i < |log'| ensures log'[i].cost <= c {
      if i < |log| {
        assert log'[i] == log[i];
      }
    }
  }

  /** A pushed entry costs its parent's cost plus a move, so no less than the floor. */
  lemma {:induction false} UcsPush(pq: seq<Node>, floor: int, n: Node)
    requires UcsPrio(pq) && Above(pq, floor) && |n.prio| == 1 && n.prio[0] == n.cost && n.cost >= floor
    ensures UcsPrio(pq + [n]) && Above(pq + [n], floor)
  {
    assert forall j :: 0 <= j < |pq| ==> (pq + [n])[j] == pq[j];
  }

  /**
   * `ucs`: pops the cheapest entry, logs it, stops at the goal, and otherwise
   * pushes every neighbour not yet visited with the move's cost added. Move
   * costs are non-negative, so the logged costs never decrease.
   */
  method Ucs(mc: MoveCosts, start: Board, goal: Board) returns (path: Option<seq<Board>>, costs: Option<seq<nat>>, allPaths: seq<Entry>)
    requires Complete(mc) && HasBlank(start)
    ensures path.Some? <==> costs.Some?
    ensures path.Some? ==> Solution(mc, start, goal, path.value, costs.value, allPaths)
    ensures path.None? ==> Unreachable(start, goal)
    ensures Logged(mc, start, allPaths) && ExpandedOnce(allPaths) && CostsSorted(allPaths)
  {
    var pq := [Node([0], start, [start], 0)];
    var visited := {start};
    allPaths := [];
    ghost var closed: set<Board> := {};
    ghost var floor := 0;
    InvInit(mc, start, goal, [0]);
    while pq != []
      invariant Inv(mc, start, goal, pq, visited, closed, allPaths) && Closed(closed, visited)
      invariant UcsPrio(pq) && Above(pq, floor) && LogBelow(allPaths, floor) && CostsSorted(allPaths)
      decreases |Universe(start) - closed|
    {
      var r := ArgMin(pq);
      var node := pq[r];
      ghost var pq0, log0 := pq, allPaths;
      pq := Remove(pq, r);
      allPaths := allPaths + [Entry(node.path, node.cost)];
      UcsPop(pq0, log0, floor, r);
      floor := node.cost;
      if node.state == goal {
        InvGoal(mc, start, goal, pq0, visited, closed, log0, r);
        var c := CalculateCosts(mc, node.path);
        return Some(node.path), Some(c), allPaths;
      }
      InvPop(mc, start, goal, pq0, visited, closed, log0, r);
      ghost var expanded, visited0 := closed, visited;
      closed := closed + {node.state};
      pq, visited := UcsExpand(mc, start, goal, node, pq, visited, closed, allPaths, floor);
      ClosedAdd(expanded, visited0, visited, node.state);
    }
    InvExhausted(mc, start, goal, visited, closed, allPaths);
    return None, None, allPaths;
  }

  /** The loop of `ucs` over the neighbours of the popped board. */
  method UcsExpand(mc: MoveCosts, start: Board, goal: Board, node: Node, pq: seq<Node>, visited: set<Board>,
                   ghost closed: set<Board>, ghost log: seq<Entry>, ghost floor: int) returns (pq': seq<Node>, visited': set<Board>)
    requires Inv(mc, start, goal, pq, visited, closed, log) && UcsPrio(pq) && Above(pq, floor)
    requires NodeOk(mc, start, node) && node.state in visited && node.cost == floor
    ensures Inv(mc, start, goal, pq', visited', closed, log) && UcsPrio(pq') && Above(pq', floor)
    ensures visited <= visited' && forall n :: n in Neighbors(node.state) ==> n in visited'
  {
    var state, path, cost := node.state, node.path, node.cost;
    pq', visited' := pq, visited;
    var neighbors := GetNeighbors(state);
    NeighborsKeepTiles(state);
    for i := 0 to |neighbors|
      invariant Inv(mc, start, goal, pq', visited', closed, log) && UcsPrio(pq') && Above(pq', floor)
      invariant visited <= visited' && AllIn(neighbors[..i], visited')
    {
      var neighbor := neighbors[i];
      ghost var before := visited';
      if neighbor !in visited' {
        var step := StepCost(mc, state, neighbor);
        var newCost := cost + step;
        var entry := Node([newCost], neighbor, path + [neighbor], newCost);
        PushTracked(mc, start, goal, pq', visited', closed, log, node, entry);
        UcsPush(pq', floor, entry);
        visited' := visited' + {neighbor};
        pq' := pq' + [entry];
      }
      AllInStep(neighbors, i, before, visited');
    }
    assert neighbors[..|neighbors|] == neighbors;
  }

  // ---------------------------------------------------------------------
  // Iterative deepening (`ids`)

  /** The last depth limit `ids` tries. */
  const IdsMaxDepth: nat := 50

  /**
   * `dls`: logs the path, gives up below depth 0, stops at the goal, and
   * otherwise recurses into each neighbour not yet visited with one less
   * depth. A found path extends the given one by at most depth boards.
   */
  method Dls(mc: MoveCosts, start: Board, goal: Board, state: Board, path: seq<Board>, depth: int, cost: int,
             visited: set<Board>, log: seq<Entry>)
    returns (result: Option<seq<Board>>, resultCosts: Option<seq<nat>>, visited': set<Board>, log': seq<Entry>)
    requires Tracked(mc, start, path, cost) && state == Last(path) && depth >= -1
    requires Logged(mc, start, log)
    ensures Logged(mc, start, log') && log + [Entry(path, cost)] <= log'
    ensures visited <= visited'
    ensures result.Some? <==> resultCosts.Some?
    ensures result.Some? ==> Solution(mc, start, goal, result.value, resultCosts.value, log')
    ensures result.Some? ==> path <= result.value && |result.value| <= |path| + depth
    decreases depth + 1, 1
  {
    log' := log + [Entry(path, cost)];
    visited' := visited;
    if depth < 0 {
      return None, None, visited', log';
    }
    if state == goal {
      var c := CalculateCosts(mc, path);
      return Some(path), Some(c), visited', log';
    }
    ghost var log0 := log';
    result, resultCosts, visited', log' := DlsExpand(mc, start, goal, path, depth, cost, visited', log');
    assert log + [Entry(path, cost)] <= log0 <= log';
  }

  /** The loop of `dls` over the neighbours of a board that is not the goal, with depth to spare. */
  method DlsExpand(mc: MoveCosts, start: Board, goal: Board, path: seq<Board>, depth: nat, cost: int,
                   visited: set<Board>, log: seq<Entry>)
    returns (result: Option<seq<Board>>, resultCosts: Option<seq<nat>>, visited': set<Board>, log': seq<Entry>)
    requires Tracked(mc, start, path, cost)
    requires Logged(mc, start, log)
    ensures Logged(mc, start, log') && log <= log'
    ensures visited <= visited'
    ensures result.Some? <==> resultCosts.Some?
    ensures result.Some? ==> Solution(mc, start, goal, result.value, resultCosts.value, log')
    ensures result.Some? ==> path <= result.value && |result.value| <= |path| + depth
    decreases depth + 1, 0
  {
    var state := Last(path);
    log', visited' := log, visited;
    var neighbors := GetNeighbors(state);
    NeighborsKeepTiles(state);
    for i := 0 to |neighbors|
      invariant Logged(mc, start, log') && log <= log'
      invariant visited <= visited'
    {
      var neighbor := neighbors[i];
      if neighbor !in visited' {
        visited' := visited' + {neighbor};
        var step := StepCost(mc, state, neighbor);
        var newCost := cost + step;
        TrackedChild(mc, start, path, cost, neighbor, newCost);
        var res, resCosts;
        ghost var log0 := log';
        res, resCosts, visited', log' := Dls(mc, start, goal, neighbor, path + [neighbor], depth - 1, newCost, visited', log');
        assert log <= log0 <= log';
        if res.Some? {
          assert path <= path + [neighbor] <= res.value;
          return res, resCosts, visited', log';
        }
      }
    }
    return None, None, visited', log';
  }

  /**
   * `ids`: depth-limited searches with limits 0, 1, ..., 50, each with a
   * fresh visited set, sharing one log; a found path has at most 51 boards.
   */
  method Ids(mc: MoveCosts, start: Board, goal: Board) returns (path: Option<seq<Board>>, costs: Option<seq<nat>>, allPaths: seq<Entry>)
    requires Complete(mc) && HasBlank(start)
    ensures path.Some? <==> costs.Some?
    ensures path.Some? ==> Solution(mc, start, goal, path.value, costs.value, allPaths) && |path.value| <= IdsMaxDepth + 1
    ensures Logged(mc, start, allPaths)
  {
    allPaths := [];
    var depth := 0;
    TrackedStart(mc, start);
    while true
      invariant 0 <= depth <= IdsMaxDepth && Logged(mc, start, allPaths)
      decreases IdsMaxDepth - depth
    {
      var visited := {start};
      var result, c;
      result, c, visited, allPaths := Dls(mc, start, goal, start, [start], depth, 0, visited, allPaths);
      if result.Some? {
        return result, c, allPaths;
      }
      depth := depth + 1;
      if depth > IdsMaxDepth {
        return None, None, allPaths;
      }
    }
  }
}
