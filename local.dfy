/**
 * The local searches of algorithms/local.py: three hill-climbing variants,
 * which walk from the start to a neighbour of strictly smaller Manhattan
 * heuristic until the goal or a dead end, and beam search, which expands the
 * best beam_width candidates of each round.
 */
module Local {
  import opened Wrappers
  import opened Utils
  import opened Space
  import opened Search
  import opened Informed

  // ---------------------------------------------------------------------
  // What the hill-climbing variants share

  /** The heuristic strictly decreases from each board of the path to the next. */
  ghost predicate Descending(path: seq<Board>, goal: Board)
  {
    |path| <= 1 ||
    (Descending(path[..|path| - 1], goal) && Heuristic(Last(path), goal) < Heuristic(path[|path| - 2], goal))
  }

  /** A climb: a walk from start without repeated boards down the heuristic. */
  ghost predicate Climb(start: Board, goal: Board, path: seq<Board>)
  {
    IsWalk(path) && path[0] == start && Distinct(path) && Descending(path, goal)
  }

  /** all_paths[i] holds the first i + 1 boards of the path and their cumulative cost. */
  ghost predicate Trail(mc: MoveCosts, log: seq<Entry>, path: seq<Board>)
    requires Complete(mc) && AllBlanked(path)
  {
    |log| == |path| && forall i :: 0 <= i < |log| ==> log[i] == Entry(path[..i + 1], Costs(mc, path)[i])
  }

  /**
   * The bookkeeping of a climb in progress: the path is a walk from start
   * without repeated boards ending in current, costs is its calculate_costs
   * list, visited holds exactly its boards, and the log is its trail.
   */
  ghost predicate Walking(mc: MoveCosts, start: Board, current: Board, path: seq<Board>, costs: seq<nat>,
                          visited: set<Board>, log: seq<Entry>)
  {
    Complete(mc) && IsWalk(path) && path[0] == start && Distinct(path) && current == Last(path) &&
    costs == Costs(mc, path) && visited == PathSet(path) && Trail(mc, log, path)
  }

  /**
   * The log as the hill-climbing variants return it. The first record was
   * appended as (path, 0) without a copy, so it shares the list `path` and
   * shows the whole final path; every later record is a snapshot.
   */
  ghost predicate AliasedTrail(mc: MoveCosts, log: seq<Entry>, path: seq<Board>)
    requires Complete(mc) && AllBlanked(path)
  {
    |log| == |path| && |log| > 0 && log[0] == Entry(path, 0) &&
    forall i :: 1 <= i < |log| ==> log[i] == Entry(path[..i + 1], Costs(mc, path)[i])
  }

  /** A finished climb: its path and the log that reports it. */
  ghost predicate Climbed(mc: MoveCosts, start: Board, goal: Board, path: seq<Board>, log: seq<Entry>)
  {
    Complete(mc) && Climb(start, goal, path) && AliasedTrail(mc, log, path)
  }

  /** The value of all_paths when the climb returns: record 0 shows the live path. */
  function Shared(log: seq<Entry>, path: seq<Board>): seq<Entry>
    requires |log| > 0
  {
    [Entry(path, 0)] + log[1..]
  }

  /** What a climb returns reports the climb: same length, the shared first record, snapshots after it. */
  lemma {:induction false} Publish(mc: MoveCosts, start: Board, goal: Board, current: Board, path: seq<Board>, costs: seq<nat>,
                visited: set<Board>, log: seq<Entry>)
    requires Walking(mc, start, current, path, costs, visited, log) && Descending(path, goal)
    ensures Climbed(mc, start, goal, path, Shared(log, path))
    ensures Last(Shared(log, path)).path == path
    ensures |Shared(log, path)| <= Heuristic(start, goal) + 1
  {
    ClimbBound(start, goal, path);
    var r := Shared(log, path);
    forall i | 1 <= i < |r| ensures r[i] == Entry(path[..i + 1], Costs(mc, path)[i]) {
      assert r[i] == log[i];
    }
    if |r| > 1 {
      assert Last(r) == Last(log) && path[..|path|] == path;
    }
  }

  /** The climb cannot go on: it is not at the goal and no unvisited neighbour is strictly better. */
  ghost predicate StuckAt(goal: Board, path: seq<Board>)
    requires |path| > 0 && HasBlank(Last(path))
  {
    Last(path) != goal &&
    forall n :: n in Neighbors(Last(path)) && n !in path ==> Heuristic(n, goal) >= Heuristic(Last(path), goal)
  }

  lemma {:induction false} WalkInit(mc: MoveCosts, start: Board)
    requires Complete(mc) && HasBlank(start)
    ensures Walking(mc, start, start, [start], [0], {start}, [Entry([start], 0)])
  {
    assert [start][..1] == [start];
    assert PathSet([start]) == {start};
  }

  /** Extending the path by one board extends its trail by that board's record. */
  lemma {:induction false} TrailSnoc(mc: MoveCosts, log: seq<Entry>, path: seq<Board>, n: Board, newCost: int)
    requires Complete(mc) && |path| >= 1 && AllBlanked(path) && HasBlank(n) && Trail(mc, log, path)
    requires newCost == Last(Costs(mc, path)) + StepCost(mc, Last(path), n)
    ensures AllBlanked(path + [n]) && Trail(mc, log + [Entry(path + [n], newCost)], path + [n])
  {
    var p := path + [n];
    CostsExtend(mc, path, n);
    assert p[..|p|] == p;
    var log' := log + [Entry(p, newCost)];
    forall i | 0 <= i < |log'| ensures log'[i] == Entry(p[..i + 1], Costs(mc, p)[i]) {
      if i < |log| {
        assert log'[i] == log[i] && p[..i + 1] == path[..i + 1];
      }
    }
  }

  /** Moving to an unvisited neighbour keeps the bookkeeping of the walk. */
  lemma {:induction false} WalkStep(mc: MoveCosts, start: Board, current: Board, path: seq<Board>, costs: seq<nat>,
                 visited: set<Board>, log: seq<Entry>, n: Board, newCost: int)
    requires Walking(mc, start, current, path, costs, visited, log)
    requires n in Neighbors(current) && HasBlank(n) && n !in visited
    requires newCost == Last(costs) + StepCost(mc, current, n)
    ensures newCost >= 0
    ensures Walking(mc, start, n, path + [n], costs + [newCost], visited + {n}, log + [Entry(path + [n], newCost)])
  {
    var p := path + [n];
    WalkSnoc(path, n);
    assert n !in PathSet(path);
    DistinctSnoc(path, n);
    TrailSnoc(mc, log, path, n, newCost);
    CostsExtend(mc, path, n);
    PathSetSnoc(path, n);
    assert p[0] == start && Last(p) == n;
    assert costs + [newCost] == Costs(mc, p);
  }

  /** Each move lowers the heuristic by at least one, so a climb has at most heuristic(start) + 1 boards. */
  lemma {:induction false} ClimbBound(start: Board, goal: Board, path: seq<Board>)
    requires |path| >= 1 && path[0] == start && Descending(path, goal)
    ensures |path| + Heuristic(Last(path), goal) <= Heuristic(start, goal) + 1
    decreases |path|
  {
    if |path| > 1 {
      var front := path[..|path| - 1];
      ClimbBound(start, goal, front);
      assert Last(front) == path[|path| - 2];
    }
  }

  // ---------------------------------------------------------------------
  // Steepest-ascent hill climbing (`hill_climbing`)

  /**
   * The neighbour the scan of `hill_climbing` keeps: the first unvisited
   * board of ns whose heuristic is below every earlier candidate's.
   */
  function BestOf(ns: seq<Board>, visited: set<Board>, goal: Board): Option<Board>
  {
    if ns == [] then None
    else
      var b := BestOf(ns[..|ns| - 1], visited, goal);
      var n := Last(ns);
      if n !in visited && (b.None? || Heuristic(n, goal) < Heuristic(b.value, goal)) then Some(n) else b
  }

  /** BestOf finds nothing exactly when every board of ns is visited. */
  lemma {:induction false} BestOfNone(ns: seq<Board>, visited: set<Board>, goal: Board)
    ensures BestOf(ns, visited, goal).None? <==> forall n :: n in ns ==> n in visited
    decreases |ns|
  {
    if ns != [] {
      var front := ns[..|ns| - 1];
      BestOfNone(front, visited, goal);
      assert ns == front + [Last(ns)];
    }
  }

  /** What BestOf finds is an unvisited board of ns with the least heuristic. */
  lemma {:induction false} BestOfLeast(ns: seq<Board>, visited: set<Board>, goal: Board)
    ensures BestOf(ns, visited, goal).Some? ==>
      var b := BestOf(ns, visited, goal).value;
      b in ns && b !in visited && forall n :: n in ns && n !in visited ==> Heuristic(b, goal) <= Heuristic(n, goal)
    decreases |ns|
  {
    if ns != [] {
      var front := ns[..|ns| - 1];
      BestOfLeast(front, visited, goal);
      BestOfNone(front, visited, goal);
      assert ns == front + [Last(ns)];
    }
  }

  /** Ties go to the earlier board: what BestOf finds comes no later than any unvisited board as good. */
  lemma {:induction false} BestOfFirst(ns: seq<Board>, visited: set<Board>, goal: Board)
    ensures BestOf(ns, visited, goal).Some? ==>
      var b := BestOf(ns, visited, goal).value;
      forall k :: 0 <= k < |ns| && ns[k] !in visited && Heuristic(ns[k], goal) <= Heuristic(b, goal) ==> b in ns[..k + 1]
    decreases |ns|
  {
    if ns != [] {
      var front := ns[..|ns| - 1];
      var bf := BestOf(front, visited, goal);
      if Last(ns) !in visited && (bf.None? || Heuristic(Last(ns), goal) < Heuristic(bf.value, goal)) {
        BestOfFirstLast(ns, visited, goal);
      } else if bf.Some? {
        BestOfFirst(front, visited, goal);
        BestOfIn(front, visited, goal);
        BestOfFirstKept(ns, visited, goal, bf.value);
      }
    }
  }

  /** What BestOf finds is an unvisited board of ns. */
  lemma {:induction false} BestOfIn(ns: seq<Board>, visited: set<Board>, goal: Board)
    ensures BestOf(ns, visited, goal).Some? ==> BestOf(ns, visited, goal).value in ns && BestOf(ns, visited, goal).value !in visited
    decreases |ns|
  {
    if ns != [] {
      var front := ns[..|ns| - 1];
      BestOfIn(front, visited, goal);
      assert ns == front + [Last(ns)];
    }
  }

  /** When the last board is the best so far, no earlier unvisited board is as good. */
  lemma {:induction false} BestOfFirstLast(ns: seq<Board>, visited: set<Board>, goal: Board)
    requires ns != [] && Last(ns) !in visited
    requires var bf := BestOf(ns[..|ns| - 1], visited, goal);
      bf.None? || Heuristic(Last(ns), goal) < Heuristic(bf.value, goal)
    ensures forall k :: 0 <= k < |ns| && ns[k] !in visited && Heuristic(ns[k], goal) <= Heuristic(Last(ns), goal) ==>
      Last(ns) in ns[..k + 1]
  {
    var front := ns[..|ns| - 1];
    BestOfLeast(front, visited, goal);
    BestOfNone(front, visited, goal);
    forall k | 0 <= k < |ns| && ns[k] !in visited && Heuristic(ns[k], goal) <= Heuristic(Last(ns), goal)
      ensures Last(ns) in ns[..k + 1]
    {
      if k == |front| {
        assert ns[..k + 1] == ns;
      }
    }
  }

  /** A board b of the front that the last board does not beat keeps the front's tie-breaking. */
  lemma {:induction false} BestOfFirstKept(ns: seq<Board>, visited: set<Board>, goal: Board, b: Board)
    requires ns != [] && b in ns[..|ns| - 1]
    requires Last(ns) in visited || Heuristic(b, goal) <= Heuristic(Last(ns), goal)
    requires var front := ns[..|ns| - 1];
      forall k :: 0 <= k < |front| && front[k] !in visited && Heuristic(front[k], goal) <= Heuristic(b, goal) ==> b in front[..k + 1]
    ensures forall k :: 0 <= k < |ns| && ns[k] !in visited && Heuristic(ns[k], goal) <= Heuristic(b, goal) ==> b in ns[..k + 1]
  {
    var front := ns[..|ns| - 1];
    forall k | 0 <= k < |ns| && ns[k] !in visited && Heuristic(ns[k], goal) <= Heuristic(b, goal)
      ensures b in ns[..k + 1]
    {
      if k < |front| {
        assert ns[k] == front[k] && ns[..k + 1] == front[..k + 1];
      } else {
        var j :| 0 <= j < |front| && front[j] == b;
        assert ns[..k + 1] == ns && ns[j] == b;
      }
    }
  }

  /**
   * The scan of `hill_climbing` over the neighbours: it keeps the first
   * unvisited neighbour with the smallest heuristic (None and an infinite
   * heuristic when there is none).
   */
  method BestNeighbor(neighbors: seq<Board>, visited: set<Board>, goal: Board) returns (best: Option<Board>, bestH: Option<nat>)
    ensures best == BestOf(neighbors, visited, goal)
    ensures best.Some? <==> bestH.Some?
    ensures best.Some? ==> bestH.value == Heuristic(best.value, goal)
  {
    best, bestH := None, None;
    for i := 0 to |neighbors|
      invariant best == BestOf(neighbors[..i], visited, goal)
      invariant best.Some? <==> bestH.Some?
      invariant best.Some? ==> bestH.value == Heuristic(best.value, goal)
    {
      var neighbor := neighbors[i];
      assert neighbors[..i + 1][..i] == neighbors[..i];
      if neighbor !in visited {
        var h := Heuristic(neighbor, goal);
        if bestH.None? || h < bestH.value {
          bestH := Some(h);
          best := Some(neighbor);
        }
      }
    }
    assert neighbors[..|neighbors|] == neighbors;
  }

  /** The two deterministic climbers: steepest ascent and first improvement. */
  datatype Rule = Steepest | FirstBetter

  /**
   * The first board of ns that is unvisited and has heuristic below h: the
   * neighbour `simple_hill_climbing` moves to.
   */
  function FirstImproving(ns: seq<Board>, visited: set<Board>, goal: Board, h: nat): Option<Board>
  {
    if ns == [] then None
    else if ns[0] !in visited && Heuristic(ns[0], goal) < h then Some(ns[0])
    else FirstImproving(ns[1..], visited, goal, h)
  }

  /**
   * FirstImproving finds nothing exactly when no board of ns is unvisited and
   * better than h; otherwise it finds such a board and none comes before it.
   */
  lemma {:induction false} FirstImprovingSpec(ns: seq<Board>, visited: set<Board>, goal: Board, h: nat)
    ensures FirstImproving(ns, visited, goal, h).None? <==>
      forall n :: n in ns ==> n in visited || Heuristic(n, goal) >= h
    ensures FirstImproving(ns, visited, goal, h).Some? ==>
      var b := FirstImproving(ns, visited, goal, h).value;
      b in ns && b !in visited && Heuristic(b, goal) < h &&
      forall k :: 0 <= k < |ns| && ns[k] !in visited && Heuristic(ns[k], goal) < h ==> b in ns[..k + 1]
  {
    FirstImprovingNone(ns, visited, goal, h);
    FirstImprovingFound(ns, visited, goal, h);
    FirstImprovingEarliest(ns, visited, goal, h);
  }

  lemma {:induction false} FirstImprovingNone(ns: seq<Board>, visited: set<Board>, goal: Board, h: nat)
    ensures FirstImproving(ns, visited, goal, h).None? <==>
      forall n :: n in ns ==> n in visited || Heuristic(n, goal) >= h
    decreases |ns|
  {
    if ns != [] {
      FirstImprovingNone(ns[1..], visited, goal, h);
      assert ns == [ns[0]] + ns[1..];
    }
  }

  lemma {:induction false} FirstImprovingFound(ns: seq<Board>, visited: set<Board>, goal: Board, h: nat)
    ensures FirstImproving(ns, visited, goal, h).Some? ==>
      var b := FirstImproving(ns, visited, goal, h).value;
      b in ns && b !in visited && Heuristic(b, goal) < h
    decreases |ns|
  {
    if ns != [] {
      FirstImprovingFound(ns[1..], visited, goal, h);
      assert ns == [ns[0]] + ns[1..];
    }
  }

  lemma {:induction false} FirstImprovingEarliest(ns: seq<Board>, visited: set<Board>, goal: Board, h: nat)
    ensures FirstImproving(ns, visited, goal, h).Some? ==>
      var b := FirstImproving(ns, visited, goal, h).value;
      forall k :: 0 <= k < |ns| && ns[k] !in visited && Heuristic(ns[k], goal) < h ==> b in ns[..k + 1]
    decreases |ns|
  {
    if ns != [] && !(ns[0] !in visited && Heuristic(ns[0], goal) < h) {
      var tail := ns[1..];
      FirstImprovingEarliest(tail, visited, goal, h);
      var b := FirstImproving(tail, visited, goal, h);
      if b.Some? {
        EarliestCons(ns, visited, goal, h, b.value);
      }
    }
  }

  /** A board found in the tail, after a head that is not better than h, is still the earliest such board. */
  lemma {:induction false} EarliestCons(ns: seq<Board>, visited: set<Board>, goal: Board, h: nat, b: Board)
    requires ns != [] && (ns[0] in visited || Heuristic(ns[0], goal) >= h)
    requires var tail := ns[1..];
      forall k :: 0 <= k < |tail| && tail[k] !in visited && Heuristic(tail[k], goal) < h ==> b in tail[..k + 1]
    ensures forall k :: 0 <= k < |ns| && ns[k] !in visited && Heuristic(ns[k], goal) < h ==> b in ns[..k + 1]
  {
    var tail := ns[1..];
    forall k | 0 <= k < |ns| && ns[k] !in visited && Heuristic(ns[k], goal) < h ensures b in ns[..k + 1] {
      assert k > 0;
      assert ns[k] == tail[k - 1] && ns[..k + 1] == [ns[0]] + tail[..k];
    }
  }

  /** The move a deterministic climber makes from a board with heuristic h, if any. */
  function Choose(rule: Rule, ns: seq<Board>, visited: set<Board>, goal: Board, h: nat): Option<Board>
  {
    match rule
    case Steepest =>
      var b := BestOf(ns, visited, goal);
      if b.Some? && Heuristic(b.value, goal) < h then b else None
    case FirstBetter => FirstImproving(ns, visited, goal, h)
  }

  /** Both rules stop exactly at a dead end, and otherwise move to an unvisited, strictly better neighbour. */
  lemma {:induction false} ChooseSpec(rule: Rule, ns: seq<Board>, visited: set<Board>, goal: Board, h: nat)
    ensures Choose(rule, ns, visited, goal, h).None? <==>
      forall n :: n in ns ==> n in visited || Heuristic(n, goal) >= h
    ensures Choose(rule, ns, visited, goal, h).Some? ==>
      var b := Choose(rule, ns, visited, goal, h).value;
      b in ns && b !in visited && Heuristic(b, goal) < h
  {
    BestOfNone(ns, visited, goal);
    BestOfLeast(ns, visited, goal);
    FirstImprovingSpec(ns, visited, goal, h);
  }

  /** Every move of the path is the one the rule makes from the boards seen before it. */
  ghost predicate Follows(rule: Rule, goal: Board, path: seq<Board>)
    requires AllBlanked(path)
  {
    |path| <= 1 ||
    var front := path[..|path| - 1];
    assert forall i :: 0 <= i < |front| ==> front[i] == path[i];
    Follows(rule, goal, front) &&
    Choose(rule, Neighbors(Last(front)), PathSet(front), goal, Heuristic(Last(front), goal)) == Some(Last(path))
  }

  /** The rule's move from the end of a climb goes to an unvisited, strictly better neighbour. */
  lemma {:induction false} RuleMove(rule: Rule, goal: Board, path: seq<Board>, visited: set<Board>, n: Board)
    requires IsWalk(path) && visited == PathSet(path)
    requires Choose(rule, Neighbors(Last(path)), visited, goal, Heuristic(Last(path), goal)) == Some(n)
    ensures n in Neighbors(Last(path)) && HasBlank(n) && n !in visited
    ensures Heuristic(n, goal) < Heuristic(Last(path), goal)
  {
    ChooseSpec(rule, Neighbors(Last(path)), visited, goal, Heuristic(Last(path), goal));
    NeighborsKeepTiles(Last(path));
  }

  /** A strictly better move extends a descending path. */
  lemma {:induction false} DescendingSnoc(goal: Board, path: seq<Board>, n: Board)
    requires |path| > 0 && Descending(path, goal) && Heuristic(n, goal) < Heuristic(Last(path), goal)
    ensures Descending(path + [n], goal)
  {
    assert (path + [n])[..|path|] == path;
  }

  /** The rule's move extends a path that follows the rule. */
  lemma {:induction false} FollowsSnoc(rule: Rule, goal: Board, path: seq<Board>, n: Board)
    requires AllBlanked(path) && |path| > 0 && Follows(rule, goal, path) && HasBlank(n)
    requires Choose(rule, Neighbors(Last(path)), PathSet(path), goal, Heuristic(Last(path), goal)) == Some(n)
    ensures AllBlanked(path + [n]) && Follows(rule, goal, path + [n])
  {
    AllBlankedSnoc(path, n);
    assert (path + [n])[..|path|] == path;
  }

  /** When the rule has no move, the climb is stuck. */
  lemma {:induction false} RuleStuck(rule: Rule, goal: Board, path: seq<Board>, visited: set<Board>)
    requires IsWalk(path) && visited == PathSet(path) && Last(path) != goal
    requires Choose(rule, Neighbors(Last(path)), visited, goal, Heuristic(Last(path), goal)).None?
    ensures StuckAt(goal, path)
  {
    ChooseSpec(rule, Neighbors(Last(path)), visited, goal, Heuristic(Last(path), goal));
  }

  /**
   * `hill_climbing`: moves to the best unvisited neighbour while it is
   * strictly better than the current board. On success the path is a climb
   * to the goal made of steepest moves; otherwise the reported climb is
   * stuck. Either way the log has at most heuristic(start) + 1 records.
   */
  method HillClimbing(mc: MoveCosts, start: Board, goal: Board) returns (path: Option<seq<Board>>, costs: Option<seq<nat>>, allPaths: seq<Entry>)
    requires Complete(mc) && HasBlank(start)
    ensures path.Some? <==> costs.Some?
    ensures path.Some? ==> Climbed(mc, start, goal, path.value, allPaths) && Last(path.value) == goal &&
                           costs.value == Costs(mc, path.value) && Follows(Steepest, goal, path.value)
    ensures path.None? ==> |allPaths| > 0 && Climbed(mc, start, goal, Last(allPaths).path, allPaths) && StuckAt(goal, Last(allPaths).path) &&
                           Follows(Steepest, goal, Last(allPaths).path)
    ensures |allPaths| <= Heuristic(start, goal) + 1
  {
    var current := start;
    var p := [current];
    var c: seq<nat> := [0];
    var visited := {current};
    allPaths := [Entry(p, 0)];
    WalkInit(mc, start);
    while current != goal
      invariant Walking(mc, start, current, p, c, visited, allPaths) && Descending(p, goal) && Follows(Steepest, goal, p)
      decreases Heuristic(current, goal)
    {
      var neighbors := GetNeighbors(current);
      var best, bestH := BestNeighbor(neighbors, visited, goal);
      if best.None? || bestH.value >= Heuristic(current, goal) {
        RuleStuck(Steepest, goal, p, visited);
        Publish(mc, start, goal, current, p, c, visited, allPaths);
        return None, None, Shared(allPaths, p);
      }
      RuleMove(Steepest, goal, p, visited, best.value);
      DescendingSnoc(goal, p, best.value);
      FollowsSnoc(Steepest, goal, p, best.value);
      var newCost := Last(c) + StepCost(mc, current, best.value);
      WalkStep(mc, start, current, p, c, visited, allPaths, best.value, newCost);
      c := c + [newCost];
      current := best.value;
      p := p + [current];
      visited := visited + {current};
      allPaths := allPaths + [Entry(p, newCost)];
    }
    Publish(mc, start, goal, current, p, c, visited, allPaths);
    return Some(p), Some(c), Shared(allPaths, p);
  }

  /**
   * The scan of `simple_hill_climbing` over the neighbours: it stops at the
   * first unvisited one whose heuristic is below currentH.
   */
  method FirstBetterNeighbor(neighbors: seq<Board>, visited: set<Board>, goal: Board, currentH: nat) returns (next: Option<Board>)
    ensures next == FirstImproving(neighbors, visited, goal, currentH)
  {
    for i := 0 to |neighbors|
      invariant FirstImproving(neighbors, visited, goal, currentH) == FirstImproving(neighbors[i..], visited, goal, currentH)
    {
      var neighbor := neighbors[i];
      assert neighbors[i..] == [neighbor] + neighbors[i + 1..];
      if neighbor !in visited {
        var h := Heuristic(neighbor, goal);
        if h < currentH {
          return Some(neighbor);
        }
      }
    }
    return None;
  }

  /**
   * `simple_hill_climbing`: moves to the first unvisited neighbour that is
   * strictly better than the current board, and fails when there is none.
   */
  method SimpleHillClimbing(mc: MoveCosts, start: Board, goal: Board) returns (path: Option<seq<Board>>, costs: Option<seq<nat>>, allPaths: seq<Entry>)
    requires Complete(mc) && HasBlank(start)
    ensures path.Some? <==> costs.Some?
    ensures path.Some? ==> Climbed(mc, start, goal, path.value, allPaths) && Last(path.value) == goal &&
                           costs.value == Costs(mc, path.value) && Follows(FirstBetter, goal, path.value)
    ensures path.None? ==> |allPaths| > 0 && Climbed(mc, start, goal, Last(allPaths).path, allPaths) && StuckAt(goal, Last(allPaths).path) &&
                           Follows(FirstBetter, goal, Last(allPaths).path)
    ensures |allPaths| <= Heuristic(start, goal) + 1
  {
    var current := start;
    var p := [current];
    var c: seq<nat> := [0];
    var visited := {current};
    allPaths := [Entry(p, 0)];
    WalkInit(mc, start);
    while current != goal
      invariant Walking(mc, start, current, p, c, visited, allPaths) && Descending(p, goal) && Follows(FirstBetter, goal, p)
      decreases Heuristic(current, goal)
    {
      var neighbors := GetNeighbors(current);
      var currentH := Heuristic(current, goal);
      var next := FirstBetterNeighbor(neighbors, visited, goal, currentH);
      if next.None? {
        RuleStuck(FirstBetter, goal, p, visited);
        Publish(mc, start, goal, current, p, c, visited, allPaths);
        return None, None, Shared(allPaths, p);
      }
      RuleMove(FirstBetter, goal, p, visited, next.value);
      DescendingSnoc(goal, p, next.value);
      FollowsSnoc(FirstBetter, goal, p, next.value);
      var newCost := Last(c) + StepCost(mc, current, next.value);
      WalkStep(mc, start, current, p, c, visited, allPaths, next.value, newCost);
      c := c + [newCost];
      current := next.value;
      p := p + [current];
      visited := visited + {current};
      allPaths := allPaths + [Entry(p, newCost)];
    }
    Publish(mc, start, goal, current, p, c, visited, allPaths);
    return Some(p), Some(c), Shared(allPaths, p);
  }

  // ---------------------------------------------------------------------
  // Stochastic hill climbing (`stochastic_hill_climbing`)

  /** The boards of ns that are not visited, in order. */
  function Unvisited(ns: seq<Board>, visited: set<Board>): (r: seq<Board>)
    ensures forall n :: n in r <==> n in ns && n !in visited
    ensures |r| <= |ns|
  {
    if ns == [] then []
    else (if ns[0] in visited then [] else [ns[0]]) + Unvisited(ns[1..], visited)
  }

  /** The boards of ns whose heuristic is below h, in order. */
  function Improving(ns: seq<Board>, goal: Board, h: nat): (r: seq<Board>)
    ensures forall n :: n in r <==> n in ns && Heuristic(n, goal) < h
    ensures |r| <= |ns|
  {
    if ns == [] then []
    else (if Heuristic(ns[0], goal) < h then [ns[0]] else []) + Improving(ns[1..], goal, h)
  }

  /** With no unvisited, improving neighbour left, the climb is stuck. */
  lemma {:induction false} ImprovingStuck(goal: Board, path: seq<Board>, visited: set<Board>)
    requires IsWalk(path) && visited == PathSet(path) && Last(path) != goal
    requires Improving(Unvisited(Neighbors(Last(path)), visited), goal, Heuristic(Last(path), goal)) == []
    ensures StuckAt(goal, path)
  {
    var ns := Unvisited(Neighbors(Last(path)), visited);
    forall n | n in Neighbors(Last(path)) && n !in path ensures Heuristic(n, goal) >= Heuristic(Last(path), goal) {
      assert n in ns;
    }
  }

  /** Any board of the improving list is an unvisited, strictly better neighbour. */
  lemma {:induction false} ImprovingPick(goal: Board, current: Board, visited: set<Board>, improving: seq<Board>, k: int)
    requires HasBlank(current) && improving == Improving(Unvisited(Neighbors(current), visited), goal, Heuristic(current, goal))
    requires 0 <= k < |improving|
    ensures improving[k] in Neighbors(current) && HasBlank(improving[k]) && improving[k] !in visited
    ensures Heuristic(improving[k], goal) < Heuristic(current, goal)
  {
    assert improving[k] in improving;
    NeighborsKeepTiles(current);
  }

  /**
   * `stochastic_hill_climbing`: for at most 100 rounds, moves to an arbitrary
   * unvisited neighbour that is strictly better than the current board
   * (random.choice is an arbitrary choice here). It succeeds only when it
   * stands on the goal at the start of a round, so a run that reaches the
   * goal with its 100th move still fails.
   */
  method StochasticHillClimbing(mc: MoveCosts, start: Board, goal: Board) returns (path: Option<seq<Board>>, costs: Option<seq<nat>>, allPaths: seq<Entry>)
    requires Complete(mc) && HasBlank(start)
    ensures path.Some? <==> costs.Some?
    ensures path.Some? ==> Climbed(mc, start, goal, path.value, allPaths) && Last(path.value) == goal &&
                           costs.value == Costs(mc, path.value) && |path.value| <= 100
    ensures path.None? ==> |allPaths| > 0 && Climbed(mc, start, goal, Last(allPaths).path, allPaths) &&
                           (StuckAt(goal, Last(allPaths).path) || |allPaths| == 101)
    ensures |allPaths| <= Heuristic(start, goal) + 1 && |allPaths| <= 101
  {
    var current := start;
    var p := [current];
    var c: seq<nat> := [0];
    var visited := {current};
    allPaths := [Entry(p, 0)];
    WalkInit(mc, start);
    var maxIterations := 100;
    for iteration := 0 to maxIterations
      invariant Walking(mc, start, current, p, c, visited, allPaths) && Descending(p, goal) && |p| == iteration + 1
    {
      if current == goal {
        Publish(mc, start, goal, current, p, c, visited, allPaths);
        return Some(p), Some(c), Shared(allPaths, p);
      }
      var moves := GetNeighbors(current);
      var neighbors := Unvisited(moves, visited);
      if neighbors == [] {
        ImprovingStuck(goal, p, visited);
        Publish(mc, start, goal, current, p, c, visited, allPaths);
        return None, None, Shared(allPaths, p);
      }
      var currentH := Heuristic(current, goal);
      var improving := Improving(neighbors, goal, currentH);
      if improving == [] {
        ImprovingStuck(goal, p, visited);
        Publish(mc, start, goal, current, p, c, visited, allPaths);
        return None, None, Shared(allPaths, p);
      }
      var k :| 0 <= k < |improving|;
      var nextState := improving[k];
      ImprovingPick(goal, current, visited, improving, k);
      DescendingSnoc(goal, p, nextState);
      var newCost := Last(c) + StepCost(mc, current, nextState);
      WalkStep(mc, start, current, p, c, visited, allPaths, nextState, newCost);
      c := c + [newCost];
      current := nextState;
      p := p + [current];
      visited := visited + {current};
      allPaths := allPaths + [Entry(p, newCost)];
    }
    Publish(mc, start, goal, current, p, c, visited, allPaths);
    return None, None, Shared(allPaths, p);
  }

  // ---------------------------------------------------------------------
  // Beam search (`beam_search`)

  /** A queue entry of beam search: (heuristic, state, path, cost). */
  datatype Candidate = Candidate(h: nat, state: Board, path: seq<Board>, cost: int)

  /** Inserts c before the first candidate whose heuristic is not smaller. */
  function Insert(c: Candidate, s: seq<Candidate>): seq<Candidate>
  {
    if s == [] || c.h <= s[0].h then [c] + s else [s[0]] + Insert(c, s[1..])
  }

  /** `sorted(queue, key=lambda x: x[0])`: a stable sort on the heuristic. */
  function SortByH(q: seq<Candidate>): seq<Candidate>
  {
    if q == [] then [] else Insert(q[0], SortByH(q[1..]))
  }

  predicate SortedByH(s: seq<Candidate>)
  {
    forall i, j :: 0 <= i < j < |s| ==> s[i].h <= s[j].h
  }

  /** The candidates of s with heuristic k, in order. */
  function WithH(s: seq<Candidate>, k: nat): seq<Candidate>
  {
    if s == [] then [] else (if s[0].h == k then [s[0]] else []) + WithH(s[1..], k)
  }

  lemma {:induction false} InsertPerm(c: Candidate, s: seq<Candidate>)
    ensures multiset(Insert(c, s)) == multiset(s) + multiset{c}
    decreases |s|
  {
    if s != [] && c.h > s[0].h {
      InsertPerm(c, s[1..]);
      assert s == [s[0]] + s[1..];
    }
  }

  lemma {:induction false} InsertSorted(c: Candidate, s: seq<Candidate>)
    requires SortedByH(s)
    ensures SortedByH(Insert(c, s))
    decreases |s|
  {
    if s != [] && c.h > s[0].h {
      InsertSorted(c, s[1..]);
      InsertPerm(c, s[1..]);
      var r := Insert(c, s);
      assert r[1..] == Insert(c, s[1..]);
      forall j | 0 < j < |r| ensures r[0].h <= r[j].h {
        assert r[j] in multiset(Insert(c, s[1..]));
        if r[j] != c {
          assert r[j] in multiset(s[1..]);
          assert r[j] in s[1..];
        }
      }
    }
  }

  lemma {:induction false} InsertWithH(c: Candidate, s: seq<Candidate>, k: nat)
    ensures WithH(Insert(c, s), k) == (if c.h == k then [c] else []) + WithH(s, k)
    decreases |s|
  {
    if s != [] && c.h > s[0].h {
      InsertWithH(c, s[1..], k);
      var r := Insert(c, s);
      assert r[1..] == Insert(c, s[1..]);
      assert WithH(r, k) == (if s[0].h == k then [s[0]] else []) + WithH(Insert(c, s[1..]), k);
      assert WithH(s, k) == (if s[0].h == k then [s[0]] else []) + WithH(s[1..], k);
      if c.h == k {
        assert s[0].h != k;
      }
    } else {
      var r := Insert(c, s);
      assert r[1..] == s;
    }
  }

  /**
   * The stable sort: sorted by heuristic, a permutation of the queue, and
   * candidates of equal heuristic keep their order in the queue.
   */
  lemma {:induction false} SortByHSpec(q: seq<Candidate>)
    ensures SortedByH(SortByH(q))
    ensures multiset(SortByH(q)) == multiset(q)
    ensures forall k :: WithH(SortByH(q), k) == WithH(q, k)
    decreases |q|
  {
    if q != [] {
      SortByHSpec(q[1..]);
      InsertPerm(q[0], SortByH(q[1..]));
      InsertSorted(q[0], SortByH(q[1..]));
      forall k ensures WithH(SortByH(q), k) == WithH(q, k) {
        InsertWithH(q[0], SortByH(q[1..]), k);
      }
      assert q == [q[0]] + q[1..];
    }
  }

  /** `sorted(queue, key=...)[:beam_width]`. */
  function Beam(q: seq<Candidate>, width: nat): seq<Candidate>
  {
    var s := SortByH(q);
    if width < |s| then s[..width] else s
  }

  /**
   * The beam holds min(width, |q|) candidates of q, sorted, and no candidate
   * it drops has a smaller heuristic than one it keeps.
   */
  lemma {:induction false} BeamSpec(q: seq<Candidate>, width: nat)
    ensures |Beam(q, width)| == Min(width, |q|)
    ensures SortedByH(Beam(q, width))
    ensures Beam(q, width) <= SortByH(q)
    ensures forall c :: c in Beam(q, width) ==> c in q
    ensures forall i, j :: 0 <= i < |Beam(q, width)| <= j < |SortByH(q)| ==> Beam(q, width)[i].h <= SortByH(q)[j].h
  {
    SortByHSpec(q);
    var s := SortByH(q);
    assert |s| == |multiset(s)| == |q|;
    forall c | c in Beam(q, width) ensures c in q {
      assert c in s;
      assert c in multiset(s);
    }
  }

  /** The boards the log's records end in. */
  ghost function Ends(log: seq<Entry>): set<Board>
  {
    set e | e in log && |e.path| > 0 :: Last(e.path)
  }

  /**
   * A candidate of beam search: its path is a tracked walk from start without
   * repeated boards ending in its state, all of whose boards are visited.
   */
  ghost predicate CandidateOk(mc: MoveCosts, start: Board, goal: Board, c: Candidate, visited: set<Board>)
  {
    Tracked(mc, start, c.path, c.cost) && c.state == Last(c.path) && Distinct(c.path) &&
    PathSet(c.path) <= visited
  }

  ghost predicate CandidatesOk(mc: MoveCosts, start: Board, goal: Board, q: seq<Candidate>, visited: set<Board>)
  {
    forall c :: c in q ==> CandidateOk(mc, start, goal, c, visited)
  }

  /**
   * The bookkeeping of beam search: the log starts with the start's record,
   * holds tracked paths that end in distinct boards, and those boards are
   * exactly the visited ones, all of them in the start's universe.
   */
  ghost predicate BeamLog(mc: MoveCosts, start: Board, visited: set<Board>, log: seq<Entry>)
  {
    Complete(mc) && |log| > 0 && log[0] == Entry([start], 0) && Logged(mc, start, log) && ExpandedOnce(log) &&
    visited == Ends(log) && visited <= Universe(start)
  }

  lemma {:induction false} BeamInit(mc: MoveCosts, start: Board, goal: Board)
    requires Complete(mc) && HasBlank(start)
    ensures BeamLog(mc, start, {start}, [Entry([start], 0)])
    ensures CandidatesOk(mc, start, goal, [Candidate(Heuristic(start, goal), start, [start], 0)], {start})
  {
    TrackedStart(mc, start);
    WalkInUniverse(start, [start]);
    var log := [Entry([start], 0)];
    assert log[0] in log;
    assert Ends(log) == {start};
    assert PathSet([start]) == {start};
  }

  /** The beam is taken from the queue, so its members are candidates. */
  lemma {:induction false} BeamCandidates(mc: MoveCosts, start: Board, goal: Board, q: seq<Candidate>, width: nat, visited: set<Board>)
    requires CandidatesOk(mc, start, goal, q, visited)
    ensures CandidatesOk(mc, start, goal, Beam(q, width), visited)
  {
    BeamSpec(q, width);
  }

  /** A candidate stays a candidate when more boards are visited. */
  lemma {:induction false} CandidatesGrow(mc: MoveCosts, start: Board, goal: Board, q: seq<Candidate>, visited: set<Board>, more: set<Board>)
    requires CandidatesOk(mc, start, goal, q, visited) && visited <= more
    ensures CandidatesOk(mc, start, goal, q, more)
  {
  }

  /** The candidate for an unvisited neighbour n of candidate c. */
  lemma {:induction false} CandidateExtend(mc: MoveCosts, start: Board, goal: Board, visited: set<Board>, c: Candidate, n: Board, newCost: int)
    requires CandidateOk(mc, start, goal, c, visited)
    requires n in Neighbors(c.state) && HasBlank(n) && n !in visited
    requires newCost == c.cost + StepCost(mc, c.state, n)
    ensures CandidateOk(mc, start, goal, Candidate(Heuristic(n, goal), n, c.path + [n], newCost), visited + {n})
  {
    TrackedChild(mc, start, c.path, c.cost, n, newCost);
    assert n !in PathSet(c.path);
    DistinctSnoc(c.path, n);
    PathSetSnoc(c.path, n);
  }

  /** Logging a tracked path that ends in an unvisited board keeps the bookkeeping, with that board visited. */
  lemma {:induction false} BeamLogPush(mc: MoveCosts, start: Board, visited: set<Board>, log: seq<Entry>, p: seq<Board>, cost: int)
    requires BeamLog(mc, start, visited, log) && Tracked(mc, start, p, cost) && Last(p) !in visited
    ensures BeamLog(mc, start, visited + {Last(p)}, log + [Entry(p, cost)])
  {
    var n := Last(p);
    WalkInUniverse(start, p);
    assert n in PathSet(p);
    var log' := log + [Entry(p, cost)];
    assert Ends(log') == Ends(log) + {n} by {
      assert log'[|log|] in log';
      forall e | e in log' && |e.path| > 0 ensures Last(e.path) in Ends(log) + {n} {
        if e != log'[|log|] {
          assert e in log;
        }
      }
    }
    forall i, j | 0 <= i < j < |log'| ensures Last(log'[i].path) != Last(log'[j].path) {
      if j == |log| {
        assert log'[i] in log;
      } else {
        assert log'[i] == log[i] && log'[j] == log[j];
      }
    }
  }

  /**
   * Pushing the unvisited neighbour n of candidate c: the neighbour is
   * visited, the new candidate and its log record hold the extended path.
   */
  lemma {:induction false} BeamPush(mc: MoveCosts, start: Board, goal: Board, beam: seq<Candidate>, next: seq<Candidate>,
                 visited: set<Board>, log: seq<Entry>, c: Candidate, n: Board, newCost: int)
    requires BeamLog(mc, start, visited, log)
    requires CandidatesOk(mc, start, goal, beam, visited) && CandidatesOk(mc, start, goal, next, visited)
    requires CandidateOk(mc, start, goal, c, visited)
    requires n in Neighbors(c.state) && HasBlank(n) && n !in visited
    requires newCost == c.cost + StepCost(mc, c.state, n)
    ensures var c' := Candidate(Heuristic(n, goal), n, c.path + [n], newCost);
      BeamLog(mc, start, visited + {n}, log + [Entry(c.path + [n], newCost)]) &&
      CandidatesOk(mc, start, goal, beam, visited + {n}) && CandidatesOk(mc, start, goal, next + [c'], visited + {n})
  {
    CandidateExtend(mc, start, goal, visited, c, n, newCost);
    BeamLogPush(mc, start, visited, log, c.path + [n], newCost);
    CandidatesGrow(mc, start, goal, beam, visited, visited + {n});
    CandidatesGrow(mc, start, goal, next, visited, visited + {n});
  }

  /** Visiting a board that was not visited before shrinks what is left of the universe. */
  lemma {:induction false} UnvisitedShrinks(start: Board, visited: set<Board>, more: set<Board>)
    requires visited < more <= Universe(start)
    ensures |Universe(start) - more| < |Universe(start) - visited|
  {
    var x :| x in more && x !in visited;
    assert Universe(start) - more <= (Universe(start) - visited) - {x};
    SubsetCard(Universe(start) - more, (Universe(start) - visited) - {x});
  }

  /**
   * One round of `beam_search`: walks the beam in order and returns the first
   * candidate standing on the goal, with the log holding every record
   * appended for the candidates before it; until then it pushes every
   * unvisited neighbour of each candidate to the next queue. A round that
   * pushes nothing visits nothing new.
   */
  method ExpandBeam(mc: MoveCosts, start: Board, goal: Board, beam: seq<Candidate>, visited: set<Board>, log: seq<Entry>)
    returns (found: Option<Candidate>, nextQueue: seq<Candidate>, visited': set<Board>, log': seq<Entry>)
    requires BeamLog(mc, start, visited, log) && CandidatesOk(mc, start, goal, beam, visited)
    ensures found.Some? ==> found.value in beam && found.value.state == goal && BeamLog(mc, start, visited', log')
    ensures log <= log'
    ensures found.None? ==> BeamLog(mc, start, visited', log') && CandidatesOk(mc, start, goal, nextQueue, visited')
    ensures found.None? && nextQueue == [] ==> visited' == visited
    ensures found.None? && nextQueue != [] ==> |Universe(start) - visited'| < |Universe(start) - visited|
  {
    nextQueue, visited', log' := [], visited, log;
    for i := 0 to |beam|
      invariant BeamLog(mc, start, visited', log')
      invariant CandidatesOk(mc, start, goal, beam, visited') && CandidatesOk(mc, start, goal, nextQueue, visited')
      invariant visited <= visited' && (nextQueue == [] <==> visited' == visited)
      invariant log <= log'
    {
      var candidate := beam[i];
      assert candidate in beam;
      if candidate.state == goal {
        return Some(candidate), nextQueue, visited', log';
      }
      var neighbors := GetNeighbors(candidate.state);
      NeighborsKeepTiles(candidate.state);
      for j := 0 to |neighbors|
        invariant BeamLog(mc, start, visited', log') && CandidateOk(mc, start, goal, candidate, visited')
        invariant CandidatesOk(mc, start, goal, beam, visited') && CandidatesOk(mc, start, goal, nextQueue, visited')
        invariant visited <= visited' && (nextQueue == [] <==> visited' == visited)
        invariant log <= log'
      {
        var neighbor := neighbors[j];
        if neighbor !in visited' {
          var newCost := candidate.cost + StepCost(mc, candidate.state, neighbor);
          BeamPush(mc, start, goal, beam, nextQueue, visited', log', candidate, neighbor, newCost);
          visited' := visited' + {neighbor};
          var h := Heuristic(neighbor, goal);
          nextQueue := nextQueue + [Candidate(h, neighbor, candidate.path + [neighbor], newCost)];
          PrefixGrows(log, log', Entry(candidate.path + [neighbor], newCost));
          log' := log' + [Entry(candidate.path + [neighbor], newCost)];
        }
      }
    }
    if nextQueue != [] {
      UnvisitedShrinks(start, visited, visited');
    }
    found := None;
  }

  /**
   * `beam_search`: each round keeps the beam_width candidates of smallest
   * heuristic, in stable order, and expands them, pushing every neighbour
   * not yet visited; it returns the first beam candidate standing on the
   * goal. Each board is pushed at most once over the whole search.
   */
  method BeamSearch(mc: MoveCosts, start: Board, goal: Board, beamWidth: nat) returns (path: Option<seq<Board>>, costs: Option<seq<nat>>, allPaths: seq<Entry>)
    requires Complete(mc) && HasBlank(start)
    ensures path.Some? <==> costs.Some?
    ensures path.Some? ==> IsWalk(path.value) && path.value[0] == start && Last(path.value) == goal &&
                           Distinct(path.value) && costs.value == Costs(mc, path.value)
    ensures |allPaths| > 0 && allPaths[0] == Entry([start], 0)
    ensures Logged(mc, start, allPaths) && ExpandedOnce(allPaths)
  {
    var queue := [Candidate(Heuristic(start, goal), start, [start], 0)];
    var visited: set<Board> := {start};
    allPaths := [Entry(queue[0].path, 0)];
    BeamInit(mc, start, goal);
    while queue != []
      invariant BeamLog(mc, start, visited, allPaths) && CandidatesOk(mc, start, goal, queue, visited)
      decreases |Universe(start) - visited|, |queue|
    {
      var beam := Beam(queue, beamWidth);
      BeamCandidates(mc, start, goal, queue, beamWidth, visited);
      var found, nextQueue, visited', allPaths' := ExpandBeam(mc, start, goal, beam, visited, allPaths);
      if found.Some? {
        assert CandidateOk(mc, start, goal, found.value, visited);
        var pathCosts := CalculateCosts(mc, found.value.path);
        return Some(found.value.path), Some(pathCosts), allPaths';
      }
      queue, visited, allPaths := nextQueue, visited', allPaths';
    }
    return None, None, allPaths;
  }
}
