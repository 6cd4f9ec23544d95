// The sensor-based walkers of the 8-puzzle (algorithms/sensor_based.py).
//
// get_possible_actions and result of sensor_based.py repeat, line for line,
// `actions` and `results` of nondeterministic.py (the blank is found by the
// same row scan), so this module uses Nondeterministic.Actions and
// Nondeterministic.Apply for them; goal_test is board equality and
// calculate_action_cost is `MOVE_COSTS.get(action, 1)`, that is CostOr1.

module Sensor {
  import opened Wrappers
  import opened Utils
  import opened Search
  import opened Informed
  import opened Nondeterministic

  /** A board with a blank always has at least two actions: one per axis at least. */
  lemma {:induction false} ActionsNonempty(b: Board)
    requires HasBlank(b)
    ensures |Actions(b)| >= 2
  {
    var k := ScanBlank(b).value;
    assert Row(k) < 3 && Col(k) < 3;
  }

  // ---------------------------------------------------------------------
  // sensor_search (algorithms/sensor_based.py:7-73)

  /** `[n for n in ns if n not in avoid]`: the boards of ns outside avoid, in their order. */
  function Outside(ns: seq<Board>, avoid: set<Board>): (r: seq<Board>)
    ensures |r| <= |ns|
    ensures forall x :: x in r <==> x in ns && x !in avoid
  {
    if ns == [] then []
    else (if ns[0] in avoid then [] else [ns[0]]) + Outside(ns[1..], avoid)
  }

  /** The last n boards of s: `path[-n:]`, and what a `deque(maxlen=n)` fed with s holds. */
  function Tail(s: seq<Board>, n: nat): (r: seq<Board>)
    ensures |r| == Min(n, |s|) && s == s[..|s| - |r|] + r
  {
    s[|s| - Min(n, |s|)..]
  }

  /** The tuple `(heuristic(n, goal), n)` neighbor_scores.sort() orders by, flattened. */
  function Score(n: Board, goal: Board): seq<int>
  {
    [Heuristic(n, goal)] + n
  }

  /** How many boards of ns sort strictly before the key k. */
  function Ahead(k: seq<int>, ns: seq<Board>, goal: Board): (r: nat)
    ensures r <= |ns|
  {
    if ns == [] then 0
    else (if LexLess(Score(ns[0], goal), k) then 1 else 0) + Ahead(k, ns[1..], goal)
  }

  /** ns as neighbor_scores.sort() leaves it: no board sorts before an earlier one. */
  ghost predicate SortedByScore(ns: seq<Board>, goal: Board)
  {
    forall i, j :: 0 <= i < j < |ns| ==> !LexLess(Score(ns[j], goal), Score(ns[i], goal))
  }

  /** Two different keys of one length: one of them sorts before the other. */
  lemma {:induction false} LexTotal(a: seq<int>, b: seq<int>)
    requires |a| == |b| && a != b
    ensures LexLess(a, b) || LexLess(b, a)
    decreases |a|
  {
    if a[0] == b[0] {
      assert a == [a[0]] + a[1..] && b == [b[0]] + b[1..];
      LexTotal(a[1..], b[1..]);
    }
  }

  /** Different boards have different scores, so one of them sorts first. */
  lemma {:induction false} ScoreTotal(x: Board, y: Board, goal: Board)
    requires x != y
    ensures LexLess(Score(x, goal), Score(y, goal)) || LexLess(Score(y, goal), Score(x, goal))
  {
    assert Score(x, goal)[1..] == x && Score(y, goal)[1..] == y;
    LexTotal(Score(x, goal), Score(y, goal));
  }

  /** No board of ns sorts before k exactly when the count of those is zero. */
  lemma {:induction false} AheadZero(k: seq<int>, ns: seq<Board>, goal: Board)
    ensures Ahead(k, ns, goal) == 0 <==> forall x :: x in ns ==> !LexLess(Score(x, goal), k)
    decreases |ns|
  {
    if ns != [] {
      AheadZero(k, ns[1..], goal);
      assert forall x :: x in ns <==> x == ns[0] || x in ns[1..];
    }
  }

  /**
   * In the sorted list the first place of x is the number of boards that
   * sort before it, so `neighbor_scores[:m]` holds x exactly when fewer than
   * m boards of the list sort before x.
   */
  lemma {:induction false} SortedAhead(ns: seq<Board>, goal: Board, x: Board, m: nat)
    requires SortedByScore(ns, goal) && x in ns
    ensures x in ns[..Min(m, |ns|)] <==> Ahead(Score(x, goal), ns, goal) < m
    decreases |ns|
  {
    if ns[0] == x {
      SortedFirst(ns, goal, m);
    } else {
      var rest := ns[1..];
      SortedRest(ns, goal, x);
      if m > 0 {
        SortedAhead(rest, goal, x, m - 1);
        TakeCons(ns, m, x);
      }
    }
  }

  /** The head of a sorted list has no board sorting before it. */
  lemma {:induction false} SortedFirst(ns: seq<Board>, goal: Board, m: nat)
    requires SortedByScore(ns, goal) && |ns| > 0
    ensures ns[0] in ns[..Min(m, |ns|)] <==> Ahead(Score(ns[0], goal), ns, goal) < m
  {
    var rest := ns[1..];
    LexIrreflexive(Score(ns[0], goal));
    forall y | y in rest ensures !LexLess(Score(y, goal), Score(ns[0], goal)) {
      var j :| 0 <= j < |rest| && rest[j] == y;
      assert ns[j + 1] == y;
    }
    AheadZero(Score(ns[0], goal), rest, goal);
    if m > 0 {
      assert ns[..Min(m, |ns|)][0] == ns[0];
    }
  }

  /** Past a head other than x: the rest is sorted, holds x, and the head sorts before x. */
  lemma {:induction false} SortedRest(ns: seq<Board>, goal: Board, x: Board)
    requires SortedByScore(ns, goal) && x in ns && ns[0] != x
    ensures SortedByScore(ns[1..], goal) && x in ns[1..]
    ensures Ahead(Score(x, goal), ns, goal) == 1 + Ahead(Score(x, goal), ns[1..], goal)
  {
    var rest := ns[1..];
    var j :| 0 <= j < |ns| && ns[j] == x;
    assert j > 0 && rest[j - 1] == x;
    HeadAhead(ns, goal, x, j);
    forall a, b | 0 <= a < b < |rest| ensures !LexLess(Score(rest[b], goal), Score(rest[a], goal)) {
      assert rest[a] == ns[a + 1] && rest[b] == ns[b + 1];
    }
  }

  /** A board of a sorted list sorts strictly after the head when it differs from it. */
  lemma {:induction false} HeadAhead(ns: seq<Board>, goal: Board, x: Board, j: int)
    requires SortedByScore(ns, goal) && 0 < j < |ns| && ns[j] == x && ns[0] != x
    ensures Ahead(Score(x, goal), ns, goal) == 1 + Ahead(Score(x, goal), ns[1..], goal)
  {
    ScoreTotal(ns[0], x, goal);
    assert !LexLess(Score(ns[j], goal), Score(ns[0], goal));
  }


  /** Past a head other than x, x is among the first m boards exactly when it is among the first m - 1 of the rest. */
  lemma {:induction false} TakeCons(ns: seq<Board>, m: nat, x: Board)
    requires |ns| > 0 && m > 0 && ns[0] != x
    ensures x in ns[..Min(m, |ns|)] <==> x in ns[1..][..Min(m - 1, |ns| - 1)]
  {
    var k := Min(m, |ns|);
    assert ns[..k] == [ns[0]] + ns[1..][..k - 1];
  }

  /** At most one board of ns has no board of ns sorting before it: `neighbor_scores[0]` is determined. */
  lemma {:induction false} BestUnique(ns: seq<Board>, goal: Board, x: Board, y: Board)
    requires x in ns && y in ns
    requires Ahead(Score(x, goal), ns, goal) == 0 && Ahead(Score(y, goal), ns, goal) == 0
    ensures x == y
  {
    AheadZero(Score(x, goal), ns, goal);
    AheadZero(Score(y, goal), ns, goal);
    if x != y {
      ScoreTotal(x, y, goal);
    }
  }

  /** Counting the boards before k splits over a concatenation. */
  lemma {:induction false} AheadAppend(k: seq<int>, a: seq<Board>, b: seq<Board>, goal: Board)
    ensures Ahead(k, a + b, goal) == Ahead(k, a, goal) + Ahead(k, b, goal)
    decreases |a|
  {
    if a == [] {
      assert a + b == b;
    } else {
      assert (a + b)[0] == a[0] && (a + b)[1..] == a[1..] + b;
      AheadAppend(k, a[1..], b, goal);
    }
  }

  /** The count of boards sorting before k does not depend on the order of the list. */
  lemma {:induction false} AheadPermutation(k: seq<int>, ns: seq<Board>, ms: seq<Board>, goal: Board)
    requires multiset(ns) == multiset(ms)
    ensures Ahead(k, ns, goal) == Ahead(k, ms, goal)
    decreases |ns|
  {
    if ns == [] {
      assert |ms| == |multiset(ms)| == 0;
    } else {
      assert ns[0] in multiset(ms);
      var j :| 0 <= j < |ms| && ms[j] == ns[0];
      var rest := ms[..j] + ms[j + 1..];
      RemoveAtMultiset(ns, ms, j);
      AheadPermutation(k, ns[1..], rest, goal);
      AheadRemoveAt(k, ms, j, goal);
      AheadRemoveAt(k, ns, 0, goal);
      assert ns[..0] + ns[1..] == ns[1..];
    }
  }

  /** Taking the head of ns and its copy at j out of ms leaves equal multisets. */
  lemma {:induction false} RemoveAtMultiset(ns: seq<Board>, ms: seq<Board>, j: int)
    requires multiset(ns) == multiset(ms) && ns != [] && 0 <= j < |ms| && ms[j] == ns[0]
    ensures multiset(ns[1..]) == multiset(ms[..j] + ms[j + 1..])
  {
    var x := ns[0];
    assert ns == [x] + ns[1..];
    assert ms == ms[..j] + ([x] + ms[j + 1..]);
    var A, B := multiset(ns[1..]), multiset(ms[..j] + ms[j + 1..]);
    assert multiset(ns) == multiset{x} + A;
    assert multiset(ms) == multiset(ms[..j]) + (multiset{x} + multiset(ms[j + 1..]));
    assert B == multiset(ms[..j]) + multiset(ms[j + 1..]);
    forall y ensures A[y] == B[y] {
      assert multiset(ns)[y] == multiset{x}[y] + A[y];
      assert multiset(ms)[y] == multiset{x}[y] + B[y];
    }
  }

  /** Counting over a list is counting its j-th board plus the rest. */
  lemma {:induction false} AheadRemoveAt(k: seq<int>, ms: seq<Board>, j: int, goal: Board)
    requires 0 <= j < |ms|
    ensures Ahead(k, ms, goal) == Ahead(k, [ms[j]], goal) + Ahead(k, ms[..j] + ms[j + 1..], goal)
  {
    assert ms == ms[..j] + ([ms[j]] + ms[j + 1..]);
    AheadAppend(k, ms[..j], [ms[j]] + ms[j + 1..], goal);
    AheadAppend(k, [ms[j]], ms[j + 1..], goal);
    AheadAppend(k, ms[..j], ms[j + 1..], goal);
  }

  /**
   * For any sorting of the pool (`neighbor_scores.sort()`), a board is among
   * its first m entries exactly when it is in the pool and fewer than m
   * boards of the pool sort before it: the choice ChooseNext states on the
   * unsorted pool is the one the source makes on the sorted list.
   */
  lemma {:induction false} SortedTake(sorted: seq<Board>, pool: seq<Board>, goal: Board, x: Board, m: nat)
    requires SortedByScore(sorted, goal) && multiset(sorted) == multiset(pool)
    ensures x in sorted[..Min(m, |sorted|)] <==> x in pool && Ahead(Score(x, goal), pool, goal) < m
  {
    if x in pool {
      assert x in multiset(pool);
      assert x in sorted;
      SortedAhead(sorted, goal, x, m);
      AheadPermutation(Score(x, goal), sorted, pool, goal);
    } else {
      assert x !in multiset(sorted);
      assert x !in sorted;
    }
  }

  /** `neighbor_scores[0]` is the one board of the pool that nothing sorts before. */
  lemma {:induction false} SortedHead(sorted: seq<Board>, pool: seq<Board>, goal: Board, x: Board)
    requires SortedByScore(sorted, goal) && multiset(sorted) == multiset(pool) && pool != []
    ensures x in pool && Ahead(Score(x, goal), pool, goal) == 0 <==> x == sorted[0]
  {
    assert |sorted| == |multiset(pool)| > 0;
    SortedTake(sorted, pool, goal, sorted[0], 1);
    assert sorted[..Min(1, |sorted|)] == [sorted[0]];
    if x in pool && Ahead(Score(x, goal), pool, goal) == 0 {
      BestUnique(pool, goal, x, sorted[0]);
    }
  }

  /** A non-empty list has a board no other board sorts before. */
  lemma {:induction false} Least(ns: seq<Board>, goal: Board) returns (r: Board)
    requires |ns| > 0
    ensures r in ns && Ahead(Score(r, goal), ns, goal) == 0
    decreases |ns|
  {
    if |ns| == 1 {
      r := ns[0];
      LexIrreflexive(Score(r, goal));
      assert Ahead(Score(r, goal), ns[1..], goal) == 0;
    } else {
      var rest := ns[1..];
      var s := Least(rest, goal);
      AheadZero(Score(s, goal), rest, goal);
      if LexLess(Score(ns[0], goal), Score(s, goal)) {
        r := ns[0];
        LexIrreflexive(Score(r, goal));
        forall x | x in rest ensures !LexLess(Score(x, goal), Score(r, goal)) {
          if LexLess(Score(x, goal), Score(r, goal)) {
            LexTransitive(Score(x, goal), Score(r, goal), Score(s, goal));
          }
        }
        AheadZero(Score(r, goal), rest, goal);
      } else {
        r := s;
        assert r in ns;
      }
    }
  }

  /** The boards sensor_search chooses among: the unvisited neighbours, else those not in recent memory. */
  function Pool(current: Board, visited: set<Board>, recent: seq<Board>): (r: seq<Board>)
    requires HasBlank(current)
    ensures forall x :: x in r ==> x in Neighbors(current) && (x !in visited || x !in recent)
  {
    var unvisited := Outside(Neighbors(current), visited);
    if unvisited != [] then unvisited else Outside(Neighbors(current), PathSet(recent))
  }

  /**
   * One choice of sensor_search. With choices to make, it takes the board
   * that sorts first by (heuristic, board) while progress is recent, and
   * one of the first three after five steps without improvement; with
   * none, a neighbour outside the last five boards of the path if there is
   * one. The random choices are left open. The choices are stated by
   * counting over the unsorted pool; SortedHead and SortedTake show they are
   * `neighbor_scores[0]` and the entries of `neighbor_scores[:3]`.
   */
  method ChooseNext(current: Board, goal: Board, visited: set<Board>, recent: seq<Board>, path: seq<Board>, stepsSince: nat)
      returns (next: Board)
    requires HasBlank(current)
    ensures next in Neighbors(current) && HasBlank(next)
    ensures Pool(current, visited, recent) != [] && stepsSince < 5 ==>
              next in Pool(current, visited, recent) && Ahead(Score(next, goal), Pool(current, visited, recent), goal) == 0
    ensures Pool(current, visited, recent) != [] && stepsSince >= 5 ==>
              next in Pool(current, visited, recent) && Ahead(Score(next, goal), Pool(current, visited, recent), goal) < 3
    ensures Pool(current, visited, recent) == [] && Outside(Neighbors(current), PathSet(Tail(path, 5))) != [] ==>
              next !in Tail(path, 5)
  {
    var neighbors := Neighbors(current);
    NeighborsCount(current);
    NeighborsKeepTiles(current);
    var unvisited := Pool(current, visited, recent);
    if unvisited == [] {
      var randomNeighbors := Outside(neighbors, PathSet(Tail(path, 5)));
      if randomNeighbors != [] {
        assert randomNeighbors[0] in randomNeighbors;
        next :| next in randomNeighbors;
      } else {
        assert neighbors[0] in neighbors;
        next :| next in neighbors;
      }
    } else {
      ghost var w := Least(unvisited, goal);
      if stepsSince < 5 {
        next :| next in unvisited && Ahead(Score(next, goal), unvisited, goal) == 0;
      } else {
        next :| next in unvisited && Ahead(Score(next, goal), unvisited, goal) < 3;
      }
    }
  }

  /** Appending a tracked record keeps the log tracked. */
  lemma {:induction false} LoggedSnoc(mc: MoveCosts, start: Board, log: seq<Entry>, e: Entry)
    requires Logged(mc, start, log) && Tracked(mc, start, e.path, e.cost)
    ensures Logged(mc, start, log + [e])
  {
    var log' := log + [e];
    assert forall i :: 0 <= i < |log| ==> log'[i] == log[i];
  }

  /** The running costs of a walk without its last board are those of the walk without its last entry. */
  lemma {:induction false} CostsFront(mc: MoveCosts, path: seq<Board>, front: seq<Board>)
    requires Complete(mc) && IsWalk(path) && |path| > 1 && front == path[..|path| - 1] && IsWalk(front)
    ensures Costs(mc, path)[..|path| - 1] == Costs(mc, front)
  {
  }

  /** Cutting a walk after k boards leaves a walk from the same board, with the first k cumulative costs. */
  lemma {:induction false} WalkPrefix(mc: MoveCosts, path: seq<Board>, k: nat)
    requires Complete(mc) && IsWalk(path) && 1 <= k <= |path|
    ensures IsWalk(path[..k]) && path[..k][0] == path[0]
    ensures Costs(mc, path[..k]) == Costs(mc, path)[..k]
    decreases |path|
  {
    if k < |path| {
      var front := path[..|path| - 1];
      WalkFront(path);
      assert front[..k] == path[..k];
      WalkPrefix(mc, front, k);
      CostsFront(mc, path, front);
      var all := Costs(mc, path);
      assert all[..k] == all[..|path| - 1][..k];
    } else {
      assert path[..k] == path;
    }
  }

  /**
   * What sensor_search keeps between steps: a walk from start with its
   * running costs, no goal before its last board, and a log of tracked
   * records that starts with the start board.
   */
  ghost predicate Walked(mc: MoveCosts, start: Board, goal: Board, path: seq<Board>, running: seq<nat>, log: seq<Entry>)
  {
    Complete(mc) && IsWalk(path) && path[0] == start && running == Costs(mc, path) &&
    (forall k :: 0 <= k < |path| - 1 ==> path[k] != goal) &&
    |log| >= 1 && log[0] == Entry([start], 0) && Logged(mc, start, log)
  }

  /** A step from a board other than the goal to a neighbour, recorded in the log. */
  lemma {:induction false} WalkedStep(mc: MoveCosts, start: Board, goal: Board, path: seq<Board>, running: seq<nat>, log: seq<Entry>,
                   next: Board, newCost: nat)
    requires Walked(mc, start, goal, path, running, log) && Last(path) != goal
    requires next in Neighbors(Last(path)) && HasBlank(next)
    requires newCost == Last(running) + StepCost(mc, Last(path), next)
    ensures Walked(mc, start, goal, path + [next], running + [newCost], log + [Entry(path + [next], newCost)])
  {
    TrackedExtend(mc, start, path, Last(running), next);
    CostsExtend(mc, path, next);
    LoggedSnoc(mc, start, log, Entry(path + [next], newCost));
    var p := path + [next];
    forall k | 0 <= k < |p| - 1 ensures p[k] != goal {
      assert p[k] == path[k];
    }
  }

  /** Cutting the path back to its first position + 1 boards. */
  lemma {:induction false} WalkedCut(mc: MoveCosts, start: Board, goal: Board, path: seq<Board>, running: seq<nat>, log: seq<Entry>, position: nat)
    requires Walked(mc, start, goal, path, running, log) && position < |path|
    ensures Walked(mc, start, goal, path[..position + 1], running[..position + 1], log)
    ensures Last(path[..position + 1]) == path[position]
  {
    WalkPrefix(mc, path, position + 1);
    var p := path[..position + 1];
    forall k | 0 <= k < |p| - 1 ensures p[k] != goal {
      assert p[k] == path[k];
    }
  }

  /**
   * sensor_search: a greedy walk on the heuristic that records each path it
   * reaches, and, after more than fifteen steps without a better heuristic,
   * cuts the path back by max(5, len(path) // 3) boards. The path it returns
   * is a walk of legal moves from start with its calculate_costs list; it
   * ends in the goal or the walk used all of max_steps; no earlier board of
   * the path is the goal, and every record holds a walk from start with its
   * cost.
   */
  method SensorSearch(mc: MoveCosts, start: Board, goal: Board, maxSteps: int) returns (path: seq<Board>, costs: seq<nat>, log: seq<Entry>)
    requires Complete(mc) && HasBlank(start)
    ensures IsWalk(path) && path[0] == start && costs == Costs(mc, path)
    ensures forall k :: 0 <= k < |path| - 1 ==> path[k] != goal
    ensures |log| >= 1 && log[0] == Entry([start], 0) && Logged(mc, start, log)
    ensures |log| - 1 <= Max(maxSteps, 0)
    ensures Last(path) == goal || |log| - 1 == Max(maxSteps, 0)
  {
    var current := start;
    path := [start];
    var running: seq<nat> := [0];
    var visited := {start};
    log := [Entry([start], 0)];
    var recent := [start];
    var stepsSince: nat := 0;
    var bestH := Heuristic(start, goal);
    TrackedStart(mc, start);
    var step := 0;
    while step < maxSteps
      invariant 0 <= step <= Max(maxSteps, 0) && |log| == step + 1
      invariant Walked(mc, start, goal, path, running, log) && current == Last(path)
    {
      if current == goal {
        costs := Costs(mc, path);
        return;
      }
      var next := ChooseNext(current, goal, visited, recent, path, stepsSince);
      var newCost := Last(running) + StepCost(mc, current, next);
      WalkedStep(mc, start, goal, path, running, log, next, newCost);
      current := next;
      path := path + [next];
      running := running + [newCost];
      visited := visited + {next};
      recent := Tail(recent + [next], 10);
      log := log + [Entry(path, newCost)];
      var currentH := Heuristic(current, goal);
      if currentH < bestH {
        bestH := currentH;
        stepsSince := 0;
      } else {
        stepsSince := stepsSince + 1;
      }
      if stepsSince > 15 {
        var backtrackPoint := Max(5, |path| / 3);
        var position := |path| - backtrackPoint;
        if position > 0 {
          WalkedCut(mc, start, goal, path, running, log, position);
          current := path[position];
          path := path[..position + 1];
          running := running[..position + 1];
          stepsSince := 0;
        }
      }
      step := step + 1;
    }
    costs := Costs(mc, path);
  }

  // ---------------------------------------------------------------------
  // sensor_search_belief_states (algorithms/sensor_based.py:75-114)

  /** Entry k of ds is the first one of least cost. */
  predicate FirstCheapest(mc: MoveCosts, ds: seq<Dir>, k: nat)
  {
    k < |ds| &&
    (forall j :: 0 <= j < |ds| ==> CostOr1(mc, ds[k]) <= CostOr1(mc, ds[j])) &&
    (forall j :: 0 <= j < k ==> CostOr1(mc, ds[j]) > CostOr1(mc, ds[k]))
  }

  /**
   * The scan over the actions that keeps the first action of strictly
   * smaller cost than every action before it: the first cheapest action,
   * or none when there are no actions.
   */
  method CheapestAction(mc: MoveCosts, actions: seq<Dir>) returns (best: Option<nat>)
    ensures best.None? <==> actions == []
    ensures best.Some? ==> FirstCheapest(mc, actions, best.value)
  {
    best := None;
    for i := 0 to |actions|
      invariant best.None? <==> i == 0
      invariant best.Some? ==> best.value < i
      invariant best.Some? ==> forall j :: 0 <= j < i ==> CostOr1(mc, actions[best.value]) <= CostOr1(mc, actions[j])
      invariant best.Some? ==> forall j :: 0 <= j < best.value ==> CostOr1(mc, actions[j]) > CostOr1(mc, actions[best.value])
    {
      if best.None? || CostOr1(mc, actions[i]) < CostOr1(mc, actions[best.value]) {
        best := Some(i);
      }
    }
  }

  /** The action a is the first cheapest action of board b. */
  ghost predicate CheapestStep(mc: MoveCosts, b: Board, a: Dir)
    requires HasBlank(b)
  {
    exists k: nat :: FirstCheapest(mc, Actions(b), k) && Actions(b)[k] == a
  }

  /** path is the walk that applies the actions acts, one after the other, from path[0]. */
  ghost predicate Applied(path: seq<Board>, acts: seq<Dir>)
  {
    |path| == |acts| + 1 && AllBlanked(path) &&
    forall i :: 0 <= i < |acts| ==> path[i + 1] == Apply(path[i], acts[i])
  }

  /** Each action of acts is the first cheapest action of the board it is taken from. */
  ghost predicate Chosen(mc: MoveCosts, path: seq<Board>, acts: seq<Dir>)
    requires Applied(path, acts)
  {
    forall i :: 0 <= i < |acts| ==> CheapestStep(mc, path[i], acts[i])
  }

  /** costs[i] is the sum of the costs of the first i actions. */
  ghost predicate Summed(mc: MoveCosts, costs: seq<nat>, acts: seq<Dir>)
  {
    |costs| == |acts| + 1 && costs[0] == 0 &&
    forall i :: 0 <= i < |acts| ==> costs[i + 1] == costs[i] + CostOr1(mc, acts[i])
  }

  /**
   * path is the walk of cheapest actions acts from path[0], and costs[i] is
   * the sum of the costs of the first i actions.
   */
  ghost predicate CheapestWalk(mc: MoveCosts, path: seq<Board>, costs: seq<nat>, acts: seq<Dir>)
  {
    Applied(path, acts) && Chosen(mc, path, acts) && Summed(mc, costs, acts)
  }

  lemma {:induction false} AppliedSnoc(path: seq<Board>, acts: seq<Dir>, a: Dir, n: Board)
    requires Applied(path, acts) && n == Apply(Last(path), a)
    ensures Applied(path + [n], acts + [a])
  {
    var path', acts' := path + [n], acts + [a];
    forall i | 0 <= i < |acts'| ensures path'[i + 1] == Apply(path'[i], acts'[i]) {
      if i < |acts| {
        assert path'[i] == path[i] && path'[i + 1] == path[i + 1] && acts'[i] == acts[i];
      }
    }
  }

  lemma {:induction false} ChosenSnoc(mc: MoveCosts, path: seq<Board>, acts: seq<Dir>, a: Dir, n: Board)
    requires Applied(path, acts) && Chosen(mc, path, acts) && n == Apply(Last(path), a)
    requires CheapestStep(mc, Last(path), a)
    ensures Applied(path + [n], acts + [a]) && Chosen(mc, path + [n], acts + [a])
  {
    AppliedSnoc(path, acts, a, n);
    var path', acts' := path + [n], acts + [a];
    forall i | 0 <= i < |acts'| ensures CheapestStep(mc, path'[i], acts'[i]) {
      assert i < |path| && path'[i] == path[i];
      if i < |acts| {
        assert acts'[i] == acts[i];
        assert CheapestStep(mc, path[i], acts[i]);
      } else {
        assert i == |path| - 1 && acts'[i] == a;
      }
    }
  }

  lemma {:induction false} SummedSnoc(mc: MoveCosts, costs: seq<nat>, acts: seq<Dir>, a: Dir, c: nat)
    requires Summed(mc, costs, acts) && c == Last(costs) + CostOr1(mc, a)
    ensures Summed(mc, costs + [c], acts + [a])
  {
    var costs', acts' := costs + [c], acts + [a];
    forall i | 0 <= i < |acts'| ensures costs'[i + 1] == costs'[i] + CostOr1(mc, acts'[i]) {
      if i < |acts| {
        assert costs'[i] == costs[i] && costs'[i + 1] == costs[i + 1] && acts'[i] == acts[i];
      }
    }
  }

  /** Taking one more first cheapest action extends the walk, its costs and its actions. */
  lemma {:induction false} CheapestWalkSnoc(mc: MoveCosts, path: seq<Board>, costs: seq<nat>, acts: seq<Dir>, a: Dir, n: Board, c: nat)
    requires CheapestWalk(mc, path, costs, acts)
    requires CheapestStep(mc, Last(path), a) && n == Apply(Last(path), a) && c == Last(costs) + CostOr1(mc, a)
    ensures CheapestWalk(mc, path + [n], costs + [c], acts + [a])
  {
    ChosenSnoc(mc, path, acts, a, n);
    SummedSnoc(mc, costs, acts, a, c);
  }

  /**
   * One action of a walk from a board with a single blank: the action is a
   * legal move, the next board is that move's neighbour with a single
   * blank, and the action's cost is the step cost calculate_costs charges.
   */
  lemma {:induction false} ActionStep(mc: MoveCosts, b: Board, a: Dir)
    requires Complete(mc) && UniqueBlank(b) && HasBlank(b) && a in Actions(b)
    ensures Apply(b, a) in Neighbors(b) && UniqueBlank(Apply(b, a))
    ensures StepCost(mc, b, Apply(b, a)) == CostOr1(mc, a)
  {
    ApplyFacts(b, a);
    ActionsLegal(b);
    MoveDirectionOfMove(b, a);
  }

  /** Each action of acts is one of the actions of the board it is taken from. */
  ghost predicate Legal(path: seq<Board>, acts: seq<Dir>)
    requires Applied(path, acts)
  {
    forall i :: 0 <= i < |acts| ==> acts[i] in Actions(path[i])
  }

  lemma {:induction false} ChosenLegal(mc: MoveCosts, path: seq<Board>, acts: seq<Dir>)
    requires Applied(path, acts) && Chosen(mc, path, acts)
    ensures Legal(path, acts)
  {
    forall i | 0 <= i < |acts| ensures acts[i] in Actions(path[i]) {
      assert CheapestStep(mc, path[i], acts[i]);
      var k: nat :| FirstCheapest(mc, Actions(path[i]), k) && Actions(path[i])[k] == acts[i];
    }
  }

  /** Legal actions from a board with a single blank keep a single blank. */
  lemma {:induction false} LegalBlanks(path: seq<Board>, acts: seq<Dir>, i: nat)
    requires Applied(path, acts) && Legal(path, acts) && UniqueBlank(path[0]) && i < |path|
    ensures UniqueBlank(path[i])
    decreases i
  {
    if i > 0 {
      LegalBlanks(path, acts, i - 1);
      ApplyFacts(path[i - 1], acts[i - 1]);
    }
  }

  /** The running action costs agree with calculate_costs up to index i. */
  lemma {:induction false} LegalCosts(mc: MoveCosts, path: seq<Board>, costs: seq<nat>, acts: seq<Dir>, i: nat)
    requires Complete(mc) && Applied(path, acts) && Legal(path, acts) && Summed(mc, costs, acts)
    requires UniqueBlank(path[0]) && i < |path|
    ensures costs[i] == Costs(mc, path)[i]
    decreases i
  {
    if i > 0 {
      var b, a := path[i - 1], acts[i - 1];
      LegalCosts(mc, path, costs, acts, i - 1);
      LegalBlanks(path, acts, i - 1);
      ActionStep(mc, b, a);
      assert path[i] == Apply(b, a) && costs[i] == costs[i - 1] + CostOr1(mc, a);
      CostsStep(mc, path, i);
    }
  }

  /**
   * From a board with a single blank, the walk of cheapest actions is a walk
   * of legal moves, and its running action costs are exactly calculate_costs
   * of the path: the two cost accountings agree.
   */
  lemma {:induction false} CheapestWalkCosts(mc: MoveCosts, path: seq<Board>, costs: seq<nat>, acts: seq<Dir>)
    requires Complete(mc) && CheapestWalk(mc, path, costs, acts) && UniqueBlank(path[0])
    ensures IsWalk(path) && costs == Costs(mc, path)
  {
    ChosenLegal(mc, path, acts);
    forall i | 0 <= i < |acts| ensures path[i + 1] in Neighbors(path[i]) {
      LegalBlanks(path, acts, i);
      ActionStep(mc, path[i], acts[i]);
    }
    forall i | 0 <= i < |path| ensures costs[i] == Costs(mc, path)[i] {
      LegalCosts(mc, path, costs, acts, i);
    }
  }

  /**
   * sensor_search_belief_states: from the initial board, repeatedly takes
   * the first cheapest action until the board equals the goal or max_steps
   * moves are made. costs are the running sums of the action costs, and the
   * log holds every prefix of the path with its cost.
   */
  method SensorSearchBeliefStates(mc: MoveCosts, initial: Board, goal: Board, maxSteps: int)
    returns (path: seq<Board>, costs: seq<nat>, log: seq<Entry>, ghost acts: seq<Dir>)
    requires HasBlank(initial)
    ensures CheapestWalk(mc, path, costs, acts) && path[0] == initial
    ensures log == PrefixLog(path, costs)
    ensures forall i :: 0 <= i < |path| - 1 ==> path[i] != goal
    ensures |acts| <= Max(maxSteps, 0)
    ensures Last(path) == goal || |acts| == Max(maxSteps, 0)
  {
    var current := initial;
    path, costs, acts := [current], [0], [];
    var visited := {current};
    log := [Entry(path, 0)];
    assert path[..1] == path;
    for step := 0 to Max(maxSteps, 0)
      invariant CheapestWalk(mc, path, costs, acts) && path[0] == initial && current == Last(path)
      invariant log == PrefixLog(path, costs)
      invariant forall i :: 0 <= i < |path| - 1 ==> path[i] != goal
      invariant |acts| == step
    {
      if current == goal {
        return;
      }
      var actions := Actions(current);
      var best := CheapestAction(mc, actions);
      if best.None? {
        ActionsNonempty(current);
        break;
      }
      var action := actions[best.value];
      assert CheapestStep(mc, current, action);
      var bestCost := CostOr1(mc, action);
      var next := Apply(current, action);
      var newCost := Last(costs) + bestCost;
      var path', costs', acts' := path + [next], costs + [newCost], acts + [action];
      var log' := log + [Entry(path', newCost)];
      CheapestMove(mc, initial, goal, path, costs, acts, log, action, next, newCost, path', costs', acts', log');
      current := next;
      path, costs, acts, log := path', costs', acts', log';
      visited := visited + {current};
    }
  }

  /** One move of sensor_search_belief_states keeps the loop's invariant. */
  lemma {:induction false} CheapestMove(mc: MoveCosts, initial: Board, goal: Board,
                                        path: seq<Board>, costs: seq<nat>, acts: seq<Dir>, log: seq<Entry>,
                                        a: Dir, n: Board, c: nat,
                                        path': seq<Board>, costs': seq<nat>, acts': seq<Dir>, log': seq<Entry>)
    requires CheapestWalk(mc, path, costs, acts) && path[0] == initial
    requires log == PrefixLog(path, costs)
    requires forall i :: 0 <= i < |path| - 1 ==> path[i] != goal
    requires Last(path) != goal
    requires CheapestStep(mc, Last(path), a) && n == Apply(Last(path), a) && c == Last(costs) + CostOr1(mc, a)
    requires path' == path + [n] && costs' == costs + [c] && acts' == acts + [a] && log' == log + [Entry(path', c)]
    ensures CheapestWalk(mc, path', costs', acts') && path'[0] == initial && n == Last(path')
    ensures log' == PrefixLog(path', costs')
    ensures forall i :: 0 <= i < |path'| - 1 ==> path'[i] != goal
    ensures |acts'| == |acts| + 1
  {
    CheapestWalkSnoc(mc, path, costs, acts, a, n, c);
    PrefixLogSnoc(path, costs, n, c);
    forall i | 0 <= i < |path'| - 1 ensures path'[i] != goal {
      assert path'[i] == path[i];
    }
  }

  // ---------------------------------------------------------------------
  // belief_state_search (algorithms/sensor_based.py:116-171)

  /** The score of taking action d from b: the action's cost plus the heuristic of the board it leads to. */
  function Total(mc: MoveCosts, goal: Board, b: Board, d: Dir): nat
    requires HasBlank(b)
  {
    CostOr1(mc, d) + Heuristic(Apply(b, d), goal)
  }

  /** For each action of ds, whether it leads from b to a board not in seen. */
  function UnseenOf(b: Board, seen: set<Board>, ds: seq<Dir>): (ok: seq<bool>)
    requires HasBlank(b)
    ensures |ok| == |ds|
  {
    if ds == [] then [] else [Apply(b, ds[0]) !in seen] + UnseenOf(b, seen, ds[1..])
  }

  /** For each action of ds, its cost plus the heuristic of the board it leads to from b. */
  function ScoresOf(mc: MoveCosts, goal: Board, b: Board, ds: seq<Dir>): (score: seq<nat>)
    requires HasBlank(b)
    ensures |score| == |ds|
  {
    if ds == [] then [] else [Total(mc, goal, b, ds[0])] + ScoresOf(mc, goal, b, ds[1..])
  }

  lemma {:induction false} UnseenAt(b: Board, seen: set<Board>, ds: seq<Dir>, j: nat)
    requires HasBlank(b) && j < |ds|
    ensures UnseenOf(b, seen, ds)[j] == (Apply(b, ds[j]) !in seen)
    decreases j
  {
    if j > 0 {
      UnseenAt(b, seen, ds[1..], j - 1);
    }
  }

  lemma {:induction false} ScoreAt(mc: MoveCosts, goal: Board, b: Board, ds: seq<Dir>, j: nat)
    requires HasBlank(b) && j < |ds|
    ensures ScoresOf(mc, goal, b, ds)[j] == Total(mc, goal, b, ds[j])
    decreases j
  {
    if j > 0 {
      ScoreAt(mc, goal, b, ds[1..], j - 1);
    }
  }

  /** For each action of b, whether it leads to a board not in seen. */
  function Unseen(b: Board, seen: set<Board>): (ok: seq<bool>)
    requires HasBlank(b)
    ensures |ok| == |Actions(b)|
  {
    UnseenOf(b, seen, Actions(b))
  }

  /** For each action of b, its cost plus the heuristic of the board it leads to. */
  function Scores(mc: MoveCosts, goal: Board, b: Board): (score: seq<nat>)
    requires HasBlank(b)
    ensures |score| == |Actions(b)|
  {
    ScoresOf(mc, goal, b, Actions(b))
  }

  /** Every action of b leads to a board already seen. */
  predicate Stuck(b: Board, seen: set<Board>)
    requires HasBlank(b)
  {
    forall j :: 0 <= j < |Actions(b)| ==> !Unseen(b, seen)[j]
  }

  /** Every neighbour of b has been seen. */
  predicate Enclosed(b: Board, seen: set<Board>)
    requires HasBlank(b)
  {
    forall m :: m in Neighbors(b) ==> m in seen
  }

  /**
   * Entry k is allowed, no allowed entry scores less, and every earlier
   * allowed entry scores more: what a scan with a strict `<` keeps.
   */
  predicate FirstMin(ok: seq<bool>, score: seq<nat>, k: nat)
    requires |ok| == |score|
  {
    k < |ok| && ok[k] &&
    (forall j :: 0 <= j < |ok| && ok[j] ==> score[k] <= score[j]) &&
    (forall j :: 0 <= j < k && ok[j] ==> score[j] > score[k])
  }

  /** Action number k of b is the first action to an unseen board of least score. */
  predicate FirstBest(mc: MoveCosts, goal: Board, b: Board, seen: set<Board>, k: nat)
    requires HasBlank(b)
  {
    FirstMin(Unseen(b, seen), Scores(mc, goal, b), k)
  }

  /**
   * One round of the inner loop of belief_state_search: whether action
   * number i of actions leads from current to an unvisited board, and if
   * so its cost plus the heuristic of that board.
   */
  method Consider(mc: MoveCosts, goal: Board, current: Board, visited: set<Board>, actions: seq<Dir>, i: nat)
    returns (isNew: bool, totalCost: nat)
    requires HasBlank(current) && i < |actions|
    ensures isNew == UnseenOf(current, visited, actions)[i]
    ensures isNew ==> totalCost == ScoresOf(mc, goal, current, actions)[i]
  {
    var action := actions[i];
    var nextState := Apply(current, action);
    UnseenAt(current, visited, actions, i);
    isNew, totalCost := nextState !in visited, 0;
    if isNew {
      var actionCost := CostOr1(mc, action);
      var hCost := Heuristic(nextState, goal);
      totalCost := actionCost + hCost;
      ScoreAt(mc, goal, current, actions, i);
    }
  }

  /**
   * After a scan of the first i entries: best is the first allowed entry of
   * least score among them, holding score bestCost, or none if none of
   * them is allowed.
   */
  predicate ScannedTo(ok: seq<bool>, score: seq<nat>, i: nat, best: Option<nat>, bestCost: int)
  {
    i <= |ok| == |score| &&
    (best.None? <==> forall j :: 0 <= j < i ==> !ok[j]) &&
    (best.Some? ==> best.value < i && ok[best.value] && bestCost == score[best.value]) &&
    (best.Some? ==> forall j :: 0 <= j < i && ok[j] ==> bestCost <= score[j]) &&
    (best.Some? ==> forall j :: 0 <= j < best.value && ok[j] ==> score[j] > bestCost)
  }

  /** One round of the scan keeps entry i when it is allowed and scores strictly less. */
  lemma {:induction false} ScanStep(ok: seq<bool>, score: seq<nat>, i: nat, best: Option<nat>, bestCost: int)
    requires ScannedTo(ok, score, i, best, bestCost) && i < |ok|
    ensures ok[i] && (best.None? || score[i] < bestCost) ==> ScannedTo(ok, score, i + 1, Some(i), score[i])
    ensures !(ok[i] && (best.None? || score[i] < bestCost)) ==> ScannedTo(ok, score, i + 1, best, bestCost)
  {
  }

  /**
   * What the scan finds: none exactly when no entry is allowed, otherwise
   * the first allowed entry of least score.
   */
  predicate ScanResult(ok: seq<bool>, score: seq<nat>, best: Option<nat>)
    requires |ok| == |score|
  {
    (best.None? <==> forall j :: 0 <= j < |ok| ==> !ok[j]) &&
    (best.Some? ==> FirstMin(ok, score, best.value))
  }

  lemma {:induction false} ScanDone(ok: seq<bool>, score: seq<nat>, best: Option<nat>, bestCost: int)
    requires ScannedTo(ok, score, |ok|, best, bestCost)
    ensures ScanResult(ok, score, best)
  {
  }

  /**
   * The inner loop of belief_state_search over the actions of current:
   * skips the actions whose result is visited and keeps the first action
   * of least cost plus heuristic; none when every action leads to a
   * visited board.
   */
  method BestAction(mc: MoveCosts, goal: Board, current: Board, actions: seq<Dir>, visited: set<Board>)
    returns (best: Option<nat>)
    requires HasBlank(current)
    ensures ScanResult(UnseenOf(current, visited, actions), ScoresOf(mc, goal, current, actions), best)
  {
    ghost var ok, score := UnseenOf(current, visited, actions), ScoresOf(mc, goal, current, actions);
    best := None;
    var bestCost := 0;
    for i := 0 to |actions|
      invariant ScannedTo(ok, score, i, best, bestCost)
    {
      var isNew, totalCost := Consider(mc, goal, current, visited, actions, i);
      ScanStep(ok, score, i, best, bestCost);
      if isNew && (best.None? || totalCost < bestCost) {
        best := Some(i);
        bestCost := totalCost;
      }
    }
    ScanDone(ok, score, best, bestCost);
  }

  /** The cost belief_state_search charges for a move to a random unvisited neighbour. */
  function FallbackCost(mc: MoveCosts, b: Board, n: Board): nat
    requires HasBlank(b) && HasBlank(n)
  {
    var d := MoveDirection(b, n);
    if d.Some? then CostOr1(mc, d.value) else 1
  }

  /** The best scoring action k from the last board of before leads to n, at the action's cost d. */
  ghost predicate BestMove(mc: MoveCosts, goal: Board, before: seq<Board>, n: Board, d: nat)
    requires |before| >= 1 && HasBlank(Last(before))
  {
    var b := Last(before);
    exists k: nat :: FirstBest(mc, goal, b, PathSet(before), k) && n == Apply(b, Actions(b)[k]) && d == CostOr1(mc, Actions(b)[k])
  }

  /** No action leads to an unseen board, and n is an unseen neighbour reached at the cost of its direction. */
  ghost predicate FallbackMove(mc: MoveCosts, before: seq<Board>, n: Board, d: nat)
    requires |before| >= 1 && HasBlank(Last(before))
  {
    var b := Last(before);
    Stuck(b, PathSet(before)) && n in Neighbors(b) && n !in PathSet(before) && HasBlank(n) && d == FallbackCost(mc, b, n)
  }

  /** No action and no neighbour leads to an unseen board, and n is the board before the last, at cost 1. */
  ghost predicate BackMove(before: seq<Board>, n: Board, d: nat)
    requires |before| >= 1 && HasBlank(Last(before))
  {
    var b := Last(before);
    Stuck(b, PathSet(before)) && Enclosed(b, PathSet(before)) && |before| >= 2 && n == before[|before| - 2] && d == 1
  }

  /**
   * One iteration of belief_state_search from the last board of before
   * (which has seen the boards of before) to n, adding d to the cost.
   */
  ghost predicate BeliefStep(mc: MoveCosts, goal: Board, before: seq<Board>, n: Board, d: nat)
    requires |before| >= 1 && HasBlank(Last(before))
  {
    BestMove(mc, goal, before, n, d) || FallbackMove(mc, before, n, d) || BackMove(before, n, d)
  }

  /** Step i of path, with its costs, is an iteration of belief_state_search. */
  ghost predicate StepAt(mc: MoveCosts, goal: Board, path: seq<Board>, costs: seq<nat>, i: nat)
    requires i < |path| - 1 && |costs| == |path| && AllBlanked(path)
  {
    costs[i] <= costs[i + 1] && BeliefStep(mc, goal, path[..i + 1], path[i + 1], costs[i + 1] - costs[i])
  }

  /** Every step of path, with its costs, is an iteration of belief_state_search. */
  ghost predicate BeliefSteps(mc: MoveCosts, goal: Board, path: seq<Board>, costs: seq<nat>)
  {
    |path| >= 1 && |costs| == |path| && costs[0] == 0 && AllBlanked(path) &&
    forall i: nat :: i < |path| - 1 ==> StepAt(mc, goal, path, costs, i)
  }

  lemma {:induction false} StepOf(mc: MoveCosts, goal: Board, path: seq<Board>, costs: seq<nat>, i: nat)
    requires BeliefSteps(mc, goal, path, costs) && i < |path| - 1
    ensures StepAt(mc, goal, path, costs, i)
  {
  }

  lemma {:induction false} StepAtSnoc(mc: MoveCosts, goal: Board, path: seq<Board>, costs: seq<nat>, n: Board, c: nat, i: nat)
    requires i < |path| - 1 && |costs| == |path| && AllBlanked(path) && AllBlanked(path + [n])
    requires StepAt(mc, goal, path, costs, i)
    ensures StepAt(mc, goal, path + [n], costs + [c], i)
  {
    assert (path + [n])[..i + 1] == path[..i + 1];
  }

  lemma {:induction false} BeliefStepsSnoc(mc: MoveCosts, goal: Board, path: seq<Board>, costs: seq<nat>, n: Board, d: nat, c: nat)
    requires BeliefSteps(mc, goal, path, costs) && HasBlank(n) && BeliefStep(mc, goal, path, n, d) && c == Last(costs) + d
    ensures BeliefSteps(mc, goal, path + [n], costs + [c])
  {
    var path', costs' := path + [n], costs + [c];
    AllBlankedSnoc(path, n);
    forall i: nat | i < |path'| - 1 ensures StepAt(mc, goal, path', costs', i) {
      if i < |path| - 1 {
        StepAtSnoc(mc, goal, path, costs, n, c, i);
      } else {
        assert path'[..i + 1] == path && path'[i + 1] == n && costs'[i] == Last(costs) && costs'[i + 1] - costs'[i] == d;
      }
    }
  }

  /**
   * The choice of one iteration of belief_state_search from the last board
   * of path, having visited the boards of path: the next board and the
   * cost added, or stop when the path is the start alone and it has
   * nowhere to go.
   */
  method BeliefChoice(mc: MoveCosts, goal: Board, path: seq<Board>, visited: set<Board>)
    returns (stop: bool, back: bool, next: Board, stepCost: nat)
    requires |path| >= 1 && AllBlanked(path) && visited == PathSet(path)
    ensures stop <==> |path| == 1 && Stuck(Last(path), visited) && Enclosed(Last(path), visited)
    ensures !stop ==> HasBlank(next) && BeliefStep(mc, goal, path, next, stepCost)
    ensures !stop ==> (back <==> next in visited)
  {
    var current := Last(path);
    var best := BestAction(mc, goal, current, Actions(current), visited);
    stop, back := false, false;
    if best.Some? {
      var action := Actions(current)[best.value];
      next := Apply(current, action);
      stepCost := CostOr1(mc, action);
      assert FirstBest(mc, goal, current, visited, best.value);
      assert BestMove(mc, goal, path, next, stepCost);
      UnseenAt(current, visited, Actions(current), best.value);
      assert !Stuck(current, visited);
      return;
    }
    assert Stuck(current, visited);
    var neighbors := Neighbors(current);
    var unvisited := set m | m in neighbors && m !in visited;
    assert forall m :: m in neighbors && m !in visited ==> m in unvisited;
    if unvisited == {} {
      assert Enclosed(current, visited);
      if |path| > 1 {
        next, stepCost, back := path[|path| - 2], 1, true;
        assert BackMove(path, next, stepCost);
      } else {
        stop, next, stepCost := true, current, 0;
      }
      return;
    }
    next :| next in unvisited;
    NeighborsKeepTiles(current);
    stepCost := FallbackCost(mc, current, next);
    assert FallbackMove(mc, path, next, stepCost);
    assert !Enclosed(current, visited);
  }

  /** A path whose boards are not the goal, extended, has no goal board before its new last one. */
  lemma {:induction false} AvoidsSnoc(path: seq<Board>, n: Board, goal: Board)
    requires |path| >= 1 && Last(path) != goal && forall i :: 0 <= i < |path| - 1 ==> path[i] != goal
    ensures (path + [n])[0] == path[0] && forall i :: 0 <= i < |path + [n]| - 1 ==> (path + [n])[i] != goal
  {
  }

  /**
   * belief_state_search: from start, repeatedly takes the best scoring
   * action to an unvisited board, else a random unvisited neighbour, else
   * steps back, until the board equals the goal, max_steps iterations are
   * done, or the start board has nowhere to go. The log holds every prefix
   * of the path with its cost.
   */
  method BeliefStateSearch(mc: MoveCosts, start: Board, goal: Board, maxSteps: int)
    returns (path: seq<Board>, costs: seq<nat>, log: seq<Entry>)
    requires HasBlank(start)
    ensures BeliefSteps(mc, goal, path, costs) && path[0] == start
    ensures log == PrefixLog(path, costs)
    ensures forall i :: 0 <= i < |path| - 1 ==> path[i] != goal
    ensures |path| - 1 <= Max(maxSteps, 0)
    ensures Last(path) == goal || |path| - 1 == Max(maxSteps, 0) ||
            (|path| == 1 && Stuck(start, {start}) && Enclosed(start, {start}))
  {
    var current := start;
    path, costs := [current], [0];
    var visited := {current};
    log := [Entry(path, 0)];
    assert path[..1] == path;
    for step := 0 to Max(maxSteps, 0)
      invariant BeliefSteps(mc, goal, path, costs)
      invariant path[0] == start && current == Last(path)
      invariant visited == PathSet(path)
      invariant log == PrefixLog(path, costs)
      invariant forall i :: 0 <= i < |path| - 1 ==> path[i] != goal
      invariant |path| - 1 == step
    {
      if current == goal {
        return;
      }
      var stop, back, next, stepCost := BeliefChoice(mc, goal, path, visited);
      if stop {
        assert visited == {start};
        break;
      }
      var newCost := Last(costs) + stepCost;
      BeliefStepsSnoc(mc, goal, path, costs, next, stepCost, newCost);
      PrefixLogSnoc(path, costs, next, newCost);
      PathSetSnoc(path, next);
      AvoidsSnoc(path, next, goal);
      current := next;
      path := path + [current];
      costs := costs + [newCost];
      if !back {
        visited := visited + {current};
      }
      log := log + [Entry(path, Last(costs))];
    }
  }

  /**
   * On boards with a single blank every iteration of belief_state_search
   * moves the blank once: to an unseen board at the step cost
   * calculate_costs charges, or back to the board before at cost 1.
   */
  lemma {:induction false} BeliefStepMoves(mc: MoveCosts, goal: Board, before: seq<Board>, n: Board, d: nat)
    requires Complete(mc) && |before| >= 1 && UniqueBlank(Last(before)) && HasBlank(Last(before))
    requires |before| >= 2 ==> UniqueBlank(before[|before| - 2]) && Last(before) in Neighbors(before[|before| - 2])
    requires BeliefStep(mc, goal, before, n, d)
    ensures n in Neighbors(Last(before)) && UniqueBlank(n)
    ensures n !in PathSet(before) ==> HasBlank(n) && d == StepCost(mc, Last(before), n)
    ensures n in PathSet(before) ==> |before| >= 2 && n == before[|before| - 2] && d == 1
  {
    var b := Last(before);
    if BestMove(mc, goal, before, n, d) {
      var k: nat :| FirstBest(mc, goal, b, PathSet(before), k) && n == Apply(b, Actions(b)[k]) && d == CostOr1(mc, Actions(b)[k]);
      UnseenAt(b, PathSet(before), Actions(b), k);
      ActionStep(mc, b, Actions(b)[k]);
    } else if FallbackMove(mc, before, n, d) {
      NeighborsSymmetric(b, n);
    } else {
      var p := before[|before| - 2];
      NeighborsSymmetric(p, b);
      assert n in before;
    }
  }

  /**
   * Step i of a path, between boards with a single blank, is a legal move
   * charged as calculate_costs charges it, or a step back at cost 1.
   */
  ghost predicate StepCharged(mc: MoveCosts, path: seq<Board>, costs: seq<nat>, i: nat)
    requires Complete(mc) && AllBlanked(path) && |costs| == |path| && i < |path| - 1
  {
    (path[i + 1] !in PathSet(path[..i + 1]) ==> costs[i + 1] == costs[i] + StepCost(mc, path[i], path[i + 1])) &&
    (path[i + 1] in PathSet(path[..i + 1]) ==> i >= 1 && path[i + 1] == path[i - 1] && costs[i + 1] == costs[i] + 1)
  }

  lemma {:induction false} StepMovesAt(mc: MoveCosts, goal: Board, path: seq<Board>, costs: seq<nat>, i: nat)
    requires Complete(mc) && AllBlanked(path) && |costs| == |path| && i < |path| - 1
    requires StepAt(mc, goal, path, costs, i) && UniqueBlank(path[i])
    requires i >= 1 ==> UniqueBlank(path[i - 1]) && path[i] in Neighbors(path[i - 1])
    ensures path[i + 1] in Neighbors(path[i]) && UniqueBlank(path[i + 1])
    ensures StepCharged(mc, path, costs, i)
  {
    var before := path[..i + 1];
    assert Last(before) == path[i] && (i >= 1 ==> before[i - 1] == path[i - 1]);
    BeliefStepMoves(mc, goal, before, path[i + 1], costs[i + 1] - costs[i]);
  }

  /**
   * Step i of a path keeps a single blank and moves to a neighbour,
   * provided the boards before it have a single blank and the step before
   * it was a move.
   */
  ghost predicate MovesOn(path: seq<Board>, i: nat)
    requires i < |path| - 1
  {
    ReachedBy(path, i) ==> ReachedBy(path, i + 1)
  }

  /** Board i of path has a single blank and, after the first, is reached by a move from one that has one too. */
  ghost predicate ReachedBy(path: seq<Board>, i: nat)
    requires i < |path|
  {
    UniqueBlank(path[i]) && (i >= 1 ==> UniqueBlank(path[i - 1]) && path[i] in Neighbors(path[i - 1]))
  }

  lemma {:induction false} StepsMove(mc: MoveCosts, goal: Board, path: seq<Board>, costs: seq<nat>)
    requires Complete(mc) && BeliefSteps(mc, goal, path, costs)
    ensures forall i: nat :: i < |path| - 1 ==> MovesOn(path, i)
  {
    forall i: nat | i < |path| - 1 ensures MovesOn(path, i) {
      StepOf(mc, goal, path, costs, i);
      if ReachedBy(path, i) {
        StepMovesAt(mc, goal, path, costs, i);
      }
    }
  }

  /** Moves from a board with one blank reach boards with one blank, each a neighbour of the one before. */
  lemma {:induction false} MovesAt(path: seq<Board>, i: nat)
    requires i < |path| && AllBlanked(path) && UniqueBlank(path[0])
    requires forall j: nat :: j < |path| - 1 ==> MovesOn(path, j)
    ensures ReachedBy(path, i)
    decreases i
  {
    if i >= 1 {
      MovesAt(path, i - 1);
      assert MovesOn(path, i - 1);
    }
  }

  /** From a board with a single blank, the path of belief_state_search is a walk of legal moves. */
  lemma {:induction false} BeliefWalk(mc: MoveCosts, goal: Board, path: seq<Board>, costs: seq<nat>)
    requires Complete(mc) && BeliefSteps(mc, goal, path, costs) && UniqueBlank(path[0])
    ensures IsWalk(path)
    ensures forall i :: 0 <= i < |path| ==> UniqueBlank(path[i])
  {
    StepsMove(mc, goal, path, costs);
    forall i | 0 <= i < |path| ensures UniqueBlank(path[i]) && (i >= 1 ==> path[i] in Neighbors(path[i - 1])) {
      MovesAt(path, i);
    }
  }

  /**
   * From a board with a single blank, each step of belief_state_search to
   * an unseen board costs what calculate_costs charges for it, and every
   * other step goes back to the board before at cost 1.
   */
  lemma {:induction false} BeliefCosts(mc: MoveCosts, goal: Board, path: seq<Board>, costs: seq<nat>)
    requires Complete(mc) && BeliefSteps(mc, goal, path, costs) && UniqueBlank(path[0])
    ensures forall i: nat :: i < |path| - 1 ==> StepCharged(mc, path, costs, i)
  {
    BeliefWalk(mc, goal, path, costs);
    forall i: nat | i < |path| - 1 ensures StepCharged(mc, path, costs, i) {
      StepOf(mc, goal, path, costs, i);
      StepMovesAt(mc, goal, path, costs, i);
    }
  }
}
