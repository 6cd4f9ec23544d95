/**
 * algorithms/complex.py: the AND-OR graph search with a depth bound over
 * the transition model of utils.py, the search in belief space without
 * observations, and the partially observable search that builds its initial
 * belief from the visible cells of a board.
 */
module Complex {
  import opened Wrappers
  import opened Utils
  import opened Space
  import opened Search

  // ---------------------------------------------------------------------
  // The transition model (algorithms/complex.py:8-27)

  /** `get_possible_actions`: the directions up, down, left, right in which the blank stays on the grid. */
  function PossibleActions(b: Board): (r: seq<Dir>)
    requires HasBlank(b)
    ensures forall d :: d in r <==> Move(b, d).Some?
    ensures |r| <= 4
  {
    EveryDir();
    LegalAt(BlankIndex(b), Dirs)
  }

  /** The first of the boards ns the blank reached from b by a move in direction a, or b itself if none. */
  function FirstInDirection(b: Board, ns: seq<Board>, a: Dir): (r: Board)
    requires HasBlank(b) && forall n :: n in ns ==> HasBlank(n)
    ensures HasBlank(r)
    ensures (r in ns && MoveDirection(b, r) == Some(a)) || (r == b && forall n :: n in ns ==> MoveDirection(b, n) != Some(a))
  {
    if ns == [] then b
    else if MoveDirection(b, ns[0]) == Some(a) then ns[0]
    else FirstInDirection(b, ns[1..], a)
  }

  /** `result`: the neighbour whose blank moved in direction a, or the board unchanged. */
  function Result(b: Board, a: Dir): (r: Board)
    requires HasBlank(b)
    ensures HasBlank(r)
  {
    NeighborsKeepTiles(b);
    FirstInDirection(b, Neighbors(b), a)
  }

  /**
   * On a board with one blank, `result` is the move of utils.py when it is
   * legal and the board itself otherwise.
   */
  lemma {:induction false} ResultIsMove(b: Board, a: Dir)
    requires UniqueBlank(b)
    ensures Result(b, a) == if Move(b, a).Some? then Move(b, a).value else b
  {
    NeighborsKeepTiles(b);
    var r := Result(b, a);
    if r in Neighbors(b) && MoveDirection(b, r) == Some(a) {
      NeighborsExactly(b, r);
      var d :| Move(b, d) == Some(r);
      MoveDirectionOfMove(b, d);
    } else if Move(b, a).Some? {
      var n := Move(b, a).value;
      NeighborsExactly(b, n);
      MoveDirectionOfMove(b, a);
    }
  }

  // ---------------------------------------------------------------------
  // or_search and and_search (algorithms/complex.py:38-63)

  /** The levels left before the depth bound: the search's termination measure. */
  function Levels(depth: nat, maxDepth: int): nat
  {
    if depth > maxDepth then 0 else maxDepth - depth + 1
  }

  /**
   * `or_search`: failure beyond the depth bound; then the empty plan at the
   * goal; failure on a board already on the current path; otherwise the
   * first action whose and-search one level deeper succeeds.
   */
  function OrSearch(goal: Board, s: Board, path: set<Board>, depth: nat, maxDepth: int): (r: Plan)
    requires HasBlank(s)
    ensures depth > maxDepth ==> r.Failure?
    ensures depth <= maxDepth ==> (r.Done? <==> s == goal)
    ensures s != goal && s in path ==> r.Failure?
    ensures r.Failure? || r.Done? || r.Act?
    decreases Levels(depth, maxDepth), 1, 0
  {
    if depth > maxDepth then Failure
    else if s == goal then Done
    else if s in path then Failure
    else TryActions(goal, s, path + {s}, depth, maxDepth, PossibleActions(s))
  }

  /** The loop of `or_search` over the actions `acts`. */
  function TryActions(goal: Board, s: Board, path: set<Board>, depth: nat, maxDepth: int, acts: seq<Dir>): (r: Plan)
    requires HasBlank(s) && depth <= maxDepth
    ensures r.Failure? || r.Act?
    ensures r.Act? ==> r.action in acts && r.next == AndSearch(goal, [Result(s, r.action)], path, depth + 1, maxDepth)
    ensures r.Act? ==> !r.next.Failure?
    ensures r.Failure? ==> forall a :: a in acts ==> AndSearch(goal, [Result(s, a)], path, depth + 1, maxDepth).Failure?
    decreases Levels(depth, maxDepth), 0, |acts|
  {
    if acts == [] then Failure
    else
      var plan := AndSearch(goal, [Result(s, acts[0])], path, depth + 1, maxDepth);
      if plan != Failure then Act(acts[0], plan)
      else TryActions(goal, s, path, depth, maxDepth, acts[1..])
  }

  /**
   * `and_search`: the loop over the boards, one level deeper, starting from
   * an empty dictionary (AndSearchFacts).
   */
  function AndSearch(goal: Board, states: seq<Board>, path: set<Board>, depth: nat, maxDepth: int): (r: Plan)
    requires AllBlanked(states)
    ensures r.Failure? || r.Branches?
    decreases Levels(depth, maxDepth), 2, |states| + 2
  {
    AndLoop(goal, states, path, depth, maxDepth, map[])
  }

  /**
   * The loop of `and_search`, with the plans of the boards before `states`
   * in `plans`: failure as soon as one board's or-search fails, otherwise
   * the dictionary once every board has its plan (AndLoopFails, AndLoopPlans).
   */
  function AndLoop(goal: Board, states: seq<Board>, path: set<Board>, depth: nat, maxDepth: int, plans: map<Board, Plan>): (r: Plan)
    requires AllBlanked(states)
    ensures r.Failure? || r.Branches?
    decreases Levels(depth, maxDepth), 2, |states| + 1
  {
    if states == [] then Branches(plans)
    else
      var plan := OrSearch(goal, states[0], path, depth + 1, maxDepth);
      if plan.Failure? then Failure
      else
        BlankedTail(states);
        AndLoop(goal, states[1..], path, depth, maxDepth, plans[states[0] := plan])
  }

  lemma {:induction false} BlankedTail(states: seq<Board>)
    requires AllBlanked(states) && states != []
    ensures AllBlanked(states[1..])
  {
    forall i | 0 <= i < |states| - 1 ensures HasBlank(states[1..][i]) {
      assert states[1..][i] == states[i + 1];
    }
  }

  /** The loop of `and_search` fails exactly when the or-search of one of its boards fails. */
  lemma {:induction false} AndLoopFails(goal: Board, states: seq<Board>, path: set<Board>, depth: nat, maxDepth: int, plans: map<Board, Plan>)
    requires AllBlanked(states)
    ensures AndLoop(goal, states, path, depth, maxDepth, plans).Failure? <==>
      exists i :: 0 <= i < |states| && OrSearch(goal, states[i], path, depth + 1, maxDepth).Failure?
    decreases |states|
  {
    if states != [] {
      var plan := OrSearch(goal, states[0], path, depth + 1, maxDepth);
      if !plan.Failure? {
        BlankedTail(states);
        var tail := states[1..];
        AndLoopFails(goal, tail, path, depth, maxDepth, plans[states[0] := plan]);
        if exists i :: 0 <= i < |states| && OrSearch(goal, states[i], path, depth + 1, maxDepth).Failure? {
          var i :| 0 <= i < |states| && OrSearch(goal, states[i], path, depth + 1, maxDepth).Failure?;
          assert i > 0 && tail[i - 1] == states[i];
        }
        if exists i :: 0 <= i < |tail| && OrSearch(goal, tail[i], path, depth + 1, maxDepth).Failure? {
          var i :| 0 <= i < |tail| && OrSearch(goal, tail[i], path, depth + 1, maxDepth).Failure?;
          assert tail[i] == states[i + 1];
        }
      }
    }
  }

  /**
   * When the loop of `and_search` succeeds it returns a dictionary holding
   * each board's or-search plan, and keeping every earlier entry for a
   * board it does not visit.
   */
  lemma {:induction false} AndLoopPlans(goal: Board, states: seq<Board>, path: set<Board>, depth: nat, maxDepth: int, plans: map<Board, Plan>)
    requires AllBlanked(states) && !AndLoop(goal, states, path, depth, maxDepth, plans).Failure?
    ensures var r := AndLoop(goal, states, path, depth, maxDepth, plans);
      r.Branches? && (forall i :: 0 <= i < |states| ==> states[i] in r.plans && r.plans[states[i]] == OrSearch(goal, states[i], path, depth + 1, maxDepth))
      && forall t :: t in plans && t !in states ==> t in r.plans && r.plans[t] == plans[t]
    decreases |states|
  {
    if states != [] {
      var plan := OrSearch(goal, states[0], path, depth + 1, maxDepth);
      BlankedTail(states);
      var tail := states[1..];
      var plans' := plans[states[0] := plan];
      AndLoopPlans(goal, tail, path, depth, maxDepth, plans');
      var r := AndLoop(goal, states, path, depth, maxDepth, plans);
      assert r == AndLoop(goal, tail, path, depth, maxDepth, plans');
      forall i | 1 <= i < |states| ensures states[i] in r.plans && r.plans[states[i]] == OrSearch(goal, states[i], path, depth + 1, maxDepth) {
        assert states[i] == tail[i - 1];
      }
      if states[0] in tail {
        var k :| 0 <= k < |tail| && tail[k] == states[0];
      }
    }
  }

  /**
   * `and_search` fails exactly when the or-search of some board, one level
   * deeper, fails; otherwise it returns a dictionary with each board's plan.
   */
  lemma {:induction false} AndSearchFacts(goal: Board, states: seq<Board>, path: set<Board>, depth: nat, maxDepth: int)
    requires AllBlanked(states)
    ensures AndSearch(goal, states, path, depth, maxDepth).Failure? <==>
      exists i :: 0 <= i < |states| && OrSearch(goal, states[i], path, depth + 1, maxDepth).Failure?
    ensures var r := AndSearch(goal, states, path, depth, maxDepth);
      !r.Failure? ==>
        r.Branches? && forall i :: 0 <= i < |states| ==> states[i] in r.plans && r.plans[states[i]] == OrSearch(goal, states[i], path, depth + 1, maxDepth)
  {
    AndLoopFails(goal, states, path, depth, maxDepth, map[]);
    if !AndLoop(goal, states, path, depth, maxDepth, map[]).Failure? {
      AndLoopPlans(goal, states, path, depth, maxDepth, map[]);
    }
  }

  // ---------------------------------------------------------------------
  // extract_path and and_or_graph_search (algorithms/complex.py:29-36, 65-74)

  /**
   * `extract_path`: the start, then for an or-step whose dictionary has an
   * entry for the board its action leads to, that board's own path; the
   * start alone otherwise.
   */
  function ExtractPath(solution: Plan, start: Board): (path: seq<Board>)
    requires HasBlank(start)
    ensures |path| >= 1 && path[0] == start
  {
    match solution
    case Act(a, Branches(m)) =>
      var next := Result(start, a);
      if next in m then [start] + ExtractPath(m[next], next) else [start]
    case _ => [start]
  }

  /** c is the board `result` gives on b for one of b's possible actions. */
  ghost predicate Reaches(b: Board, c: Board)
  {
    HasBlank(b) && exists a :: a in PossibleActions(b) && c == Result(b, a)
  }

  /** Each board of the path is `result` of the one before under one of its possible actions. */
  ghost predicate Follows(path: seq<Board>)
  {
    AllBlanked(path) && forall i :: 0 <= i < |path| - 1 ==> Reaches(path[i], path[i + 1])
  }

  lemma {:induction false} FollowsCons(s: Board, a: Dir, w: seq<Board>)
    requires HasBlank(s) && a in PossibleActions(s) && Follows(w) && |w| >= 1 && w[0] == Result(s, a)
    ensures Follows([s] + w)
  {
    var v := [s] + w;
    forall i | 0 <= i < |v| - 1
      ensures Reaches(v[i], v[i + 1])
    {
      if i > 0 {
        assert v[i] == w[i - 1] && v[i + 1] == w[i];
      } else {
        assert v[0] == s && v[1] == Result(s, a);
      }
    }
    assert forall i :: 0 <= i < |v| ==> HasBlank(v[i]) by {
      forall i | 0 <= i < |v| ensures HasBlank(v[i]) {
        if i > 0 { assert v[i] == w[i - 1]; }
      }
    }
  }

  /** A sound plan from a result of s, with s put in front: the facts OrSearchSound states, one level up. */
  lemma {:induction false} SoundCons(goal: Board, s: Board, a: Dir, v: seq<Board>, path: set<Board>, depth: nat, maxDepth: int)
    requires HasBlank(s) && s != goal && s !in path && a in PossibleActions(s) && |v| >= 1 && v[0] == Result(s, a)
    requires Last(v) == goal && Follows(v) && Distinct(v) && depth + 2 + 2 * (|v| - 1) <= maxDepth
    requires forall i :: 0 <= i < |v| - 1 ==> v[i] !in path + {s} && v[i] != goal
    ensures var w := [s] + v;
      Last(w) == goal && Follows(w) && Distinct(w) && depth + 2 * (|w| - 1) <= maxDepth
      && forall i :: 0 <= i < |w| - 1 ==> w[i] !in path && w[i] != goal
  {
    var w := [s] + v;
    FollowsCons(s, a, v);
    forall j | 0 <= j < |w| - 1 ensures w[j] !in path && w[j] != goal {
      if j > 0 { assert w[j] == v[j - 1]; }
    }
    assert s !in v by {
      forall k | 0 <= k < |v| ensures v[k] != s {
        if k < |v| - 1 { assert v[k] !in path + {s}; }
      }
    }
    DistinctCons(s, v);
  }

  /**
   * A plan the or-search finds at `depth` leads to the goal: its extracted
   * path starts at the board, ends at the goal, follows `result` one
   * possible action at a time, never repeats a board, meets no board of the
   * path dictionary before the goal, and is short enough for the depth
   * bound, each or-step taking two levels.
   */
  lemma {:induction false} OrSearchSound(goal: Board, s: Board, path: set<Board>, depth: nat, maxDepth: int)
    requires HasBlank(s)
    requires !OrSearch(goal, s, path, depth, maxDepth).Failure?
    ensures var w := ExtractPath(OrSearch(goal, s, path, depth, maxDepth), s);
      Last(w) == goal && Follows(w) && Distinct(w) && depth + 2 * (|w| - 1) <= maxDepth
      && forall i :: 0 <= i < |w| - 1 ==> w[i] !in path && w[i] != goal
    decreases Levels(depth, maxDepth)
  {
    var r := OrSearch(goal, s, path, depth, maxDepth);
    var w := ExtractPath(r, s);
    if s == goal {
      assert w == [s];
    } else {
      var path' := path + {s};
      var a := r.action;
      var next := Result(s, a);
      assert r == TryActions(goal, s, path', depth, maxDepth, PossibleActions(s));
      assert a in PossibleActions(s) && r.next == AndSearch(goal, [next], path', depth + 1, maxDepth);
      assert [next][0] == next;
      AndSearchFacts(goal, [next], path', depth + 1, maxDepth);
      var q := OrSearch(goal, next, path', depth + 2, maxDepth);
      assert r.next.plans[next] == q && !q.Failure?;
      OrSearchSound(goal, next, path', depth + 2, maxDepth);
      var v := ExtractPath(q, next);
      assert w == [s] + v;
      SoundCons(goal, s, a, v, path, depth, maxDepth);
    }
  }

  /** On a board with one blank, `result` under a possible action is a neighbour with one blank. */
  lemma {:induction false} ReachesNeighbor(b: Board, c: Board)
    requires UniqueBlank(b) && Reaches(b, c)
    ensures c in Neighbors(b) && UniqueBlank(c)
  {
    var a :| a in PossibleActions(b) && c == Result(b, a);
    ResultIsMove(b, a);
    MovedBlank(b, a);
    NeighborsExactly(b, c);
  }

  /** On a board with one blank, a path that follows `result` is a walk of legal moves. */
  lemma {:induction false} FollowsWalk(w: seq<Board>)
    requires Follows(w) && |w| >= 1 && UniqueBlank(w[0])
    ensures IsWalk(w) && forall i :: 0 <= i < |w| ==> UniqueBlank(w[i])
    decreases |w|
  {
    if |w| > 1 {
      var front := w[..|w| - 1];
      assert Follows(front) by {
        forall i | 0 <= i < |front| - 1
          ensures Reaches(front[i], front[i + 1])
        {
          assert front[i] == w[i] && front[i + 1] == w[i + 1];
        }
      }
      FollowsWalk(front);
      var k := |w| - 2;
      assert w[k] == front[k];
      assert Reaches(w[k], w[k + 1]);
      ReachesNeighbor(w[k], w[k + 1]);
      WalkSnoc(front, w[k + 1]);
      SplitLast(w);
      forall i | 0 <= i < |w| ensures UniqueBlank(w[i]) {
        if i < |w| - 1 { assert w[i] == front[i]; }
      }
    }
  }

  /**
   * `and_or_graph_search`: the or-search from the start at depth 0 with an
   * empty path dictionary; on failure (None, None, []), otherwise the
   * extracted path, its calculate_costs list and one log record per prefix.
   */
  function AndOrGraphSearch(mc: MoveCosts, start: Board, goal: Board, maxDepth: int): (r: (Option<seq<Board>>, Option<seq<nat>>, seq<Entry>))
    requires Complete(mc) && HasBlank(start)
    ensures r.0.None? <==> OrSearch(goal, start, {}, 0, maxDepth).Failure?
    ensures r.0.None? ==> r == (None, None, [])
    ensures r.0.Some? ==> r.1.Some? && |r.0.value| >= 1 && r.0.value[0] == start && Last(r.0.value) == goal
    ensures r.0.Some? ==> Follows(r.0.value) && Distinct(r.0.value) && 2 * (|r.0.value| - 1) <= maxDepth
    ensures r.0.Some? && r.1.Some? ==> r.1.value == Costs(mc, r.0.value) && r.2 == PrefixLog(r.0.value, r.1.value)
  {
    var result := OrSearch(goal, start, {}, 0, maxDepth);
    if result.Failure? then (None, None, [])
    else
      OrSearchSound(goal, start, {}, 0, maxDepth);
      var path := ExtractPath(result, start);
      var costs := Costs(mc, path);
      (Some(path), Some(costs), PrefixLog(path, costs))
  }

  // ---------------------------------------------------------------------
  // no_observation_belief_state_search (algorithms/complex.py:76-107)

  /** Every board of the belief holds a blank. */
  predicate Blanked(belief: set<Board>)
  {
    forall s :: s in belief ==> HasBlank(s)
  }

  /** `{result(s, action) for s in belief}`: the belief after the action. */
  function Image(belief: set<Board>, a: Dir): (r: set<Board>)
    requires Blanked(belief)
    ensures Blanked(r)
    ensures forall s :: s in belief ==> Result(s, a) in r
    ensures forall t :: t in r ==> exists s :: s in belief && t == Result(s, a)
  {
    set s | s in belief :: Result(s, a)
  }

  /** The belief after an action is never larger than the belief before it. */
  lemma {:induction false} ImageSize(belief: set<Board>, a: Dir)
    requires Blanked(belief)
    ensures |Image(belief, a)| <= |belief|
    ensures belief != {} ==> Image(belief, a) != {}
    decreases |belief|
  {
    if belief != {} {
      var x :| x in belief;
      var rest := belief - {x};
      ImageSize(rest, a);
      ImageSplit(belief, x, a);
      RemoveOne(belief, x);
      var before := Image(rest, a);
      assert |before + {Result(x, a)}| <= |before| + 1;
      assert Result(x, a) in Image(belief, a);
    }
  }

  lemma {:induction false} ImageSplit(belief: set<Board>, x: Board, a: Dir)
    requires Blanked(belief) && x in belief
    ensures Image(belief, a) == Image(belief - {x}, a) + {Result(x, a)}
  {
    var rest := belief - {x};
    ImageCover(belief, x, a, rest);
    ImageMono(rest, belief, a);
  }

  /** Every result from the belief is the result of `x` or of another board. */
  lemma ImageCover(belief: set<Board>, x: Board, a: Dir, rest: set<Board>)
    requires Blanked(belief) && x in belief && rest == belief - {x}
    ensures Image(belief, a) <= Image(rest, a) + {Result(x, a)}
  {
    forall t | t in Image(belief, a) ensures t in Image(rest, a) + {Result(x, a)} {
      var s :| s in belief && t == Result(s, a);
      if s != x {
        InRest(belief, x, s, rest);
      }
    }
  }

  lemma InRest(belief: set<Board>, x: Board, s: Board, rest: set<Board>)
    requires s in belief && s != x && rest == belief - {x}
    ensures s in rest
  {
  }

  /** A smaller belief has a smaller image. */
  lemma ImageMono(small: set<Board>, belief: set<Board>, a: Dir)
    requires Blanked(belief) && small <= belief
    ensures Blanked(small) && Image(small, a) <= Image(belief, a)
  {
  }

  /** The intersection of the possible actions of the boards of the belief. */
  function CommonActions(belief: set<Board>): (r: set<Dir>)
    requires Blanked(belief)
    ensures forall d :: d in r <==> forall s :: s in belief ==> d in PossibleActions(s)
    ensures |r| <= 4
  {
    EveryDir();
    var r := set d | d in Dirs && forall s :: s in belief ==> d in PossibleActions(s);
    DirSetSize(r);
    r
  }

  /** A set of directions has at most four members. */
  lemma {:induction false} DirSetSize(r: set<Dir>)
    ensures |r| <= 4
  {
    forall d | d in r ensures d in {Up, Down, Left, Right} {
      match d
      case Up =>
      case Down =>
      case Left =>
      case Right =>
    }
    SubsetCard(r, {Up, Down, Left, Right});
  }

  /** The belief after a sequence of actions. */
  function BeliefAfter(initial: set<Board>, acts: seq<Dir>): (r: set<Board>)
    requires Blanked(initial)
    ensures Blanked(r)
    decreases |acts|
  {
    if acts == [] then initial
    else Image(BeliefAfter(initial, acts[..|acts| - 1]), acts[|acts| - 1])
  }

  /** The sum of `MOVE_COSTS.get(a, 1)` over the actions. */
  function SumCost(mc: MoveCosts, acts: seq<Dir>): nat
  {
    if acts == [] then 0 else SumCost(mc, acts[..|acts| - 1]) + CostOr1(mc, acts[|acts| - 1])
  }

  /** The path of `result` from rep under the actions, one board per action after rep. */
  function Replay(rep: Board, acts: seq<Dir>): (r: seq<Board>)
    requires HasBlank(rep)
    ensures |r| == |acts| + 1 && r[0] == rep && AllBlanked(r)
    decreases |acts|
  {
    if acts == [] then [rep]
    else
      var p := Replay(rep, acts[..|acts| - 1]);
      var n := Result(Last(p), acts[|acts| - 1]);
      AllBlankedSnoc(p, n);
      p + [n]
  }

  /** Every action of acts is possible on every board the belief can hold when it is taken. */
  ghost predicate Common(initial: set<Board>, acts: seq<Dir>)
    requires Blanked(initial)
  {
    forall i :: 0 <= i < |acts| ==> acts[i] in CommonActions(BeliefAfter(initial, acts[..i]))
  }

  /**
   * The path replayed from a member of the initial belief ends in a member
   * of the belief after the same actions: the belief is the set of boards
   * the puzzle may be in.
   */
  lemma {:induction false} ReplayInBelief(initial: set<Board>, rep: Board, acts: seq<Dir>)
    requires Blanked(initial) && rep in initial
    ensures Last(Replay(rep, acts)) in BeliefAfter(initial, acts)
    decreases |acts|
  {
    if acts != [] {
      ReplayInBelief(initial, rep, acts[..|acts| - 1]);
    }
  }

  /** From a belief of one board, the belief after any actions is the one board of the replayed path's end. */
  lemma {:induction false} ReplaySingleton(rep: Board, acts: seq<Dir>)
    requires HasBlank(rep)
    ensures BeliefAfter({rep}, acts) == {Last(Replay(rep, acts))}
    decreases |acts|
  {
    if acts != [] {
      ReplaySingleton(rep, acts[..|acts| - 1]);
      var before := Last(Replay(rep, acts[..|acts| - 1]));
      assert Image({before}, acts[|acts| - 1]) == {Result(before, acts[|acts| - 1])};
    }
  }

  /** A queued entry: a belief, the actions that led to it and their cost. */
  datatype Pending = Pending(belief: set<Board>, actions: seq<Dir>, cost: nat)

  /** The entry's belief and cost are those of its actions, each of them possible throughout. */
  ghost predicate Tracks(mc: MoveCosts, initial: set<Board>, q: Pending)
    requires Blanked(initial)
  {
    Common(initial, q.actions) && q.belief == BeliefAfter(initial, q.actions) && q.cost == SumCost(mc, q.actions)
  }

  /** The beliefs of the queued entries. */
  function QueueBeliefs(queue: seq<Pending>): set<set<Board>>
  {
    set i | 0 <= i < |queue| :: queue[i].belief
  }

  /**
   * The invariant of the search: every queued belief and every logged one
   * is in `visited`, every visited belief is queued or `checked` (taken from
   * the queue and checked against the goals), and the logged beliefs differ from each other and from
   * the initial belief, so each belief is queued at most once.
   */
  ghost predicate Explored(mc: MoveCosts, initial: set<Board>, rep: Board, queue: seq<Pending>, visited: set<set<Board>>,
                           log: seq<Entry>, logged: seq<Pending>, checked: set<set<Board>>)
  {
    Blanked(initial) && HasBlank(rep) && initial in visited && visited <= checked + QueueBeliefs(queue) &&
    QueueOk(mc, initial, queue, visited) && LogOk(mc, initial, rep, visited, log, logged)
  }

  /** Every queued entry is tracked and its belief visited. */
  ghost predicate QueueOk(mc: MoveCosts, initial: set<Board>, queue: seq<Pending>, visited: set<set<Board>>)
    requires Blanked(initial)
  {
    forall i :: 0 <= i < |queue| ==> Tracks(mc, initial, queue[i]) && queue[i].belief in visited
  }

  /**
   * Each log record holds the path replayed from rep under the actions of a
   * tracked entry, and that entry's cost; the entries' beliefs are visited,
   * differ from the initial belief and from each other.
   */
  ghost predicate LogOk(mc: MoveCosts, initial: set<Board>, rep: Board, visited: set<set<Board>>, log: seq<Entry>, logged: seq<Pending>)
    requires Blanked(initial) && HasBlank(rep)
  {
    |logged| == |log| &&
    (forall i :: 0 <= i < |log| ==> Tracks(mc, initial, logged[i]) && logged[i].actions != []) &&
    (forall i :: 0 <= i < |log| ==> log[i] == Entry(Replay(rep, logged[i].actions), logged[i].cost)) &&
    (forall i :: 0 <= i < |log| ==> logged[i].belief in visited && logged[i].belief != initial) &&
    (forall i, j :: 0 <= i < j < |log| ==> logged[i].belief != logged[j].belief)
  }

  /** The path the search returns and logs: `result` applied from rep under each action in turn. */
  method Rebuild(rep: Board, actions: seq<Dir>) returns (path: seq<Board>)
    requires HasBlank(rep)
    ensures path == Replay(rep, actions)
  {
    path := [rep];
    for i := 0 to |actions|
      invariant path == Replay(rep, actions[..i])
    {
      assert actions[..i + 1][..i] == actions[..i];
      path := path + [Result(Last(path), actions[i])];
    }
    assert actions[..|actions|] == actions;
  }

  /** One more action after a tracked entry: the belief, the cost and the commonness extend by it. */
  lemma {:induction false} Extend(mc: MoveCosts, initial: set<Board>, q: Pending, a: Dir)
    requires Blanked(initial) && Tracks(mc, initial, q) && a in CommonActions(q.belief)
    ensures Tracks(mc, initial, Pending(Image(q.belief, a), q.actions + [a], q.cost + CostOr1(mc, a)))
  {
    CommonSnoc(initial, q.actions, a);
    AfterSnoc(mc, initial, q.actions, a);
  }

  /** The belief and the cost after one more action. */
  lemma {:induction false} AfterSnoc(mc: MoveCosts, initial: set<Board>, acts: seq<Dir>, a: Dir)
    requires Blanked(initial)
    ensures BeliefAfter(initial, acts + [a]) == Image(BeliefAfter(initial, acts), a)
    ensures SumCost(mc, acts + [a]) == SumCost(mc, acts) + CostOr1(mc, a)
  {
    var acts' := acts + [a];
    assert acts'[..|acts'| - 1] == acts;
  }

  /** A common action after a sequence of common actions makes a longer sequence of common actions. */
  lemma {:induction false} CommonSnoc(initial: set<Board>, acts: seq<Dir>, a: Dir)
    requires Blanked(initial) && Common(initial, acts) && a in CommonActions(BeliefAfter(initial, acts))
    ensures Common(initial, acts + [a])
  {
    var acts' := acts + [a];
    forall i | 0 <= i < |acts'| ensures acts'[i] in CommonActions(BeliefAfter(initial, acts'[..i])) {
      if i < |acts| {
        assert acts'[..i] == acts[..i];
      } else {
        assert acts'[..i] == acts;
      }
    }
  }

  /** Queueing and logging an entry for a belief not visited before keeps the invariant. */
  lemma {:induction false} ExploredPush(mc: MoveCosts, initial: set<Board>, rep: Board, queue: seq<Pending>, visited: set<set<Board>>,
                     log: seq<Entry>, logged: seq<Pending>, checked: set<set<Board>>, p: Pending)
    requires Explored(mc, initial, rep, queue, visited, log, logged, checked)
    requires Tracks(mc, initial, p) && p.actions != [] && p.belief !in visited
    ensures Explored(mc, initial, rep, queue + [p], visited + {p.belief},
                     log + [Entry(Replay(rep, p.actions), p.cost)], logged + [p], checked)
  {
    QueueBeliefsSnoc(queue, p);
    QueueOkPush(mc, initial, queue, visited, p);
    LogPush(mc, initial, rep, visited, log, logged, p);
  }

  lemma {:induction false} QueueBeliefsSnoc(queue: seq<Pending>, p: Pending)
    ensures QueueBeliefs(queue + [p]) == QueueBeliefs(queue) + {p.belief}
  {
    var q := queue + [p];
    forall i | 0 <= i < |queue| ensures q[i].belief == queue[i].belief { }
    assert q[|queue|] == p;
  }

  lemma {:induction false} QueueOkPush(mc: MoveCosts, initial: set<Board>, queue: seq<Pending>, visited: set<set<Board>>, p: Pending)
    requires Blanked(initial) && QueueOk(mc, initial, queue, visited) && Tracks(mc, initial, p)
    ensures QueueOk(mc, initial, queue + [p], visited + {p.belief})
  {
    var q := queue + [p];
    var v := visited + {p.belief};
    forall i | 0 <= i < |q| ensures Tracks(mc, initial, q[i]) && q[i].belief in v {
      if i < |queue| { assert q[i] == queue[i]; }
    }
  }

  lemma {:induction false} LogPush(mc: MoveCosts, initial: set<Board>, rep: Board, visited: set<set<Board>>, log: seq<Entry>, logged: seq<Pending>, p: Pending)
    requires Blanked(initial) && HasBlank(rep) && initial in visited && LogOk(mc, initial, rep, visited, log, logged)
    requires Tracks(mc, initial, p) && p.actions != [] && p.belief !in visited
    ensures LogOk(mc, initial, rep, visited + {p.belief}, log + [Entry(Replay(rep, p.actions), p.cost)], logged + [p])
  {
    var log' := log + [Entry(Replay(rep, p.actions), p.cost)];
    var logged' := logged + [p];
    var v := visited + {p.belief};
    forall i | 0 <= i < |log'| ensures Tracks(mc, initial, logged'[i]) && logged'[i].actions != [] {
      if i < |log| { assert logged'[i] == logged[i]; }
    }
    forall i | 0 <= i < |log'| ensures log'[i] == Entry(Replay(rep, logged'[i].actions), logged'[i].cost) {
      if i < |log| { assert log'[i] == log[i] && logged'[i] == logged[i]; }
    }
    forall i | 0 <= i < |log'| ensures logged'[i].belief in v && logged'[i].belief != initial {
      if i < |log| { assert logged'[i] == logged[i]; }
    }
    forall i, j | 0 <= i < j < |log'| ensures logged'[i].belief != logged'[j].belief {
      assert logged'[i] == logged[i];
      if j < |log| { assert logged'[j] == logged[j]; }
    }
  }

  /** Taking the front entry from the queue and checking it keeps the invariant. */
  lemma {:induction false} ExploredPop(mc: MoveCosts, initial: set<Board>, rep: Board, queue: seq<Pending>, visited: set<set<Board>>,
                    log: seq<Entry>, logged: seq<Pending>, checked: set<set<Board>>)
    requires Explored(mc, initial, rep, queue, visited, log, logged, checked) && queue != []
    ensures Explored(mc, initial, rep, queue[1..], visited, log, logged, checked + {queue[0].belief})
  {
    assert QueueBeliefs(queue) == {queue[0].belief} + QueueBeliefs(queue[1..]) by {
      forall i | 1 <= i < |queue| ensures queue[i] == queue[1..][i - 1] { }
      forall b | b in QueueBeliefs(queue) ensures b in {queue[0].belief} + QueueBeliefs(queue[1..]) {
        var i :| 0 <= i < |queue| && queue[i].belief == b;
        if i > 0 { assert queue[1..][i - 1].belief == b; }
      }
    }
  }

  /** Queueing the successor of a tracked entry under one of its common actions keeps the invariant. */
  lemma {:induction false} ExpandStep(mc: MoveCosts, initial: set<Board>, rep: Board, current: Pending, queue: seq<Pending>,
                                      visited: set<set<Board>>, log: seq<Entry>, logged: seq<Pending>, checked: set<set<Board>>,
                                      a: Dir, next: Pending, path: seq<Board>)
    requires Explored(mc, initial, rep, queue, visited, log, logged, checked) && Tracks(mc, initial, current)
    requires a in CommonActions(current.belief) && Image(current.belief, a) !in visited
    requires next == Pending(Image(current.belief, a), current.actions + [a], current.cost + CostOr1(mc, a))
    requires path == Replay(rep, next.actions)
    ensures Explored(mc, initial, rep, queue + [next], visited + {next.belief}, log + [Entry(path, next.cost)], logged + [next], checked)
  {
    Extend(mc, initial, current, a);
    ExploredPush(mc, initial, rep, queue, visited, log, logged, checked, next);
  }

  /**
   * The loop over `common_actions` for the entry `current` just taken from
   * the queue: the successor belief of each action that was not visited yet
   * is marked visited, queued with the extended actions and cost, and logged
   * with the path replayed from rep. The actions come in an arbitrary order,
   * as Python iterates a set.
   */
  method Expand(mc: MoveCosts, ghost initial: set<Board>, rep: Board, current: Pending, queue: seq<Pending>,
                visited: set<set<Board>>, log: seq<Entry>, ghost logged: seq<Pending>, ghost checked: set<set<Board>>)
    returns (queue': seq<Pending>, visited': set<set<Board>>, log': seq<Entry>, ghost logged': seq<Pending>)
    requires Explored(mc, initial, rep, queue, visited, log, logged, checked) && Tracks(mc, initial, current)
    ensures Explored(mc, initial, rep, queue', visited', log', logged', checked)
    ensures 0 <= |log'| - |log| == |queue'| - |queue| <= 4
  {
    queue', visited', log', logged' := queue, visited, log, logged;
    var todo := CommonActions(current.belief);
    while todo != {}
      invariant todo <= CommonActions(current.belief)
      invariant Explored(mc, initial, rep, queue', visited', log', logged', checked)
      invariant 0 <= |log'| - |log| == |queue'| - |queue| <= 4 - |todo|
      decreases |todo|
    {
      var action :| action in todo;
      todo := todo - {action};
      var nextBelief := Image(current.belief, action);
      if nextBelief !in visited' {
        var newCost := current.cost + CostOr1(mc, action);
        var newActions := current.actions + [action];
        var next := Pending(nextBelief, newActions, newCost);
        var path := Rebuild(rep, newActions);
        ExpandStep(mc, initial, rep, current, queue', visited', log', logged', checked, action, next, path);
        visited' := visited' + {nextBelief};
        queue' := queue' + [next];
        log' := log' + [Entry(path, newCost)];
        logged' := logged' + [next];
      }
    }
  }

  /**
   * `no_observation_belief_state_search`: breadth-first search over
   * beliefs. The representative is an arbitrary member of the initial
   * belief, as `next(iter(belief))` is. A belief taken from the queue that
   * meets the goals ends the search with the representative's path under
   * its actions, which need not end in a goal (only when the belief holds a
   * single board, ReplaySingleton). The log holds one record per queued
   * belief after the initial one; the search stops once the log holds
   * max_steps records or the queue runs out, and then every belief it
   * checked missed the goals.
   */
  method NoObservationBeliefStateSearch(mc: MoveCosts, initial: set<Board>, goals: set<Board>, maxSteps: int)
    returns (path: Option<seq<Board>>, costs: Option<seq<nat>>, log: seq<Entry>, rep: Board,
             ghost plan: seq<Dir>, ghost logged: seq<Pending>)
    requires Complete(mc) && initial != {} && Blanked(initial)
    ensures rep in initial
    ensures path.Some? ==> Common(initial, plan) && BeliefAfter(initial, plan) * goals != {}
    ensures path.Some? ==> path.value == Replay(rep, plan) && costs == Some(Costs(mc, path.value))
    ensures path.None? ==> costs.None?
    ensures |logged| == |log|
    ensures path.None? && |log| < maxSteps ==> initial * goals == {} && forall i :: 0 <= i < |log| ==> logged[i].belief * goals == {}
    ensures forall i :: 0 <= i < |log| ==> Tracks(mc, initial, logged[i]) && logged[i].actions != []
    ensures forall i :: 0 <= i < |log| ==> log[i] == Entry(Replay(rep, logged[i].actions), logged[i].cost)
    ensures forall i :: 0 <= i < |log| ==> logged[i].belief != initial
    ensures forall i, j :: 0 <= i < j < |log| ==> logged[i].belief != logged[j].belief
    ensures |log| <= if maxSteps > 0 then maxSteps + 3 else 0
  {
    var queue := [Pending(initial, [], 0)];
    var visited := {initial};
    ghost var checked: set<set<Board>> := {};
    log, logged := [], [];
    rep :| rep in initial;
    assert QueueBeliefs(queue) == {initial} by { assert queue[0].belief == initial; }
    while queue != [] && |log| < maxSteps
      invariant Explored(mc, initial, rep, queue, visited, log, logged, checked)
      invariant forall b :: b in checked ==> b * goals == {}
      invariant |log| <= if maxSteps > 0 then maxSteps + 3 else 0
      decreases if |log| < maxSteps then maxSteps - |log| else 0, |queue|
    {
      var current := queue[0];
      ExploredPop(mc, initial, rep, queue, visited, log, logged, checked);
      queue := queue[1..];
      if current.belief * goals != {} {
        var p := Rebuild(rep, current.actions);
        var c := CalculateCosts(mc, p);
        path, costs, plan := Some(p), Some(c), current.actions;
        LogFacts(mc, initial, rep, visited, log, logged);
        return;
      }
      checked := checked + {current.belief};
      queue, visited, log, logged := Expand(mc, initial, rep, current, queue, visited, log, logged, checked);
    }
    path, costs, plan := None, None, [];
    LogFacts(mc, initial, rep, visited, log, logged);
    if |log| < maxSteps {
      NothingLeft(mc, initial, rep, visited, log, logged, checked, goals);
    }
  }

  lemma {:induction false} LogFacts(mc: MoveCosts, initial: set<Board>, rep: Board, visited: set<set<Board>>, log: seq<Entry>, logged: seq<Pending>)
    requires Blanked(initial) && HasBlank(rep) && LogOk(mc, initial, rep, visited, log, logged)
    ensures |logged| == |log|
    ensures forall i :: 0 <= i < |log| ==> Tracks(mc, initial, logged[i]) && logged[i].actions != []
    ensures forall i :: 0 <= i < |log| ==> log[i] == Entry(Replay(rep, logged[i].actions), logged[i].cost)
    ensures forall i :: 0 <= i < |log| ==> logged[i].belief != initial
    ensures forall i, j :: 0 <= i < j < |log| ==> logged[i].belief != logged[j].belief
  {
  }

  /** With the queue empty, every visited belief, the initial one and every logged one, was checked. */
  lemma {:induction false} NothingLeft(mc: MoveCosts, initial: set<Board>, rep: Board, visited: set<set<Board>>, log: seq<Entry>,
                    logged: seq<Pending>, checked: set<set<Board>>, goals: set<Board>)
    requires Explored(mc, initial, rep, [], visited, log, logged, checked)
    requires forall b :: b in checked ==> b * goals == {}
    ensures initial * goals == {} && forall i :: 0 <= i < |log| ==> logged[i].belief * goals == {}
  {
    assert QueueBeliefs([]) == {};
  }

  // ---------------------------------------------------------------------
  // partially_observable_search (algorithms/complex.py:109-127)

  /** The visible board, row by row: a cell's value, or None where it is hidden. */
  type Visible = v: seq<Option<int>> | |v| == 9 witness [None, None, None, None, None, None, None, None, None]

  /** The board agrees with every known cell of the visible board. */
  predicate Agrees(visible: Visible, s: Board)
  {
    forall i :: 0 <= i < 9 && visible[i].Some? ==> s[i] == visible[i].value
  }

  /** `present`: the values of the known cells. */
  function Present(visible: Visible): set<int>
  {
    set i | 0 <= i < 9 && visible[i].Some? :: visible[i].value
  }

  /** The digits a board holds. */
  const Digits: set<int> := {0, 1, 2, 3, 4, 5, 6, 7, 8}

  /** There are nine digits. */
  lemma {:induction false} DigitsCard()
    ensures |Digits| == 9
  {
  }

  /** `missing`: the digits no known cell shows. */
  function Missing(visible: Visible): set<int>
  {
    Digits - Present(visible)
  }

  /** The hidden cells among `cells`, which start at cell `offset`, in row-major order. */
  function HiddenFrom(cells: seq<Option<int>>, offset: nat): seq<nat>
  {
    if cells == [] then []
    else (if cells[0].None? then [offset] else []) + HiddenFrom(cells[1..], offset + 1)
  }

  /** Every hidden cell lies among `cells` and shows None. */
  lemma {:induction false} HiddenAreNone(cells: seq<Option<int>>, offset: nat)
    ensures forall k :: 0 <= k < |HiddenFrom(cells, offset)| ==>
      offset <= HiddenFrom(cells, offset)[k] < offset + |cells| && cells[HiddenFrom(cells, offset)[k] - offset].None?
  {
    if cells != [] {
      HiddenAreNone(cells[1..], offset + 1);
      var head: seq<nat> := if cells[0].None? then [offset] else [];
      var tail := HiddenFrom(cells[1..], offset + 1);
      var r := HiddenFrom(cells, offset);
      assert r == head + tail;
      forall k | 0 <= k < |r|
        ensures offset <= r[k] < offset + |cells| && cells[r[k] - offset].None?
      {
        if k >= |head| {
          var c := tail[k - |head|];
          assert r[k] == c;
          assert offset + 1 <= c < offset + 1 + |cells[1..]| && cells[1..][c - offset - 1].None?;
        }
      }
    }
  }

  /** Every cell showing None is among the hidden cells. */
  lemma {:induction false} HiddenCovers(cells: seq<Option<int>>, offset: nat)
    ensures forall j :: 0 <= j < |cells| && cells[j].None? ==> offset + j in HiddenFrom(cells, offset)
  {
    if cells != [] {
      HiddenCovers(cells[1..], offset + 1);
      var head: seq<nat> := if cells[0].None? then [offset] else [];
      var tail := HiddenFrom(cells[1..], offset + 1);
      assert HiddenFrom(cells, offset) == head + tail;
      forall j | 0 <= j < |cells| && cells[j].None? ensures offset + j in head + tail {
        if j > 0 {
          assert cells[1..][j - 1] == cells[j];
          assert offset + 1 + (j - 1) in tail;
        }
      }
    }
  }

  /** The hidden cells come in increasing order, so none comes twice. */
  lemma {:induction false} HiddenIncreasing(cells: seq<Option<int>>, offset: nat)
    ensures forall k, l :: 0 <= k < l < |HiddenFrom(cells, offset)| ==>
      HiddenFrom(cells, offset)[k] < HiddenFrom(cells, offset)[l]
  {
    if cells != [] {
      HiddenIncreasing(cells[1..], offset + 1);
      HiddenAreNone(cells[1..], offset + 1);
      var head: seq<nat> := if cells[0].None? then [offset] else [];
      var tail := HiddenFrom(cells[1..], offset + 1);
      var r := HiddenFrom(cells, offset);
      assert r == head + tail;
      forall k, l | 0 <= k < l < |r| ensures r[k] < r[l] {
        assert r[l] == tail[l - |head|];
        if k >= |head| {
          assert r[k] == tail[k - |head|];
        }
      }
    }
  }

  /** `blanks`: the hidden cells in row-major order. */
  function Hidden(visible: Visible): (r: seq<nat>)
    ensures forall k :: 0 <= k < |r| ==> r[k] < 9 && visible[r[k]].None?
    ensures forall j :: 0 <= j < 9 && visible[j].None? ==> j in r
    ensures forall k, l :: 0 <= k < l < |r| ==> r[k] < r[l]
  {
    HiddenAreNone(visible, 0);
    HiddenCovers(visible, 0);
    HiddenIncreasing(visible, 0);
    HiddenFrom(visible, 0)
  }

  /** The values the known cells among `cells` show. */
  function KnownIn(cells: seq<Option<int>>): set<int>
  {
    set j | 0 <= j < |cells| && cells[j].Some? :: cells[j].value
  }

  /** The hidden cells and the distinct known values together number at most the cells. */
  lemma {:induction false} HiddenKnownCount(cells: seq<Option<int>>, offset: nat)
    ensures |HiddenFrom(cells, offset)| + |KnownIn(cells)| <= |cells|
  {
    if cells != [] {
      HiddenKnownCount(cells[1..], offset + 1);
      if cells[0].Some? {
        assert KnownIn(cells) == KnownIn(cells[1..]) + {cells[0].value} by {
          forall x | x in KnownIn(cells) ensures x in KnownIn(cells[1..]) + {cells[0].value} {
            var j :| 0 <= j < |cells| && cells[j].Some? && cells[j].value == x;
            if j > 0 {
              assert cells[1..][j - 1] == cells[j];
            }
          }
        }
      } else {
        assert KnownIn(cells) == KnownIn(cells[1..]) by {
          forall x | x in KnownIn(cells) ensures x in KnownIn(cells[1..]) {
            var j :| 0 <= j < |cells| && cells[j].Some? && cells[j].value == x;
            assert cells[1..][j - 1] == cells[j];
          }
        }
      }
    }
  }

  /**
   * There are at least as many missing digits as hidden cells, so zipping
   * the hidden cells with an arrangement of the missing digits fills every
   * hidden cell.
   */
  lemma {:induction false} HiddenFewer(visible: Visible)
    ensures |Hidden(visible)| <= |Missing(visible)|
  {
    HiddenKnownCount(visible, 0);
    assert KnownIn(visible) == Present(visible);
    DigitsCard();
    SubsetCard(Digits, Missing(visible) + Present(visible));
  }

  /** The orderings of the digits of m: `itertools.permutations` of the list of missing digits. */
  function Arrangements(m: set<int>): (r: set<seq<int>>)
    ensures forall p :: p in r ==> |p| == |m|
  {
    set p | p in Words(m, |m|) && forall i, j :: 0 <= i < j < |p| ==> p[i] != p[j]
  }

  /** The cells after the first k assignments of the zip of the hidden cells with the values p. */
  function Assign(visible: Visible, hidden: seq<nat>, p: seq<int>, k: nat): (r: seq<Option<int>>)
    requires k <= |hidden| && k <= |p| && forall l :: 0 <= l < |hidden| ==> hidden[l] < 9
    ensures |r| == 9
  {
    if k == 0 then visible else Assign(visible, hidden, p, k - 1)[hidden[k - 1] := Some(p[k - 1])]
  }

  /** The zip leaves the known cells as they are and puts the l-th value into the l-th hidden cell. */
  lemma {:induction false} AssignKeeps(visible: Visible, p: seq<int>, k: nat)
    requires k <= |Hidden(visible)| && k <= |p|
    ensures forall i :: 0 <= i < 9 && visible[i].Some? ==> Assign(visible, Hidden(visible), p, k)[i] == visible[i]
    ensures forall l :: 0 <= l < k ==> Assign(visible, Hidden(visible), p, k)[Hidden(visible)[l]] == Some(p[l])
  {
    if k > 0 {
      var hidden := Hidden(visible);
      AssignKeeps(visible, p, k - 1);
      var prev := Assign(visible, hidden, p, k - 1);
      assert Assign(visible, hidden, p, k) == prev[hidden[k - 1] := Some(p[k - 1])];
      forall i | 0 <= i < 9 && visible[i].Some?
        ensures Assign(visible, hidden, p, k)[i] == visible[i]
      {
        assert i != hidden[k - 1];
      }
      forall l | 0 <= l < k
        ensures Assign(visible, hidden, p, k)[hidden[l]] == Some(p[l])
      {
        if l < k - 1 {
          assert hidden[l] < hidden[k - 1];
        }
      }
    }
  }

  /** With at least as many values as hidden cells the zip leaves no cell unknown. */
  lemma {:induction false} AssignFills(visible: Visible, p: seq<int>)
    requires |Hidden(visible)| <= |p|
    ensures forall i :: 0 <= i < 9 ==> Assign(visible, Hidden(visible), p, |Hidden(visible)|)[i].Some?
  {
    var hidden := Hidden(visible);
    AssignKeeps(visible, p, |hidden|);
    forall i | 0 <= i < 9 ensures Assign(visible, hidden, p, |hidden|)[i].Some? {
      if visible[i].None? {
        var l :| 0 <= l < |hidden| && hidden[l] == i;
      }
    }
  }

  /** The board of cells that are all known. */
  function ToBoard(cells: seq<Option<int>>): (b: Board)
    requires |cells| == 9 && forall i :: 0 <= i < 9 ==> cells[i].Some?
    ensures forall i :: 0 <= i < 9 ==> cells[i] == Some(b[i])
  {
    seq(9, i requires 0 <= i < 9 => cells[i].value)
  }

  /** The visible board with its hidden cells filled, in order, from the arrangement p. */
  function Completed(visible: Visible, p: seq<int>): Board
    requires |p| >= |Hidden(visible)|
  {
    AssignFills(visible, p);
    ToBoard(Assign(visible, Hidden(visible), p, |Hidden(visible)|))
  }

  /** The completions of the visible board by the value sequences ps. */
  function CompletedBy(visible: Visible, ps: set<seq<int>>): set<Board>
    requires forall p :: p in ps ==> |p| >= |Hidden(visible)|
  {
    set p | p in ps :: Completed(visible, p)
  }

  /** The boards the permutation step adds: one per arrangement of the missing digits. */
  function Completions(visible: Visible): set<Board>
  {
    HiddenFewer(visible);
    CompletedBy(visible, Arrangements(Missing(visible)))
  }

  /** Completing by one more value sequence adds its completion. */
  lemma {:induction false} CompletedByAdd(visible: Visible, ps: set<seq<int>>, p: seq<int>)
    requires forall q :: q in ps ==> |q| >= |Hidden(visible)|
    requires |p| >= |Hidden(visible)|
    ensures CompletedBy(visible, ps + {p}) == CompletedBy(visible, ps) + {Completed(visible, p)}
  {
  }

  /** A sequence of distinct values holds as many values as entries. */
  lemma {:induction false} DistinctValuesCard(p: seq<int>)
    requires forall i, j :: 0 <= i < j < |p| ==> p[i] != p[j]
    ensures |set x | x in p| == |p|
  {
    if p != [] {
      var front := p[..|p| - 1];
      DistinctValuesCard(front);
      assert (set x | x in p) == (set x | x in front) + {p[|p| - 1]};
    }
  }

  /** The values of b in the hidden cells, in row-major order. */
  function HiddenValues(visible: Visible, b: Board): (p: seq<int>)
    ensures |p| == |Hidden(visible)|
    ensures forall k :: 0 <= k < |p| ==> p[k] == b[Hidden(visible)[k]]
  {
    var hidden := Hidden(visible);
    seq(|hidden|, k requires 0 <= k < |hidden| => b[hidden[k]])
  }

  /** A board holding each digit once holds nothing but digits. */
  lemma {:induction false} PermutationDigits(b: Board)
    requires IsPermutation(b)
    ensures forall i :: 0 <= i < 9 ==> b[i] in Digits
  {
    var vals := set x | x in b;
    DistinctValuesCard(b);
    forall i | 0 <= i < 9 ensures b[i] in Digits {
      if b[i] !in Digits {
        assert Digits <= vals - {b[i]};
        SubsetCard(Digits, vals - {b[i]});
        DigitsCard();
      }
    }
  }

  /**
   * Masking a proper board: its hidden values are an arrangement of the
   * missing digits, so there are as many missing digits as hidden cells.
   */
  lemma {:induction false} HiddenValuesArranged(visible: Visible, b: Board)
    requires IsPermutation(b) && Agrees(visible, b)
    ensures HiddenValues(visible, b) in Arrangements(Missing(visible))
    ensures |Missing(visible)| == |Hidden(visible)|
  {
    var p := HiddenValues(visible, b);
    var missing := Missing(visible);
    HiddenValuesMissing(visible, b);
    HiddenValuesDistinct(visible, b);
    HiddenValuesCover(visible, b);
    assert (set x | x in p) == missing;
    DistinctValuesCard(p);
    InWords(missing, p);
    InArrangements(missing, p);
  }

  /** A word of |m| distinct values from m is one of m's arrangements. */
  lemma {:induction false} InArrangements(m: set<int>, p: seq<int>)
    requires |p| == |m| && p in Words(m, |p|) && forall i, j :: 0 <= i < j < |p| ==> p[i] != p[j]
    ensures p in Arrangements(m)
  {
  }

  /** Each hidden value of a proper board is a missing digit. */
  lemma {:induction false} HiddenValuesMissing(visible: Visible, b: Board)
    requires IsPermutation(b) && Agrees(visible, b)
    ensures forall k :: 0 <= k < |HiddenValues(visible, b)| ==> HiddenValues(visible, b)[k] in Missing(visible)
  {
    PermutationDigits(b);
  }

  /** The hidden values of a proper board differ from each other. */
  lemma {:induction false} HiddenValuesDistinct(visible: Visible, b: Board)
    requires IsPermutation(b)
    ensures var p := HiddenValues(visible, b); forall k, l :: 0 <= k < l < |p| ==> p[k] != p[l]
  {
    var hidden := Hidden(visible);
    var p := HiddenValues(visible, b);
    forall k, l | 0 <= k < l < |p| ensures p[k] != p[l] {
      assert hidden[k] < hidden[l];
    }
  }

  /** Every missing digit is a hidden value of a proper board that agrees with the visible board. */
  lemma {:induction false} HiddenValuesCover(visible: Visible, b: Board)
    requires IsPermutation(b) && Agrees(visible, b)
    ensures Missing(visible) <= set x | x in HiddenValues(visible, b)
  {
    var hidden := Hidden(visible);
    var p := HiddenValues(visible, b);
    forall x | x in Missing(visible) ensures x in p {
      assert x in b;
      var i :| 0 <= i < 9 && b[i] == x;
      var k :| 0 <= k < |hidden| && hidden[k] == i;
      assert p[k] == x;
    }
  }

  /**
   * The permutation step misses no proper board: every board holding each
   * digit once that agrees with the visible board is one of its completions.
   */
  lemma {:induction false} MaskedBoardCompleted(visible: Visible, b: Board)
    requires IsPermutation(b) && Agrees(visible, b)
    ensures b in Completions(visible)
  {
    var p := HiddenValues(visible, b);
    HiddenValuesArranged(visible, b);
    HiddenValuesComplete(visible, b);
    HiddenFewer(visible);
    assert Completed(visible, p) in CompletedBy(visible, Arrangements(Missing(visible)));
  }

  /** Filling the hidden cells with a board's own hidden values gives that board back. */
  lemma {:induction false} HiddenValuesComplete(visible: Visible, b: Board)
    requires Agrees(visible, b)
    ensures Completed(visible, HiddenValues(visible, b)) == b
  {
    var hidden := Hidden(visible);
    var p := HiddenValues(visible, b);
    AssignKeeps(visible, p, |hidden|);
    AssignFills(visible, p);
    var c := Completed(visible, p);
    forall i | 0 <= i < 9 ensures c[i] == b[i] {
      if visible[i].None? {
        var k :| 0 <= k < |hidden| && hidden[k] == i;
      }
    }
  }

  /** The initial states that agree with the visible board. */
  function Matching(visible: Visible, states: seq<Board>): set<Board>
  {
    set s | s in states && Agrees(visible, s)
  }

  /** The initial belief of partially_observable_search. */
  function InitialBelief(visible: Visible, states: seq<Board>): set<Board>
  {
    var matching := Matching(visible, states);
    if matching == {} && |Missing(visible)| <= 4 then Completions(visible) else matching
  }

  /**
   * Every board of the initial belief agrees with every known cell of the
   * visible board, and the permutation step adds boards only when no
   * initial state agrees and at most four digits are missing.
   */
  lemma {:induction false} BeliefAgrees(visible: Visible, states: seq<Board>)
    ensures forall s :: s in InitialBelief(visible, states) ==> Agrees(visible, s)
    ensures forall s :: s in InitialBelief(visible, states) && s !in states ==> Matching(visible, states) == {} && |Missing(visible)| <= 4
  {
    HiddenFewer(visible);
    forall p | p in Arrangements(Missing(visible)) ensures Agrees(visible, Completed(visible, p)) {
      AssignKeeps(visible, p, |Hidden(visible)|);
    }
  }

  /** The zip loop: writes the values of perm into the hidden cells, in order, until either runs out. */
  method Fill(visible: Visible, hidden: seq<nat>, perm: seq<int>) returns (board: seq<Option<int>>)
    requires hidden == Hidden(visible)
    ensures board == Assign(visible, hidden, perm, if |hidden| <= |perm| then |hidden| else |perm|)
  {
    board := visible;
    for k := 0 to if |hidden| <= |perm| then |hidden| else |perm|
      invariant board == Assign(visible, hidden, perm, k)
    {
      board := board[hidden[k] := Some(perm[k])];
    }
  }

  /** Moving one member from the sets still to visit to the sets visited keeps them a partition of all. */
  lemma {:induction false} MoveOne<T>(todo: set<T>, done: set<T>, all: set<T>, x: T)
    requires todo !! done && todo + done == all && x in todo
    ensures todo - {x} !! done + {x} && (todo - {x}) + (done + {x}) == all
  {
  }

  /**
   * The true board is in the initial belief when it is among the initial
   * states, or when no initial state agrees and at most four cells are
   * hidden.
   */
  lemma {:induction false} TrueBoardInBelief(visible: Visible, states: seq<Board>, b: Board)
    requires IsPermutation(b) && Agrees(visible, b)
    requires b in states || (Matching(visible, states) == {} && |Missing(visible)| <= 4)
    ensures b in InitialBelief(visible, states)
  {
    if b !in states {
      MaskedBoardCompleted(visible, b);
    } else {
      assert b in Matching(visible, states);
    }
  }

  /** The first loop of partially_observable_search: keeps the initial states that agree with the visible board. */
  method MatchingStates(visible: Visible, initialStates: seq<Board>) returns (belief: set<Board>)
    ensures belief == Matching(visible, initialStates)
  {
    belief := {};
    for i := 0 to |initialStates|
      invariant belief == Matching(visible, initialStates[..i])
    {
      if Agrees(visible, initialStates[i]) {
        belief := belief + {initialStates[i]};
      }
      assert initialStates[..i + 1] == initialStates[..i] + [initialStates[i]];
    }
    assert initialStates[..|initialStates|] == initialStates;
  }

  /** The permutation loop: one completion of the visible board per arrangement of the missing digits. */
  method CompleteVisible(visible: Visible) returns (belief: set<Board>)
    ensures belief == Completions(visible)
  {
    belief := {};
    var hidden := Hidden(visible);
    HiddenFewer(visible);
    var all := Arrangements(Missing(visible));
    assert forall p :: p in all ==> |p| >= |hidden|;
    var todo := all;
    ghost var done: set<seq<int>> := {};
    while todo != {}
      invariant todo !! done && todo + done == all
      invariant belief == CompletedBy(visible, done)
      decreases |todo|
    {
      var perm :| perm in todo;
      var board := Fill(visible, hidden, perm);
      AssignFills(visible, perm);
      CompletedByAdd(visible, done, perm);
      MoveOne(todo, done, all, perm);
      belief := belief + {ToBoard(board)};
      todo, done := todo - {perm}, done + {perm};
    }
    assert done == all;
  }

  /**
   * The initial belief: the initial states that agree with the visible
   * board, or, when none does and at most four digits are missing, every
   * completion of the visible board.
   */
  method BuildInitialBelief(visible: Visible, initialStates: seq<Board>) returns (belief: set<Board>)
    ensures belief == InitialBelief(visible, initialStates)
  {
    belief := MatchingStates(visible, initialStates);
    if belief == {} && |Missing(visible)| <= 4 {
      belief := CompleteVisible(visible);
    }
  }

  /**
   * partially_observable_search: builds the initial belief from the visible
   * board and runs the sensorless search from it. `crashed` is set where the
   * source raises: an empty belief has no representative, and a belief with
   * a board lacking the blank fails when the common actions are computed
   * (which happens only when the belief misses the goals and the step limit
   * lets the loop run). A belief with such a board that meets the goals
   * yields the one-board path of the representative. When `crashed` is set
   * the other outputs carry no meaning.
   */
  method PartiallyObservableSearch(mc: MoveCosts, visible: Visible, initialStates: seq<Board>, goals: set<Board>, maxSteps: int)
    returns (crashed: bool, path: Option<seq<Board>>, costs: Option<seq<nat>>, log: seq<Entry>,
             belief: set<Board>, rep: Board, ghost plan: seq<Dir>, ghost logged: seq<Pending>)
    requires Complete(mc)
    ensures belief == InitialBelief(visible, initialStates)
    ensures crashed <==> belief == {} || (!Blanked(belief) && belief * goals == {} && maxSteps > 0)
    ensures !crashed ==> rep in belief
    ensures !crashed && Blanked(belief) && path.Some? ==>
      Common(belief, plan) && BeliefAfter(belief, plan) * goals != {} &&
      path.value == Replay(rep, plan) && costs == Some(Costs(mc, path.value))
    ensures !crashed && Blanked(belief) ==> |logged| == |log|
    ensures !crashed && Blanked(belief) ==>
      forall i :: 0 <= i < |log| && i < |logged| ==>
        Tracks(mc, belief, logged[i]) && log[i] == Entry(Replay(rep, logged[i].actions), logged[i].cost)
    ensures !crashed && Blanked(belief) ==> (path.None? <==> costs.None?)
    ensures !crashed && Blanked(belief) && path.None? && |log| < maxSteps ==>
      belief * goals == {} && forall i :: 0 <= i < |log| && i < |logged| ==> logged[i].belief * goals == {}
    ensures !crashed && Blanked(belief) ==>
      forall i :: 0 <= i < |log| && i < |logged| ==> logged[i].actions != [] && logged[i].belief != belief
    ensures !crashed && Blanked(belief) ==>
      forall i, j :: 0 <= i < j < |log| && j < |logged| ==> logged[i].belief != logged[j].belief
    ensures !crashed && !Blanked(belief) ==>
      log == [] && (path.Some? <==> belief * goals != {} && maxSteps > 0) &&
      (path.Some? ==> path.value == [rep] && costs == Some([0]))
  {
    belief := BuildInitialBelief(visible, initialStates);
    crashed, path, costs, log, plan, logged := false, None, None, [], [], [];
    rep := [0, 1, 2, 3, 4, 5, 6, 7, 8];
    if belief == {} {
      crashed := true;
      return;
    }
    if !Blanked(belief) {
      var r :| r in belief;
      rep := r;
      if maxSteps <= 0 {
        return;
      }
      if belief * goals == {} {
        crashed := true;
        return;
      }
      path, costs := Some([rep]), Some([0]);
      return;
    }
    var p, c, l, r, pl, lg := NoObservationBeliefStateSearch(mc, belief, goals, maxSteps);
    path, costs, log, rep, plan, logged := p, c, l, r, pl, lg;
  }
}
