/**
 * algorithms/nondeterministic.py: the 8-puzzle posed as a nondeterministic
 * problem whose `results` always holds exactly one board, and the recursive
 * AND-OR search over it, which guards against cycles with the boards on the
 * current path.
 *
 * `actions` and `results` find the blank with a nested scan whose `break`
 * leaves only the column loop, so the scan answers the first blank of the
 * LAST row that has one. On a board with a single blank that is the blank
 * utils.py finds (ScanBlankUnique). algorithms/sensor_based.py repeats the
 * same two functions word for word; they are modelled once, here.
 */
module Nondeterministic {
  import opened Wrappers
  import opened Utils
  import opened Space
  import opened Search

  /** The problem object: its two fields never change after construction. */
  datatype Problem = Problem(initial: Board, goal: Board)

  // ---------------------------------------------------------------------
  // The blank scan (algorithms/nondeterministic.py:21-26)

  /** The first blank of row r at or after column c. */
  function RowBlank(b: Board, r: nat, c: nat): (o: Option<nat>)
    requires r < 3 && c <= 3
    ensures o.Some? ==> 3 * r + c <= o.value < 3 * r + 3 && b[o.value] == 0
    ensures o.Some? ==> forall j :: 3 * r + c <= j < o.value ==> b[j] != 0
    ensures o.None? ==> forall j :: 3 * r + c <= j < 3 * r + 3 ==> b[j] != 0
    decreases 3 - c
  {
    if c == 3 then None
    else if b[3 * r + c] == 0 then Some(3 * r + c)
    else RowBlank(b, r, c + 1)
  }

  /** The scan over rows 0..r-1: the first blank of the last of those rows that has one. */
  function ScanRows(b: Board, r: nat): (o: Option<nat>)
    requires r <= 3
    ensures o.Some? ==> o.value < 3 * r && b[o.value] == 0
    ensures o.Some? ==> forall j :: 3 * Row(o.value) <= j < o.value ==> b[j] != 0
    ensures o.Some? ==> forall j :: 3 * Row(o.value) + 3 <= j < 3 * r ==> b[j] != 0
    ensures o.None? ==> forall j :: 0 <= j < 3 * r ==> b[j] != 0
  {
    if r == 0 then None
    else
      match RowBlank(b, r - 1, 0)
      case Some(k) => assert Row(k) == r - 1; Some(k)
      case None => ScanRows(b, r - 1)
  }

  /** The blank the scan of `actions` and `results` settles on. */
  function ScanBlank(b: Board): (o: Option<nat>)
    ensures o.Some? <==> HasBlank(b)
    ensures o.Some? ==> o.value < 9 && b[o.value] == 0
  {
    ScanRows(b, 3)
  }

  /** The (row, column) the scan answers, as `zero_i, zero_j`. */
  function PosOf(o: Option<nat>): Option<Pos>
  {
    if o.Some? then Some(Pos(Row(o.value), Col(o.value))) else None
  }

  /**
   * The scan itself: every row in turn, each row's columns up to its first
   * blank; a blank found in a later row replaces one found earlier.
   */
  method FindBlank(state: Board) returns (zero: Option<Pos>)
    ensures zero == PosOf(ScanBlank(state))
    ensures zero.None? <==> !HasBlank(state)
  {
    zero := None;
    for i := 0 to 3
      invariant zero == PosOf(ScanRows(state, i))
    {
      for j := 0 to 3
        invariant RowBlank(state, i, 0) == RowBlank(state, i, j)
      {
        if state[3 * i + j] == 0 {
          assert Row(3 * i + j) == i;
          zero := Some(Pos(i, j));
          break;
        }
      }
    }
  }

  /**
   * The scan and utils.py's lookup agree on every board with one blank; on
   * any board the scan's blank lies in the last row that has a blank.
   */
  lemma {:induction false} ScanBlankUnique(b: Board)
    requires HasBlank(b)
    ensures forall j :: 0 <= j < 9 && b[j] == 0 ==> Row(j) <= Row(ScanBlank(b).value)
    ensures UniqueBlank(b) ==> ScanBlank(b) == Some(BlankIndex(b))
  {
    var k := ScanBlank(b).value;
    forall j | 0 <= j < 9 && b[j] == 0
      ensures Row(j) <= Row(k)
    {

    }
  }

  // ---------------------------------------------------------------------
  // actions and results (algorithms/nondeterministic.py:17-63)

  /** `actions`: the directions the scanned blank can move in, in the order up, down, left, right. */
  function Actions(b: Board): seq<Dir>
    requires HasBlank(b)
  {
    var k := ScanBlank(b).value;
    var i, j := Row(k), Col(k);
    (if i > 0 then [Up] else []) + ((if i < 2 then [Down] else [])
    + ((if j > 0 then [Left] else []) + (if j < 2 then [Right] else [])))
  }

  /**
   * `actions` lists the directions up, down, left, right, in that order,
   * that keep the scanned blank on the grid; on a board with one blank these
   * are the legal moves of utils.py.
   */
  lemma {:induction false} ActionsLegal(b: Board)
    requires HasBlank(b)
    ensures Actions(b) == LegalAt(ScanBlank(b).value, Dirs)
    ensures forall d :: d in Actions(b) <==> Step(ScanBlank(b).value, d).Some?
    ensures UniqueBlank(b) ==> forall d :: d in Actions(b) <==> Move(b, d).Some?
  {
    ScanBlankUnique(b);
    LegalDirs(ScanBlank(b).value);
  }

  /** The blank at cell k can move up unless in the top row, down unless in the bottom row, and so on. */
  lemma {:induction false} StepSome(k: nat)
    requires k < 9
    ensures Step(k, Up).Some? <==> Row(k) > 0
    ensures Step(k, Down).Some? <==> Row(k) < 2
    ensures Step(k, Left).Some? <==> Col(k) > 0
    ensures Step(k, Right).Some? <==> Col(k) < 2
  {
  }

  /** The directions in which the blank at cell k stays on the grid, by its row and column. */
  lemma {:induction false} LegalDirs(k: nat)
    requires k < 9
    ensures LegalAt(k, Dirs) == (if Row(k) > 0 then [Up] else []) + ((if Row(k) < 2 then [Down] else [])
      + ((if Col(k) > 0 then [Left] else []) + (if Col(k) < 2 then [Right] else [])))
  {
    StepSome(k);
    assert Dirs[1..] == [Down, Left, Right] && [Down, Left, Right][1..] == [Left, Right];
    assert [Left, Right][1..] == [Right] && [Right][1..] == [];
    assert LegalAt(k, [Right]) == (if Col(k) < 2 then [Right] else []);
    assert LegalAt(k, [Left, Right]) == (if Col(k) > 0 then [Left] else []) + LegalAt(k, [Right]);
    assert LegalAt(k, [Down, Left, Right]) == (if Row(k) < 2 then [Down] else []) + LegalAt(k, [Left, Right]);
    assert LegalAt(k, Dirs) == (if Row(k) > 0 then [Up] else []) + LegalAt(k, [Down, Left, Right]);
  }

  /** `results(state, action)[0]`: the blank swapped with its neighbour in direction d, or the board unchanged. */
  function Apply(b: Board, d: Dir): (r: Board)
    requires HasBlank(b)
    ensures HasBlank(r) && multiset(r) == multiset(b)
  {
    var k := ScanBlank(b).value;
    match Step(k, d)
    case None => b
    case Some(t) =>
      SwapFacts(b, k, t);
      assert Swap(b, k, t)[t] == 0;
      Swap(b, k, t)
  }

  /**
   * The board `results` answers keeps the tiles and a blank; on a board with
   * one blank it is the move of utils.py when the move is legal and the
   * board itself otherwise, and so a neighbour for every listed action.
   */
  lemma {:induction false} ApplyFacts(b: Board, d: Dir)
    requires HasBlank(b)
    ensures UniqueBlank(b) ==> Apply(b, d) == if Move(b, d).Some? then Move(b, d).value else b
    ensures UniqueBlank(b) && d in Actions(b) ==> Apply(b, d) in Neighbors(b) && UniqueBlank(Apply(b, d))
  {
    ScanBlankUnique(b);
    if UniqueBlank(b) && d in Actions(b) {
      ActionsLegal(b);
      NeighborsExactly(b, Apply(b, d));
      MovedBlank(b, d);
    }
  }

  // ---------------------------------------------------------------------
  // or_search and and_search (algorithms/nondeterministic.py:96-129)

  /** The boards the path dictionary has yet to hold: the search's termination measure. */
  function Budget(p: Problem, path: set<Board>): nat
  {
    |Universe(p.initial) - path|
  }

  /** Adding a board of the start's tiles that the path dictionary lacks uses up one board of the budget. */
  lemma {:induction false} BudgetShrinks(p: Problem, path: set<Board>, s: Board)
    requires SameTiles(p.initial, s) && s !in path
    ensures Budget(p, path + {s}) < Budget(p, path)
  {
    InUniverse(p.initial, s);
    assert Universe(p.initial) - (path + {s}) == (Universe(p.initial) - path) - {s};
  }

  /**
   * `or_search`: the empty plan at the goal (tested first); failure on a
   * board already on the current path; otherwise the first action whose
   * and-search succeeds, with the board added to a copy of the path.
   */
  function OrSearch(p: Problem, s: Board, path: set<Board>): (r: Plan)
    requires HasBlank(s) && SameTiles(p.initial, s)
    ensures r.Done? <==> s == p.goal
    ensures s != p.goal && s in path ==> r.Failure?
    ensures r.Failure? || r.Done? || r.Act?
    decreases Budget(p, path), 0, 0
  {
    if s == p.goal then Done
    else if s in path then Failure
    else
      BudgetShrinks(p, path, s);
      TryActions(p, s, path + {s}, Actions(s))
  }

  /**
   * The loop of `or_search` over the actions `acts`: the or-step of an
   * action whose and-search succeeds (the first such, TryActionsFirst), or
   * failure when none does.
   */
  function TryActions(p: Problem, s: Board, path: set<Board>, acts: seq<Dir>): (r: Plan)
    requires HasBlank(s) && SameTiles(p.initial, s)
    ensures r.Failure? || r.Act?
    ensures r.Act? ==> r.action in acts && r.next == AndSearch(p, [Apply(s, r.action)], path) && !r.next.Failure?
    ensures r.Failure? ==> forall a :: a in acts ==> AndSearch(p, [Apply(s, a)], path).Failure?
    decreases Budget(p, path), 2, |acts|
  {
    if acts == [] then Failure
    else
      var plan := AndSearch(p, [Apply(s, acts[0])], path);
      if plan != Failure then Act(acts[0], plan)
      else TryActions(p, s, path, acts[1..])
  }

  /** The and-search of each of the first i actions fails. */
  ghost predicate FailUpTo(p: Problem, s: Board, path: set<Board>, acts: seq<Dir>, i: nat)
    requires HasBlank(s) && SameTiles(p.initial, s) && i <= |acts|
  {
    forall j :: 0 <= j < i ==> AndSearch(p, [Apply(s, acts[j])], path).Failure?
  }

  /** The or-step `or_search` takes is that of the first action, in order, whose and-search succeeds. */
  lemma {:induction false} TryActionsFirst(p: Problem, s: Board, path: set<Board>, acts: seq<Dir>)
    requires HasBlank(s) && SameTiles(p.initial, s)
    ensures var r := TryActions(p, s, path, acts);
      r.Act? ==> exists i :: 0 <= i < |acts| && r.action == acts[i] && FailUpTo(p, s, path, acts, i)
  {
    var r := TryActions(p, s, path, acts);
    if r.Act? && AndSearch(p, [Apply(s, acts[0])], path).Failure? {
      var tail := acts[1..];
      assert r == TryActions(p, s, path, tail);
      TryActionsFirst(p, s, path, tail);
      var i :| 0 <= i < |tail| && r.action == tail[i] && FailUpTo(p, s, path, tail, i);
      FailUpToCons(p, s, path, acts, i);
      assert r.action == acts[i + 1];
    }
  }

  lemma {:induction false} FailUpToCons(p: Problem, s: Board, path: set<Board>, acts: seq<Dir>, i: nat)
    requires HasBlank(s) && SameTiles(p.initial, s) && i < |acts|
    requires AndSearch(p, [Apply(s, acts[0])], path).Failure? && FailUpTo(p, s, path, acts[1..], i)
    ensures FailUpTo(p, s, path, acts, i + 1)
  {
    forall j | 0 <= j < i + 1
      ensures AndSearch(p, [Apply(s, acts[j])], path).Failure?
    {
      if j > 0 {
        assert acts[j] == acts[1..][j - 1];
      }
    }
  }

  /** Every board of `states` holds a blank and the start's tiles. */
  ghost predicate InSpace(p: Problem, states: seq<Board>)
  {
    forall i :: 0 <= i < |states| ==> HasBlank(states[i]) && SameTiles(p.initial, states[i])
  }

  /**
   * `and_search`: the empty plan for no boards, otherwise the loop over the
   * boards starting from an empty dictionary (AndSearchFacts).
   */
  function AndSearch(p: Problem, states: seq<Board>, path: set<Board>): (r: Plan)
    requires InSpace(p, states)
    ensures states == [] ==> r == Done
    decreases Budget(p, path), 1, |states| + 1
  {
    if states == [] then Done
    else AndLoop(p, states, path, map[])
  }

  /**
   * The loop of `and_search`, with the plans of the boards before `states`
   * in `plans`: failure as soon as one board's or-search fails, otherwise
   * the dictionary once every board has its plan (AndLoopFails, AndLoopPlans).
   */
  function AndLoop(p: Problem, states: seq<Board>, path: set<Board>, plans: map<Board, Plan>): (r: Plan)
    requires InSpace(p, states)
    ensures r.Failure? || r.Branches?
    decreases Budget(p, path), 1, |states|
  {
    if states == [] then Branches(plans)
    else
      var plan := OrSearch(p, states[0], path);
      if plan.Failure? then Failure
      else
        InSpaceTail(p, states);
        AndLoop(p, states[1..], path, plans[states[0] := plan])
  }

  lemma {:induction false} InSpaceTail(p: Problem, states: seq<Board>)
    requires InSpace(p, states) && states != []
    ensures InSpace(p, states[1..])
  {
    forall i | 0 <= i < |states| - 1 ensures HasBlank(states[1..][i]) && SameTiles(p.initial, states[1..][i]) {
      assert states[1..][i] == states[i + 1];
    }
  }

  /** The loop of `and_search` fails exactly when the or-search of one of its boards fails. */
  lemma {:induction false} AndLoopFails(p: Problem, states: seq<Board>, path: set<Board>, plans: map<Board, Plan>)
    requires InSpace(p, states)
    ensures AndLoop(p, states, path, plans).Failure? <==> exists i :: 0 <= i < |states| && OrSearch(p, states[i], path).Failure?
    decreases |states|
  {
    if states != [] {
      var plan := OrSearch(p, states[0], path);
      if !plan.Failure? {
        InSpaceTail(p, states);
        var tail := states[1..];
        AndLoopFails(p, tail, path, plans[states[0] := plan]);
        if exists i :: 0 <= i < |states| && OrSearch(p, states[i], path).Failure? {
          var i :| 0 <= i < |states| && OrSearch(p, states[i], path).Failure?;
          assert i > 0 && tail[i - 1] == states[i];
        }
        if exists i :: 0 <= i < |tail| && OrSearch(p, tail[i], path).Failure? {
          var i :| 0 <= i < |tail| && OrSearch(p, tail[i], path).Failure?;
          assert tail[i] == states[i + 1];
        }
      }
    }
  }

  /**
   * When the loop of `and_search` succeeds it returns a dictionary holding
   * each board's or-search plan, and keeping every earlier entry for a
   * board it does not visit.
   */
  lemma {:induction false} AndLoopPlans(p: Problem, states: seq<Board>, path: set<Board>, plans: map<Board, Plan>)
    requires InSpace(p, states) && !AndLoop(p, states, path, plans).Failure?
    ensures var r := AndLoop(p, states, path, plans);
      r.Branches? && (forall i :: 0 <= i < |states| ==> states[i] in r.plans && r.plans[states[i]] == OrSearch(p, states[i], path))
      && forall t :: t in plans && t !in states ==> t in r.plans && r.plans[t] == plans[t]
    decreases |states|
  {
    if states != [] {
      var plan := OrSearch(p, states[0], path);
      InSpaceTail(p, states);
      var tail := states[1..];
      var plans' := plans[states[0] := plan];
      AndLoopPlans(p, tail, path, plans');
      var r := AndLoop(p, states, path, plans);
      assert r == AndLoop(p, tail, path, plans');
      forall i | 1 <= i < |states| ensures states[i] in r.plans && r.plans[states[i]] == OrSearch(p, states[i], path) {
        assert states[i] == tail[i - 1];
      }
      if states[0] in tail {
        var k :| 0 <= k < |tail| && tail[k] == states[0];
      }
    }
  }

  /**
   * `and_search` fails exactly when the or-search of some board fails;
   * otherwise it returns a dictionary with each board's plan (the empty
   * plan for no boards).
   */
  lemma {:induction false} AndSearchFacts(p: Problem, states: seq<Board>, path: set<Board>)
    requires InSpace(p, states)
    ensures AndSearch(p, states, path).Failure? <==> exists i :: 0 <= i < |states| && OrSearch(p, states[i], path).Failure?
    ensures var r := AndSearch(p, states, path);
      states != [] && !r.Failure? ==>
        r.Branches? && forall i :: 0 <= i < |states| ==> states[i] in r.plans && r.plans[states[i]] == OrSearch(p, states[i], path)
  {
    if states != [] {
      AndLoopFails(p, states, path, map[]);
      if !AndLoop(p, states, path, map[]).Failure? {
        AndLoopPlans(p, states, path, map[]);
      }
    }
  }

  // ---------------------------------------------------------------------
  // extract_path and and_or_graph_search (algorithms/nondeterministic.py:65-94)

  /**
   * `extract_path`: the start, then for an or-step the board its action
   * leads to and that board's own path from the and-step's dictionary (the
   * board alone when the dictionary has no entry for it).
   */
  function ExtractPath(solution: Plan, start: Board): (path: seq<Board>)
    requires HasBlank(start)
    ensures |path| >= 1 && path[0] == start
  {
    match solution
    case Act(a, Branches(m)) =>
      var next := Apply(start, a);
      if next in m then [start] + ExtractPath(m[next], next) else [start, next]
    case _ => [start]
  }

  /** Each board of the path follows from the one before by `results` under one of its actions. */
  ghost predicate Stepped(path: seq<Board>)
  {
    AllBlanked(path) && forall i :: 0 <= i < |path| - 1 ==> StepsTo(path[i], path[i + 1])
  }

  /** c is the board `results` gives on b for one of b's actions. */
  ghost predicate StepsTo(b: Board, c: Board)
  {
    HasBlank(b) && exists a :: a in Actions(b) && c == Apply(b, a)
  }

  lemma {:induction false} SteppedCons(s: Board, a: Dir, w: seq<Board>)
    requires HasBlank(s) && a in Actions(s) && Stepped(w) && |w| >= 1 && w[0] == Apply(s, a)
    ensures Stepped([s] + w)
  {
    var v := [s] + w;
    forall i | 0 <= i < |v| - 1
      ensures StepsTo(v[i], v[i + 1])
    {
      if i > 0 {
        assert v[i] == w[i - 1] && v[i + 1] == w[i];
      } else {
        assert v[0] == s && v[1] == Apply(s, a);
      }
    }
    assert forall i :: 0 <= i < |v| ==> HasBlank(v[i]) by {
      forall i | 0 <= i < |v| ensures HasBlank(v[i]) {
        if i > 0 { assert v[i] == w[i - 1]; }
      }
    }
  }

  /**
   * A plan the or-search finds leads to the goal: its extracted path starts
   * at the board, ends at the goal, follows `results` one action at a time,
   * never repeats a board and meets no board of the path dictionary before
   * the goal.
   */
  lemma {:induction false} OrSearchSound(p: Problem, s: Board, path: set<Board>)
    requires HasBlank(s) && SameTiles(p.initial, s)
    requires !OrSearch(p, s, path).Failure?
    ensures var w := ExtractPath(OrSearch(p, s, path), s);
      Last(w) == p.goal && Stepped(w) && Distinct(w)
      && forall i :: 0 <= i < |w| - 1 ==> w[i] !in path && w[i] != p.goal
    decreases Budget(p, path)
  {
    var r := OrSearch(p, s, path);
    var w := ExtractPath(r, s);
    if s == p.goal {
      assert w == [s];
    } else {
      var path' := path + {s};
      BudgetShrinks(p, path, s);
      var a := r.action;
      var next := Apply(s, a);
      assert r == TryActions(p, s, path', Actions(s));
      assert a in Actions(s) && r.next == AndSearch(p, [next], path');
      assert [next][0] == next;
      AndSearchFacts(p, [next], path');
      var q := OrSearch(p, next, path');
      assert r.next.plans[next] == q && !q.Failure?;
      OrSearchSound(p, next, path');
      var v := ExtractPath(q, next);
      assert w == [s] + v;
      SteppedCons(s, a, v);
      assert forall j :: 0 <= j < |w| - 1 ==> w[j] !in path && w[j] != p.goal by {
        forall j | 0 <= j < |w| - 1 ensures w[j] !in path && w[j] != p.goal {
          if j > 0 { assert w[j] == v[j - 1]; }
        }
      }
      assert s !in v by {
        forall k | 0 <= k < |v| ensures v[k] != s {
          if k < |v| - 1 { assert v[k] !in path'; }
        }
      }
      DistinctCons(s, v);
    }
  }

  /**
   * `and_or_graph_search`: the or-search from the start with an empty path
   * dictionary; on failure (None, None, []), otherwise the extracted path,
   * its calculate_costs list and one log record per prefix. The path runs
   * from the start to the goal without repeating a board, and on a board
   * with one blank it is a walk of legal moves.
   */
  function AndOrGraphSearch(mc: MoveCosts, start: Board, goal: Board): (r: (Option<seq<Board>>, Option<seq<nat>>, seq<Entry>))
    requires Complete(mc) && HasBlank(start)
    ensures r.0.None? <==> OrSearch(Problem(start, goal), start, {}).Failure?
    ensures r.0.None? ==> r == (None, None, [])
    ensures r.0.Some? ==> r.1.Some? && |r.0.value| >= 1 && r.0.value[0] == start && Last(r.0.value) == goal
    ensures r.0.Some? ==> Stepped(r.0.value) && Distinct(r.0.value)
    ensures r.0.Some? && r.1.Some? ==> r.1.value == Costs(mc, r.0.value) && r.2 == PrefixLog(r.0.value, r.1.value)
  {
    var p := Problem(start, goal);
    var result := OrSearch(p, start, {});
    if result.Failure? then (None, None, [])
    else
      OrSearchSound(p, start, {});
      var path := ExtractPath(result, start);
      var costs := Costs(mc, path);
      (Some(path), Some(costs), PrefixLog(path, costs))
  }

  /** On a board with one blank, a path that follows `results` is a walk of legal moves. */
  lemma {:induction false} SteppedWalk(w: seq<Board>)
    requires Stepped(w) && |w| >= 1 && UniqueBlank(w[0])
    ensures IsWalk(w) && forall i :: 0 <= i < |w| ==> UniqueBlank(w[i])
    decreases |w|
  {
    if |w| > 1 {
      var front := w[..|w| - 1];
      SteppedFront(w);
      SteppedWalk(front);
      StepFacts(w, |w| - 2);
      assert Last(front) == w[|w| - 2];
      WalkSnoc(front, w[|w| - 1]);
      SplitLast(w);
      UniqueBlankSnoc(front, w[|w| - 1]);
    }
  }

  lemma {:induction false} SteppedFront(w: seq<Board>)
    requires Stepped(w) && |w| > 1
    ensures Stepped(w[..|w| - 1])
  {
    var front := w[..|w| - 1];
    forall i | 0 <= i < |front| - 1
      ensures StepsTo(front[i], front[i + 1])
    {
      assert front[i] == w[i] && front[i + 1] == w[i + 1];
    }
  }

  /** One step of a stepped path from a board with one blank is a legal move to a board with one blank. */
  lemma {:induction false} StepFacts(w: seq<Board>, k: int)
    requires Stepped(w) && 0 <= k < |w| - 1 && UniqueBlank(w[k])
    ensures w[k + 1] in Neighbors(w[k]) && UniqueBlank(w[k + 1])
  {
    assert StepsTo(w[k], w[k + 1]);
    var a :| a in Actions(w[k]) && w[k + 1] == Apply(w[k], a);
    ApplyFacts(w[k], a);
  }

  lemma {:induction false} UniqueBlankSnoc(front: seq<Board>, x: Board)
    requires forall i :: 0 <= i < |front| ==> UniqueBlank(front[i])
    requires UniqueBlank(x)
    ensures forall i :: 0 <= i < |front + [x]| ==> UniqueBlank((front + [x])[i])
  {
    var w := front + [x];
    forall i | 0 <= i < |w| ensures UniqueBlank(w[i]) {
      if i < |front| { assert w[i] == front[i]; }
    }
  }
}
