/**
 * What the frontier searches of algorithms/uninformed.py and
 * algorithms/informed.py share: the exploration log (`all_paths`), the
 * frontier entries, Python's ordering of heap entries, and the bookkeeping
 * invariant of a search that marks states visited when it pushes them.
 */
module Search {
  import opened Wrappers
  import opened Utils
  import opened Space

  /** One `all_paths` record: an explored path and the cost carried with it. */
  datatype Entry = Entry(path: seq<Board>, cost: int)

  /**
   * The value an AND-OR search returns: 'failure', the empty plan `[]`, an
   * or-step `[action, plan]`, or an and-step's dictionary from each result
   * board to its plan.
   */
  datatype Plan = Failure | Done | Act(action: Dir, next: Plan) | Branches(plans: map<Board, Plan>)

  /**
   * A frontier entry. prio holds the tuple fields in front of the state
   * (greedy: h; A*: f, g; UCS: cost; BFS: none).
   */
  datatype Node = Node(prio: seq<int>, state: Board, path: seq<Board>, cost: int)

  // ---------------------------------------------------------------------
  // Heap order

  /** Python's `<` on int sequences: the first difference decides; a proper prefix is smaller. */
  predicate LexLess(a: seq<int>, b: seq<int>)
    decreases |a|
  {
    if a == [] then b != []
    else if b == [] then false
    else a[0] < b[0] || (a[0] == b[0] && LexLess(a[1..], b[1..]))
  }

  lemma {:induction false} LexIrreflexive(a: seq<int>)
    ensures !LexLess(a, a)
    decreases |a|
  {
    if a != [] {
      LexIrreflexive(a[1..]);
    }
  }

  lemma {:induction false} LexTransitive(a: seq<int>, b: seq<int>, c: seq<int>)
    requires LexLess(a, b) && LexLess(b, c)
    ensures LexLess(a, c)
    decreases |a|
  {
    if a != [] && a[0] == b[0] && b[0] == c[0] {
      LexTransitive(a[1..], b[1..], c[1..]);
    }
  }

  /**
   * The key a heap entry is compared by: its leading fields, then the board
   * (rows of equal length compare like the flattened board). Boards in one
   * heap are distinct, so the comparison never reaches the path.
   */
  function Key(n: Node): seq<int>
  {
    n.prio + n.state
  }

  /** The index heapq.heappop takes: the first entry no other entry is smaller than. */
  function ArgMin(q: seq<Node>): (r: nat)
    requires |q| > 0
    ensures r < |q|
  {
    if |q| == 1 then 0
    else
      var r := ArgMin(q[..|q| - 1]);
      if LexLess(Key(q[|q| - 1]), Key(q[r])) then |q| - 1 else r
  }

  lemma {:induction false} ArgMinMinimal(q: seq<Node>)
    requires |q| > 0
    ensures forall j :: 0 <= j < |q| ==> !LexLess(Key(q[j]), Key(q[ArgMin(q)]))
  {
    var r := ArgMin(q);
    if |q| == 1 {
      LexIrreflexive(Key(q[0]));
    } else {
      var front := q[..|q| - 1];
      var r' := ArgMin(front);
      ArgMinMinimal(front);
      var last := |q| - 1;
      forall j | 0 <= j < |q| ensures !LexLess(Key(q[j]), Key(q[r])) {
        if j < last {
          assert q[j] == front[j];
        }
        if r == last && j < last && LexLess(Key(q[j]), Key(q[r])) {
          LexTransitive(Key(q[j]), Key(q[last]), Key(q[r']));
        }
        if j == r {
          LexIrreflexive(Key(q[r]));
        }
      }
    }
  }

  /** The entry with the smallest leading field: a smaller first field means a smaller key. */
  lemma {:induction false} ArgMinFirst(q: seq<Node>)
    requires |q| > 0 && forall j :: 0 <= j < |q| ==> |q[j].prio| > 0
    ensures forall j :: 0 <= j < |q| ==> q[ArgMin(q)].prio[0] <= q[j].prio[0]
  {
    ArgMinMinimal(q);
  }

  /** The frontier with entry r taken out. */
  function Remove(q: seq<Node>, r: nat): (q': seq<Node>)
    requires r < |q|
    ensures |q'| == |q| - 1
    ensures forall j :: 0 <= j < |q'| ==> q'[j] == if j < r then q[j] else q[j + 1]
  {
    q[..r] + q[r + 1..]
  }

  ghost function States(q: seq<Node>): set<Board>
  {
    set j | 0 <= j < |q| :: q[j].state
  }

  // ---------------------------------------------------------------------
  // Paths and the log

  /** path is a walk of legal moves from start and cost is the last entry of calculate_costs(path). */
  ghost predicate Tracked(mc: MoveCosts, start: Board, path: seq<Board>, cost: int)
  {
    Complete(mc) && IsWalk(path) && path[0] == start && cost == Last(Costs(mc, path))
  }

  lemma {:induction false} TrackedStart(mc: MoveCosts, start: Board)
    requires Complete(mc) && HasBlank(start)
    ensures Tracked(mc, start, [start], 0)
  {
  }

  /** Extending a tracked path by a neighbour adds that move's cost, as `new_cost` does. */
  lemma {:induction false} TrackedExtend(mc: MoveCosts, start: Board, path: seq<Board>, cost: int, n: Board)
    requires Tracked(mc, start, path, cost) && n in Neighbors(Last(path))
    ensures HasBlank(n)
    ensures Tracked(mc, start, path + [n], cost + StepCost(mc, Last(path), n))
  {
    NeighborsKeepTiles(Last(path));
    WalkSnoc(path, n);
    CostsSnoc(mc, path, n);
  }

  /** TrackedExtend with the new cost computed by the caller. */
  lemma {:induction false} TrackedChild(mc: MoveCosts, start: Board, path: seq<Board>, cost: int, n: Board, newCost: int)
    requires Tracked(mc, start, path, cost) && n in Neighbors(Last(path)) && HasBlank(n)
    requires newCost == cost + StepCost(mc, Last(path), n)
    ensures Tracked(mc, start, path + [n], newCost)
  {
    TrackedExtend(mc, start, path, cost, n);
  }

  /** A frontier entry whose path ends in its state and whose cost is the path's. */
  ghost predicate NodeOk(mc: MoveCosts, start: Board, n: Node)
  {
    Tracked(mc, start, n.path, n.cost) && n.state == Last(n.path)
  }

  /** Every record of the log holds a tracked path. */
  ghost predicate Logged(mc: MoveCosts, start: Board, log: seq<Entry>)
  {
    forall i :: 0 <= i < |log| ==> Tracked(mc, start, log[i].path, log[i].cost)
  }

  /** No two records of the log end in the same board: no state is expanded twice. */
  predicate ExpandedOnce(log: seq<Entry>)
  {
    (forall i :: 0 <= i < |log| ==> |log[i].path| > 0) &&
    forall i, j :: 0 <= i < j < |log| ==> Last(log[i].path) != Last(log[j].path)
  }

  /**
   * A successful search result: a walk of legal moves from start to goal,
   * its calculate_costs list, and a log whose last record holds that path.
   */
  ghost predicate Solution(mc: MoveCosts, start: Board, goal: Board, path: seq<Board>, costs: seq<nat>, log: seq<Entry>)
  {
    Complete(mc) && IsWalk(path) && path[0] == start && Last(path) == goal &&
    costs == Costs(mc, path) && |log| > 0 && Last(log) == Entry(path, Last(costs))
  }

  /** No walk of legal moves leads from start to goal. */
  ghost predicate Unreachable(start: Board, goal: Board)
  {
    forall w :: IsWalk(w) && w[0] == start ==> Last(w) != goal
  }

  /** Dropping the last board of a walk leaves a walk. */
  lemma {:induction false} WalkFront(w: seq<Board>)
    requires IsWalk(w) && |w| > 1
    ensures IsWalk(w[..|w| - 1]) && w[..|w| - 1][0] == w[0]
    ensures Last(w) in Neighbors(Last(w[..|w| - 1]))
  {
    var front := w[..|w| - 1];
    forall i | 0 <= i < |front| - 1 ensures front[i + 1] in Neighbors(front[i]) {
      assert front[i] == w[i] && front[i + 1] == w[i + 1];
    }
    assert Last(front) == w[|w| - 2];
  }

  /** The boards of a path. */
  function PathSet(path: seq<Board>): set<Board>
  {
    set x | x in path
  }

  lemma {:induction false} PathSetSnoc(path: seq<Board>, n: Board)
    ensures PathSet(path + [n]) == PathSet(path) + {n}
  {
    assert forall x :: x in path + [n] <==> x in path || x == n;
  }

  /** Every board of a walk from start rearranges the start's cells, so lies in the universe. */
  lemma {:induction false} WalkKeepsTiles(start: Board, path: seq<Board>)
    requires IsWalk(path) && path[0] == start
    ensures forall x :: x in path ==> SameTiles(start, x)
    decreases |path|
  {
    if |path| > 1 {
      var front := path[..|path| - 1];
      var last := path[|path| - 1];
      assert IsWalk(front) by {
        forall i | 0 <= i < |front| - 1 ensures front[i + 1] in Neighbors(front[i]) {
          assert front[i] == path[i] && front[i + 1] == path[i + 1];
        }
      }
      WalkKeepsTiles(start, front);
      NeighborsKeepTiles(path[|path| - 2]);
      assert path[|path| - 2] in front;
      assert last in Neighbors(path[|path| - 2]);
      assert path == front + [last];
    }
  }

  /** Every board of a walk from start lies in the universe. */
  lemma {:induction false} WalkInUniverse(start: Board, path: seq<Board>)
    requires IsWalk(path) && path[0] == start
    ensures forall x :: x in path ==> SameTiles(start, x)
    ensures PathSet(path) <= Universe(start)
  {
    WalkKeepsTiles(start, path);
    forall x | x in path ensures x in Universe(start) {
      InUniverse(start, x);
    }
  }

  /** A path without repeated boards has as many boards as entries. */
  lemma {:induction false} DistinctCard(path: seq<Board>)
    requires Distinct(path)
    ensures |PathSet(path)| == |path|
    decreases |path|
  {
    if path != [] {
      var front := path[..|path| - 1];
      var x := path[|path| - 1];
      assert Distinct(front);
      DistinctCard(front);
      assert path == front + [x];
      assert PathSet(path) == PathSet(front) + {x};
      assert x !in PathSet(front);
    }
  }

  /**
   * Extending a walk without repeats by a board not on it: the path stays
   * without repeats and takes one more board of the universe.
   */
  lemma {:induction false} PathGrows(start: Board, path: seq<Board>, n: Board)
    requires IsWalk(path) && path[0] == start && Distinct(path) && n !in path && n in Neighbors(Last(path))
    ensures Distinct(path + [n])
    ensures |Universe(start) - PathSet(path + [n])| < |Universe(start) - PathSet(path)|
  {
    WalkInUniverse(start, path);
    NeighborsStay(start, Last(path));
    assert PathSet(path + [n]) == PathSet(path) + {n};
    assert Universe(start) - PathSet(path + [n]) == (Universe(start) - PathSet(path)) - {n};
  }

  /** Cutting the loop between two visits of the same board keeps a walk a walk. */
  lemma {:induction false} CutLoop(w: seq<Board>, i: nat, j: nat)
    requires IsWalk(w) && i < j < |w| && w[i] == w[j]
    ensures IsWalk(w[..i] + w[j..]) && (w[..i] + w[j..])[0] == w[0] && Last(w[..i] + w[j..]) == Last(w)
  {
    var u := w[..i] + w[j..];
    assert u[0] == w[0] && Last(u) == Last(w);
    assert AllBlanked(u) by {
      forall k | 0 <= k < |u| ensures HasBlank(u[k]) {
        assert u[k] in w;
      }
    }
    forall k | 0 <= k < |u| - 1 ensures u[k + 1] in Neighbors(u[k]) {
      if k + 1 < i {
        assert u[k] == w[k] && u[k + 1] == w[k + 1];
      } else if k + 1 == i {
        assert u[k] == w[k] && u[k + 1] == w[j] == w[k + 1];
      } else {
        assert u[k] == w[k + j - i] && u[k + 1] == w[k + 1 + j - i];
      }
    }
  }

  /** Every walk can be shortened to one without repeated boards, with the same ends. */
  lemma {:induction false} Shortcut(w: seq<Board>) returns (v: seq<Board>)
    requires IsWalk(w)
    ensures IsWalk(v) && Distinct(v) && v[0] == w[0] && Last(v) == Last(w) && |v| <= |w|
    decreases |w|
  {
    if Distinct(w) {
      v := w;
    } else {
      var i: nat, j: nat :| i < j < |w| && w[i] == w[j];
      CutLoop(w, i, j);
      v := Shortcut(w[..i] + w[j..]);
    }
  }

  /** w is a walk without repeated boards that starts with path. */
  ghost predicate Extends(path: seq<Board>, w: seq<Board>)
  {
    IsWalk(w) && Distinct(w) && path <= w
  }

  /** No walk without repeated boards that extends path ends in goal. */
  ghost predicate Exhausted(goal: Board, path: seq<Board>)
  {
    forall w :: Extends(path, w) ==> Last(w) != goal
  }

  /** Each of the first n boards of ns that is not on path extends it to an exhausted path. */
  ghost predicate ChildrenExhausted(goal: Board, path: seq<Board>, ns: seq<Board>, n: nat)
    requires n <= |ns|
  {
    forall k :: 0 <= k < n && ns[k] !in path ==> Exhausted(goal, path + [ns[k]])
  }

  lemma {:induction false} ChildrenExhaustedNext(goal: Board, path: seq<Board>, ns: seq<Board>, n: nat)
    requires n < |ns| && ChildrenExhausted(goal, path, ns, n)
    requires ns[n] !in path ==> Exhausted(goal, path + [ns[n]])
    ensures ChildrenExhausted(goal, path, ns, n + 1)
  {
  }

  /**
   * A path not ending in the goal is exhausted when each neighbour of its last
   * board is on the path or extends it to an exhausted path.
   */
  lemma {:induction false} ExhaustedStep(goal: Board, path: seq<Board>)
    requires IsWalk(path) && Last(path) != goal
    requires ChildrenExhausted(goal, path, Neighbors(Last(path)), |Neighbors(Last(path))|)
    ensures Exhausted(goal, path)
  {
    forall w | Extends(path, w) ensures Last(w) != goal {
      if |w| > |path| {
        var n := w[|path|];
        assert w[|path| - 1] == Last(path);
        assert n in Neighbors(Last(path));
        var k :| 0 <= k < |Neighbors(Last(path))| && Neighbors(Last(path))[k] == n;
        assert n !in path by {
          forall k | 0 <= k < |path| ensures path[k] != n {
            assert path[k] == w[k];
          }
        }
        assert path + [n] <= w by {
          assert w[..|path| + 1] == path + [n];
        }
      }
    }
  }

  /** When the walks without repeats from start are exhausted, no walk reaches the goal. */
  lemma {:induction false} ExhaustedUnreachable(start: Board, goal: Board)
    requires Exhausted(goal, [start])
    ensures Unreachable(start, goal)
  {
    forall w | IsWalk(w) && w[0] == start ensures Last(w) != goal {
      var v := Shortcut(w);
      assert Extends([start], v);
    }
  }

  // ---------------------------------------------------------------------
  // The bookkeeping of a search that marks states visited on push

  /** The visited boards hold a blank and rearrange the start's cells. */
  ghost predicate VisitedOk(start: Board, visited: set<Board>)
  {
    forall v :: v in visited ==> HasBlank(v) && SameTiles(start, v)
  }

  /** Each frontier entry is tracked, visited and not expanded, and no board is on the frontier twice. */
  ghost predicate FrontierOk(mc: MoveCosts, start: Board, q: seq<Node>, visited: set<Board>, closed: set<Board>)
  {
    (forall j :: 0 <= j < |q| ==> NodeOk(mc, start, q[j]) && q[j].state in visited && q[j].state !in closed) &&
    (forall i, j :: 0 <= i < j < |q| ==> q[i].state != q[j].state)
  }

  /** Every visited board not yet expanded waits on the frontier. */
  ghost predicate Covered(q: seq<Node>, visited: set<Board>, closed: set<Board>)
  {
    forall v :: v in visited && v !in closed ==> v in States(q)
  }

  /** The log holds tracked paths, one per expanded board. */
  ghost predicate LogOk(mc: MoveCosts, start: Board, log: seq<Entry>, closed: set<Board>)
  {
    Logged(mc, start, log) && ExpandedOnce(log) &&
    (forall i :: 0 <= i < |log| ==> Last(log[i].path) in closed)
  }

  /**
   * The bookkeeping of a search that marks boards visited when it pushes
   * them: visited holds start, closed (the expanded boards) lies inside it,
   * the goal was never expanded, and the parts above hold.
   */
  ghost predicate Inv(mc: MoveCosts, start: Board, goal: Board, q: seq<Node>, visited: set<Board>, closed: set<Board>, log: seq<Entry>)
  {
    Complete(mc) && start in visited && closed <= visited && goal !in closed &&
    VisitedOk(start, visited) && FrontierOk(mc, start, q, visited, closed) &&
    Covered(q, visited, closed) && LogOk(mc, start, log, closed)
  }

  /** Every expanded state has all its neighbours visited. */
  ghost predicate Closed(closed: set<Board>, visited: set<Board>)
  {
    forall c :: c in closed ==> HasBlank(c) && forall n :: n in Neighbors(c) ==> n in visited
  }

  lemma {:induction false} InvInit(mc: MoveCosts, start: Board, goal: Board, prio: seq<int>)
    requires Complete(mc) && HasBlank(start)
    ensures Inv(mc, start, goal, [Node(prio, start, [start], 0)], {start}, {}, []) && Closed({}, {start})
  {
    var q := [Node(prio, start, [start], 0)];
    assert q[0].state in States(q);
  }

  lemma {:induction false} FrontierPush(mc: MoveCosts, start: Board, q: seq<Node>, visited: set<Board>, closed: set<Board>, n: Node)
    requires FrontierOk(mc, start, q, visited, closed) && NodeOk(mc, start, n) && n.state !in visited && closed <= visited
    ensures FrontierOk(mc, start, q + [n], visited + {n.state}, closed)
  {
    var q' := q + [n];
    var visited' := visited + {n.state};
    forall j | 0 <= j < |q'| ensures NodeOk(mc, start, q'[j]) && q'[j].state in visited' && q'[j].state !in closed {
      if j < |q| {
        assert q'[j] == q[j];
      }
    }
    forall i, j | 0 <= i < j < |q'| ensures q'[i].state != q'[j].state {
      assert q'[i] == q[i];
      if j == |q| {
        assert q[i].state in visited;
      }
    }
  }

  lemma {:induction false} CoveredPush(q: seq<Node>, visited: set<Board>, closed: set<Board>, n: Node)
    requires Covered(q, visited, closed)
    ensures Covered(q + [n], visited + {n.state}, closed)
  {
    var q' := q + [n];
    forall v | v in visited + {n.state} && v !in closed ensures v in States(q') {
      if v == n.state {
        assert q'[|q|].state == v;
      } else {
        var j :| 0 <= j < |q| && q[j].state == v;
        assert q'[j].state == v;
      }
    }
  }

  /** Pushing an entry for a state not yet visited, and marking it visited. */
  lemma {:induction false} InvPush(mc: MoveCosts, start: Board, goal: Board, q: seq<Node>, visited: set<Board>, closed: set<Board>, log: seq<Entry>, n: Node)
    requires Inv(mc, start, goal, q, visited, closed, log)
    requires NodeOk(mc, start, n) && n.state !in visited && HasBlank(n.state) && SameTiles(start, n.state)
    ensures Inv(mc, start, goal, q + [n], visited + {n.state}, closed, log)
  {
    FrontierPush(mc, start, q, visited, closed, n);
    CoveredPush(q, visited, closed, n);
  }

  /**
   * Pushing the entry for a neighbour of an expanded entry's board: its path
   * extends the entry's path, and its cost adds the move's cost.
   */
  lemma {:induction false} PushTracked(mc: MoveCosts, start: Board, goal: Board, q: seq<Node>, visited: set<Board>, closed: set<Board>, log: seq<Entry>, from: Node, n: Node)
    requires Inv(mc, start, goal, q, visited, closed, log) && NodeOk(mc, start, from) && from.state in visited
    requires n.state in Neighbors(from.state) && HasBlank(n.state) && n.state !in visited
    requires n.path == from.path + [n.state] && n.cost == from.cost + StepCost(mc, from.state, n.state)
    ensures Inv(mc, start, goal, q + [n], visited + {n.state}, closed, log)
  {
    TrackedExtend(mc, start, from.path, from.cost, n.state);
    NeighborsKeepTiles(from.state);
    InvPush(mc, start, goal, q, visited, closed, log, n);
  }

  lemma {:induction false} FrontierPop(mc: MoveCosts, start: Board, q: seq<Node>, visited: set<Board>, closed: set<Board>, r: nat)
    requires FrontierOk(mc, start, q, visited, closed) && r < |q|
    ensures FrontierOk(mc, start, Remove(q, r), visited, closed + {q[r].state})
  {
    PopNodes(mc, start, q, visited, closed, r, Remove(q, r));
    PopDistinct(q, r, Remove(q, r));
  }

  /** The nodes left after a pop are tracked, visited and not expanded, the popped board included. */
  lemma {:induction false} PopNodes(mc: MoveCosts, start: Board, q: seq<Node>, visited: set<Board>, closed: set<Board>, r: nat, q': seq<Node>)
    requires r < |q| && q' == q[..r] + q[r + 1..]
    requires forall j :: 0 <= j < |q| ==> NodeOk(mc, start, q[j]) && q[j].state in visited && q[j].state !in closed
    requires forall i, j :: 0 <= i < j < |q| ==> q[i].state != q[j].state
    ensures forall j :: 0 <= j < |q'| ==> NodeOk(mc, start, q'[j]) && q'[j].state in visited && q'[j].state !in closed + {q[r].state}
  {
    forall j | 0 <= j < |q'| ensures NodeOk(mc, start, q'[j]) && q'[j].state in visited && q'[j].state !in closed + {q[r].state} {
      var k := if j < r then j else j + 1;
      assert q'[j] == q[k];
      if k < r {
        assert q[k].state != q[r].state;
      } else {
        assert q[r].state != q[k].state;
      }
    }
  }

  /** The nodes left after a pop still hold pairwise different boards. */
  lemma {:induction false} PopDistinct(q: seq<Node>, r: nat, q': seq<Node>)
    requires r < |q| && q' == q[..r] + q[r + 1..]
    requires forall i, j :: 0 <= i < j < |q| ==> q[i].state != q[j].state
    ensures forall i, j :: 0 <= i < j < |q'| ==> q'[i].state != q'[j].state
  {
    forall i, j | 0 <= i < j < |q'| ensures q'[i].state != q'[j].state {
      var a, b := if i < r then i else i + 1, if j < r then j else j + 1;
      assert q'[i] == q[a] && q'[j] == q[b] && a < b;
    }
  }


  lemma {:induction false} CoveredPop(q: seq<Node>, visited: set<Board>, closed: set<Board>, r: nat)
    requires Covered(q, visited, closed) && r < |q|
    ensures Covered(Remove(q, r), visited, closed + {q[r].state})
  {
    var q' := Remove(q, r);
    forall v | v in visited && v !in closed + {q[r].state} ensures v in States(q') {
      var j :| 0 <= j < |q| && q[j].state == v;
      if j < r {
        assert q'[j].state == v;
      } else {
        assert q'[j - 1].state == v;
      }
    }
  }

  /** Appending the record of an expansion. */
  lemma {:induction false} LogAppend(mc: MoveCosts, start: Board, log: seq<Entry>, closed: set<Board>, e: Entry)
    requires LogOk(mc, start, log, closed) && Tracked(mc, start, e.path, e.cost) && Last(e.path) !in closed
    ensures LogOk(mc, start, log + [e], closed + {Last(e.path)})
  {
    var log' := log + [e];
    assert forall i :: 0 <= i < |log| ==> log'[i] == log[i];
  }

  /**
   * Popping entry r that is not the goal: it is logged and becomes expanded,
   * which takes one board of the universe out of the unexpanded ones.
   */
  lemma {:induction false} InvPop(mc: MoveCosts, start: Board, goal: Board, q: seq<Node>, visited: set<Board>, closed: set<Board>, log: seq<Entry>, r: nat)
    requires Inv(mc, start, goal, q, visited, closed, log) && r < |q| && q[r].state != goal
    ensures Inv(mc, start, goal, Remove(q, r), visited, closed + {q[r].state}, log + [Entry(q[r].path, q[r].cost)])
    ensures |Universe(start) - (closed + {q[r].state})| < |Universe(start) - closed|
  {
    var x := q[r];
    assert x.state !in closed && SameTiles(start, x.state);
    assert Inv(mc, start, goal, Remove(q, r), visited, closed + {x.state}, log + [Entry(x.path, x.cost)]) by {
      FrontierPop(mc, start, q, visited, closed, r);
      CoveredPop(q, visited, closed, r);
      LogAppend(mc, start, log, closed, Entry(x.path, x.cost));
    }
    InUniverse(start, x.state);
    ExpandShrinks(Universe(start), closed, x.state);
  }

  /** Expanding one more board of a universe leaves one fewer unexpanded board. */
  lemma {:induction false} ExpandShrinks(u: set<Board>, closed: set<Board>, x: Board)
    requires x in u && x !in closed
    ensures |u - (closed + {x})| < |u - closed|
  {
    assert u - (closed + {x}) == (u - closed) - {x};
    RemoveOne(u - closed, x);
  }

  /** Popping the goal: the log's new last record holds the returned path. */
  lemma {:induction false} InvGoal(mc: MoveCosts, start: Board, goal: Board, q: seq<Node>, visited: set<Board>, closed: set<Board>, log: seq<Entry>, r: nat)
    requires Inv(mc, start, goal, q, visited, closed, log) && r < |q| && q[r].state == goal
    ensures Solution(mc, start, goal, q[r].path, Costs(mc, q[r].path), log + [Entry(q[r].path, q[r].cost)])
    ensures Logged(mc, start, log + [Entry(q[r].path, q[r].cost)]) && ExpandedOnce(log + [Entry(q[r].path, q[r].cost)])
  {
    LogAppend(mc, start, log, closed, Entry(q[r].path, q[r].cost));
  }

  /** Once every neighbour of state has been visited, state counts as expanded; visiting more keeps the rest expanded. */
  lemma {:induction false} ClosedAdd(closed: set<Board>, visited: set<Board>, visited': set<Board>, state: Board)
    requires Closed(closed, visited) && visited <= visited' && HasBlank(state)
    requires forall n :: n in Neighbors(state) ==> n in visited'
    ensures Closed(closed + {state}, visited')
  {
  }

  /** A walk from start that never leaves a set closed under moves ends inside it. */
  lemma {:induction false} WalkInside(start: Board, closed: set<Board>, w: seq<Board>)
    requires start in closed && Closed(closed, closed)
    requires IsWalk(w) && w[0] == start
    ensures Last(w) in closed
    decreases |w|
  {
    if |w| > 1 {
      var front := w[..|w| - 1];
      assert IsWalk(front) by {
        forall i | 0 <= i < |front| - 1 ensures front[i + 1] in Neighbors(front[i]) {
          assert front[i] == w[i] && front[i + 1] == w[i + 1];
        }
      }
      WalkInside(start, closed, front);
      assert w[|w| - 1] in Neighbors(w[|w| - 2]);
    }
  }

  /** An exhausted frontier: everything visited was expanded, and the goal is out of reach. */
  lemma {:induction false} InvExhausted(mc: MoveCosts, start: Board, goal: Board, visited: set<Board>, closed: set<Board>, log: seq<Entry>)
    requires Inv(mc, start, goal, [], visited, closed, log) && Closed(closed, visited)
    ensures Unreachable(start, goal)
  {
    assert visited == closed;
    forall w | IsWalk(w) && w[0] == start ensures Last(w) != goal {
      WalkInside(start, closed, w);
    }
  }

  /** The log of the AND-OR graph searches: one record per prefix of the path, with that prefix's cost. */
  function PrefixLog(path: seq<Board>, costs: seq<nat>): (log: seq<Entry>)
    requires |costs| == |path|
  {
    seq(|path|, i requires 0 <= i < |path| => Entry(path[..i + 1], costs[i]))
  }

  /** One more board on the path adds one record: the whole extended path with its cost. */
  lemma {:induction false} PrefixLogSnoc(path: seq<Board>, costs: seq<nat>, n: Board, c: nat)
    requires |costs| == |path|
    ensures PrefixLog(path + [n], costs + [c]) == PrefixLog(path, costs) + [Entry(path + [n], c)]
  {
    var p, q := path + [n], costs + [c];
    forall i | 0 <= i < |path| ensures p[..i + 1] == path[..i + 1] && q[i] == costs[i] {
      assert p[..i + 1] == path[..i + 1];
    }
    assert p[..|p|] == p;
  }

  /** Appending a board not yet on a repeat-free path keeps it repeat-free. */
  lemma {:induction false} DistinctSnoc(v: seq<Board>, s: Board)
    requires Distinct(v) && s !in v
    ensures Distinct(v + [s])
  {
    var w := v + [s];
    forall j, k | 0 <= j < k < |w| ensures w[j] != w[k] {
      assert w[j] == v[j];
      if k < |v| {
        assert w[k] == v[k];
      }
    }
  }

  /** A board put in front of a path without repeats, and not on it, gives a path without repeats. */
  lemma {:induction false} DistinctCons(s: Board, v: seq<Board>)
    requires Distinct(v) && s !in v
    ensures Distinct([s] + v)
  {
    var w := [s] + v;
    forall j, k | 0 <= j < k < |w| ensures w[j] != w[k] {
      assert w[k] == v[k - 1];
      if j > 0 {
        assert w[j] == v[j - 1];
      }
    }
  }
}
