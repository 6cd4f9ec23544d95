/**
 * The transition model of algorithms/utils.py: boards, the blank lookup,
 * neighbour generation, the inverse move-direction lookup, cumulative path
 * costs and the inversion-parity repair of a shuffled board.
 *
 * A board is flattened row by row: cell (r, c) of the 3x3 grid is index
 * 3 * r + c. Python compares tuples of row tuples row by row, which is the
 * lexicographic order of the flattened sequence.
 */
module Utils {
  import opened Wrappers

  /** The direction in which the blank moves. */
  datatype Dir = Up | Down | Left | Right

  /** The order in which get_neighbors tries the directions. */
  const Dirs: seq<Dir> := [Up, Down, Left, Right]

  /** A 3x3 board, flattened row by row. */
  type Board = b: seq<int> | |b| == 9 witness [0, 1, 2, 3, 4, 5, 6, 7, 8]

  /** A (row, column) position on the grid. */
  datatype Pos = Pos(row: int, col: int)

  /** The move-cost table (`MOVE_COSTS`), a parameter of every search. */
  type MoveCosts = map<Dir, nat>

  /** Every direction has a cost, so `MOVE_COSTS[direction]` never fails. */
  predicate Complete(mc: MoveCosts)
  {
    Up in mc && Down in mc && Left in mc && Right in mc
  }

  /** `MOVE_COSTS.get(action, 1)`. */
  function CostOr1(mc: MoveCosts, d: Dir): nat
  {
    if d in mc then mc[d] else 1
  }

  function Last<T>(s: seq<T>): T
    requires |s| > 0
  {
    s[|s| - 1]
  }

  /** The row of cell index k: k divided by 3. */
  function Row(k: nat): (r: nat)
    ensures 3 * r <= k < 3 * r + 3
  {
    if k < 3 then 0 else 1 + Row(k - 3)
  }

  /** The column of cell index k (0 <= k < 9). */
  function Col(k: nat): int
  {
    k - 3 * Row(k)
  }

  predicate HasBlank(b: Board)
  {
    0 in b
  }

  /** The first index at or after k, in row-major order, that holds 0. */
  function FirstZeroFrom(b: Board, k: nat): (r: Option<nat>)
    requires k <= 9
    ensures r.Some? ==> k <= r.value < 9 && b[r.value] == 0
    ensures r.Some? ==> forall j :: k <= j < r.value ==> b[j] != 0
    ensures r.None? ==> forall j :: k <= j < 9 ==> b[j] != 0
    decreases 9 - k
  {
    if k == 9 then None
    else if b[k] == 0 then Some(k)
    else FirstZeroFrom(b, k + 1)
  }

  /** The index of the row-major-first blank cell. */
  function BlankIndex(b: Board): (k: nat)
    requires HasBlank(b)
    ensures k < 9 && b[k] == 0
    ensures forall j :: 0 <= j < k ==> b[j] != 0
  {
    FirstZeroFrom(b, 0).value
  }

  /** get_zero_position: the position of the row-major-first blank, or None. */
  function ZeroPosition(b: Board): (r: Option<Pos>)
    ensures r.None? <==> !HasBlank(b)
    ensures r.Some? ==> r.value == Pos(Row(BlankIndex(b)), Col(BlankIndex(b)))
  {
    match FirstZeroFrom(b, 0)
    case None => None
    case Some(k) => Some(Pos(Row(k), Col(k)))
  }

  /** Exactly one cell holds the blank. */
  predicate UniqueBlank(b: Board)
  {
    HasBlank(b) && forall j :: 0 <= j < 9 && b[j] == 0 ==> j == BlankIndex(b)
  }

  /** The board holds each of the digits 0..8 exactly once. */
  predicate IsPermutation(b: Board)
  {
    (forall i, j :: 0 <= i < j < 9 ==> b[i] != b[j]) &&
    (forall v :: 0 <= v < 9 ==> v in b)
  }

  lemma {:induction false} PermutationHasUniqueBlank(b: Board)
    requires IsPermutation(b)
    ensures UniqueBlank(b)
  {
    assert 0 in b;
  }

  // ---------------------------------------------------------------------
  // get_move_direction (algorithms/utils.py:10-17)

  /**
   * The direction the blank moved from prev to curr, None if it stayed.
   * Rows are compared first; within a row, comparing cell indices is
   * comparing columns (MoveDirectionByPosition).
   */
  function MoveDirection(prev: Board, curr: Board): (r: Option<Dir>)
    requires HasBlank(prev) && HasBlank(curr)
    ensures r.None? <==> BlankIndex(prev) == BlankIndex(curr)
  {
    var p := BlankIndex(prev);
    var c := BlankIndex(curr);
    if Row(c) < Row(p) then Some(Up)
    else if Row(c) > Row(p) then Some(Down)
    else if c < p then Some(Left)
    else if c > p then Some(Right)
    else None
  }

  /** get_move_direction compares the (row, column) pairs of get_zero_position. */
  lemma {:induction false} MoveDirectionByPosition(prev: Board, curr: Board)
    requires HasBlank(prev) && HasBlank(curr)
    ensures var p, c := ZeroPosition(prev).value, ZeroPosition(curr).value;
            MoveDirection(prev, curr) ==
              if c.row < p.row then Some(Up)
              else if c.row > p.row then Some(Down)
              else if c.col < p.col then Some(Left)
              else if c.col > p.col then Some(Right)
              else None
  {
  }

  // ---------------------------------------------------------------------
  // get_neighbors (algorithms/utils.py:19-30)

  /** The (row, column) offset of a move: `directions` in get_neighbors. */
  function Delta(d: Dir): (int, int)
  {
    match d
    case Up => (-1, 0)
    case Down => (1, 0)
    case Left => (0, -1)
    case Right => (0, 1)
  }

  function Opposite(d: Dir): Dir
  {
    match d
    case Up => Down
    case Down => Up
    case Left => Right
    case Right => Left
  }

  /** The cell index the blank reaches from cell k in direction d, if it stays on the grid. */
  function Step(k: int, d: Dir): (t: Option<nat>)
    requires 0 <= k < 9
    ensures t.Some? ==> t.value < 9 && t.value != k
  {
    var (dr, dc) := Delta(d);
    var r, c := Row(k) + dr, Col(k) + dc;
    if 0 <= r < 3 && 0 <= c < 3 then Some(3 * r + c) else None
  }

  /** Dirs lists every direction. */
  lemma {:induction false} EveryDir()
    ensures forall d: Dir :: d in Dirs
  {
    forall d: Dir ensures d in Dirs {
      match d
      case Up => assert Dirs[0] == d;
      case Down => assert Dirs[1] == d;
      case Left => assert Dirs[2] == d;
      case Right => assert Dirs[3] == d;
    }
  }

  /** The directions of ds, in their order, in which the blank at cell k stays on the grid. */
  function LegalAt(k: int, ds: seq<Dir>): (r: seq<Dir>)
    requires 0 <= k < 9
    ensures forall d :: d in r <==> d in ds && Step(k, d).Some?
    ensures |r| <= |ds|
  {
    if ds == [] then []
    else (if Step(k, ds[0]).Some? then [ds[0]] else []) + LegalAt(k, ds[1..])
  }

  /** A step and the step back in the opposite direction, and the direction read back from the cells. */
  lemma {:induction false} StepFacts(k: int, d: Dir)
    requires 0 <= k < 9 && Step(k, d).Some?
    ensures Step(Step(k, d).value, Opposite(d)) == Some(k)
    ensures var t := Step(k, d).value;
            match d
            case Up => Row(t) < Row(k)
            case Down => Row(t) > Row(k)
            case Left => Row(t) == Row(k) && Col(t) < Col(k)
            case Right => Row(t) == Row(k) && Col(t) > Col(k)
  {
  }

  /** The board with cells i and j exchanged. */
  function Swap(b: Board, i: int, j: int): Board
    requires 0 <= i < 9 && 0 <= j < 9
  {
    b[i := b[j]][j := b[i]]
  }

  lemma {:induction false} SwapFacts(b: Board, i: int, j: int)
    requires 0 <= i < 9 && 0 <= j < 9
    ensures Swap(b, i, j)[i] == b[j] && Swap(b, i, j)[j] == b[i]
    ensures forall k :: 0 <= k < 9 && k != i && k != j ==> Swap(b, i, j)[k] == b[k]
    ensures multiset(Swap(b, i, j)) == multiset(b)
  {
    assert b == b[i := b[i]];
  }

  lemma {:induction false} SwapPermutation(b: Board, i: int, j: int)
    requires IsPermutation(b) && 0 <= i < 9 && 0 <= j < 9
    ensures IsPermutation(Swap(b, i, j))
  {
    var n := Swap(b, i, j);
    SwapFacts(b, i, j);
    forall v | 0 <= v < 9 ensures v in n {
      assert v in b;
      assert v in multiset(n);
    }
    forall k, l | 0 <= k < l < 9 ensures n[k] != n[l] {
      var k' := if k == i then j else if k == j then i else k;
      var l' := if l == i then j else if l == j then i else l;
      assert n[k] == b[k'] && n[l] == b[l'];
    }
  }

  lemma {:induction false} SwapBack(b: Board, i: int, j: int)
    requires 0 <= i < 9 && 0 <= j < 9
    ensures Swap(Swap(b, i, j), j, i) == b
  {
    var r := Swap(Swap(b, i, j), j, i);
    SwapFacts(b, i, j);
    SwapFacts(Swap(b, i, j), j, i);
    assert forall k :: 0 <= k < 9 ==> r[k] == b[k];
  }

  /** The board reached by moving the blank in direction d: the blank and the target cell swap. */
  function Move(b: Board, d: Dir): (r: Option<Board>)
    requires HasBlank(b)
    ensures r.Some? <==> Step(BlankIndex(b), d).Some?
  {
    var k := BlankIndex(b);
    match Step(k, d)
    case None => None
    case Some(t) => Some(Swap(b, k, t))
  }

  /** A move keeps the tiles and leaves the blank on the target cell. */
  lemma {:induction false} MoveFacts(b: Board, d: Dir)
    requires HasBlank(b) && Move(b, d).Some?
    ensures multiset(Move(b, d).value) == multiset(b) && HasBlank(Move(b, d).value)
    ensures Move(b, d).value[Step(BlankIndex(b), d).value] == 0
    ensures Move(b, d).value == Swap(b, BlankIndex(b), Step(BlankIndex(b), d).value)
  {
    SwapFacts(b, BlankIndex(b), Step(BlankIndex(b), d).value);
  }

  function Options(o: Option<Board>): seq<Board>
  {
    if o.Some? then [o.value] else []
  }

  /** The moves get_neighbors collects while it tries the directions ds in turn. */
  function Collect(b: Board, ds: seq<Dir>): seq<Board>
    requires HasBlank(b)
  {
    if ds == [] then [] else Collect(b, ds[..|ds| - 1]) + Options(Move(b, ds[|ds| - 1]))
  }

  /** The result of get_neighbors. */
  function Neighbors(b: Board): seq<Board>
    requires HasBlank(b)
  {
    Collect(b, Dirs)
  }

  /** One round of get_neighbors' loop: the move in direction Dirs[i] is appended when it stays on the grid. */
  lemma {:induction false} CollectStep(b: Board, i: int)
    requires HasBlank(b) && 0 <= i < 4
    ensures var k := BlankIndex(b);
            var (dx, dy) := Delta(Dirs[i]);
            var nx, ny := Row(k) + dx, Col(k) + dy;
            Collect(b, Dirs[..i + 1]) ==
              Collect(b, Dirs[..i]) + if 0 <= nx < 3 && 0 <= ny < 3 then [Swap(b, k, 3 * nx + ny)] else []
  {
    assert Collect(b, Dirs[..i + 1]) == Collect(b, Dirs[..i]) + Options(Move(b, Dirs[i])) by {
      var ds := Dirs[..i + 1];
      assert ds[..|ds| - 1] == Dirs[..i] && ds[|ds| - 1] == Dirs[i];
    }
    MoveOptions(b, Dirs[i]);
  }

  /** The list a move contributes: the swapped board when the target cell is on the grid, else nothing. */
  lemma {:induction false} MoveOptions(b: Board, d: Dir)
    requires HasBlank(b)
    ensures var k := BlankIndex(b);
            var (dx, dy) := Delta(d);
            var nx, ny := Row(k) + dx, Col(k) + dy;
            Options(Move(b, d)) == if 0 <= nx < 3 && 0 <= ny < 3 then [Swap(b, k, 3 * nx + ny)] else []
  {
  }

  /** get_neighbors: copies the rows and swaps the blank, once per direction. */
  method GetNeighbors(state: Board) returns (moves: seq<Board>)
    requires HasBlank(state)
    ensures moves == Neighbors(state)
  {
    var p := ZeroPosition(state).value;
    var x, y := p.row, p.col;
    moves := [];
    for i := 0 to 4
      invariant moves == Collect(state, Dirs[..i])
    {
      CollectStep(state, i);
      var (dx, dy) := Delta(Dirs[i]);
      var nx, ny := x + dx, y + dy;
      if 0 <= nx < 3 && 0 <= ny < 3 {
        var newState := Swap(state, 3 * x + y, 3 * nx + ny);
        moves := moves + [newState];
      }
    }
    assert Dirs[..4] == Dirs;
  }

  /** The neighbours are the legal moves, listed in the order up, down, left, right. */
  lemma {:induction false} NeighborsInOrder(b: Board)
    requires HasBlank(b)
    ensures Neighbors(b) == Options(Move(b, Up)) + Options(Move(b, Down)) + Options(Move(b, Left)) + Options(Move(b, Right))
  {
    var o := [Options(Move(b, Up)), Options(Move(b, Down)), Options(Move(b, Left)), Options(Move(b, Right))];
    assert Dirs[..0] == [];
    assert Collect(b, Dirs[..1]) == o[0] by { assert Dirs[..1][..0] == Dirs[..0]; }
    assert Collect(b, Dirs[..2]) == o[0] + o[1] by { assert Dirs[..2][..1] == Dirs[..1]; }
    assert Collect(b, Dirs[..3]) == o[0] + o[1] + o[2] by { assert Dirs[..3][..2] == Dirs[..2]; }
    assert Collect(b, Dirs) == o[0] + o[1] + o[2] + o[3] by { assert Dirs[..3] == Dirs[..|Dirs| - 1]; }
  }

  lemma {:induction false} CollectMember(b: Board, ds: seq<Dir>, n: Board)
    requires HasBlank(b)
    ensures n in Collect(b, ds) <==> exists i :: 0 <= i < |ds| && Move(b, ds[i]) == Some(n)
  {
    if ds != [] {
      var front := ds[..|ds| - 1];
      CollectMember(b, front, n);
      if exists i :: 0 <= i < |ds| && Move(b, ds[i]) == Some(n) {
        var i :| 0 <= i < |ds| && Move(b, ds[i]) == Some(n);
        if i < |ds| - 1 {
          assert front[i] == ds[i];
        }
      }
      if exists i :: 0 <= i < |front| && Move(b, front[i]) == Some(n) {
        var i :| 0 <= i < |front| && Move(b, front[i]) == Some(n);
        assert ds[i] == front[i];
      }
    }
  }

  /** A neighbour is exactly a board reached by one legal move. */
  lemma {:induction false} NeighborsExactly(b: Board, n: Board)
    requires HasBlank(b)
    ensures n in Neighbors(b) <==> exists d :: Move(b, d) == Some(n)
  {
    CollectMember(b, Dirs, n);
    if exists d :: Move(b, d) == Some(n) {
      var d :| Move(b, d) == Some(n);
      assert Dirs[match d case Up => 0 case Down => 1 case Left => 2 case Right => 3] == d;
    }
  }

  /** Every neighbour keeps the multiset of cells and still holds a blank. */
  lemma {:induction false} NeighborsKeepTiles(b: Board)
    requires HasBlank(b)
    ensures forall n :: n in Neighbors(b) ==> multiset(n) == multiset(b) && HasBlank(n)
  {
    forall d | Move(b, d).Some? ensures multiset(Move(b, d).value) == multiset(b) && HasBlank(Move(b, d).value) {
      MoveFacts(b, d);
    }
    forall n | n in Neighbors(b) ensures multiset(n) == multiset(b) && HasBlank(n) {
      NeighborsExactly(b, n);
    }
  }

  /**
   * The number of neighbours: 2 at a corner, 3 on an edge, 4 in the centre
   * (each axis contributes 2 moves when the blank is in its middle, else 1).
   */
  lemma {:induction false} NeighborsCount(b: Board)
    requires HasBlank(b)
    ensures var k := BlankIndex(b);
            |Neighbors(b)| == (if Row(k) == 1 then 2 else 1) + (if Col(k) == 1 then 2 else 1)
  {
    NeighborsInOrder(b);
    var k := BlankIndex(b);
    assert |Options(Move(b, Up))| == if Row(k) > 0 then 1 else 0;
    assert |Options(Move(b, Down))| == if Row(k) < 2 then 1 else 0;
    assert |Options(Move(b, Left))| == if Col(k) > 0 then 1 else 0;
    assert |Options(Move(b, Right))| == if Col(k) < 2 then 1 else 0;
  }

  /** After a legal move the blank is unique again and sits at the target cell. */
  lemma {:induction false} MovedBlank(b: Board, d: Dir)
    requires UniqueBlank(b) && Move(b, d).Some?
    ensures UniqueBlank(Move(b, d).value)
    ensures BlankIndex(Move(b, d).value) == Step(BlankIndex(b), d).value
  {
    MoveFacts(b, d);
    var n := Move(b, d).value;
    var t := Step(BlankIndex(b), d).value;
    SwapFacts(b, BlankIndex(b), t);
    assert forall j :: 0 <= j < 9 && n[j] == 0 ==> j == t;
  }

  /**
   * A neighbour of a permutation is a permutation, and differs from it only
   * by the exchange of the two blank cells.
   */
  lemma {:induction false} NeighborOfPermutation(b: Board, n: Board)
    requires IsPermutation(b) && n in Neighbors(b)
    ensures IsPermutation(n)
    ensures n == Swap(b, BlankIndex(b), BlankIndex(n)) && BlankIndex(b) != BlankIndex(n)
  {
    PermutationHasUniqueBlank(b);
    NeighborsExactly(b, n);
    var d :| Move(b, d) == Some(n);
    MovedBlank(b, d);
    MoveFacts(b, d);
    SwapPermutation(b, BlankIndex(b), BlankIndex(n));
  }

  /** get_move_direction recovers the direction of every legal move. */
  lemma {:induction false} MoveDirectionOfMove(b: Board, d: Dir)
    requires UniqueBlank(b) && Move(b, d).Some?
    ensures HasBlank(Move(b, d).value)
    ensures MoveDirection(b, Move(b, d).value) == Some(d)
  {
    MovedBlank(b, d);
    StepFacts(BlankIndex(b), d);
  }

  /** The blank did not move: get_move_direction answers None. */
  lemma {:induction false} MoveDirectionSame(b: Board)
    requires HasBlank(b)
    ensures MoveDirection(b, b) == None
  {
  }

  /** Moving back in the opposite direction undoes a move. */
  lemma {:induction false} MoveInverse(b: Board, d: Dir)
    requires UniqueBlank(b) && Move(b, d).Some?
    ensures UniqueBlank(Move(b, d).value)
    ensures Move(Move(b, d).value, Opposite(d)) == Some(b)
  {
    MovedBlank(b, d);
    var k := BlankIndex(b);
    var t := Step(k, d).value;
    StepFacts(k, d);
    MoveFacts(b, d);
    MoveFacts(Move(b, d).value, Opposite(d));
    SwapBack(b, k, t);
  }

  /**
   * The neighbour relation is symmetric, and the direction back is the
   * opposite one.
   */
  lemma {:induction false} NeighborsSymmetric(b: Board, n: Board)
    requires UniqueBlank(b) && n in Neighbors(b)
    ensures UniqueBlank(n) && b in Neighbors(n)
    ensures MoveDirection(b, n).Some? && MoveDirection(n, b) == Some(Opposite(MoveDirection(b, n).value))
  {
    NeighborsExactly(b, n);
    var d :| Move(b, d) == Some(n);
    MoveInverse(b, d);
    MoveDirectionOfMove(b, d);
    MoveDirectionOfMove(n, Opposite(d));
    NeighborsExactly(n, b);
  }

  // ---------------------------------------------------------------------
  // Paths

  predicate AllBlanked(path: seq<Board>)
  {
    forall i :: 0 <= i < |path| ==> HasBlank(path[i])
  }

  /** A non-empty sequence of boards, each a neighbour of the one before. */
  ghost predicate IsWalk(p: seq<Board>)
  {
    |p| >= 1 && AllBlanked(p) && forall i :: 0 <= i < |p| - 1 ==> p[i + 1] in Neighbors(p[i])
  }

  lemma {:induction false} WalkSnoc(p: seq<Board>, n: Board)
    requires IsWalk(p) && n in Neighbors(Last(p))
    ensures IsWalk(p + [n])
  {
    NeighborsKeepTiles(Last(p));
    var q := p + [n];
    forall i | 0 <= i < |q| - 1 ensures q[i + 1] in Neighbors(q[i]) {
      if i < |p| - 1 {
        assert q[i] == p[i] && q[i + 1] == p[i + 1];
      }
    }
  }

  /** A sequence without repeated boards. */
  predicate Distinct(p: seq<Board>)
  {
    forall i, j :: 0 <= i < j < |p| ==> p[i] != p[j]
  }

  // ---------------------------------------------------------------------
  // calculate_costs (algorithms/utils.py:32-38)

  /** The cost added for the step prev -> curr: `MOVE_COSTS[direction] if direction else 0`. */
  function StepCost(mc: MoveCosts, prev: Board, curr: Board): nat
    requires Complete(mc) && HasBlank(prev) && HasBlank(curr)
  {
    var direction := MoveDirection(prev, curr);
    if direction.Some? then mc[direction.value] else 0
  }

  /** The cumulative cost list of calculate_costs. */
  function Costs(mc: MoveCosts, path: seq<Board>): (costs: seq<nat>)
    requires Complete(mc) && AllBlanked(path)
    ensures |costs| == if |path| == 0 then 1 else |path|
    ensures costs[0] == 0
    decreases |path|
  {
    if |path| <= 1 then [0]
    else
      var c := Costs(mc, path[..|path| - 1]);
      c + [Last(c) + StepCost(mc, path[|path| - 2], path[|path| - 1])]
  }

  /** costs[i] = costs[i-1] + the cost of the step path[i-1] -> path[i]. */
  lemma {:induction false} CostsStep(mc: MoveCosts, path: seq<Board>, i: int)
    requires Complete(mc) && AllBlanked(path) && 1 <= i < |path|
    ensures Costs(mc, path)[i] == Costs(mc, path)[i - 1] + StepCost(mc, path[i - 1], path[i])
    decreases |path|
  {
    var front := path[..|path| - 1];
    if i < |path| - 1 {
      CostsStep(mc, front, i);
    }
  }

  /** With non-negative move costs the cumulative costs never decrease. */
  lemma {:induction false} CostsNondecreasing(mc: MoveCosts, path: seq<Board>)
    requires Complete(mc) && AllBlanked(path)
    ensures forall i, j :: 0 <= i <= j < |Costs(mc, path)| ==> Costs(mc, path)[i] <= Costs(mc, path)[j]
    decreases |path|
  {
    if |path| > 1 {
      CostsNondecreasing(mc, path[..|path| - 1]);
    }
  }

  /** Taking one member out of a finite set leaves one fewer member. */
  lemma {:induction false} RemoveOne<T>(s: set<T>, x: T)
    requires x in s
    ensures |s - {x}| == |s| - 1
  {
    assert s == (s - {x}) + {x};
  }

  /** A prefix of a sequence extended by one element is a prefix of anything that extension is a prefix of. */
  lemma {:induction false} PrefixSnoc<T>(a: seq<T>, x: T, c: seq<T>)
    requires a + [x] <= c
    ensures a <= c
  {
    assert c[..|a|] == (a + [x])[..|a|] == a;
  }

  /** A prefix of a sequence stays a prefix when the sequence grows by one element. */
  lemma {:induction false} PrefixGrows<T>(a: seq<T>, b: seq<T>, x: T)
    requires a <= b
    ensures a <= b + [x]
  {
    assert (b + [x])[..|a|] == b[..|a|];
  }

  /** Every element of xs is in s. */
  ghost predicate AllIn<T>(xs: seq<T>, s: set<T>)
  {
    forall x :: x in xs ==> x in s
  }

  /** One more element of xs, now in the (possibly larger) set s'. */
  lemma {:induction false} AllInStep<T>(xs: seq<T>, i: int, s: set<T>, s': set<T>)
    requires 0 <= i < |xs| && AllIn(xs[..i], s) && s <= s' && xs[i] in s'
    ensures AllIn(xs[..i + 1], s')
  {
    assert xs[..i + 1] == xs[..i] + [xs[i]];
  }

  /** A non-empty sequence is its front followed by its last element. */
  lemma {:induction false} SplitLast(w: seq<Board>)
    requires |w| >= 1
    ensures w[..|w| - 1] + [w[|w| - 1]] == w
  {
  }

  lemma {:induction false} AllBlankedSnoc(p: seq<Board>, n: Board)
    requires AllBlanked(p) && HasBlank(n)
    ensures AllBlanked(p + [n])
  {
    var q := p + [n];
    forall i | 0 <= i < |q| ensures HasBlank(q[i]) {
      if i < |p| {
        assert q[i] == p[i];
      }
    }
  }

  /** Extending a path by one board adds that step's cost to the path's total. */
  lemma {:induction false} CostsSnoc(mc: MoveCosts, p: seq<Board>, n: Board)
    requires Complete(mc) && |p| >= 1 && AllBlanked(p) && HasBlank(n)
    ensures AllBlanked(p + [n])
    ensures Last(Costs(mc, p + [n])) == Last(Costs(mc, p)) + StepCost(mc, Last(p), n)
  {
    AllBlankedSnoc(p, n);
    var q := p + [n];
    assert q[..|q| - 1] == p;
  }

  /** calculate_costs of a path extended by one board: one more cumulative cost. */
  lemma {:induction false} CostsExtend(mc: MoveCosts, p: seq<Board>, n: Board)
    requires Complete(mc) && |p| >= 1 && AllBlanked(p) && HasBlank(n)
    ensures AllBlanked(p + [n])
    ensures Costs(mc, p + [n]) == Costs(mc, p) + [Last(Costs(mc, p)) + StepCost(mc, Last(p), n)]
  {
    AllBlankedSnoc(p, n);
    var q := p + [n];
    assert q[..|q| - 1] == p;
    CostsUnfold(mc, q);
    assert q[|q| - 2] == Last(p) && q[|q| - 1] == n;
  }

  /** One unfolding of Costs. */
  lemma {:induction false} CostsUnfold(mc: MoveCosts, q: seq<Board>)
    requires Complete(mc) && AllBlanked(q) && |q| >= 2
    ensures AllBlanked(q[..|q| - 1])
    ensures var c := Costs(mc, q[..|q| - 1]);
      Costs(mc, q) == c + [Last(c) + StepCost(mc, q[|q| - 2], q[|q| - 1])]
  {
  }

  function Min(a: int, b: int): int
  {
    if a <= b then a else b
  }

  function Max(a: int, b: int): int
  {
    if a >= b then a else b
  }

  /** calculate_costs: appends one cumulative cost per step of the path. */
  method CalculateCosts(mc: MoveCosts, path: seq<Board>) returns (costs: seq<nat>)
    requires Complete(mc) && AllBlanked(path)
    ensures costs == Costs(mc, path)
  {
    costs := [0];
    var i := 1;
    while i < |path|
      invariant 1 <= i
      invariant costs == Costs(mc, path[..Min(i, |path|)])
    {
      assert Min(i, |path|) == i && Min(i + 1, |path|) == i + 1;
      CostsAt(mc, path, i);
      var step := StepCost(mc, path[i - 1], path[i]);
      costs := costs + [Last(costs) + step];
      i := i + 1;
    }
    assert path[..Min(i, |path|)] == path;
  }

  /** The cost list of the first i + 1 boards extends that of the first i by step i's cost. */
  lemma {:induction false} CostsAt(mc: MoveCosts, path: seq<Board>, i: nat)
    requires Complete(mc) && AllBlanked(path) && 1 <= i < |path|
    ensures AllBlanked(path[..i]) && AllBlanked(path[..i + 1])
    ensures Costs(mc, path[..i + 1]) ==
      Costs(mc, path[..i]) + [Last(Costs(mc, path[..i])) + StepCost(mc, path[i - 1], path[i])]
  {
    var p := path[..i + 1];
    assert p[..|p| - 1] == path[..i];
    assert p[|p| - 2] == path[i - 1] && p[|p| - 1] == path[i];
  }

  // ---------------------------------------------------------------------
  // The parity repair of generate_random_state (algorithms/utils.py:51-76)

  /** `[num for row in state for num in row if num != 0]`. */
  function NonBlank(s: seq<int>): (r: seq<int>)
    ensures |r| <= |s|
  {
    if s == [] then [] else NonBlank(s[..|s| - 1]) + (if Last(s) != 0 then [Last(s)] else [])
  }

  /** The number of k in [lo, hi) with s[k] < v: the inner loop's count for a fixed i. */
  function CountLess(v: int, s: seq<int>, lo: int, hi: int): nat
    requires 0 <= lo && hi <= |s|
    decreases hi - lo
  {
    if hi <= lo then 0 else CountLess(v, s, lo, hi - 1) + (if v > s[hi - 1] then 1 else 0)
  }

  /** The inversions contributed by the first n positions. */
  function InvUpTo(s: seq<int>, n: int): nat
    requires 0 <= n <= |s|
  {
    if n == 0 then 0 else InvUpTo(s, n - 1) + CountLess(s[n - 1], s, n, |s|)
  }

  /** The number of pairs i < j with s[i] > s[j]. */
  function Inversions(s: seq<int>): nat
  {
    InvUpTo(s, |s|)
  }

  /**
   * The rebuilt board: a blank cell stays 0, every other cell takes the
   * next value of f (the `counter` loop).
   */
  function Refill(cells: seq<int>, f: seq<int>): (r: seq<int>)
    requires |f| == |NonBlank(cells)|
    ensures |r| == |cells|
  {
    if cells == [] then []
    else if Last(cells) == 0 then Refill(cells[..|cells| - 1], f) + [0]
    else Refill(cells[..|cells| - 1], f[..|f| - 1]) + [Last(f)]
  }

  lemma {:induction false} CountLessFront(v: int, s: seq<int>, lo: int, hi: int)
    requires 0 <= lo < hi <= |s|
    ensures CountLess(v, s, lo, hi) == (if v > s[lo] then 1 else 0) + CountLess(v, s, lo + 1, hi)
    decreases hi - lo
  {
    if hi - 1 > lo {
      CountLessFront(v, s, lo, hi - 1);
    }
  }

  lemma {:induction false} CountLessAgree(v: int, s: seq<int>, t: seq<int>, lo: int, hi: int)
    requires 0 <= lo && hi <= |s| && |s| == |t|
    requires forall k :: lo <= k < hi ==> s[k] == t[k]
    ensures CountLess(v, s, lo, hi) == CountLess(v, t, lo, hi)
    decreases hi - lo
  {
    if hi > lo {
      CountLessAgree(v, s, t, lo, hi - 1);
    }
  }

  lemma {:induction false} InvUpToTail(s: seq<int>, t: seq<int>, n: int)
    requires 2 <= n <= |s| == |t|
    requires forall k :: 2 <= k < |s| ==> s[k] == t[k]
    ensures InvUpTo(s, n) - InvUpTo(s, 2) == InvUpTo(t, n) - InvUpTo(t, 2)
  {
    if n > 2 {
      InvUpToTail(s, t, n - 1);
      CountLessAgree(s[n - 1], s, t, n, |s|);
    }
  }

  /** Swapping the first two (distinct) values changes the inversion count by one. */
  lemma {:induction false} SwapFrontParity(s: seq<int>)
    requires |s| >= 2 && s[0] != s[1]
    ensures var t := s[0 := s[1]][1 := s[0]];
            Inversions(t) == Inversions(s) + 1 || Inversions(t) + 1 == Inversions(s)
  {
    var t := s[0 := s[1]][1 := s[0]];
    InvUpToTail(s, t, |s|);
    CountLessFront(s[0], s, 1, |s|);
    CountLessFront(s[1], t, 1, |s|);
    CountLessAgree(s[0], s, t, 2, |s|);
    CountLessAgree(s[1], s, t, 2, |s|);
    assert InvUpTo(s, 1) == CountLess(s[0], s, 1, |s|);
    assert InvUpTo(s, 2) == CountLess(s[0], s, 1, |s|) + CountLess(s[1], s, 2, |s|);
    assert InvUpTo(t, 1) == CountLess(s[1], t, 1, |s|);
    assert InvUpTo(t, 2) == CountLess(s[1], t, 1, |s|) + CountLess(s[0], t, 2, |s|);
  }

  lemma {:induction false} NonBlankNoZero(s: seq<int>)
    ensures 0 !in NonBlank(s)
  {
    if s != [] {
      NonBlankNoZero(s[..|s| - 1]);
    }
  }

  lemma {:induction false} NonBlankMultiset(s: seq<int>)
    ensures multiset(NonBlank(s)) <= multiset(s)
    ensures forall x :: x != 0 && x in s ==> x in NonBlank(s)
  {
    if s != [] {
      var front := s[..|s| - 1];
      NonBlankMultiset(front);
      assert s == front + [Last(s)];
      forall x | x != 0 && x in s ensures x in NonBlank(s) {
        if x in front {
          assert x in NonBlank(front);
        }
      }
    }
  }

  lemma {:induction false} NonBlankPrefix(s: seq<int>, k: int)
    requires 0 <= k <= |s|
    ensures |NonBlank(s[..k])| <= |NonBlank(s)|
    decreases |s|
  {
    if k < |s| {
      NonBlankPrefix(s[..|s| - 1], k);
      assert s[..|s| - 1][..k] == s[..k];
    } else {
      assert s[..k] == s;
    }
  }

  lemma {:induction false} RefillMultiset(cells: seq<int>, f: seq<int>)
    requires |f| == |NonBlank(cells)|
    ensures multiset(Refill(cells, f)) + multiset(NonBlank(cells)) == multiset(cells) + multiset(f)
  {
    if cells != [] {
      var front := cells[..|cells| - 1];
      if Last(cells) == 0 {
        RefillMultiset(front, f);
        RefillSnocBlank(cells, f);
      } else {
        RefillMultiset(front, f[..|f| - 1]);
        RefillSnocTile(cells, f);
      }
    }
  }

  lemma {:induction false} RefillSnocBlank(cells: seq<int>, f: seq<int>)
    requires cells != [] && Last(cells) == 0 && |f| == |NonBlank(cells)|
    ensures var front := cells[..|cells| - 1];
      |f| == |NonBlank(front)| &&
      (multiset(Refill(front, f)) + multiset(NonBlank(front)) == multiset(front) + multiset(f) ==>
        multiset(Refill(cells, f)) + multiset(NonBlank(cells)) == multiset(cells) + multiset(f))
  {
    var front := cells[..|cells| - 1];
    assert cells == front + [0];
    var nb := NonBlank(front);
    assert NonBlank(cells) == nb;
    if multiset(Refill(front, f)) + multiset(nb) == multiset(front) + multiset(f) {
      var r := Refill(front, f);
      assert Refill(cells, f) == r + [0];
      assert multiset(r + [0]) == multiset(r) + multiset{0};
      assert multiset(cells) == multiset(front) + multiset{0};
      UnionShiftLeft(multiset(r), multiset(nb), multiset(front), multiset(f), multiset{0});
    }
  }

  lemma {:induction false} RefillSnocTile(cells: seq<int>, f: seq<int>)
    requires cells != [] && Last(cells) != 0 && |f| == |NonBlank(cells)|
    ensures |f| >= 1
    ensures var front, ff := cells[..|cells| - 1], f[..|f| - 1];
      |ff| == |NonBlank(front)| &&
      (multiset(Refill(front, ff)) + multiset(NonBlank(front)) == multiset(front) + multiset(ff) ==>
        multiset(Refill(cells, f)) + multiset(NonBlank(cells)) == multiset(cells) + multiset(f))
  {
    var front, x := cells[..|cells| - 1], Last(cells);
    assert cells == front + [x];
    var nb := NonBlank(front);
    assert NonBlank(cells) == nb + [x];
    var ff, y := f[..|f| - 1], Last(f);
    assert f == ff + [y];
    if multiset(Refill(front, ff)) + multiset(nb) == multiset(front) + multiset(ff) {
      var r := Refill(front, ff);
      assert Refill(cells, f) == r + [y];
      assert multiset(r + [y]) == multiset(r) + multiset{y};
      assert multiset(nb + [x]) == multiset(nb) + multiset{x};
      assert multiset(cells) == multiset(front) + multiset{x};
      assert multiset(f) == multiset(ff) + multiset{y};
      UnionShift(multiset(r), multiset(nb), multiset(front), multiset(ff), multiset{y}, multiset{x});
    }
  }

  /** Adding x to the first summand on both sides of an equation between multiset sums. */
  lemma {:induction false} UnionShiftLeft<T>(a: multiset<T>, b: multiset<T>, c: multiset<T>, d: multiset<T>, x: multiset<T>)
    requires a + b == c + d
    ensures (a + x) + b == (c + x) + d
  {
    assert forall v :: ((a + x) + b)[v] == (a + b)[v] + x[v];
    assert forall v :: ((c + x) + d)[v] == (c + d)[v] + x[v];
  }

  /** Adding x to one side and y to the other of an equation between multiset sums. */
  lemma {:induction false} UnionShift<T>(a: multiset<T>, b: multiset<T>, c: multiset<T>, d: multiset<T>, x: multiset<T>, y: multiset<T>)
    requires a + b == c + d
    ensures (a + x) + (b + y) == (c + y) + (d + x)
  {
    assert forall v :: ((a + x) + (b + y))[v] == (a + b)[v] + x[v] + y[v];
    assert forall v :: ((c + y) + (d + x))[v] == (c + d)[v] + x[v] + y[v];
  }

  /** The rebuilt board lists exactly the supplied tiles, in order. */
  lemma {:induction false} RefillNonBlank(cells: seq<int>, f: seq<int>)
    requires |f| == |NonBlank(cells)| && 0 !in f
    ensures NonBlank(Refill(cells, f)) == f
  {
    if cells != [] {
      var front, x := cells[..|cells| - 1], Last(cells);
      assert cells == front + [x];
      if x == 0 {
        RefillNonBlank(front, f);
        var r := Refill(front, f);
        assert Refill(cells, f) == r + [0];
        assert (r + [0])[..|r|] == r;
      } else {
        var ff := f[..|f| - 1];
        assert f == ff + [Last(f)];
        assert Last(f) in f;
        RefillNonBlank(front, ff);
        var r := Refill(front, ff);
        assert Refill(cells, f) == r + [Last(f)];
        assert (r + [Last(f)])[..|r|] == r;
      }
    }
  }

  /** The rebuilt board has its blanks exactly where the original had them. */
  lemma {:induction false} RefillKeepsBlanks(cells: seq<int>, f: seq<int>)
    requires |f| == |NonBlank(cells)| && 0 !in f
    ensures forall k :: 0 <= k < |cells| ==> (Refill(cells, f)[k] == 0 <==> cells[k] == 0)
  {
    if cells != [] {
      var front, x := cells[..|cells| - 1], Last(cells);
      if x == 0 {
        RefillKeepsBlanks(front, f);
      } else {
        var ff := f[..|f| - 1];
        assert Last(f) in f;
        assert forall z :: z in ff ==> z in f;
        RefillKeepsBlanks(front, ff);
      }
    }
  }

  lemma {:induction false} DistinctCount(s: seq<int>, x: int)
    requires forall i, j :: 0 <= i < j < |s| ==> s[i] != s[j]
    ensures multiset(s)[x] <= 1
  {
    if s != [] {
      assert s == [s[0]] + s[1..];
      DistinctCount(s[1..], x);
      if s[0] == x {
        assert x !in s[1..];
      }
    }
  }

  /** The first i' >= i whose tile pair (i', i'+1) holds two tiles, |s| if none. */
  function FirstTilePair(s: seq<int>, i: nat): (r: nat)
    requires i <= |s|
    ensures i <= r <= |s|
    ensures r < |s| ==> r + 1 < |s| && s[r] != 0 && s[r + 1] != 0
    decreases |s| - i
  {
    if i + 1 >= |s| then |s|
    else if s[i] != 0 && s[i + 1] != 0 then i
    else FirstTilePair(s, i + 1)
  }

  /** The double loop of generate_random_state that counts inversions. */
  method CountInversions(flat: seq<int>) returns (inversions: nat)
    ensures inversions == Inversions(flat)
  {
    inversions := 0;
    for i := 0 to |flat|
      invariant inversions == InvUpTo(flat, i)
    {
      for j := i + 1 to |flat|
        invariant inversions == InvUpTo(flat, i) + CountLess(flat[i], flat, i + 1, j)
      {
        if flat[i] > flat[j] {
          inversions := inversions + 1;
        }
      }
    }
  }

  /** The loop of generate_random_state that swaps the first adjacent pair of tiles and stops. */
  method SwapFirstTilePair(flat: seq<int>) returns (r: seq<int>)
    ensures var k := FirstTilePair(flat, 0);
            r == if k < |flat| then flat[k := flat[k + 1]][k + 1 := flat[k]] else flat
  {
    r := flat;
    var i := 0;
    while i < |r| - 1
      invariant 0 <= i <= |flat| && r == flat
      invariant FirstTilePair(flat, i) == FirstTilePair(flat, 0)
    {
      if r[i] != 0 && r[i + 1] != 0 {
        r := r[i := r[i + 1]][i + 1 := r[i]];
        break;
      }
      i := i + 1;
    }
  }

  /** The nested loops of generate_random_state that refill the non-blank cells with the tiles of flat. */
  method Rebuild(numbers: Board, flat: seq<int>) returns (state: Board)
    requires |flat| == |NonBlank(numbers)|
    ensures state == Refill(numbers, flat)
  {
    var counter := 0;
    var newState: seq<int> := [];
    assert numbers[..0] == [];
    for i := 0 to 3
      invariant counter == |NonBlank(numbers[..3 * i])| && counter <= |flat|
      invariant newState == Refill(numbers[..3 * i], flat[..counter])
    {
      for j := 0 to 3
        invariant counter == |NonBlank(numbers[..3 * i + j])| && counter <= |flat|
        invariant newState == Refill(numbers[..3 * i + j], flat[..counter])
      {
        RefillStep(numbers, 3 * i + j, flat, counter);
        if numbers[3 * i + j] == 0 {
          newState := newState + [0];
        } else {
          newState := newState + [flat[counter]];
          counter := counter + 1;
        }
      }
    }
    assert numbers[..9] == numbers;
    assert flat[..counter] == flat;
    state := newState;
  }

  /** Refilling a board with a rearrangement of its own tiles. */
  lemma {:induction false} RefillFacts(cells: seq<int>, f: seq<int>)
    requires |f| == |NonBlank(cells)| && 0 !in f && multiset(f) == multiset(NonBlank(cells))
    ensures multiset(Refill(cells, f)) == multiset(cells)
    ensures NonBlank(Refill(cells, f)) == f
    ensures forall k :: 0 <= k < |cells| ==> (Refill(cells, f)[k] == 0 <==> cells[k] == 0)
  {
    RefillMultiset(cells, f);
    RefillNonBlank(cells, f);
    RefillKeepsBlanks(cells, f);
    var a, b := multiset(Refill(cells, f)), multiset(f);
    assert forall v :: (a + b)[v] == a[v] + b[v];
    assert forall v :: (multiset(cells) + b)[v] == multiset(cells)[v] + b[v];
  }

  /** One cell of the rebuild: a blank copies 0, a tile takes the next value of f. */
  lemma {:induction false} RefillStep(cells: seq<int>, k: int, f: seq<int>, c: int)
    requires 0 <= k < |cells| && c == |NonBlank(cells[..k])| && |NonBlank(cells)| == |f|
    ensures c + (if cells[k] == 0 then 0 else 1) == |NonBlank(cells[..k + 1])| <= |f|
    ensures cells[k] == 0 ==> Refill(cells[..k + 1], f[..c]) == Refill(cells[..k], f[..c]) + [0]
    ensures cells[k] != 0 ==> Refill(cells[..k + 1], f[..c + 1]) == Refill(cells[..k], f[..c]) + [f[c]]
  {
    assert cells[..k + 1][..k] == cells[..k];
    NonBlankPrefix(cells, k + 1);
    if cells[k] != 0 {
      assert f[..c + 1][..c] == f[..c];
    }
  }

  /**
   * generate_random_state after the shuffle (`numbers` is the shuffled
   * board): when the non-blank tiles have an odd number of inversions, swap
   * the first two of them and rebuild the board, keeping the blank where it
   * was. The result is then always of even parity, hence solvable.
   */
  method GenerateRandomState(numbers: Board) returns (state: Board)
    requires IsPermutation(numbers)
    ensures multiset(state) == multiset(numbers)
    ensures forall k :: 0 <= k < 9 ==> (state[k] == 0 <==> numbers[k] == 0)
    ensures Inversions(NonBlank(state)) % 2 == 0
    ensures Inversions(NonBlank(numbers)) % 2 == 0 ==> state == numbers
  {
    state := numbers;
    var flatState := NonBlank(state);
    var inversions := CountInversions(flatState);
    if inversions % 2 != 0 {
      ghost var original := flatState;
      flatState := SwapFirstTilePair(flatState);
      ParityRepaired(numbers, original, flatState);
      state := Rebuild(numbers, flatState);
      RefillFacts(numbers, flatState);
      OddPlusMinusOne(inversions, Inversions(flatState));
    }
  }

  lemma {:induction false} OddPlusMinusOne(x: int, y: int)
    requires x % 2 != 0 && (y == x + 1 || y + 1 == x)
    ensures y % 2 == 0
  {
  }

  /** The tiles of a permutation board: no blank, at least two of them, the first two distinct. */
  lemma {:induction false} TilesOfPermutation(numbers: Board)
    requires IsPermutation(numbers)
    ensures 0 !in NonBlank(numbers) && |NonBlank(numbers)| >= 2
    ensures NonBlank(numbers)[0] != NonBlank(numbers)[1]
  {
    var original := NonBlank(numbers);
    NonBlankNoZero(numbers);
    NonBlankMultiset(numbers);
    assert 1 in original && 2 in original by {
      assert 1 in numbers && 2 in numbers;
    }
    assert |original| >= 2;
    TilesDistinct(numbers, original);
  }

  lemma {:induction false} TilesDistinct(numbers: Board, original: seq<int>)
    requires IsPermutation(numbers) && |original| >= 2 && multiset(original) <= multiset(numbers)
    ensures original[0] != original[1]
  {
    if original[0] == original[1] {
      assert original == [original[0], original[0]] + original[2..];
      assert multiset(original)[original[0]] >= 2;
      DistinctCount(numbers, original[0]);
    }
  }

  /** Swapping two distinct front values keeps the values and flips the parity. */
  lemma {:induction false} SwapFront(original: seq<int>, swapped: seq<int>)
    requires |original| >= 2 && original[0] != original[1] && 0 !in original
    requires swapped == original[0 := original[1]][1 := original[0]]
    ensures |swapped| == |original| && 0 !in swapped && multiset(swapped) == multiset(original)
    ensures Inversions(swapped) == Inversions(original) + 1 || Inversions(swapped) + 1 == Inversions(original)
  {
    SwapFrontParity(original);
    assert original == [original[0], original[1]] + original[2..];
    assert swapped == [original[1], original[0]] + original[2..];
    assert 0 !in multiset(original);
  }

  /** The tiles of a permutation board, after the first pair is swapped, have the other parity. */
  lemma {:induction false} ParityRepaired(numbers: Board, original: seq<int>, swapped: seq<int>)
    requires IsPermutation(numbers) && original == NonBlank(numbers)
    requires var k := FirstTilePair(original, 0);
             swapped == if k < |original| then original[k := original[k + 1]][k + 1 := original[k]] else original
    ensures |swapped| == |original| && 0 !in swapped && multiset(swapped) == multiset(original)
    ensures Inversions(swapped) == Inversions(original) + 1 || Inversions(swapped) + 1 == Inversions(original)
  {
    TilesOfPermutation(numbers);
    assert FirstTilePair(original, 0) == 0;
    SwapFront(original, swapped);
  }
}
