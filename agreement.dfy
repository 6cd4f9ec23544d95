/**
 * The transition model of the 8-puzzle is written four times: get_neighbors
 * in algorithms/utils.py, get_possible_actions and result in
 * algorithms/complex.py, actions and results in
 * algorithms/nondeterministic.py, and get_possible_actions and result once
 * more in algorithms/sensor_based.py (the same scan and swaps as
 * nondeterministic.py, modelled once as Nondeterministic.Actions and
 * Nondeterministic.Apply). On a board with a single blank they agree.
 */
module Agreement {
  import opened Wrappers
  import opened Utils
  import Complex
  import Nondeterministic

  /** `[results(b, d)[0] for d in ds]`: the board each action of ds leads to, in order. */
  function Successors(b: Board, ds: seq<Dir>): (r: seq<Board>)
    requires HasBlank(b)
    ensures |r| == |ds|
  {
    if ds == [] then [] else [Nondeterministic.Apply(b, ds[0])] + Successors(b, ds[1..])
  }

  /** [d] when the blank of b can move in direction d, else []. */
  function Legal(b: Board, d: Dir): seq<Dir>
    requires HasBlank(b)
  {
    if Move(b, d).Some? then [d] else []
  }

  /**
   * The action lists of complex.py and nondeterministic.py (and
   * sensor_based.py) are one list: the legal moves of utils.py in the order
   * up, down, left, right.
   */
  lemma {:induction false} ActionsAgree(b: Board)
    requires UniqueBlank(b)
    ensures Complex.PossibleActions(b) == Nondeterministic.Actions(b)
    ensures Nondeterministic.Actions(b) == Legal(b, Up) + (Legal(b, Down) + (Legal(b, Left) + Legal(b, Right)))
  {
    var k := BlankIndex(b);
    Nondeterministic.ScanBlankUnique(b);
    Nondeterministic.ActionsLegal(b);
    assert Complex.PossibleActions(b) == LegalAt(k, Dirs);
    Nondeterministic.StepSome(k);
    assert Legal(b, Up) == if Row(k) > 0 then [Up] else [];
    assert Legal(b, Down) == if Row(k) < 2 then [Down] else [];
    assert Legal(b, Left) == if Col(k) > 0 then [Left] else [];
    assert Legal(b, Right) == if Col(k) < 2 then [Right] else [];
  }

  /**
   * result of complex.py and results of nondeterministic.py give the same
   * board: the move of utils.py, whose direction get_move_direction reads
   * back, when it is legal, and the board itself otherwise.
   */
  lemma {:induction false} ResultsAgree(b: Board, d: Dir)
    requires UniqueBlank(b)
    ensures Complex.Result(b, d) == Nondeterministic.Apply(b, d)
    ensures Move(b, d).Some? ==> Complex.Result(b, d) == Move(b, d).value && MoveDirection(b, Complex.Result(b, d)) == Some(d)
    ensures Move(b, d).None? ==> Complex.Result(b, d) == b
  {
    Complex.ResultIsMove(b, d);
    Nondeterministic.ApplyFacts(b, d);
    if Move(b, d).Some? {
      MoveDirectionOfMove(b, d);
    }
  }

  lemma {:induction false} SuccessorsAppend(b: Board, x: seq<Dir>, y: seq<Dir>)
    requires HasBlank(b)
    ensures Successors(b, x + y) == Successors(b, x) + Successors(b, y)
    decreases |x|
  {
    if x != [] {
      assert (x + y)[1..] == x[1..] + y;
      SuccessorsAppend(b, x[1..], y);
    } else {
      assert x + y == y;
    }
  }

  /** One direction: its action, if legal, leads to its move. */
  lemma {:induction false} SuccessorsLegal(b: Board, d: Dir)
    requires UniqueBlank(b)
    ensures Successors(b, Legal(b, d)) == Options(Move(b, d))
  {
    Nondeterministic.ApplyFacts(b, d);
  }

  /**
   * get_neighbors lists the result of every possible action, in the order of
   * the actions: the utils.py model and the action-based models step to the
   * same boards.
   */
  lemma {:induction false} NeighborsAreSuccessors(b: Board)
    requires UniqueBlank(b)
    ensures Neighbors(b) == Successors(b, Nondeterministic.Actions(b))
    ensures Neighbors(b) == Successors(b, Complex.PossibleActions(b))
  {
    ActionsAgree(b);
    NeighborsInOrder(b);
    var u, d, l, r := Legal(b, Up), Legal(b, Down), Legal(b, Left), Legal(b, Right);
    SuccessorsAppend(b, u, d + (l + r));
    SuccessorsAppend(b, d, l + r);
    SuccessorsAppend(b, l, r);
    SuccessorsLegal(b, Up);
    SuccessorsLegal(b, Down);
    SuccessorsLegal(b, Left);
    SuccessorsLegal(b, Right);
    var su, sd, sl, sr := Options(Move(b, Up)), Options(Move(b, Down)), Options(Move(b, Left)), Options(Move(b, Right));
    assert Successors(b, u + (d + (l + r))) == su + (sd + (sl + sr));
    Regroup(su, sd, sl, sr);
  }

  lemma {:induction false} Regroup<T>(a: seq<T>, b: seq<T>, c: seq<T>, d: seq<T>)
    ensures a + (b + (c + d)) == a + b + c + d
  {
  }
}
