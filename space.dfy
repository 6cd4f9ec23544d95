/**
 * The finite state space behind every search: the boards that rearrange the
 * cells of the start board. Moves keep the multiset of cells, so every board
 * a search can reach lies in this set, which bounds the searches' loops.
 */
module Space {
  import opened Utils

  /** All sequences of length n over the values vals. */
  function Words(vals: set<int>, n: nat): (r: set<seq<int>>)
    ensures forall w :: w in r ==> |w| == n
  {
    if n == 0 then {[]}
    else set w, v | w in Words(vals, n - 1) && v in vals :: w + [v]
  }

  lemma {:induction false} InWords(vals: set<int>, s: seq<int>)
    requires forall i :: 0 <= i < |s| ==> s[i] in vals
    ensures s in Words(vals, |s|)
  {
    if s != [] {
      var front := s[..|s| - 1];
      InWords(vals, front);
      var v := s[|s| - 1];
      assert s == front + [v];
      assert front in Words(vals, |s| - 1) && v in vals;
    }
  }

  /** The boards whose cells rearrange those of start. */
  function Universe(start: Board): set<seq<int>>
  {
    Words(set x | x in start, |start|)
  }

  lemma {:induction false} InUniverse(start: Board, b: Board)
    requires multiset(b) == multiset(start)
    ensures b in Universe(start)
  {
    var vals := set x | x in start;
    forall i | 0 <= i < 9 ensures b[i] in vals {
      assert b[i] in multiset(b);
    }
    InWords(vals, b);
  }

  /** A board with the start's cells: the boards every search stays among. */
  predicate SameTiles(start: Board, b: Board)
  {
    multiset(b) == multiset(start)
  }

  /** Every neighbour of a board with the start's cells has them too, and so lies in the universe. */
  lemma {:induction false} NeighborsStay(start: Board, b: Board)
    requires HasBlank(b) && SameTiles(start, b)
    ensures forall n :: n in Neighbors(b) ==> HasBlank(n) && SameTiles(start, n) && n in Universe(start)
  {
    NeighborsKeepTiles(b);
    forall n | n in Neighbors(b) ensures n in Universe(start) {
      InUniverse(start, n);
    }
  }

  /** A subset is no larger than the set that holds it. */
  lemma {:induction false} SubsetCard<T>(a: set<T>, b: set<T>)
    requires a <= b
    ensures |a| <= |b|
    decreases |a|
  {
    if a != {} {
      var x :| x in a;
      SubsetCard(a - {x}, b - {x});
    }
  }
}
