/**
 * The 8-puzzle posed as a constraint-satisfaction problem: nine variables
 * X1..X9, one per grid cell in row-major order, each ranging over the tiles
 * of the initial board; ten binary constraints that tie a cell to the cell
 * below it (value + 3) and to the cell on its right (value + 1); plain
 * backtracking, backtracking with forward checking, and AC-3 followed by
 * backtracking.
 */
module Constraint {
  import opened Wrappers

  /** Xk is the variable of grid cell k - 1 (row (k - 1) / 3, column (k - 1) % 3). */
  type Var = k: int | 1 <= k <= 9 witness 1

  /** The variables in their declaration order, which is also the order of the domain map. */
  const Variables: seq<Var> := [1, 2, 3, 4, 5, 6, 7, 8, 9]

  type Grid = seq<seq<int>>

  /** A partial assignment of values to variables. */
  type Assignment = map<Var, int>

  /** Each variable's remaining candidate values, as a list that may repeat a value. */
  type Domains = map<Var, seq<int>>

  /** Below: the second cell is under the first; RightOf: the second cell is right of the first. */
  datatype Relation = Below | RightOf

  datatype Constraint = Constraint(first: Var, second: Var, rel: Relation)

  /** The relation a constraint demands of the first variable's value x and the second's y. */
  predicate Holds(rel: Relation, x: int, y: int)
  {
    match rel
    case Below => y == x + 3 && x != 0
    case RightOf => y == x + 1 && x != 0
  }

  const TopBottom: seq<(Var, Var)> := [(1, 4), (2, 5), (3, 6), (4, 7), (5, 8)]
  const LeftRight: seq<(Var, Var)> := [(1, 2), (2, 3), (4, 5), (5, 6), (7, 8)]

  /** The ten constraints: the five vertical pairs, then the five horizontal pairs. */
  function CreateConstraints(): (cs: seq<Constraint>)
    ensures |cs| == 10
    ensures forall i :: 0 <= i < 5 ==> cs[i] == Constraint(TopBottom[i].0, TopBottom[i].1, Below)
    ensures forall i :: 5 <= i < 10 ==> cs[i] == Constraint(LeftRight[i - 5].0, LeftRight[i - 5].1, RightOf)
  {
    seq(5, i requires 0 <= i < 5 => Constraint(TopBottom[i].0, TopBottom[i].1, Below))
    + seq(5, i requires 0 <= i < 5 => Constraint(LeftRight[i].0, LeftRight[i].1, RightOf))
  }

  /** X9, the bottom-right cell, takes part in no constraint; every constraint links two cells. */
  lemma {:induction false} NinthUnconstrained()
    ensures forall c :: c in CreateConstraints() ==> c.first != 9 && c.second != 9 && c.first < c.second
  {
    var cs := CreateConstraints();
    forall c | c in cs
      ensures c.first != 9 && c.second != 9 && c.first < c.second
    {
      var i :| 0 <= i < |cs| && cs[i] == c;
      if i < 5 { assert c == Constraint(TopBottom[i].0, TopBottom[i].1, Below); }
      else { assert c == Constraint(LeftRight[i - 5].0, LeftRight[i - 5].1, RightOf); }
    }
  }

  /** A grid cell: the value of its variable, or 0 when the variable is unassigned. */
  function Cell(a: Assignment, k: Var): int
  {
    if k in a then a[k] else 0
  }

  /** The 3x3 grid an assignment describes; unassigned cells hold 0. */
  function CreateGrid(a: Assignment): (g: Grid)
    ensures |g| == 3 && forall r :: 0 <= r < 3 ==> |g[r]| == 3
  {
    seq(3, r requires 0 <= r < 3 => seq(3, c requires 0 <= c < 3 => Cell(a, 3 * r + c + 1)))
  }

  /** Variable Xk lands in row (k - 1) / 3, column (k - 1) % 3; unassigned cells are 0. */
  lemma {:induction false} GridPlacement(a: Assignment)
    ensures forall k: Var :: CreateGrid(a)[(k - 1) / 3][(k - 1) % 3] == (if k in a then a[k] else 0)
  {
    forall k: Var
      ensures CreateGrid(a)[(k - 1) / 3][(k - 1) % 3] == (if k in a then a[k] else 0)
    {
      var r, c := (k - 1) / 3, (k - 1) % 3;
      assert 0 <= r < 3 && 0 <= c < 3 && k == 3 * r + c + 1;
      assert CreateGrid(a)[r] == seq(3, c requires 0 <= c < 3 => Cell(a, 3 * r + c + 1));
      assert CreateGrid(a)[r][c] == Cell(a, k);
    }
  }

  /** Whether every constraint whose two variables are both assigned holds (checked in list order). */
  function ConstraintsHold(cs: seq<Constraint>, a: Assignment): bool
  {
    if cs == [] then true
    else
      var c := cs[0];
      (!(c.first in a && c.second in a) || Holds(c.rel, a[c.first], a[c.second]))
      && ConstraintsHold(cs[1..], a)
  }

  /** Some constraint with both variables assigned in `a` is violated. */
  ghost predicate Violated(cs: seq<Constraint>, a: Assignment)
  {
    exists i :: 0 <= i < |cs| && cs[i].first in a && cs[i].second in a
      && !Holds(cs[i].rel, a[cs[i].first], a[cs[i].second])
  }

  lemma {:induction false} ConstraintsHoldIff(cs: seq<Constraint>, a: Assignment)
    ensures ConstraintsHold(cs, a) <==> !Violated(cs, a)
  {
    if cs != [] {
      ConstraintsHoldIff(cs[1..], a);
      if Violated(cs[1..], a) {
        var i :| 0 <= i < |cs| - 1 && cs[1..][i].first in a && cs[1..][i].second in a
          && !Holds(cs[1..][i].rel, a[cs[1..][i].first], a[cs[1..][i].second]);
        assert cs[i + 1] == cs[1..][i];
      }
      if Violated(cs, a) {
        var i :| 0 <= i < |cs| && cs[i].first in a && cs[i].second in a
          && !Holds(cs[i].rel, a[cs[i].first], a[cs[i].second]);
        if i > 0 {
          assert cs[1..][i - 1] == cs[i];
          assert Violated(cs[1..], a);
        }
      }
    }
  }

  /** Whether `value` may be given to `variable`: it is not already used, and no constraint breaks. */
  function IsConsistent(variable: Var, value: int, a: Assignment, cs: seq<Constraint>): bool
  {
    value !in a.Values && ConstraintsHold(cs, a[variable := value])
  }

  /** No two variables share a value. */
  ghost predicate Distinct(a: Assignment)
  {
    forall u, v :: u in a && v in a && u != v ==> a[u] != a[v]
  }

  /** A consistent partial assignment: distinct values and no violated constraint. */
  ghost predicate Valid(a: Assignment, cs: seq<Constraint>)
  {
    Distinct(a) && ConstraintsHold(cs, a)
  }

  /** Extending a consistent assignment keeps it consistent exactly when `IsConsistent` accepts. */
  lemma {:induction false} IsConsistentExtends(variable: Var, value: int, a: Assignment, cs: seq<Constraint>)
    requires Valid(a, cs) && variable !in a
    ensures IsConsistent(variable, value, a, cs) <==> Valid(a[variable := value], cs)
  {
    var b := a[variable := value];
    if value in a.Values {
      var u :| u in a && a[u] == value;
      assert u != variable && b[u] == b[variable];
    }
  }

  /** A solution: every variable assigned, values distinct, every constraint satisfied. */
  ghost predicate Solved(a: Assignment, cs: seq<Constraint>)
  {
    (forall k: Var :: k in a) && Valid(a, cs)
  }

  const Goal: Grid := [[1, 2, 3], [4, 5, 6], [7, 8, 0]]

  /**
   * The constraints pin the first eight cells to consecutive values starting
   * from a non-zero one; drawn from the tiles 0..8 they are 1..8, and the
   * last cell is the remaining tile, 0.
   */
  lemma {:induction false} SolutionIsGoal(a: Assignment)
    requires Solved(a, CreateConstraints())
    requires forall k :: k in a ==> 0 <= a[k] <= 8
    ensures forall k: Var :: k <= 8 ==> a[k] == k
    ensures a[9] == 0
    ensures CreateGrid(a) == Goal
  {
    var cs := CreateConstraints();
    ConstraintsHoldIff(cs, a);
    forall i | 0 <= i < 10
      ensures Holds(cs[i].rel, a[cs[i].first], a[cs[i].second])
    {
      assert cs[i].first in a && cs[i].second in a;
    }
    assert Holds(cs[0].rel, a[1], a[4]);
    assert Holds(cs[3].rel, a[4], a[7]);
    assert Holds(cs[5].rel, a[1], a[2]);
    assert Holds(cs[6].rel, a[2], a[3]);
    assert Holds(cs[7].rel, a[4], a[5]);
    assert Holds(cs[8].rel, a[5], a[6]);
    assert Holds(cs[9].rel, a[7], a[8]);
    assert a[1] == 1;
    assert a[9] != a[1] && a[9] != a[2] && a[9] != a[3] && a[9] != a[4];
    assert a[9] != a[5] && a[9] != a[6] && a[9] != a[7] && a[9] != a[8];
    GoalGrid(a);
  }

  /** Row r of the grid holds the cells of X(3r + 1), X(3r + 2) and X(3r + 3). */
  lemma {:induction false} GridRow(a: Assignment, r: int)
    requires 0 <= r < 3
    ensures CreateGrid(a)[r] == [Cell(a, 3 * r + 1), Cell(a, 3 * r + 2), Cell(a, 3 * r + 3)]
  {
  }

  /** An assignment with Xk = k for the first eight cells and X9 = 0 draws the goal board. */
  lemma {:induction false} GoalGrid(a: Assignment)
    requires forall k: Var :: k in a && a[k] == (if k == 9 then 0 else k)
    ensures CreateGrid(a) == Goal
  {
    GridRow(a, 0);
    GridRow(a, 1);
    GridRow(a, 2);
    assert Cell(a, 1) == 1 && Cell(a, 2) == 2 && Cell(a, 3) == 3;
    assert Cell(a, 4) == 4 && Cell(a, 5) == 5 && Cell(a, 6) == 6;
    assert Cell(a, 7) == 7 && Cell(a, 8) == 8 && Cell(a, 9) == 0;
  }

  /* ---------- Lists of candidate values ---------- */

  /** The values of `s` that satisfy `p`, in their order. */
  function Filter(s: seq<int>, p: int -> bool): seq<int>
  {
    if s == [] then [] else (if p(s[0]) then [s[0]] else []) + Filter(s[1..], p)
  }

  lemma {:induction false} FilterMembers(s: seq<int>, p: int -> bool)
    ensures forall x :: x in Filter(s, p) <==> x in s && p(x)
  {
    if s != [] {
      FilterMembers(s[1..], p);
      assert s == [s[0]] + s[1..];
    }
  }

  /** The values of `s` that fail `p`, in their order. */
  function Rejected(s: seq<int>, p: int -> bool): seq<int>
  {
    if s == [] then [] else (if p(s[0]) then [] else [s[0]]) + Rejected(s[1..], p)
  }

  lemma {:induction false} RejectedMembers(s: seq<int>, p: int -> bool)
    ensures forall x :: x in Rejected(s, p) <==> x in s && !p(x)
  {
    if s != [] {
      RejectedMembers(s[1..], p);
      assert s == [s[0]] + s[1..];
    }
  }

  /** Every value of a list is either kept or rejected, with its multiplicity. */
  lemma {:induction false} FilterSplit(s: seq<int>, p: int -> bool)
    ensures multiset(s) == multiset(Filter(s, p)) + multiset(Rejected(s, p))
  {
    if s != [] {
      FilterSplit(s[1..], p);
      assert s == [s[0]] + s[1..];
    }
  }

  /** Python's `list.remove`: drop the first occurrence of `x`, which must be present. */
  function RemoveFirst(s: seq<int>, x: int): (r: seq<int>)
    requires x in s
    ensures |r| == |s| - 1
  {
    if s[0] == x then s[1..] else [s[0]] + RemoveFirst(s[1..], x)
  }

  /** Removing `x` from a list whose prefix `a` lacks it removes the occurrence after `a`. */
  lemma {:induction false} RemoveFirstAfter(a: seq<int>, x: int, b: seq<int>)
    requires x !in a
    ensures x in a + [x] + b && RemoveFirst(a + [x] + b, x) == a + b
  {
    var s := a + [x] + b;
    if a == [] {
      assert s == [x] + b;
    } else {
      var t := a[1..] + [x] + b;
      RemoveFirstAfter(a[1..], x, b);
      assert s[0] == a[0] && s[1..] == t;
      assert RemoveFirst(s, x) == [a[0]] + RemoveFirst(t, x);
      assert a + b == [a[0]] + (a[1..] + b);
    }
  }

  lemma {:induction false} FilterSnoc(s: seq<int>, x: int, p: int -> bool)
    ensures Filter(s + [x], p) == Filter(s, p) + (if p(x) then [x] else [])
  {
    if s != [] {
      FilterSnoc(s[1..], x, p);
      assert (s + [x])[1..] == s[1..] + [x];
    }
  }

  /** `s` without its first `k` rejected values. */
  function DropRejected(s: seq<int>, p: int -> bool, k: nat): seq<int>
  {
    if s == [] then []
    else if !p(s[0]) && k > 0 then DropRejected(s[1..], p, k - 1)
    else [s[0]] + DropRejected(s[1..], p, k)
  }

  lemma {:induction false} DropNone(s: seq<int>, p: int -> bool)
    ensures DropRejected(s, p, 0) == s
  {
    if s != [] {
      DropNone(s[1..], p);
    }
  }

  lemma {:induction false} DropAll(s: seq<int>, p: int -> bool)
    ensures DropRejected(s, p, |Rejected(s, p)|) == Filter(s, p)
  {
    if s != [] {
      DropAll(s[1..], p);
    }
  }

  /** Removing the next rejected value (Python's `list.remove`) drops exactly that one. */
  lemma {:induction false} DropNext(s: seq<int>, p: int -> bool, k: nat)
    requires k < |Rejected(s, p)|
    ensures Rejected(s, p)[k] in DropRejected(s, p, k)
    ensures RemoveFirst(DropRejected(s, p, k), Rejected(s, p)[k]) == DropRejected(s, p, k + 1)
  {
    var x := Rejected(s, p)[k];
    var t := DropRejected(s[1..], p, k);
    if p(s[0]) {
      assert Rejected(s, p) == Rejected(s[1..], p);
      DropNext(s[1..], p, k);
      RejectedMembers(s, p);
      assert x in Rejected(s, p) && x != s[0];
      assert ([s[0]] + t)[1..] == t;
    } else if k > 0 {
      assert Rejected(s, p)[k] == Rejected(s[1..], p)[k - 1];
      DropNext(s[1..], p, k - 1);
    } else {
      DropNone(s, p);
      DropNone(s[1..], p);
    }
  }

  /* ---------- Domains ---------- */

  /** Every variable has a domain, as `solve` and every restoration build it. */
  ghost predicate Keyed(d: Domains)
  {
    forall v: Var :: v in d
  }

  lemma {:induction false} SameDomains(d: Domains, e: Domains)
    requires Keyed(d) && Keyed(e)
    requires forall v: Var :: d[v] == e[v]
    ensures d == e
  {
    assert d.Keys == e.Keys;
  }

  /** Restoring every entry that differs from the saved map gives back the saved map. */
  lemma {:induction false} RestoredAll(mid: Domains, r: Domains, vs: seq<Var>, original: Domains)
    requires Keyed(mid) && Keyed(r) && Keyed(original)
    requires forall v: Var :: r[v] == if v in vs then original[v] else mid[v]
    requires forall v: Var :: v !in vs ==> mid[v] == original[v]
    ensures r == original
  {
    SameDomains(r, original);
  }

  /** Every candidate value is drawn from `vals`. */
  ghost predicate Within(d: Domains, vals: set<int>)
    requires Keyed(d)
  {
    forall v: Var, x :: x in d[v] ==> x in vals
  }

  /** Strictly increasing, hence free of repeats. */
  predicate Ascending(vs: seq<Var>)
  {
    forall i, j :: 0 <= i < j < |vs| ==> vs[i] < vs[j]
  }

  /** The variables Xk, X(k+1), ..., X9 that `a` leaves unassigned, in order. */
  function UnassignedFrom(k: int, a: Assignment): seq<Var>
    requires 1 <= k
    decreases 10 - k
  {
    if k > 9 then [] else (if k in a then [] else [k]) + UnassignedFrom(k + 1, a)
  }

  lemma {:induction false} UnassignedFromMembers(k: int, a: Assignment)
    requires 1 <= k
    ensures forall v: Var :: v in UnassignedFrom(k, a) <==> k <= v && v !in a
    ensures Ascending(UnassignedFrom(k, a))
    decreases 10 - k
  {
    if k <= 9 {
      var rest := UnassignedFrom(k + 1, a);
      UnassignedFromMembers(k + 1, a);
      var here := if k in a then [] else [k];
      assert UnassignedFrom(k, a) == here + rest;
      forall v: Var ensures v in here + rest <==> k <= v && v !in a {
        assert v in here + rest <==> v in here || v in rest;
      }
      if k !in a {
        AscendingCons(k, rest);
      } else {
        assert here + rest == rest;
      }
    }
  }

  lemma {:induction false} AscendingCons(k: Var, rest: seq<Var>)
    requires Ascending(rest) && forall v: Var :: v in rest ==> k < v
    ensures Ascending([k] + rest)
  {
    var vs := [k] + rest;
    forall i, j | 0 <= i < j < |vs| ensures vs[i] < vs[j] {
      assert vs[j] == rest[j - 1];
      assert rest[j - 1] in rest;
    }
  }

  /** The unassigned variables in domain order (the order of `Variables`). */
  function Unassigned(a: Assignment): seq<Var>
  {
    UnassignedFrom(1, a)
  }

  /** `Unassigned` lists exactly the variables `a` leaves out, each once, in increasing order. */
  lemma {:induction false} UnassignedMembers(a: Assignment)
    ensures forall v: Var :: v in Unassigned(a) <==> v !in a
    ensures Ascending(Unassigned(a))
  {
    UnassignedFromMembers(1, a);
  }

  /** The values `v` may take next to the assignment `temp` without breaking a constraint. */
  function Allowed(cs: seq<Constraint>, temp: Assignment, v: Var): int -> bool
  {
    x => ConstraintsHold(cs, temp[v := x])
  }

  /**
   * Forward checking over the variables of `order`, as the source runs it:
   * each variable's domain keeps the values allowed beside `temp` (which then
   * forgets that variable); the first domain that empties ends the pass with
   * None.
   */
  function Prune(d: Domains, order: seq<Var>, temp: Assignment, cs: seq<Constraint>): (r: Option<Domains>)
    requires Keyed(d)
    ensures r.Some? ==> Keyed(r.value)
  {
    if order == [] then Some(d)
    else
      var v := order[0];
      var kept := Filter(d[v], Allowed(cs, temp, v));
      if kept == [] then None else Prune(d[v := kept], order[1..], temp - {v}, cs)
  }

  /**
   * When no variable of `order` is in `temp` (the case of backtracking, which
   * assigns the variable before checking forward), the pass succeeds exactly
   * when every such variable keeps an allowed value, and then each of them
   * holds exactly its allowed values while every other domain is untouched.
   */
  lemma {:induction false} PruneMeaning(d: Domains, order: seq<Var>, temp: Assignment, cs: seq<Constraint>)
    requires Keyed(d) && Ascending(order)
    requires forall v :: v in order ==> v !in temp
    ensures Prune(d, order, temp, cs).Some? <==>
              forall v :: v in order ==> Filter(d[v], Allowed(cs, temp, v)) != []
    ensures Prune(d, order, temp, cs).Some? ==>
              forall v: Var :: Prune(d, order, temp, cs).value[v] ==
                (if v in order then Filter(d[v], Allowed(cs, temp, v)) else d[v])
  {
    if order != [] {
      var v := order[0];
      var kept := Filter(d[v], Allowed(cs, temp, v));
      assert temp - {v} == temp;
      if kept != [] {
        var rest := order[1..];
        assert v !in rest by {
          forall i | 0 <= i < |rest| ensures rest[i] != v { assert rest[i] == order[i + 1]; }
        }
        PruneMeaning(d[v := kept], rest, temp, cs);
        assert forall w :: w in order <==> w == v || w in rest;
        assert forall w :: w in rest ==> d[v := kept][w] == d[w];
      }
    }
  }

  /** The constraint's support for `x`: some value of `d2` satisfies it together with `x`. */
  predicate Supported(rel: Relation, x: int, d2: seq<int>)
  {
    exists y :: y in d2 && Holds(rel, x, y)
  }

  function SupportedBy(rel: Relation, d2: seq<int>): int -> bool
  {
    x => Supported(rel, x, d2)
  }

  /**
   * Revising the arc (first, second) against each constraint of `cs` in turn
   * that links exactly that ordered pair: keep the values of `first` that
   * have support in `d2`.
   */
  function Revised(cs: seq<Constraint>, first: Var, second: Var, d1: seq<int>, d2: seq<int>): seq<int>
  {
    if cs == [] then d1
    else
      var r := Revised(cs[..|cs| - 1], first, second, d1, d2);
      var c := cs[|cs| - 1];
      if c.first == first && c.second == second then Filter(r, SupportedBy(c.rel, d2)) else r
  }

  /** A revision only removes values. */
  lemma {:induction false} RevisedShrinks(cs: seq<Constraint>, first: Var, second: Var, d1: seq<int>, d2: seq<int>)
    ensures multiset(Revised(cs, first, second, d1, d2)) <= multiset(d1)
  {
    if cs != [] {
      var front := cs[..|cs| - 1];
      RevisedShrinks(front, first, second, d1, d2);
      FilterSplit(Revised(front, first, second, d1, d2), SupportedBy(cs[|cs| - 1].rel, d2));
    }
  }

  /** Every value a revision removes lacks support under some constraint on the arc. */
  lemma {:induction false} RevisedRemovedUnsupported(cs: seq<Constraint>, first: Var, second: Var, d1: seq<int>, d2: seq<int>, x: int)
    requires x in d1 && x !in Revised(cs, first, second, d1, d2)
    ensures exists c :: c in cs && c.first == first && c.second == second && !Supported(c.rel, x, d2)
  {
    var front := cs[..|cs| - 1];
    var c := cs[|cs| - 1];
    assert c in cs;
    FilterMembers(Revised(front, first, second, d1, d2), SupportedBy(c.rel, d2));
    if x !in Revised(front, first, second, d1, d2) {
      RevisedRemovedUnsupported(front, first, second, d1, d2, x);
      var c' :| c' in front && c'.first == first && c'.second == second && !Supported(c'.rel, x, d2);
      assert c' in cs;
    }
  }

  /** Every value a revision keeps has support under every constraint on the arc. */
  lemma {:induction false} RevisedKeptSupported(cs: seq<Constraint>, first: Var, second: Var, d1: seq<int>, d2: seq<int>, c: Constraint, x: int)
    requires c in cs && c.first == first && c.second == second
    requires x in Revised(cs, first, second, d1, d2)
    ensures Supported(c.rel, x, d2)
  {
    var front := cs[..|cs| - 1];
    var last := cs[|cs| - 1];
    assert cs == front + [last];
    FilterMembers(Revised(front, first, second, d1, d2), SupportedBy(last.rel, d2));
    if c != last {
      assert c in front;
      RevisedKeptSupported(front, first, second, d1, d2, c, x);
    }
  }

  /** The total number of candidate values over the variables of `vs`. */
  function SizeOf(d: Domains, vs: seq<Var>): nat
    requires Keyed(d)
  {
    if vs == [] then 0 else |d[vs[0]]| + SizeOf(d, vs[1..])
  }

  lemma {:induction false} SizeOfUpdate(d: Domains, vs: seq<Var>, v: Var, s: seq<int>)
    requires Keyed(d)
    requires forall i, j :: 0 <= i < j < |vs| ==> vs[i] != vs[j]
    ensures SizeOf(d[v := s], vs) == SizeOf(d, vs) + (if v in vs then |s| - |d[v]| else 0)
  {
    if vs != [] {
      var rest := vs[1..];
      assert forall i, j :: 0 <= i < j < |rest| ==> rest[i] != rest[j] by {
        forall i, j | 0 <= i < j < |rest| ensures rest[i] != rest[j] {
          assert rest[i] == vs[i + 1] && rest[j] == vs[j + 1];
        }
      }
      assert vs[0] !in rest by {
        forall i | 0 <= i < |rest| ensures rest[i] != vs[0] { assert rest[i] == vs[i + 1]; }
      }
      SizeOfUpdate(d, rest, v, s);
    }
  }

  /** Shortening one domain shrinks the total; keeping its length keeps the total. */
  lemma {:induction false} SizeUpdate(d: Domains, v: Var, s: seq<int>)
    requires Keyed(d)
    ensures SizeOf(d[v := s], Variables) == SizeOf(d, Variables) + |s| - |d[v]|
  {
    SizeOfUpdate(d, Variables, v, s);
    assert Variables[v - 1] == v;
  }

  /* ---------- Arc consistency ---------- */

  /** The arcs AC-3 starts from, one per constraint, in the same order. */
  const Pairs: seq<(Var, Var)> := TopBottom + LeftRight

  /** `[pair[1] for pair in ps if pair[0] == v]`. */
  function Seconds(ps: seq<(Var, Var)>, v: Var): (r: seq<Var>)
    ensures forall n :: n in r ==> (v, n) in ps
  {
    if ps == [] then [] else (if ps[0].0 == v then [ps[0].1] else []) + Seconds(ps[1..], v)
  }

  /** `[pair[0] for pair in ps if pair[1] == v]`. */
  function Firsts(ps: seq<(Var, Var)>, v: Var): (r: seq<Var>)
    ensures forall n :: n in r ==> (n, v) in ps
  {
    if ps == [] then [] else (if ps[0].1 == v then [ps[0].0] else []) + Firsts(ps[1..], v)
  }

  /** The variables sharing an arc with `v`; never `v` itself. */
  function Neighbors(v: Var): (r: seq<Var>)
    ensures forall n :: n in r ==> n != v
  {
    Seconds(Pairs, v) + Firsts(Pairs, v)
  }

  /** The initial arcs are exactly the constraints' ordered pairs. */
  lemma {:induction false} PairsOfConstraints()
    ensures forall c :: c in CreateConstraints() ==> (c.first, c.second) in Pairs
  {
    var cs := CreateConstraints();
    forall c | c in cs
      ensures (c.first, c.second) in Pairs
    {
      var i :| 0 <= i < |cs| && cs[i] == c;
      if i < 5 {
        assert Pairs[i] == TopBottom[i];
      } else {
        assert Pairs[i] == LeftRight[i - 5];
      }
    }
  }

  lemma {:induction false} FirstsHas(ps: seq<(Var, Var)>, n: Var, v: Var)
    requires (n, v) in ps
    ensures n in Firsts(ps, v)
  {
    if ps[0] != (n, v) {
      FirstsHas(ps[1..], n, v);
    }
  }

  /** A filter never lengthens a list, and keeps it whole only by keeping every value. */
  lemma {:induction false} FilterLength(s: seq<int>, p: int -> bool)
    ensures |Filter(s, p)| <= |s|
    ensures |Filter(s, p)| == |s| ==> Filter(s, p) == s
  {
    if s != [] {
      FilterLength(s[1..], p);
      assert s == [s[0]] + s[1..];
    }
  }

  /** The same for a whole revision. */
  lemma {:induction false} RevisedLength(cs: seq<Constraint>, first: Var, second: Var, d1: seq<int>, d2: seq<int>)
    ensures |Revised(cs, first, second, d1, d2)| <= |d1|
    ensures |Revised(cs, first, second, d1, d2)| == |d1| ==> Revised(cs, first, second, d1, d2) == d1
  {
    if cs != [] {
      var front := cs[..|cs| - 1];
      RevisedLength(front, first, second, d1, d2);
      FilterLength(Revised(front, first, second, d1, d2), SupportedBy(cs[|cs| - 1].rel, d2));
    }
  }

  /** An arc that no constraint links leaves the domain as it is. */
  lemma {:induction false} RevisedUntouched(cs: seq<Constraint>, first: Var, second: Var, d1: seq<int>, d2: seq<int>)
    requires forall c :: c in cs ==> !(c.first == first && c.second == second)
    ensures Revised(cs, first, second, d1, d2) == d1
  {
    if cs != [] {
      var front := cs[..|cs| - 1];
      assert forall c :: c in front ==> c in cs;
      assert cs[|cs| - 1] in cs;
      RevisedUntouched(front, first, second, d1, d2);
    }
  }

  /** Every value of the constraint's first variable has support in the second's domain. */
  ghost predicate ArcConsistent(d: Domains, c: Constraint)
    requires Keyed(d)
  {
    forall x :: x in d[c.first] ==> Supported(c.rel, x, d[c.second])
  }

  /** Each constraint is either arc-consistent or still has its arc waiting in the queue. */
  ghost predicate Pending(cs: seq<Constraint>, d: Domains, queue: seq<(Var, Var)>)
    requires Keyed(d)
  {
    forall c :: c in cs ==> (c.first, c.second) in queue || ArcConsistent(d, c)
  }

  /** A solution that draws every value from `d`. */
  ghost predicate Fits(b: Assignment, d: Domains)
    requires Keyed(d)
  {
    forall v: Var :: v in b && b[v] in d[v]
  }

  /** Popping an arc whose revision removes nothing: that arc is now consistent. */
  lemma {:induction false} KeepStep(cs: seq<Constraint>, d: Domains, f: Var, s: Var, rest: seq<(Var, Var)>)
    requires Keyed(d) && f != s && Pending(cs, d, [(f, s)] + rest)
    requires Revised(cs, f, s, d[f], d[s]) == d[f]
    ensures Pending(cs, d, rest)
  {
    forall c | c in cs && (c.first, c.second) !in rest && !ArcConsistent(d, c)
      ensures false
    {
      assert (c.first, c.second) == (f, s);
      var x :| x in d[f] && !Supported(c.rel, x, d[s]);
      RevisedKeptSupported(cs, f, s, d[f], d[s], c, x);
    }
  }

  /**
   * Popping an arc whose revision removes values: that arc is now consistent,
   * and every arc into `f` that the removal may have broken is queued again.
   */
  lemma {:induction false} RemoveStep(cs: seq<Constraint>, d: Domains, f: Var, s: Var, rest: seq<(Var, Var)>,
                   kept: seq<int>, queue: seq<(Var, Var)>)
    requires cs == CreateConstraints()
    requires Keyed(d) && f != s && Pending(cs, d, [(f, s)] + rest)
    requires kept == Revised(cs, f, s, d[f], d[s]) && |kept| < |d[f]|
    requires forall q :: q in rest ==> q in queue
    requires forall n :: n in Neighbors(f) && n != s ==> (n, f) in queue
    ensures Pending(cs, d[f := kept], queue)
  {
    var e := d[f := kept];
    NinthUnconstrained();
    PairsOfConstraints();
    if forall c :: c in cs ==> !(c.first == f && c.second == s) {
      RevisedUntouched(cs, f, s, d[f], d[s]);
      assert false;
    }
    var c0 :| c0 in cs && c0.first == f && c0.second == s;
    RevisedShrinks(cs, f, s, d[f], d[s]);
    forall c | c in cs
      ensures (c.first, c.second) in queue || ArcConsistent(e, c)
    {
      if c.second == f {
        FirstsHas(Pairs, c.first, f);
        assert c.first in Neighbors(f);
      } else if c.first == f && c.second == s {
        forall x | x in e[f]
          ensures Supported(c.rel, x, e[s])
        {
          RevisedKeptSupported(cs, f, s, d[f], d[s], c, x);
        }
      } else if (c.first, c.second) !in rest {
        assert ArcConsistent(d, c);
        forall x | x in e[c.first]
          ensures Supported(c.rel, x, e[c.second])
        {
          if c.first == f {
            assert x in multiset(kept);
          }
        }
      }
    }
  }

  /** A revision never removes a value that some solution drawn from `d` uses. */
  lemma {:induction false} ReviseKeepsSolutions(cs: seq<Constraint>, d: Domains, f: Var, s: Var, b: Assignment)
    requires Keyed(d) && f != s && Solved(b, cs) && Fits(b, d)
    ensures Fits(b, d[f := Revised(cs, f, s, d[f], d[s])])
  {
    if b[f] !in Revised(cs, f, s, d[f], d[s]) {
      RevisedRemovedUnsupported(cs, f, s, d[f], d[s], b[f]);
      ConstraintsHoldIff(cs, b);
    }
  }

  /* ---------- Search completeness ---------- */

  /** `b` assigns every variable: as `a` does where `a` does, and from `d` elsewhere. */
  ghost predicate Extends(b: Assignment, a: Assignment, d: Domains)
    requires Keyed(d)
  {
    forall v: Var :: v in b && (if v in a then b[v] == a[v] else b[v] in d[v])
  }

  /** No solution extends `a` with values drawn from `d`. */
  ghost predicate NoSolution(a: Assignment, d: Domains, cs: seq<Constraint>)
    requires Keyed(d)
  {
    forall b :: Extends(b, a, d) ==> !Solved(b, cs)
  }

  /** No such solution gives `v` one of the values `xs`. */
  ghost predicate NoSolutionWith(a: Assignment, d: Domains, cs: seq<Constraint>, v: Var, xs: seq<int>)
    requires Keyed(d)
  {
    forall b :: Extends(b, a, d) && b[v] in xs ==> !Solved(b, cs)
  }

  /** `b` agrees with `a` on every variable `a` assigns. */
  ghost predicate Agrees(a: Assignment, b: Assignment)
  {
    forall v :: v in a ==> v in b && b[v] == a[v]
  }

  lemma {:induction false} ExtendsAgrees(b: Assignment, a: Assignment, d: Domains, v: Var, w: Var)
    requires Keyed(d) && Extends(b, a, d)
    ensures Agrees(a, b) && Agrees(a[v := b[v]], b) && Agrees(a[v := b[v]][w := b[w]], b)
  {
  }

  /** The constraints that hold on an assignment hold on any part of it. */
  lemma {:induction false} ConstraintsHoldPart(cs: seq<Constraint>, a: Assignment, b: Assignment)
    requires Agrees(a, b)
    requires ConstraintsHold(cs, b)
    ensures ConstraintsHold(cs, a)
  {
    if cs != [] {
      ConstraintsHoldPart(cs[1..], a, b);
    }
  }

  /** A value that `IsConsistent` refuses is used by no solution extending `a`. */
  lemma {:induction false} RefusedExcluded(a: Assignment, d: Domains, cs: seq<Constraint>, v: Var, x: int)
    requires Keyed(d) && v !in a
    requires !IsConsistent(v, x, a, cs)
    ensures NoSolutionWith(a, d, cs, v, [x])
  {
    forall b | Extends(b, a, d) && b[v] == x && Solved(b, cs)
      ensures false
    {
      ExtendsAgrees(b, a, d, v, v);
      ConstraintsHoldPart(cs, a[v := x], b);
    }
  }

  /** A value after which some unassigned variable `w` has no allowed value is used by no solution. */
  lemma {:induction false} NoAllowedExcluded(a: Assignment, d: Domains, cs: seq<Constraint>, v: Var, x: int, w: Var)
    requires Keyed(d) && w !in a[v := x]
    requires forall y :: y in d[w] ==> !Allowed(cs, a[v := x], w)(y)
    ensures NoSolutionWith(a, d, cs, v, [x])
  {
    forall b | Extends(b, a, d) && b[v] == x && Solved(b, cs)
      ensures false
    {
      ExtendsAgrees(b, a, d, v, w);
      ConstraintsHoldPart(cs, a[v := x][w := b[w]], b);
    }
  }

  /** A value after which forward checking empties a domain is used by no solution extending `a`. */
  lemma {:induction false} PruneFailExcluded(a: Assignment, d: Domains, cs: seq<Constraint>, v: Var, x: int)
    requires Keyed(d) && v !in a
    requires Prune(d, Unassigned(a[v := x]), a[v := x], cs).None?
    ensures NoSolutionWith(a, d, cs, v, [x])
  {
    var a1 := a[v := x];
    var order := Unassigned(a1);
    UnassignedMembers(a1);
    PruneMeaning(d, order, a1, cs);
    var w :| w in order && Filter(d[w], Allowed(cs, a1, w)) == [];
    FilterMembers(d[w], Allowed(cs, a1, w));
    NoAllowedExcluded(a, d, cs, v, x, w);
  }

  /** A value whose deeper search (over the unpruned domains) found nothing is used by no solution. */
  lemma {:induction false} SearchExcluded(a: Assignment, d: Domains, cs: seq<Constraint>, v: Var, x: int)
    requires Keyed(d) && v !in a
    requires NoSolution(a[v := x], d, cs)
    ensures NoSolutionWith(a, d, cs, v, [x])
  {

  }

  /**
   * A value whose deeper search found nothing over `e`, the domains with
   * every unassigned variable's domain cut to its allowed values, is used by
   * no solution extending `a`.
   */
  lemma {:induction false} CutSearchExcluded(a: Assignment, d: Domains, e: Domains, cs: seq<Constraint>, v: Var, x: int)
    requires Keyed(d) && Keyed(e)
    requires forall w: Var :: e[w] == if w in a[v := x] then d[w] else Filter(d[w], Allowed(cs, a[v := x], w))
    requires NoSolution(a[v := x], e, cs)
    ensures NoSolutionWith(a, d, cs, v, [x])
  {
    var a1 := a[v := x];
    forall b | Extends(b, a, d) && b[v] == x && Solved(b, cs)
      ensures false
    {
      forall w: Var | w !in a1
        ensures b[w] in e[w]
      {
        ExtendsAgrees(b, a, d, v, w);
        ConstraintsHoldPart(cs, a1[w := b[w]], b);
        FilterMembers(d[w], Allowed(cs, a1, w));
        assert Allowed(cs, a1, w)(b[w]);
      }
    }
  }

  /** The same when forward checking had pruned the domains before the deeper search. */
  lemma {:induction false} PrunedSearchExcluded(a: Assignment, d: Domains, cs: seq<Constraint>, v: Var, x: int)
    requires Keyed(d) && v !in a
    requires Prune(d, Unassigned(a[v := x]), a[v := x], cs).Some?
    requires NoSolution(a[v := x], Prune(d, Unassigned(a[v := x]), a[v := x], cs).value, cs)
    ensures NoSolutionWith(a, d, cs, v, [x])
  {
    var a1 := a[v := x];
    var order := Unassigned(a1);
    UnassignedMembers(a1);
    PruneMeaning(d, order, a1, cs);
    CutSearchExcluded(a, d, Prune(d, order, a1, cs).value, cs, v, x);
  }

  /** Ruling out the values `xs`, then `x`, rules out `xs + [x]`. */
  lemma {:induction false} ExcludedSnoc(a: Assignment, d: Domains, cs: seq<Constraint>, v: Var, xs: seq<int>, x: int)
    requires Keyed(d) && NoSolutionWith(a, d, cs, v, xs) && NoSolutionWith(a, d, cs, v, [x])
    ensures NoSolutionWith(a, d, cs, v, xs + [x])
  {
  }

  /** Once every value of `v`'s domain is ruled out, no solution extends `a`. */
  lemma {:induction false} AllExcluded(a: Assignment, d: Domains, cs: seq<Constraint>, v: Var)
    requires Keyed(d) && v !in a && NoSolutionWith(a, d, cs, v, d[v])
    ensures NoSolution(a, d, cs)
  {
  }

  /** Forward checking draws no new values. */
  lemma {:induction false} PruneWithin(d: Domains, order: seq<Var>, temp: Assignment, cs: seq<Constraint>, vals: set<int>)
    requires Keyed(d) && Within(d, vals) && Prune(d, order, temp, cs).Some?
    ensures Within(Prune(d, order, temp, cs).value, vals)
  {
    if order != [] {
      var v := order[0];
      var kept := Filter(d[v], Allowed(cs, temp, v));
      FilterMembers(d[v], Allowed(cs, temp, v));
      assert Within(d[v := kept], vals);
      PruneWithin(d[v := kept], order[1..], temp - {v}, cs, vals);
    }
  }

  /** Deleting a key and then setting it again is the same as setting it. */
  lemma {:induction false} Reassigned(m: Assignment, k: Var, x: int)
    ensures (m - {k})[k := x] == m[k := x]
  {
  }

  /** Setting a key to the value it already has changes nothing. */
  lemma {:induction false} SetTwice(m: Assignment, k: Var, x: int)
    ensures m[k := x][k := x] == m[k := x]
  {
  }

  /** Assigning X(index + 1) extends an assignment of X1..X(index) to one of X1..X(index + 1). */
  lemma {:induction false} AssignedNext(a0: Assignment, index: nat, value: int, a: Assignment)
    requires index < 9
    requires forall v: Var :: v in a0 <==> v <= index
    requires a == a0[index + 1 := value]
    ensures forall v: Var :: v in a <==> v <= index + 1
  {
  }

  /** Setting an absent key and then deleting it gives back the map. */
  lemma {:induction false} SetThenDelete(m: Assignment, k: Var, x: int)
    requires k !in m
    ensures m[k := x] - {k} == m
  {
  }

  /** Setting a key and then deleting it is the same as deleting it. */
  lemma {:induction false} Deleted(m: Assignment, k: Var, x: int)
    ensures m[k := x] - {k} == m - {k}
  {
  }

  /**
   * The scan of one unassigned variable's domain: each value is tried in
   * `temp` and listed when it breaks a constraint; the variable is then
   * deleted from `temp` (only when a value was tried).
   */
  method InvalidValues(d: seq<int>, uv: Var, temp: Assignment, cs: seq<Constraint>)
    returns (invalid: seq<int>, after: Assignment)
    ensures invalid == Rejected(d, Allowed(cs, temp, uv))
    ensures after == if d == [] then temp else temp - {uv}
  {
    ghost var p := Allowed(cs, temp, uv);
    invalid := [];
    after := temp;
    for j := 0 to |d|
      invariant after == if j == 0 then temp else temp - {uv}
      invariant invalid + Rejected(d[j..], p) == Rejected(d, p)
    {
      var val := d[j];
      after := after[uv := val];
      Reassigned(temp, uv, val);
      var fits := ConstraintsHold(cs, after);
      assert fits == p(val);
      if !fits {
        invalid := invalid + [val];
      }
      assert d[j..] == [d[j]] + d[j + 1..];
      after := after - {uv};
      Deleted(temp, uv, val);
    }
    assert d[|d|..] == [];
  }

  /** `list.remove` of each listed value in turn: what remains is the kept values. */
  method RemoveEach(d: seq<int>, invalid: seq<int>, ghost p: int -> bool) returns (kept: seq<int>)
    requires invalid == Rejected(d, p)
    ensures kept == Filter(d, p)
  {
    kept := d;
    DropNone(d, p);
    for k := 0 to |invalid|
      invariant kept == DropRejected(d, p, k)
    {
      DropNext(d, p, k);
      kept := RemoveFirst(kept, invalid[k]);
    }
    DropAll(d, p);
  }

  /** Put back the saved domain of every variable of `vs`, one entry at a time. */
  method Restore(d: Domains, vs: seq<Var>, original: Domains) returns (r: Domains)
    requires Keyed(d) && Keyed(original)
    ensures Keyed(r)
    ensures forall v: Var :: r[v] == if v in vs then original[v] else d[v]
  {
    r := d;
    for k := 0 to |vs|
      invariant Keyed(r)
      invariant forall v: Var :: r[v] == if v in vs[..k] then original[v] else d[v]
    {
      r := r[vs[k] := original[vs[k]]];
      assert vs[..k + 1] == vs[..k] + [vs[k]];
    }
    assert vs[..|vs|] == vs;
  }

  /** One variable's turn in forward checking: its scan, then its removals. */
  method PruneOne(d: Domains, order: seq<Var>, temp: Assignment, cs: seq<Constraint>)
    returns (kept: seq<int>, after: Assignment)
    requires Keyed(d) && order != []
    ensures kept == Filter(d[order[0]], Allowed(cs, temp, order[0]))
    ensures Prune(d, order, temp, cs) ==
      if kept == [] then None else Prune(d[order[0] := kept], order[1..], after, cs)
  {
    var uv := order[0];
    var invalid: seq<int>;
    invalid, after := InvalidValues(d[uv], uv, temp, cs);
    kept := RemoveEach(d[uv], invalid, Allowed(cs, temp, uv));
  }

  /**
   * The body of forward checking on the domain map `d`: the variables of
   * `order` are pruned in turn, and the saved domains are put back when one
   * of them empties.
   */
  method PruneDomains(d: Domains, order: seq<Var>, temp0: Assignment, cs: seq<Constraint>)
    returns (ok: bool, domains: Domains)
    requires Keyed(d)
    ensures Keyed(domains)
    ensures ok == Prune(d, order, temp0, cs).Some?
    ensures domains == if ok then Prune(d, order, temp0, cs).value else d
  {
    var temp: Assignment := temp0;
    domains := d;
    var rest: seq<Var> := order;
    for i := 0 to |order|
      invariant Keyed(domains)
      invariant rest == order[i..]
      invariant Prune(domains, rest, temp, cs) == Prune(d, order, temp0, cs)
      invariant forall v: Var :: v !in order ==> domains[v] == d[v]
    {
      var uv := order[i];
      var kept: seq<int>;
      kept, temp := PruneOne(domains, rest, temp, cs);
      domains := domains[uv := kept];
      rest := rest[1..];
      if kept == [] {
        domains := RestoreAll(domains, order, d);
        return false, domains;
      }
    }
    return true, domains;
  }

  /** Putting back the saved domain of every variable that may have changed recovers the saved map. */
  method RestoreAll(d: Domains, vs: seq<Var>, original: Domains) returns (r: Domains)
    requires Keyed(d) && Keyed(original)
    requires forall v: Var :: v !in vs ==> d[v] == original[v]
    ensures r == original
  {
    r := Restore(d, vs, original);
    RestoredAll(d, r, vs, original);
  }

  /** Slicing `s` at `j` splits off the value `s[j]` on either side. */
  lemma SliceAt(s: seq<int>, j: nat)
    requires j < |s|
    ensures s[..j + 1] == s[..j] + [s[j]]
    ensures s[j..] == [s[j]] + s[j + 1..]
  {
  }

  /**
   * One step of scanning a copy of `s` while removing from the live list:
   * after the first `j` values, the live list is their kept values followed
   * by the rest of `s`, and removing `s[j]` when it fails `p` keeps it so.
   */
  lemma {:induction false} ScanStep(s: seq<int>, j: nat, p: int -> bool)
    requires j < |s|
    ensures |Filter(s[..j], p)| <= j
    ensures |Filter(s[..j + 1], p)| == |Filter(s[..j], p)| + (if p(s[j]) then 1 else 0)
    ensures p(s[j]) ==> Filter(s[..j], p) + s[j..] == Filter(s[..j + 1], p) + s[j + 1..]
    ensures !p(s[j]) ==> s[j] in Filter(s[..j], p) + s[j..]
    ensures !p(s[j]) ==>
      RemoveFirst(Filter(s[..j], p) + s[j..], s[j]) == Filter(s[..j + 1], p) + s[j + 1..]
  {
    var x := s[j];
    SliceAt(s, j);
    FilterSnoc(s[..j], x, p);
    FilterLength(s[..j], p);
    if !p(x) {
      var kept := Filter(s[..j], p);
      FilterMembers(s[..j], p);
      RemoveFirstAfter(kept, x, s[j + 1..]);
      assert kept + s[j..] == kept + [x] + s[j + 1..];
      assert Filter(s[..j + 1], p) == kept;
    }
  }

  /**
   * One constraint's pass of `remove_inconsistent_values`: each value of a
   * copy of `dom` with no support in `d2` is removed (first occurrence) from
   * the live list; `removed` records whether anything went.
   */
  method RemoveUnsupported(dom: seq<int>, rel: Relation, d2: seq<int>) returns (r: seq<int>, removed: bool)
    ensures r == Filter(dom, SupportedBy(rel, d2))
    ensures removed <==> |r| < |dom|
  {
    ghost var p := SupportedBy(rel, d2);
    var copy := dom;
    r := dom;
    removed := false;
    for j := 0 to |copy|
      invariant r == Filter(copy[..j], p) + copy[j..]
      invariant removed <==> |Filter(copy[..j], p)| < j
    {
      var x := copy[j];
      ScanStep(copy, j, p);
      if !Supported(rel, x, d2) {
        r := RemoveFirst(r, x);
        removed := true;
      }
    }
    assert copy[..|copy|] == copy;
  }

  /**
   * `remove_inconsistent_values` on the domain lists `d1` (of `first`) and
   * `d2` (of `second`): each constraint of `cs` on exactly the arc
   * (first, second) filters `d1` in turn.
   */
  method ReviseArc(cs: seq<Constraint>, first: Var, second: Var, d1: seq<int>, d2: seq<int>)
    returns (r: seq<int>, removed: bool)
    ensures r == Revised(cs, first, second, d1, d2)
    ensures removed <==> |r| < |d1|
  {
    r := d1;
    removed := false;
    for i := 0 to |cs|
      invariant r == Revised(cs[..i], first, second, d1, d2)
      invariant |r| <= |d1|
      invariant removed <==> |r| < |d1|
    {
      assert cs[..i + 1][..i] == cs[..i];
      var c := cs[i];
      if c.first == first && c.second == second {
        var gone: bool;
        FilterLength(r, SupportedBy(c.rel, d2));
        r, gone := RemoveUnsupported(r, c.rel, d2);
        removed := removed || gone;
      }
    }
    assert cs[..|cs|] == cs;
  }

  /** Every domain of `d` holds only values of the matching domain of `d0`, with no more repeats. */
  ghost predicate Shrunk(d: Domains, d0: Domains)
    requires Keyed(d) && Keyed(d0)
  {
    forall v: Var :: multiset(d[v]) <= multiset(d0[v])
  }

  /** No domain that is non-empty in `d0` is empty in `d`. */
  ghost predicate NoneEmptied(d0: Domains, d: Domains)
    requires Keyed(d) && Keyed(d0)
  {
    forall v: Var :: d0[v] != [] ==> d[v] != []
  }

  /** Every solution drawn from `d0` is still drawn from `d`. */
  ghost predicate SolutionsKept(cs: seq<Constraint>, d0: Domains, d: Domains)
    requires Keyed(d) && Keyed(d0)
  {
    forall b :: Solved(b, cs) && Fits(b, d0) ==> Fits(b, d)
  }

  /** The bookkeeping of a revision that removed values from `f`'s domain. */
  lemma {:induction false} RemovalFacts(cs: seq<Constraint>, d0: Domains, d: Domains, f: Var, s: Var, kept: seq<int>)
    requires Keyed(d0) && Keyed(d) && f != s
    requires Shrunk(d, d0) && SolutionsKept(cs, d0, d)
    requires kept == Revised(cs, f, s, d[f], d[s]) && |kept| < |d[f]|
    ensures SizeOf(d[f := kept], Variables) < SizeOf(d, Variables)
    ensures Shrunk(d[f := kept], d0)
    ensures SolutionsKept(cs, d0, d[f := kept])
    ensures d0[f] != []
  {
    RevisedShrinks(cs, f, s, d[f], d[s]);
    SizeUpdate(d, f, kept);
    forall b | Solved(b, cs) && Fits(b, d0)
      ensures Fits(b, d[f := kept])
    {
      ReviseKeepsSolutions(cs, d, f, s, b);
    }
    assert multiset(d[f]) != multiset{};
  }

  /** Queue the arc (n, first) for every neighbour n of `first` other than `second`, in any order. */
  method Requeue(queue: seq<(Var, Var)>, first: Var, second: Var) returns (q: seq<(Var, Var)>)
    requires forall a :: a in queue ==> a.0 != a.1
    ensures forall a :: a in queue ==> a in q
    ensures forall n :: n in Neighbors(first) && n != second ==> (n, first) in q
    ensures forall a :: a in q ==> a.0 != a.1
  {
    var neighbors := Neighbors(first);
    var pending: set<Var> := (set n | n in neighbors) - {second};
    q := queue;
    while pending != {}
      invariant forall n :: n in neighbors && n != second ==> n in pending || (n, first) in q
      invariant forall a :: a in queue ==> a in q
      invariant forall a :: a in q ==> a.0 != a.1
      invariant forall n :: n in pending ==> n in neighbors
      decreases pending
    {
      var n :| n in pending;
      q := q + [(n, first)];
      pending := pending - {n};
    }
  }

  /**
   * What AC-3 keeps true between two pops: domains only shrink, no domain
   * that started non-empty is empty, queued arcs link two distinct
   * variables, every constraint is consistent or queued, and every solution
   * drawn from the starting domains is still drawn from the current ones.
   */
  ghost predicate Ac3Invariant(cs: seq<Constraint>, d0: Domains, d: Domains, queue: seq<(Var, Var)>)
  {
    Keyed(d0) && Keyed(d) && Shrunk(d, d0) && NoneEmptied(d0, d)
    && (forall a :: a in queue ==> a.0 != a.1)
    && Pending(cs, d, queue) && SolutionsKept(cs, d0, d)
  }

  lemma {:induction false} Ac3Start(cs: seq<Constraint>, d0: Domains)
    requires Keyed(d0) && cs == CreateConstraints()
    ensures Ac3Invariant(cs, d0, d0, Pairs)
  {
    PairsOfConstraints();
  }

  /** A pop whose revision removes nothing keeps the invariant. */
  lemma {:induction false} Ac3Keep(cs: seq<Constraint>, d0: Domains, d: Domains, f: Var, s: Var, rest: seq<(Var, Var)>)
    requires Ac3Invariant(cs, d0, d, [(f, s)] + rest)
    requires Revised(cs, f, s, d[f], d[s]) == d[f]
    ensures Ac3Invariant(cs, d0, d, rest)
  {
    assert f != s;
    KeepStep(cs, d, f, s, rest);
  }

  /** A pop whose revision removes values but leaves some keeps the invariant, with a smaller total. */
  lemma {:induction false} Ac3Remove(cs: seq<Constraint>, d0: Domains, d: Domains, f: Var, s: Var, rest: seq<(Var, Var)>,
                  kept: seq<int>, queue: seq<(Var, Var)>)
    requires cs == CreateConstraints()
    requires Ac3Invariant(cs, d0, d, [(f, s)] + rest)
    requires kept == Revised(cs, f, s, d[f], d[s]) && |kept| < |d[f]| && kept != []
    requires forall a :: a in rest ==> a in queue
    requires forall n :: n in Neighbors(f) && n != s ==> (n, f) in queue
    requires forall a :: a in queue ==> a.0 != a.1
    ensures Ac3Invariant(cs, d0, d[f := kept], queue)
    ensures SizeOf(d[f := kept], Variables) < SizeOf(d, Variables)
  {
    assert f != s;
    RemovalFacts(cs, d0, d, f, s, kept);
    RemoveStep(cs, d, f, s, rest, kept, queue);
    KeptNonEmpty(d0, d, f, kept, d[f := kept]);
  }

  /** Narrowing one domain to a non-empty list empties no domain. */
  lemma KeptNonEmpty(d0: Domains, d: Domains, f: Var, kept: seq<int>, e: Domains)
    requires Keyed(d0) && Keyed(d) && NoneEmptied(d0, d)
    requires kept != [] && e == d[f := kept]
    ensures Keyed(e) && NoneEmptied(d0, e)
  {
  }

  /** A pop whose revision empties the domain: that domain had values at the start. */
  lemma {:induction false} Ac3Empty(cs: seq<Constraint>, d0: Domains, d: Domains, f: Var, s: Var, rest: seq<(Var, Var)>)
    requires Ac3Invariant(cs, d0, d, [(f, s)] + rest)
    requires Revised(cs, f, s, d[f], d[s]) == [] && d[f] != []
    ensures d0[f] != []
  {
    RevisedShrinks(cs, f, s, d[f], d[s]);
    assert multiset(d[f]) <= multiset(d0[f]);
    assert multiset(d[f]) != multiset{};
  }

  /**
   * AC-3 on the domain map `d0`: arcs are popped from the front of a queue
   * that starts as `Pairs`; when a revision removes values, an emptied
   * domain ends the run with false, and otherwise the arc (n, first) of every
   * neighbour n of `first` other than `second` is queued.
   */
  method Arcs(d0: Domains, cs: seq<Constraint>) returns (ok: bool, d: Domains)
    requires Keyed(d0) && cs == CreateConstraints()
    ensures Keyed(d) && Shrunk(d, d0)
    ensures ok <==> NoneEmptied(d0, d)
    ensures ok ==> forall c :: c in cs ==> ArcConsistent(d, c)
    ensures SolutionsKept(cs, d0, d)
  {
    d := d0;
    var queue: seq<(Var, Var)> := Pairs;
    Ac3Start(cs, d0);
    while queue != []
      invariant Ac3Invariant(cs, d0, d, queue)
      decreases SizeOf(d, Variables), |queue|
    {
      var (first, second) := queue[0];
      assert queue == [(first, second)] + queue[1..];
      var rest := queue[1..];
      var kept, removed := ReviseArc(cs, first, second, d[first], d[second]);
      RevisedLength(cs, first, second, d[first], d[second]);
      if !removed {
        Ac3Keep(cs, d0, d, first, second, rest);
        queue := rest;
      } else if kept == [] {
        Ac3Empty(cs, d0, d, first, second, rest);
        RemovalFacts(cs, d0, d, first, second, kept);
        d := d[first := kept];
        assert !NoneEmptied(d0, d);
        return false, d;
      } else {
        queue := Requeue(rest, first, second);
        Ac3Remove(cs, d0, d, first, second, rest, kept, queue);
        d := d[first := kept];
      }
    }
    ok := true;
  }

  /* ---------- The solver's state ---------- */

  /**
   * The problem's domain map and constraint list, with the assignment, the
   * grid trail and the two counters that the source threads through the
   * recursive search as shared mutable arguments.
   */
  class Solver {
    var domains: Domains
    const constraints: seq<Constraint>
    var assignment: Assignment
    var path: seq<Grid>
    var nodesExpanded: nat
    var maxDepth: nat

    constructor (domains: Domains, constraints: seq<Constraint>)
      ensures this.domains == domains && this.constraints == constraints
      ensures assignment == map[] && path == [] && nodesExpanded == 0 && maxDepth == 0
    {
      this.domains := domains;
      this.constraints := constraints;
      assignment := map[];
      path := [];
      nodesExpanded := 0;
      maxDepth := 0;
    }

    /**
     * Forward checking after `variable` := `value`: every unassigned
     * variable's domain loses the values that would break a constraint; if a
     * domain empties, every domain is put back and the answer is false.
     */
    method ForwardChecking(variable: Var, value: int) returns (ok: bool)
      requires Keyed(domains)
      modifies this`domains
      ensures Keyed(domains)
      ensures var r := Prune(old(domains), Unassigned(assignment), assignment[variable := value], constraints);
        ok == r.Some? && domains == (if ok then r.value else old(domains))
    {
      var d: Domains;
      ok, d := PruneDomains(domains, Unassigned(assignment), assignment[variable := value], constraints);
      domains := d;
    }

    /**
     * Backtracking search from variable X(index + 1), with the variables
     * before it assigned: count the node, record the depth and (for a
     * non-empty assignment) the grid, and answer the full assignment at the
     * last variable; otherwise try each value of a copy of the variable's
     * domain in turn, putting back the domains saved on entry after each
     * failed try.
     */
    method Backtrack(index: nat, useForward: bool, ghost vals: set<int>) returns (result: Option<Assignment>)
      requires index <= 9
      requires forall v: Var :: v in assignment <==> v <= index
      requires Valid(assignment, constraints)
      requires Keyed(domains) && Within(domains, vals)
      requires forall v :: v in assignment ==> assignment[v] in vals
      modifies this
      decreases 9 - index, 2, 0
      ensures result.Some? ==> result.value == assignment && Solved(assignment, constraints)
      ensures result.Some? ==> forall v :: v in assignment ==> assignment[v] in vals
      ensures result.None? ==> assignment == old(assignment) && domains == old(domains)
      ensures result.None? ==> NoSolution(old(assignment), old(domains), constraints)
      ensures old(path) <= path
      ensures old(assignment) != map[] ==> |path| > |old(path)| && path[|old(path)|] == CreateGrid(old(assignment))
      ensures result.None? && old(assignment) != map[] ==> path[|path| - 1] == CreateGrid(old(assignment))
      ensures nodesExpanded > old(nodesExpanded)
      ensures maxDepth >= old(maxDepth) && maxDepth >= |old(assignment)|
    {
      CountNode();
      if index == 9 {
        return Some(assignment);
      }
      var variable: Var := index + 1;
      ghost var a0: Assignment := assignment;
      ghost var d0: Domains := domains;
      result := TryEach(index, useForward, vals, domains[variable]);
      if result.None? {
        AllExcluded(a0, d0, constraints, variable);
      }
    }

    /**
     * The loop of `Backtrack` over a copy of the domain of X(index + 1):
     * each value is tried in turn, with the domains saved before the loop
     * put back after each failed try.
     */
    method TryEach(index: nat, useForward: bool, ghost vals: set<int>, values: seq<int>) returns (result: Option<Assignment>)
      requires index < 9
      requires forall v: Var :: v in assignment <==> v <= index
      requires Valid(assignment, constraints)
      requires Keyed(domains) && Within(domains, vals) && values == domains[index + 1]
      requires forall v :: v in assignment ==> assignment[v] in vals
      modifies this
      decreases 9 - index, 1, 1
      ensures result.Some? ==> result.value == assignment && Solved(assignment, constraints)
      ensures result.Some? ==> forall v :: v in assignment ==> assignment[v] in vals
      ensures result.None? ==> assignment == old(assignment) && domains == old(domains)
      ensures result.None? ==> NoSolutionWith(old(assignment), old(domains), constraints, index + 1, values)
      ensures old(path) <= path
      ensures result.None? && path != old(path) ==> |path| > 0 && path[|path| - 1] == CreateGrid(old(assignment))
      ensures nodesExpanded >= old(nodesExpanded) && maxDepth >= old(maxDepth)
    {
      var variable: Var := index + 1;
      var originalDomains: Domains := domains;
      ghost var a0: Assignment := assignment;
      for j := 0 to |values|
        invariant assignment == a0 && domains == originalDomains
        invariant old(path) <= path
        invariant path != old(path) ==> |path| > 0 && path[|path| - 1] == CreateGrid(a0)
        invariant nodesExpanded >= old(nodesExpanded) && maxDepth >= old(maxDepth)
        invariant NoSolutionWith(a0, originalDomains, constraints, variable, values[..j])
      {
        result := TryValue(index, useForward, vals, values[j], originalDomains);
        if result.Some? {
          return result;
        }
        ExcludedSnoc(a0, originalDomains, constraints, variable, values[..j], values[j]);
        assert values[..j + 1] == values[..j] + [values[j]];
      }
      assert values[..|values|] == values;
      return None;
    }

    /**
     * The bookkeeping on entry to `Backtrack`: one more node, the depth
     * reached, and the grid of a non-empty assignment appended to the trail.
     */
    method CountNode()
      modifies this`nodesExpanded, this`maxDepth, this`path
      ensures nodesExpanded == old(nodesExpanded) + 1
      ensures maxDepth >= old(maxDepth) && maxDepth >= |assignment|
      ensures maxDepth == old(maxDepth) || maxDepth == |assignment|
      ensures path == if assignment != map[] then old(path) + [CreateGrid(assignment)] else old(path)
    {
      nodesExpanded := nodesExpanded + 1;
      if |assignment| > maxDepth {
        maxDepth := |assignment|;
      }
      if assignment != map[] {
        path := path + [CreateGrid(assignment)];
      }
    }

    /**
     * One value of the loop in `Backtrack`: when `IsConsistent` accepts it,
     * assign it and record the grid, go deeper, and on failure unassign the
     * variable and record the grid again.
     */
    method TryValue(index: nat, useForward: bool, ghost vals: set<int>, value: int, originalDomains: Domains)
      returns (result: Option<Assignment>)
      requires index < 9
      requires forall v: Var :: v in assignment <==> v <= index
      requires Valid(assignment, constraints)
      requires domains == originalDomains
      requires Keyed(domains) && Within(domains, vals) && value in domains[index + 1]
      requires forall v :: v in assignment ==> assignment[v] in vals
      modifies this
      decreases 9 - index, 1, 0
      ensures result.Some? ==> result.value == assignment && Solved(assignment, constraints)
      ensures result.Some? ==> forall v :: v in assignment ==> assignment[v] in vals
      ensures result.None? ==> assignment == old(assignment) && domains == old(domains)
      ensures result.None? ==> NoSolutionWith(old(assignment), old(domains), constraints, index + 1, [value])
      ensures old(path) <= path
      ensures !IsConsistent(index + 1, value, old(assignment), constraints) ==> result.None? && path == old(path)
      ensures IsConsistent(index + 1, value, old(assignment), constraints) ==>
        |path| > |old(path)| && path[|old(path)|] == CreateGrid(old(assignment)[index + 1 := value])
      ensures result.None? && IsConsistent(index + 1, value, old(assignment), constraints) ==>
        |path| > 0 && path[|path| - 1] == CreateGrid(old(assignment))
      ensures result.None? && path != old(path) ==> |path| > 0 && path[|path| - 1] == CreateGrid(old(assignment))
      ensures nodesExpanded >= old(nodesExpanded) && maxDepth >= old(maxDepth)
    {
      var variable: Var := index + 1;
      ghost var a0: Assignment := assignment;
      if !IsConsistent(variable, value, assignment, constraints) {
        RefusedExcluded(a0, originalDomains, constraints, variable, value);
        return None;
      }
      IsConsistentExtends(variable, value, assignment, constraints);
      assignment := assignment[variable := value];
      path := path + [CreateGrid(assignment)];
      ghost var p1: seq<Grid> := path;
      if useForward {
        result := DescendChecked(index, vals, value, originalDomains, a0);
      } else {
        result := Descend(index, vals, value, originalDomains, a0);
      }
      if result.None? {
        SetThenDelete(a0, variable, value);
        assignment := assignment - {variable};
        path := path + [CreateGrid(assignment)];
      }
    }

    /**
     * After X(index + 1) := `value`, plain backtracking: the deeper search,
     * and on failure the saved domains put back.
     */
    method Descend(index: nat, ghost vals: set<int>, value: int, originalDomains: Domains,
                   ghost a0: Assignment)
      returns (result: Option<Assignment>)
      requires index < 9 && index + 1 !in a0
      requires forall v: Var :: v in a0 <==> v <= index
      requires assignment == a0[index + 1 := value] && Valid(assignment, constraints)
      requires domains == originalDomains
      requires Keyed(domains) && Within(domains, vals)
      requires forall v :: v in assignment ==> assignment[v] in vals
      modifies this
      decreases 9 - index, 0, 1
      ensures result.Some? ==> result.value == assignment && Solved(assignment, constraints)
      ensures result.Some? ==> forall v :: v in assignment ==> assignment[v] in vals
      ensures result.None? ==> assignment == old(assignment) && domains == old(domains)
      ensures result.None? ==> NoSolutionWith(a0, old(domains), constraints, index + 1, [value])
      ensures old(path) <= path
      ensures nodesExpanded >= old(nodesExpanded) && maxDepth >= old(maxDepth)
    {
      var variable: Var := index + 1;
      AssignedNext(a0, index, value, assignment);
      result := Backtrack(index + 1, false, vals);
      if result.None? {
        SearchExcluded(a0, originalDomains, constraints, variable, value);
        domains := originalDomains;
      }
    }

    /**
     * After X(index + 1) := `value`, with forward checking: the deeper search
     * only when the check succeeds, and on failure the saved domains put back.
     */
    method DescendChecked(index: nat, ghost vals: set<int>, value: int, originalDomains: Domains,
                          ghost a0: Assignment)
      returns (result: Option<Assignment>)
      requires index < 9 && index + 1 !in a0
      requires forall v: Var :: v in a0 <==> v <= index
      requires assignment == a0[index + 1 := value] && Valid(assignment, constraints)
      requires domains == originalDomains
      requires Keyed(domains) && Within(domains, vals)
      requires forall v :: v in assignment ==> assignment[v] in vals
      modifies this
      decreases 9 - index, 0, 0
      ensures result.Some? ==> result.value == assignment && Solved(assignment, constraints)
      ensures result.Some? ==> forall v :: v in assignment ==> assignment[v] in vals
      ensures result.None? ==> assignment == old(assignment) && domains == old(domains)
      ensures result.None? ==> NoSolutionWith(a0, old(domains), constraints, index + 1, [value])
      ensures old(path) <= path
      ensures nodesExpanded >= old(nodesExpanded) && maxDepth >= old(maxDepth)
    {
      var variable: Var := index + 1;
      var go := CheckForward(index, vals, value, a0);
      if !go {
        return None;
      }
      AssignedNext(a0, index, value, assignment);
      result := Backtrack(index + 1, true, vals);
      if result.Some? {
        return;
      }
      PrunedSearchExcluded(a0, originalDomains, constraints, variable, value);
      domains := originalDomains;
    }

    /**
     * Forward checking for X(index + 1) := `value`, already in the
     * assignment: on success the domains are pruned and still draw from
     * `vals`; on failure they are as before and no solution uses the value.
     */
    method CheckForward(index: nat, ghost vals: set<int>, value: int, ghost a0: Assignment) returns (go: bool)
      requires index < 9 && index + 1 !in a0
      requires assignment == a0[index + 1 := value]
      requires Keyed(domains) && Within(domains, vals)
      modifies this`domains
      ensures Keyed(domains) && Within(domains, vals)
      ensures go ==> Prune(old(domains), Unassigned(assignment), assignment, constraints) == Some(domains)
      ensures !go ==> domains == old(domains) && NoSolutionWith(a0, domains, constraints, index + 1, [value])
    {
      var variable: Var := index + 1;
      SetTwice(a0, variable, value);
      go := ForwardChecking(variable, value);
      if go {
        PruneWithin(old(domains), Unassigned(assignment), assignment, constraints, vals);
      } else {
        PruneFailExcluded(a0, domains, constraints, variable, value);
      }
    }

    /**
     * The search that ends `solve`: backtracking from X1 and an empty
     * assignment over domains that still hold every solution drawn from the
     * board, reported with the trail, the counters and the solved grid.
     */
    method Run(useForward: bool, ghost flat: seq<int>, ghost d0: Domains) returns (report: Report)
      requires assignment == map[] && constraints == CreateConstraints()
      requires d0 == InitialDomains(flat) && Keyed(domains)
      requires domains == d0 || SolutionsKept(constraints, d0, domains)
      requires Within(domains, set x | x in flat)
      modifies this
      ensures Answers(report.solution, flat)
      ensures report.nodesExpanded > old(nodesExpanded)
      ensures report == Report(path, nodesExpanded, maxDepth, report.solution)
    {
      ghost var d1: Domains := domains;
      EmptyValid(constraints);
      var result := Backtrack(0, useForward, set x | x in flat);
      if result.Some? {
        assert DrawnFrom(result.value, flat);
        FoundAnswers(flat, result.value);
        report := Report(path, nodesExpanded, maxDepth, Some(CreateGrid(result.value)));
      } else {
        StartExcluded(constraints, d0, d1, flat);
        report := Report(path, nodesExpanded, maxDepth, None);
      }
    }

    /**
     * Revise the arc (first, second): the values of `first` without support
     * in the domain of `second`, under each constraint on that arc, are
     * removed; the answer says whether any were. The two variables differ on
     * every arc AC-3 queues.
     */
    method RemoveInconsistentValues(first: Var, second: Var) returns (removed: bool)
      requires Keyed(domains) && first != second
      modifies this`domains
      ensures domains == old(domains)[first := Revised(constraints, first, second, old(domains)[first], old(domains)[second])]
      ensures removed <==> |domains[first]| < |old(domains)[first]|
    {
      var kept: seq<int>;
      kept, removed := ReviseArc(constraints, first, second, domains[first], domains[second]);
      domains := domains[first := kept];
    }

    /**
     * AC-3 over the domains: they only shrink, no solution loses a value,
     * the answer is false exactly when a domain that had values is emptied,
     * and on true every constraint is arc-consistent.
     */
    method Ac3() returns (ok: bool)
      requires Keyed(domains) && constraints == CreateConstraints()
      modifies this`domains
      ensures Keyed(domains) && Shrunk(domains, old(domains))
      ensures ok <==> NoneEmptied(old(domains), domains)
      ensures ok ==> forall c :: c in constraints ==> ArcConsistent(domains, c)
      ensures SolutionsKept(constraints, old(domains), domains)
    {
      var d: Domains;
      ok, d := Arcs(domains, constraints);
      domains := d;
    }
  }

  /* ---------- Solving a board ---------- */

  /** The search strategy; a method name the solver does not know means plain backtracking. */
  datatype Strategy = Plain | Forward | ArcConsistency

  /** What `solve` reports: the grid trail, the node count, the deepest assignment and the solved grid. */
  datatype Report = Report(path: seq<Grid>, nodesExpanded: nat, maxDepth: nat, solution: Option<Grid>)

  /** The board's tiles in row-major order. */
  function Flatten(board: seq<seq<int>>): (flat: seq<int>)
    ensures forall x :: x in flat <==> exists row :: row in board && x in row
  {
    if board == [] then [] else board[0] + Flatten(board[1..])
  }

  /** Every variable starts with the whole board, repeats and all, as its domain. */
  function InitialDomains(flat: seq<int>): (d: Domains)
    ensures Keyed(d) && forall v: Var :: d[v] == flat
  {
    map v | v in Variables :: flat
  }

  /** Every value of `a` is a tile of the board. */
  ghost predicate DrawnFrom(a: Assignment, flat: seq<int>)
  {
    forall v :: v in a ==> a[v] in flat
  }

  /** The empty assignment, where the search starts, is consistent. */
  lemma {:induction false} EmptyValid(cs: seq<Constraint>)
    ensures Valid(map[], cs)
  {
    ConstraintsHoldIff(cs, map[]);
  }

  /** Domains that only shrank still draw from the same values. */
  lemma {:induction false} ShrunkWithin(d: Domains, d0: Domains, vals: set<int>)
    requires Keyed(d) && Keyed(d0) && Shrunk(d, d0) && Within(d0, vals)
    ensures Within(d, vals)
  {
    forall v: Var, x | x in d[v]
      ensures x in vals
    {
      assert x in multiset(d[v]);
      assert x in multiset(d0[v]);
    }
  }

  /** The solved board's assignment: Xk = k for the first eight cells, X9 = 0. */
  const GoalAssignment: Assignment := map k | k in Variables :: if k == 9 then 0 else k

  /** Every constraint holds on the goal assignment. */
  lemma {:induction false} GoalHolds()
    ensures ConstraintsHold(CreateConstraints(), GoalAssignment)
  {
    var g := GoalAssignment;
    var cs := CreateConstraints();
    forall i | 0 <= i < |cs|
      ensures Holds(cs[i].rel, g[cs[i].first], g[cs[i].second])
    {
      if i < 5 {
        assert cs[i] == Constraint(TopBottom[i].0, TopBottom[i].1, Below);
      } else {
        assert cs[i] == Constraint(LeftRight[i - 5].0, LeftRight[i - 5].1, RightOf);
      }
    }
    ConstraintsHoldIff(cs, g);
  }

  /** The goal assignment is a solution, and its grid is the goal board. */
  lemma {:induction false} GoalSolved()
    ensures Solved(GoalAssignment, CreateConstraints())
    ensures CreateGrid(GoalAssignment) == Goal
  {
    GoalHolds();
    GoalGrid(GoalAssignment);
  }

  /** The board holds exactly the tiles 0..8 (a tile may repeat). */
  ghost predicate FullBoard(flat: seq<int>)
  {
    forall x :: 0 <= x <= 8 <==> x in flat
  }

  /** A board holding every tile 0..8 admits a solution drawn from it. */
  lemma {:induction false} FullBoardSolvable(flat: seq<int>)
    requires FullBoard(flat)
    ensures exists a :: Solved(a, CreateConstraints()) && DrawnFrom(a, flat)
  {
    GoalSolved();
    assert DrawnFrom(GoalAssignment, flat);
  }

  /**
   * What a reported solution means for a board: a solved grid is the grid
   * of a solved assignment drawn from the board; no solution means that no
   * solved assignment draws from it; a board of exactly the tiles 0..8 gets
   * the goal grid.
   */
  ghost predicate Answers(solution: Option<Grid>, flat: seq<int>)
  {
    && (solution.Some? ==>
          exists a :: Solved(a, CreateConstraints()) && DrawnFrom(a, flat) && solution.value == CreateGrid(a))
    && (solution.None? ==> forall a :: Solved(a, CreateConstraints()) ==> !DrawnFrom(a, flat))
    && (FullBoard(flat) ==> solution == Some(Goal))
  }

  /** The grid of a solution drawn from the board answers the board. */
  lemma {:induction false} FoundAnswers(flat: seq<int>, a: Assignment)
    requires Solved(a, CreateConstraints()) && DrawnFrom(a, flat)
    ensures Answers(Some(CreateGrid(a)), flat)
  {
    if FullBoard(flat) {
      SolutionIsGoal(a);
    }
  }

  /** When AC-3 empties a domain that started as the board, no solution draws from the board. */
  lemma {:induction false} NoneFits(cs: seq<Constraint>, d0: Domains, d: Domains, flat: seq<int>)
    requires cs == CreateConstraints() && d0 == InitialDomains(flat) && Keyed(d)
    requires !NoneEmptied(d0, d) && SolutionsKept(cs, d0, d)
    ensures Answers(None, flat)
  {
    var v: Var :| d0[v] != [] && d[v] == [];
    forall a | Solved(a, cs) && DrawnFrom(a, flat)
      ensures false
    {
      assert Fits(a, d0);
    }
    if FullBoard(flat) {
      FullBoardSolvable(flat);
    }
  }

  /**
   * When no solution extends the empty assignment from domains that kept
   * every solution drawn from the board, no solution draws from the board.
   */
  lemma {:induction false} StartExcluded(cs: seq<Constraint>, d0: Domains, d1: Domains, flat: seq<int>)
    requires cs == CreateConstraints() && d0 == InitialDomains(flat) && Keyed(d1)
    requires d1 == d0 || SolutionsKept(cs, d0, d1)
    requires NoSolution(map[], d1, cs)
    ensures Answers(None, flat)
  {
    forall a | Solved(a, cs) && DrawnFrom(a, flat)
      ensures false
    {
      assert Fits(a, d0);
      assert Extends(a, map[], d1);
    }
    if FullBoard(flat) {
      FullBoardSolvable(flat);
    }
  }

  /**
   * Solve a board: every variable's domain is the whole board; under AC-3
   * the arc pass counts as one node and a domain it empties ends the solve
   * with an empty report; then backtracking (with forward checking when
   * asked) from X1 and an empty assignment. A solution is a solved
   * assignment drawn from the board, and none is reported only when no
   * solved assignment draws from the board; a board of exactly the tiles
   * 0..8 is always solved, to the goal grid. `refuted` marks the AC-3 exit.
   */
  method Solve(initialState: seq<seq<int>>, strategy: Strategy) returns (report: Report, ghost refuted: bool)
    ensures Answers(report.solution, Flatten(initialState))
    ensures refuted ==> strategy == ArcConsistency && report == Report([], 1, 0, None)
    ensures !refuted ==> report.nodesExpanded >= (if strategy == ArcConsistency then 2 else 1)
  {
    var flat: seq<int> := Flatten(initialState);
    var d0: Domains := InitialDomains(flat);
    ghost var vals: set<int> := set x | x in flat;
    var solver := new Solver(d0, CreateConstraints());
    refuted := false;
    if strategy == ArcConsistency {
      solver.nodesExpanded := 1;
      var ok := solver.Ac3();
      if !ok {
        refuted := true;
        NoneFits(solver.constraints, d0, solver.domains, flat);
        return Report([], 1, 0, None), refuted;
      }
      ShrunkWithin(solver.domains, d0, vals);
    }
    report := solver.Run(strategy == Forward, flat, d0);
  }
}
