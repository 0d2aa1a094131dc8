/**
 * The exact-cover problem that `solve` (solver.py:135-174) answers: with
 * some constraints already covered, choose placements the table has rows
 * for, so that every constraint not yet covered is met exactly once and no
 * covered one is met at all.
 */
module Exact {
  import opened Wrappers
  import opened Constraints
  import opened Links

  /** The table has a row for placement a. */
  ghost predicate HasRow(F: Frame, a: Action) {
    exists x :: Headers <= x < F.used && x < |F.actions| && F.actions[x] == Some(a)
  }

  /** Placement a meets no covered constraint. */
  predicate Fits(cov: seq<bool>, a: Action) {
    IsPlacement(a) && |cov| == Headers &&
    forall t :: 0 <= t < 4 ==> !cov[ConstraintsOf(a)[t]]
  }

  /** Placements a and b meet no common constraint. */
  predicate Disjoint(a: Action, b: Action) {
    forall t :: 0 <= t < 4 ==> ConstraintsOf(a)[t] !in ConstraintsOf(b)
  }

  /** Every placement of E has a row and fits cov. */
  ghost predicate AllFit(F: Frame, cov: seq<bool>, E: seq<Action>) {
    forall i :: 0 <= i < |E| ==> HasRow(F, E[i]) && Fits(cov, E[i])
  }

  /** No two placements of E meet a common constraint. */
  predicate Pairwise(E: seq<Action>) {
    forall i, j :: 0 <= i < j < |E| ==> Disjoint(E[i], E[j])
  }

  /** Every constraint not flagged in cov is met by some placement of E. */
  predicate Covers(cov: seq<bool>, E: seq<Action>) {
    forall u :: 0 <= u < |cov| && !cov[u] ==> exists i :: 0 <= i < |E| && u in ConstraintsOf(E[i])
  }

  /** E solves the problem left when the constraints flagged in cov are covered. */
  ghost predicate ExactCover(F: Frame, cov: seq<bool>, E: seq<Action>) {
    |cov| == Headers && AllFit(F, cov, E) && Pairwise(E) && Covers(cov, E)
  }

  /** No solution of the problem left by cov contains placement a. */
  ghost predicate Excluded(F: Frame, cov: seq<bool>, a: Action) {
    forall E :: ExactCover(F, cov, E) ==> a !in E
  }

  /** The flags cov with the constraints cs covered as well. */
  function Marked(cov: seq<bool>, cs: seq<int>): seq<bool> {
    seq(|cov|, u requires 0 <= u < |cov| => cov[u] || u in cs)
  }

  /** The flags after choosing placement a. */
  function Place(cov: seq<bool>, a: Action): seq<bool> {
    Marked(cov, ConstraintsOf(a))
  }

  /** The number of constraints not yet covered. */
  function OpenCount(cov: seq<bool>): nat
    decreases |cov|
  {
    if cov == [] then 0 else OpenCount(cov[..|cov| - 1]) + (if cov[|cov| - 1] then 0 else 1)
  }

  lemma DisjointSym(a: Action, b: Action)
    requires Disjoint(a, b)
    ensures Disjoint(b, a)
  {
  }

  /** With nothing left to cover, choosing nothing is the solution (solver.py:147-148). */
  lemma NothingLeft(F: Frame, cov: seq<bool>)
    requires |cov| == Headers && forall u :: 0 <= u < Headers ==> cov[u]
    ensures ExactCover(F, cov, [])
  {
  }

  /** What fitting the flags left by choosing a says about another placement b. */
  lemma FitsPlace(cov: seq<bool>, a: Action, b: Action)
    requires IsPlacement(a) && |cov| == Headers
    ensures Fits(Place(cov, a), b) <==> Fits(cov, b) && Disjoint(b, a)
  {
    var cov' := Place(cov, a);
    if IsPlacement(b) {
      assert forall t :: 0 <= t < 4 ==> cov'[ConstraintsOf(b)[t]] == (cov[ConstraintsOf(b)[t]] || ConstraintsOf(b)[t] in ConstraintsOf(a));
    }
  }

  /** The placements of a solution after choosing a fit the flags before it and miss a. */
  lemma ExtendFit(F: Frame, cov: seq<bool>, a: Action, E: seq<Action>)
    requires HasRow(F, a) && Fits(cov, a) && AllFit(F, Place(cov, a), E)
    ensures AllFit(F, cov, E + [a])
    ensures forall i :: 0 <= i < |E| ==> Disjoint(E[i], a)
  {
    var E' := E + [a];
    forall i | 0 <= i < |E'|
      ensures HasRow(F, E'[i]) && Fits(cov, E'[i]) && (i < |E| ==> Disjoint(E[i], a))
    {
      if i < |E| {
        assert E'[i] == E[i];
        FitsPlace(cov, a, E[i]);
      }
    }
  }

  lemma ExtendPairwise(a: Action, E: seq<Action>)
    requires Pairwise(E) && forall i :: 0 <= i < |E| ==> Disjoint(E[i], a)
    ensures Pairwise(E + [a])
  {
    var E' := E + [a];
    forall i, j | 0 <= i < j < |E'|
      ensures Disjoint(E'[i], E'[j])
    {
      assert E'[i] == E[i];
      if j < |E| {
        assert E'[j] == E[j];
      }
    }
  }

  lemma ExtendCovers(cov: seq<bool>, a: Action, E: seq<Action>)
    requires IsPlacement(a) && |cov| == Headers && Covers(Place(cov, a), E)
    ensures Covers(cov, E + [a])
  {
    var E' := E + [a];
    forall u | 0 <= u < |cov| && !cov[u]
      ensures exists i :: 0 <= i < |E'| && u in ConstraintsOf(E'[i])
    {
      if u in ConstraintsOf(a) {
        assert E'[|E|] == a;
      } else {
        assert !Place(cov, a)[u];
        var i :| 0 <= i < |E| && u in ConstraintsOf(E[i]);
        assert E'[i] == E[i];
      }
    }
  }

  /**
   * solver.py:163-166: a placement that fits, followed by a solution of the
   * problem left after choosing it, solves the problem.
   */
  lemma Extend(F: Frame, cov: seq<bool>, a: Action, E: seq<Action>)
    requires HasRow(F, a) && Fits(cov, a) && ExactCover(F, Place(cov, a), E)
    ensures ExactCover(F, cov, E + [a])
  {
    ExtendFit(F, cov, a, E);
    ExtendPairwise(a, E);
    ExtendCovers(cov, a, E);
  }

  /** E with its i-th placement removed, element by element. */
  lemma RemoveAt(E: seq<Action>, i: int)
    requires 0 <= i < |E|
    ensures |E[..i] + E[i + 1..]| == |E| - 1
    ensures forall j :: 0 <= j < i ==> (E[..i] + E[i + 1..])[j] == E[j]
    ensures forall j :: i < j < |E| ==> (E[..i] + E[i + 1..])[j - 1] == E[j]
  {
  }

  lemma WithoutFit(F: Frame, cov: seq<bool>, E: seq<Action>, i: int)
    requires ExactCover(F, cov, E) && 0 <= i < |E|
    ensures AllFit(F, Place(cov, E[i]), E[..i] + E[i + 1..])
  {
    var a := E[i];
    var E' := E[..i] + E[i + 1..];
    assert Fits(cov, a);
    RemoveAt(E, i);
    forall j | 0 <= j < |E'|
      ensures HasRow(F, E'[j]) && Fits(Place(cov, a), E'[j])
    {
      var j' := if j < i then j else j + 1;
      assert E'[j] == E[j'] by {
        if j >= i {
          assert E'[j' - 1] == E[j'];
        }
      }
      assert HasRow(F, E[j']) && Fits(cov, E[j']);
      if j' < i {
        assert Disjoint(E[j'], a);
      } else {
        assert Disjoint(a, E[j']);
        DisjointSym(a, E[j']);
      }
      FitsPlace(cov, a, E[j']);
    }
  }

  lemma WithoutPairwise(E: seq<Action>, i: int)
    requires Pairwise(E) && 0 <= i < |E|
    ensures Pairwise(E[..i] + E[i + 1..])
  {
    var E' := E[..i] + E[i + 1..];
    RemoveAt(E, i);
    forall j, l | 0 <= j < l < |E'|
      ensures Disjoint(E'[j], E'[l])
    {
      var j', l' := if j < i then j else j + 1, if l < i then l else l + 1;
      assert E'[j] == E[j'] by {
        if j >= i {
          assert E'[j' - 1] == E[j'];
        }
      }
      assert E'[l] == E[l'] by {
        if l >= i {
          assert E'[l' - 1] == E[l'];
        }
      }
    }
  }

  lemma WithoutCovers(cov: seq<bool>, E: seq<Action>, i: int)
    requires Covers(cov, E) && 0 <= i < |E|
    ensures Covers(Place(cov, E[i]), E[..i] + E[i + 1..])
  {
    var a, cov' := E[i], Place(cov, E[i]);
    var E' := E[..i] + E[i + 1..];
    RemoveAt(E, i);
    forall u | 0 <= u < |cov'| && !cov'[u]
      ensures exists j :: 0 <= j < |E'| && u in ConstraintsOf(E'[j])
    {
      assert !cov[u] && u !in ConstraintsOf(a);
      var j' :| 0 <= j' < |E| && u in ConstraintsOf(E[j']);
      var j := if j' < i then j' else j' - 1;
      assert E'[j] == E[j'] by {
        if j' > i {
          assert E'[j' - 1] == E[j'];
        }
      }
    }
  }

  /**
   * Taking placement E[i] out of a solution leaves a solution of the problem
   * left after choosing E[i].
   */
  lemma Without(F: Frame, cov: seq<bool>, E: seq<Action>, i: int)
    requires ExactCover(F, cov, E) && 0 <= i < |E|
    ensures ExactCover(F, Place(cov, E[i]), E[..i] + E[i + 1..])
  {
    WithoutFit(F, cov, E, i);
    WithoutPairwise(E, i);
    WithoutCovers(cov, E, i);
  }

  /** No placements solve the problem left by cov. */
  ghost predicate Unsolvable(F: Frame, cov: seq<bool>) {
    forall E :: !ExactCover(F, cov, E)
  }

  lemma NotIn(F: Frame, cov: seq<bool>, a: Action, E: seq<Action>)
    requires Unsolvable(F, Place(cov, a)) && ExactCover(F, cov, E)
    ensures a !in E
  {
    if i :| 0 <= i < |E| && E[i] == a {
      var E' := E[..i] + E[i + 1..];
      Without(F, cov, E, i);
      assert false;
    }
  }

  /** If nothing solves the problem left after choosing a, no solution contains a. */
  lemma NoneThrough(F: Frame, cov: seq<bool>, a: Action)
    requires Unsolvable(F, Place(cov, a))
    ensures Excluded(F, cov, a)
  {
    forall E | ExactCover(F, cov, E)
      ensures a !in E
    {
      NotIn(F, cov, a, E);
    }
  }

  /**
   * solver.py:157-174: every solution meets the uncovered constraint c
   * through some placement; if every placement that fits and meets c is
   * excluded, there is no solution.
   */
  lemma NoneAtAll(F: Frame, cov: seq<bool>, c: int)
    requires |cov| == Headers && 0 <= c < Headers && !cov[c]
    requires forall a :: HasRow(F, a) && Fits(cov, a) && c in ConstraintsOf(a) ==> Excluded(F, cov, a)
    ensures forall E :: !ExactCover(F, cov, E)
  {
    forall E | ExactCover(F, cov, E)
      ensures false
    {
    }
  }

  /** A table with no rows solves only the problem with nothing left to cover. */
  lemma NoRowsNoCover(F: Frame, cov: seq<bool>, c: int)
    requires F.used == Headers && |cov| == Headers && 0 <= c < Headers && !cov[c]
    ensures forall E :: !ExactCover(F, cov, E)
  {
    forall E | ExactCover(F, cov, E)
      ensures false
    {
    }
  }

  lemma {:induction false} OpenCountBound(cov: seq<bool>)
    ensures OpenCount(cov) <= |cov|
    decreases |cov|
  {
    if cov != [] {
      OpenCountBound(cov[..|cov| - 1]);
    }
  }

  /** Covering more constraints, one of them open before, leaves fewer open. */
  lemma {:induction false} OpenCountLess(cov: seq<bool>, cov': seq<bool>, c: int)
    requires |cov| == |cov'| && forall u :: 0 <= u < |cov| && cov[u] ==> cov'[u]
    requires 0 <= c < |cov| && !cov[c] && cov'[c]
    ensures OpenCount(cov') < OpenCount(cov)
    decreases |cov|
  {
    var n := |cov| - 1;
    var p, p' := cov[..n], cov'[..n];
    assert forall u :: 0 <= u < |p| && p[u] ==> p'[u];
    if c == n {
      OpenCountMono(p, p');
    } else {
      OpenCountLess(p, p', c);
    }
  }

  lemma {:induction false} OpenCountMono(cov: seq<bool>, cov': seq<bool>)
    requires |cov| == |cov'| && forall u :: 0 <= u < |cov| && cov[u] ==> cov'[u]
    ensures OpenCount(cov') <= OpenCount(cov)
    decreases |cov|
  {
    if cov != [] {
      var n := |cov| - 1;
      var p, p' := cov[..n], cov'[..n];
      assert forall u :: 0 <= u < |p| && p[u] ==> p'[u];
      OpenCountMono(p, p');
    }
  }

  /* ---------------------------------------------------------------------- */
  /* Rows that are missing from the table                                   */

  /** Every row whose placement still fits is linked into its columns. */
  ghost predicate Complete(s: State, F: Frame) {
    forall x {:trigger InColumn(s, F, x)} ::
      Headers <= x < F.used && x < |F.actions| && F.actions[x].Some? && Fits(s.covered, F.actions[x].value) ==>
        InColumn(s, F, x)
  }

  /** What makes the column choice of solver.py:151 safe; see Matrix.SudokuConstraints.Ready. */
  ghost predicate ReadyAt(s: State, maxSize: int, used: int) {
    |s.covered| == Headers && |s.mesh.sizes| == Headers &&
    ((maxSize == 0 && used == Headers) ||
     (maxSize > 0 && forall u :: 0 <= u < Headers && !s.covered[u] ==> s.mesh.sizes[u] < maxSize))
  }

  /** The constraints of a row's placement are the columns of the row's four nodes. */
  lemma RowMeets(F: Frame, x: int, u: int)
    requires RowsValid(F) && Headers <= x < F.used
    ensures u in ConstraintsOf(Placement(F, x)) <==>
            exists t :: 0 <= t < 4 && Mate(x, t) < |F.columns| && F.columns[Mate(x, t)] == u
  {
    var a := Placement(F, x);
    if u in ConstraintsOf(a) {
      var i :| 0 <= i < 4 && ConstraintsOf(a)[i] == u;
      OffBase(x, i);
      MateFacts(x, 0);
      var t := MateIndex(x, Base(x) + i);
      RowColumns(F, x, t);
      MateFacts(x, t);
    }
    if t :| 0 <= t < 4 && Mate(x, t) < |F.columns| && F.columns[Mate(x, t)] == u {
      RowColumns(F, x, t);
      MateFacts(x, t);
    }
  }

  /**
   * Covering an uncovered column c keeps every row whose placement still fits
   * linked in: such a row has no node in c, so c's cover does not take it out.
   */
  lemma CoverComplete(s: State, F: Frame, c: int, s': State)
    requires ValidState(s, F) && Complete(s, F) && 0 <= c < Headers
    requires s'.covered == s.covered[c := true]
    requires forall x :: InColumn(s', F, x) <==> InColumn(s, F, x) && x !in CoverSeq(s.lists[c])
    ensures Complete(s', F)
  {
    forall x | Headers <= x < F.used && x < |F.actions| && F.actions[x].Some? &&
               Fits(s'.covered, F.actions[x].value)
      ensures InColumn(s', F, x)
    {
      var a := F.actions[x].value;
      assert Fits(s.covered, a) by {
        forall t | 0 <= t < 4
          ensures !s.covered[ConstraintsOf(a)[t]]
        {
          assert !s'.covered[ConstraintsOf(a)[t]];
        }
      }
      assert InColumn(s, F, x);
      var L := s.lists[c];
      if x in CoverSeq(L) {
        CoverSeqColumns(s, F, c, L, x);
        var k :| 0 <= k < |L| && Base(x) == Base(L[k]);
        assert ListOk(s.mesh, F, c, L);
        assert Headers <= L[k] && F.columns[L[k]] == c;
        MateFacts(L[k], 0);
        var t := MateIndex(x, L[k]);
        assert Placement(F, x) == a;
        RowMeets(F, x, c);
        assert false;
      }
    }
  }
}
