/**
 * The pieces of `solve` (solver.py:135-174) that do not change the table:
 * the choice of the next column (solver.py:151) and what a row of the
 * chosen column stands for in the exact-cover problem.
 */
module Search {
  import opened Wrappers
  import opened Constraints
  import opened Links
  import opened Exact

  /* ---------------------------------------------------------------------- */
  /* Choosing the column (solver.py:151)                                    */

  /** np.where(covered, max_size, sizes): covered columns count as max_size. */
  function Masked(covered: seq<bool>, sizes: seq<int>, maxSize: int): (r: seq<int>)
    requires |covered| == |sizes|
    ensures |r| == |sizes|
  {
    seq(|covered|, u requires 0 <= u < |covered| => if covered[u] then maxSize else sizes[u])
  }

  /** np.argmin: the first index that holds the least value. */
  function ArgMin(s: seq<int>): (r: int)
    requires |s| > 0
    ensures 0 <= r < |s|
    ensures forall j :: 0 <= j < |s| ==> s[r] <= s[j]
    ensures forall j :: 0 <= j < r ==> s[r] < s[j]
    decreases |s|
  {
    if |s| == 1 then 0
    else
      var r := ArgMin(s[..|s| - 1]);
      if s[|s| - 1] < s[r] then |s| - 1 else r
  }

  /**
   * When every uncovered column is smaller than max_size, the column chosen
   * is an uncovered one of least size, and the first of those.
   */
  lemma ChoiceOpen(covered: seq<bool>, sizes: seq<int>, maxSize: int, u: int)
    requires |covered| == |sizes| && 0 <= u < |covered| && !covered[u]
    requires forall v :: 0 <= v < |covered| && !covered[v] ==> sizes[v] < maxSize
    ensures !covered[ArgMin(Masked(covered, sizes, maxSize))]
    ensures forall v :: 0 <= v < |covered| && !covered[v] ==>
              sizes[ArgMin(Masked(covered, sizes, maxSize))] <= sizes[v]
    ensures forall v :: 0 <= v < ArgMin(Masked(covered, sizes, maxSize)) && !covered[v] ==>
              sizes[ArgMin(Masked(covered, sizes, maxSize))] < sizes[v]
  {
    var m := Masked(covered, sizes, maxSize);
    var c := ArgMin(m);
    assert m[c] <= m[u] == sizes[u] < maxSize;
    forall v | 0 <= v < |covered| && !covered[v]
      ensures sizes[c] <= sizes[v]
    {
      assert m[v] == sizes[v];
    }
    forall v | 0 <= v < c && !covered[v]
      ensures sizes[c] < sizes[v]
    {
      assert m[v] == sizes[v];
    }
  }

  /**
   * The edge case of the choice: when column 0 counts as max_size and no
   * uncovered column is smaller, argmin picks column 0, covered or not.
   */
  lemma ChoiceFirst(covered: seq<bool>, sizes: seq<int>, maxSize: int)
    requires |covered| == |sizes| > 0
    requires covered[0] || sizes[0] == maxSize
    requires forall v :: 0 <= v < |covered| && !covered[v] ==> sizes[v] >= maxSize
    ensures ArgMin(Masked(covered, sizes, maxSize)) == 0
  {
    var m := Masked(covered, sizes, maxSize);
    assert m[0] == maxSize;
    assert forall j :: 0 <= j < |m| ==> m[j] >= maxSize;
  }

  /* ---------------------------------------------------------------------- */
  /* The rows of the chosen column                                          */

  /** The column of node t places to the right of x. */
  ghost function ColumnOfMate(F: Frame, x: int, t: int): int
    requires 0 <= Mate(x, t) < |F.columns|
  {
    F.columns[Mate(x, t)]
  }

  /**
   * A row linked into an uncovered column c of a valid table stands for a
   * placement the table has a row for, that fits the covered flags and meets
   * c; its other three nodes lie in three distinct uncovered columns other
   * than c.
   */
  lemma RowFits(s: State, F: Frame, c: int, k: int)
    requires ValidState(s, F) && 0 <= c < Headers && !s.covered[c] && 0 <= k < |s.lists[c]|
    ensures Headers <= s.lists[c][k] < F.used && F.columns[s.lists[c][k]] == c
    ensures F.actions[s.lists[c][k]] == Some(Placement(F, s.lists[c][k]))
    ensures HasRow(F, Placement(F, s.lists[c][k]))
    ensures Fits(s.covered, Placement(F, s.lists[c][k]))
    ensures c in ConstraintsOf(Placement(F, s.lists[c][k]))
    ensures forall t :: 1 <= t < 4 ==>
              Headers <= Mate(s.lists[c][k], t) < F.used &&
              0 <= ColumnOfMate(F, s.lists[c][k], t) < Headers &&
              ColumnOfMate(F, s.lists[c][k], t) != c &&
              !s.covered[ColumnOfMate(F, s.lists[c][k], t)]
    ensures forall t, t' :: 1 <= t < t' < 4 ==>
              ColumnOfMate(F, s.lists[c][k], t) != ColumnOfMate(F, s.lists[c][k], t')
  {
    var x := s.lists[c][k];
    assert ListOk(s.mesh, F, c, s.lists[c]);
    assert InColumn(s, F, x) && Open(s, F, x);
    assert RowActive(s, F, x);
    assert RowNode(F, x);
    var a := Placement(F, x);
    RowMeets(F, x, c);
    MateFacts(x, 0);
    forall t | 0 <= t < 4
      ensures !s.covered[ConstraintsOf(a)[t]]
    {
      var u := ConstraintsOf(a)[t];
      RowMeets(F, x, u);
      var t' :| 0 <= t' < 4 && Mate(x, t') < |F.columns| && F.columns[Mate(x, t')] == u;
      MateFacts(x, t');
      assert Open(s, F, Mate(x, t'));
    }
    forall t | 1 <= t < 4
      ensures Headers <= Mate(x, t) < F.used && 0 <= ColumnOfMate(F, x, t) < Headers
      ensures ColumnOfMate(F, x, t) != c && !s.covered[ColumnOfMate(F, x, t)]
    {
      RowColumns(F, x, t);
      MateFacts(x, t);
      assert Open(s, F, Mate(x, t));
    }
    forall t, t' | 1 <= t < t' < 4
      ensures ColumnOfMate(F, x, t) != ColumnOfMate(F, x, t')
    {
      MateFacts(x, t);
      MateFacts(x, t');
      if ColumnOfMate(F, x, t) == ColumnOfMate(F, x, t') {
        SameRowSameColumn(F, Mate(x, t), Mate(x, t'));
        assert false;
      }
    }
  }

  /** The constraints of row x's placement are the columns of its four nodes. */
  lemma RowConstraints(F: Frame, x: int, u: int)
    requires RowsValid(F) && Headers <= x < F.used
    ensures forall t :: 0 <= t < 4 ==> 0 <= Mate(x, t) < |F.columns|
    ensures u in ConstraintsOf(Placement(F, x)) <==>
              u == ColumnOfMate(F, x, 0) || u == ColumnOfMate(F, x, 1) ||
              u == ColumnOfMate(F, x, 2) || u == ColumnOfMate(F, x, 3)
  {
    RowColumns(F, x, 0);
    RowColumns(F, x, 1);
    RowColumns(F, x, 2);
    RowColumns(F, x, 3);
    var C := ConstraintsOf(Placement(F, x));
    assert C == [C[0], C[1], C[2], C[3]];
    var m := [ColumnOfMate(F, x, 0), ColumnOfMate(F, x, 1), ColumnOfMate(F, x, 2), ColumnOfMate(F, x, 3)];
    if Off(x) == 0 {
      assert m == [C[0], C[1], C[2], C[3]];
    } else if Off(x) == 1 {
      assert m == [C[1], C[2], C[3], C[0]];
    } else if Off(x) == 2 {
      assert m == [C[2], C[3], C[0], C[1]];
    } else {
      assert m == [C[3], C[0], C[1], C[2]];
    }
  }

  /**
   * solver.py:154-160: covering the chosen column and then the columns of
   * the other three nodes of row x marks exactly the constraints of x's
   * placement.
   */
  lemma PlaceRow(F: Frame, cov: seq<bool>, x: int)
    requires RowsValid(F) && Headers <= x < F.used && |cov| == Headers
    ensures forall t :: 0 <= t < 4 ==> 0 <= Mate(x, t) < |F.columns| && 0 <= ColumnOfMate(F, x, t) < Headers
    ensures cov[ColumnOfMate(F, x, 0) := true][ColumnOfMate(F, x, 1) := true][ColumnOfMate(F, x, 2) := true]
              [ColumnOfMate(F, x, 3) := true] == Place(cov, Placement(F, x))
  {
    forall t | 0 <= t < 4
      ensures 0 <= Mate(x, t) < |F.columns| && 0 <= ColumnOfMate(F, x, t) < Headers
    {
      RowColumns(F, x, t);
    }
    var lhs := cov[ColumnOfMate(F, x, 0) := true][ColumnOfMate(F, x, 1) := true][ColumnOfMate(F, x, 2) := true]
                 [ColumnOfMate(F, x, 3) := true];
    var rhs := Place(cov, Placement(F, x));
    forall u | 0 <= u < Headers
      ensures lhs[u] == rhs[u]
    {
      RowConstraints(F, x, u);
    }
  }

  /**
   * Placing the row x of an uncovered column c marks, besides c, the column
   * of its second node, uncovered until then: fewer constraints stay open
   * than after covering c alone.
   */
  lemma PlaceShrinks(F: Frame, cov: seq<bool>, c: int, x: int)
    requires RowsValid(F) && Headers <= x < F.used && |cov| == Headers && 0 <= c < Headers
    requires c in ConstraintsOf(Placement(F, x))
    requires 0 <= Mate(x, 1) < |F.columns| && 0 <= ColumnOfMate(F, x, 1) < Headers
    requires ColumnOfMate(F, x, 1) != c && !cov[ColumnOfMate(F, x, 1)]
    ensures OpenCount(Place(cov, Placement(F, x))) < OpenCount(cov[c := true])
  {
    var u := ColumnOfMate(F, x, 1);
    RowConstraints(F, x, u);
    var p := Place(cov, Placement(F, x));
    assert forall v :: 0 <= v < |cov| && cov[c := true][v] ==> p[v];
    OpenCountLess(cov[c := true], p, u);
  }

  /**
   * solver.py:48-51 together with the table's invariant: every placement
   * that the table has a row for, that fits and that meets an uncovered
   * column c is the placement of one of c's rows.
   */
  lemma Candidates(s: State, F: Frame, c: int, a: Action)
    requires ValidState(s, F) && Complete(s, F) && 0 <= c < Headers && !s.covered[c]
    requires HasRow(F, a) && Fits(s.covered, a) && c in ConstraintsOf(a)
    ensures exists j :: 0 <= j < |s.lists[c]| && Headers <= s.lists[c][j] < F.used &&
                        Placement(F, s.lists[c][j]) == a
  {
    var x :| Headers <= x < F.used && x < |F.actions| && F.actions[x] == Some(a);
    assert RowNode(F, x);
    RowMeets(F, x, c);
    var t :| 0 <= t < 4 && Mate(x, t) < |F.columns| && F.columns[Mate(x, t)] == c;
    var y := Mate(x, t);
    RowColumns(F, x, t);
    assert RowNode(F, y);
    assert InColumn(s, F, y);
    var L := s.lists[c];
    var j := IndexOf(L, y);
    assert ListOk(s.mesh, F, c, L);
  }

  /** A table without rows: every column's node list is empty and its size 0. */
  lemma NoRows(s: State, F: Frame)
    requires Structured(s, F) && F.used == Headers
    ensures forall u :: 0 <= u < Headers ==> s.lists[u] == [] && s.mesh.sizes[u] == 0
  {
    forall u | 0 <= u < Headers
      ensures s.lists[u] == [] && s.mesh.sizes[u] == 0
    {
      assert ListOk(s.mesh, F, u, s.lists[u]);
    }
  }

  /** In a table without rows the covered flags are free: any setting of them is valid and complete. */
  lemma NoRowsFlags(s: State, F: Frame, cov: seq<bool>)
    requires ValidState(s, F) && F.used == Headers && |cov| == Headers
    ensures ValidState(s.(covered := cov), F) && Complete(s.(covered := cov), F)
  {
    var s' := s.(covered := cov);
    forall u | 0 <= u < Headers
      ensures ListOk(s'.mesh, F, u, s'.lists[u])
    {
      assert ListOk(s.mesh, F, u, s.lists[u]);
    }
  }
}
