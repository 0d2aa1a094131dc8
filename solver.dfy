/**
 * SudokuSolver.__call__ of solver.py: build the table for a puzzle, run
 * Algorithm X on it, and write the placements found into the grid (or -1
 * into every cell when there are none).
 */
module Solver {
  import opened Wrappers
  import opened Constraints
  import opened Links
  import opened Exact
  import opened Table
  import opened Matrix

  /** The cell a placement writes to, in row-major order. */
  function Cell(a: Action): int {
    9 * a.row + a.col
  }

  lemma CellOf(a: Action)
    requires IsPlacement(a)
    ensures 0 <= Cell(a) < 81 && Cell(a) / 9 == a.row && Cell(a) % 9 == a.col
    ensures ConstraintsOf(a)[0] == Cell(a)
  {
  }

  /** Every element of E is a placement. */
  predicate Placements(E: seq<Action>) {
    forall k :: 0 <= k < |E| ==> IsPlacement(E[k])
  }

  /** No two placements of E are in one cell. */
  predicate Separate(E: seq<Action>) {
    forall k, l :: 0 <= k < l < |E| ==> Cell(E[k]) != Cell(E[l])
  }

  /** solver.py:196-197: the grid g after writing the digits of E, one after the other. */
  function Applied(g: seq<int>, E: seq<Action>): (h: seq<int>)
    requires |g| == 81 && Placements(E)
    ensures |h| == 81
  {
    if E == [] then g
    else
      var a := E[|E| - 1];
      CellOf(a);
      Applied(g, E[..|E| - 1])[Cell(a) := a.n]
  }

  /** A cell no placement of E writes to keeps its value. */
  lemma {:induction false} AppliedOther(g: seq<int>, E: seq<Action>, i: int)
    requires |g| == 81 && Placements(E) && 0 <= i < 81
    requires forall k :: 0 <= k < |E| ==> Cell(E[k]) != i
    ensures Applied(g, E)[i] == g[i]
  {
    if E != [] {
      AppliedOther(g, E[..|E| - 1], i);
    }
  }

  /** When the cells of E are distinct, the cell of E[k] holds its digit. */
  lemma {:induction false} AppliedCell(g: seq<int>, E: seq<Action>, k: int)
    requires |g| == 81 && Placements(E) && Separate(E) && 0 <= k < |E|
    ensures Applied(g, E)[Cell(E[k])] == E[k].n
  {
    var E' := E[..|E| - 1];
    if k < |E| - 1 {
      assert E'[k] == E[k];
      AppliedCell(g, E', k);
    }
  }

  /** No two filled cells of h meet a common constraint. */
  ghost predicate Consistent(h: seq<int>)
    requires |h| == 81
  {
    forall i, j :: 0 <= i < j < 81 && h[i] != 0 && h[j] != 0 ==> !SameUnit(CellAction(h, i), CellAction(h, j))
  }

  /**
   * h fills every cell with a digit and keeps every given of g, and any two
   * cells of h that clash (the same digit in one row, column or box) are
   * both givens of g.
   */
  ghost predicate Fills(g: seq<int>, h: seq<int>)
    requires |g| == 81
  {
    |h| == 81 &&
    (forall i :: 0 <= i < 81 ==> 1 <= h[i] <= 9) &&
    (forall i :: 0 <= i < 81 && g[i] != 0 ==> h[i] == g[i]) &&
    (forall i, j :: 0 <= i < j < 81 && SameUnit(CellAction(h, i), CellAction(h, j)) ==> g[i] != 0 && g[j] != 0)
  }

  /** A solution of puzzle g: every cell filled, the givens kept, no clash. */
  ghost predicate Completes(g: seq<int>, h: seq<int>)
    requires |g| == 81
  {
    Fills(g, h) && Consistent(h)
  }

  /** With givens that do not clash, a filling is a solution. */
  lemma FillsCompletes(g: seq<int>, h: seq<int>)
    requires IsGrid(g) && Consistent(g) && Fills(g, h)
    ensures Completes(g, h)
  {
  }

  /** The constraints of a given digit are covered before the search starts. */
  lemma GivenCovers(g: seq<int>, i: int, u: int)
    requires IsGrid(g) && 0 <= i < 81 && g[i] != 0 && u in ConstraintsOf(CellAction(g, i))
    ensures 0 <= u < Headers && GivenFlags(g)[u]
  {
    var t :| 0 <= t < 4 && ConstraintsOf(CellAction(g, i))[t] == u;
    ConstraintFamilies(CellAction(g, i), t);
    assert GivenMeets(g, i, u);
    GivenMarks(g, |g|, u);
  }

  /** The cell constraint of an empty cell is open when the search starts. */
  lemma EmptyOpen(g: seq<int>, i: int)
    requires IsGrid(g) && 0 <= i < 81 && g[i] == 0
    ensures !GivenFlags(g)[i]
  {
    GivenMarks(g, |g|, i);
  }

  /** The flags cov cover every constraint of every given of g, and no cell constraint of an empty cell. */
  ghost predicate GivensMarked(g: seq<int>, cov: seq<bool>)
    requires IsGrid(g)
  {
    |cov| == Headers &&
    (forall i, u :: 0 <= i < 81 && GivenMeets(g, i, u) ==> 0 <= u < Headers && cov[u]) &&
    (forall i :: 0 <= i < 81 && g[i] == 0 ==> !cov[i])
  }

  lemma GivenFlagsMarked(g: seq<int>)
    requires IsGrid(g)
    ensures GivensMarked(g, GivenFlags(g))
  {
    forall i, u | 0 <= i < 81 && GivenMeets(g, i, u)
      ensures 0 <= u < Headers && GivenFlags(g)[u]
    {
      GivenCovers(g, i, u);
    }
    forall i | 0 <= i < 81 && g[i] == 0
      ensures !GivenFlags(g)[i]
    {
      EmptyOpen(g, i);
    }
  }

  /** Every placement of E fits cov. */
  predicate FitAll(cov: seq<bool>, E: seq<Action>) {
    forall k :: 0 <= k < |E| ==> Fits(cov, E[k])
  }

  /** E meets every constraint open in cov once, and none covered in cov. */
  ghost predicate Solution(cov: seq<bool>, E: seq<Action>) {
    Placements(E) && Pairwise(E) && Covers(cov, E) && FitAll(cov, E)
  }

  /** A given meets the constraint of its own cell. */
  lemma OwnCell(g: seq<int>, i: int)
    requires IsGrid(g) && 0 <= i < 81
    ensures g[i] != 0 ==> GivenMeets(g, i, i)
  {
    assert ConstraintsOf(CellAction(g, i))[0] == i;
  }

  /** A placement that fits flags marking the givens is at an empty cell. */
  lemma FitsOpen(g: seq<int>, cov: seq<bool>, a: Action)
    requires IsGrid(g) && GivensMarked(g, cov) && Fits(cov, a)
    ensures g[Cell(a)] == 0
  {
    CellOf(a);
    OwnCell(g, Cell(a));
  }

  /** The placements of a solution are in distinct cells. */
  lemma DistinctCells(E: seq<Action>)
    requires Placements(E) && Pairwise(E)
    ensures Separate(E)
  {
    forall k, l | 0 <= k < l < |E|
      ensures Cell(E[k]) != Cell(E[l])
    {
      CellOf(E[k]);
      CellOf(E[l]);
    }
  }

  /** A placement clashing with a given cannot fit the flags of the givens. */
  lemma GivenClash(g: seq<int>, cov: seq<bool>, i: int, a: Action)
    requires IsGrid(g) && GivensMarked(g, cov) && 0 <= i < 81 && g[i] != 0 && Fits(cov, a)
    ensures !SameUnit(CellAction(g, i), a) && !SameUnit(a, CellAction(g, i))
  {
    var p := CellAction(g, i);
    SharedConstraint(p, a);
    SharedConstraint(a, p);
    if u :| u in ConstraintsOf(p) && u in ConstraintsOf(a) {
      assert GivenMeets(g, i, u);
      assert false;
    }
  }

  /** Two placements of a solution never clash. */
  lemma CoverClash(E: seq<Action>, k: int, l: int)
    requires Placements(E) && Pairwise(E) && 0 <= k < |E| && 0 <= l < |E| && k != l
    ensures !SameUnit(E[k], E[l])
  {
    SharedConstraint(E[k], E[l]);
    if k > l {
      DisjointSym(E[l], E[k]);
    }
    assert Disjoint(E[k], E[l]);
  }

  /** Some placement of E writes to cell i. */
  predicate Written(E: seq<Action>, i: int) {
    exists k :: 0 <= k < |E| && Cell(E[k]) == i
  }

  /**
   * What a solution of the table does to the grid g: its placements are in
   * distinct empty cells and reach every empty cell, none clashes with a
   * given, and no two clash with each other.
   */
  ghost predicate Writes(g: seq<int>, E: seq<Action>)
    requires IsGrid(g)
  {
    Placements(E) && Separate(E) &&
    (forall k :: 0 <= k < |E| ==> g[Cell(E[k])] == 0) &&
    (forall i :: 0 <= i < 81 && g[i] == 0 ==> Written(E, i)) &&
    (forall i, k :: 0 <= i < 81 && g[i] != 0 && 0 <= k < |E| ==> !SameUnit(CellAction(g, i), E[k])) &&
    (forall k, l :: 0 <= k < |E| && 0 <= l < |E| && k != l ==> !SameUnit(E[k], E[l]))
  }

  /** An open cell constraint is met by a placement of E in that cell. */
  lemma OpenWritten(cov: seq<bool>, E: seq<Action>, i: int)
    requires |cov| == Headers && Placements(E) && Covers(cov, E) && 0 <= i < 81 && !cov[i]
    ensures Written(E, i)
  {
    var k :| 0 <= k < |E| && i in ConstraintsOf(E[k]);
    var t :| 0 <= t < 4 && ConstraintsOf(E[k])[t] == i;
    ConstraintFamilies(E[k], t);
    CellOf(E[k]);
  }

  lemma SolutionWrites(g: seq<int>, cov: seq<bool>, E: seq<Action>)
    requires IsGrid(g) && GivensMarked(g, cov) && Solution(cov, E)
    ensures Writes(g, E)
  {
    DistinctCells(E);
    forall k | 0 <= k < |E|
      ensures g[Cell(E[k])] == 0
    {
      FitsOpen(g, cov, E[k]);
    }
    forall i | 0 <= i < 81 && g[i] == 0
      ensures Written(E, i)
    {
      OpenWritten(cov, E, i);
    }
    forall i, k | 0 <= i < 81 && g[i] != 0 && 0 <= k < |E|
      ensures !SameUnit(CellAction(g, i), E[k])
    {
      GivenClash(g, cov, i, E[k]);
    }
    forall k, l | 0 <= k < |E| && 0 <= l < |E| && k != l
      ensures !SameUnit(E[k], E[l])
    {
      CoverClash(E, k, l);
    }
  }

  /** What cell i of the written grid holds: its given, or the placement of E in it. */
  lemma Source(g: seq<int>, E: seq<Action>, i: int) returns (k: int)
    requires IsGrid(g) && Writes(g, E) && 0 <= i < 81
    ensures g[i] != 0 ==> k == -1 && CellAction(Applied(g, E), i) == CellAction(g, i)
    ensures g[i] == 0 ==> 0 <= k < |E| && CellAction(Applied(g, E), i) == E[k]
  {
    if g[i] != 0 {
      AppliedOther(g, E, i);
      return -1;
    }
    k :| 0 <= k < |E| && Cell(E[k]) == i;
    CellOf(E[k]);
    AppliedCell(g, E, k);
  }

  /** Writing such placements fills the grid. */
  lemma WritesFill(g: seq<int>, E: seq<Action>)
    requires IsGrid(g) && Writes(g, E)
    ensures Fills(g, Applied(g, E))
  {
    var h := Applied(g, E);
    forall i | 0 <= i < 81
      ensures 1 <= h[i] <= 9 && (g[i] != 0 ==> h[i] == g[i])
    {
      WrittenCell(g, E, i);
    }
    forall i, j | 0 <= i < j < 81 && SameUnit(CellAction(h, i), CellAction(h, j))
      ensures g[i] != 0 && g[j] != 0
    {
      WrittenPair(g, E, i, j);
    }
  }

  /** Each cell of the written grid holds a digit, the given one where there is one. */
  lemma WrittenCell(g: seq<int>, E: seq<Action>, i: int)
    requires IsGrid(g) && Writes(g, E) && 0 <= i < 81
    ensures 1 <= Applied(g, E)[i] <= 9 && (g[i] != 0 ==> Applied(g, E)[i] == g[i])
  {
    var k := Source(g, E, i);
  }

  /** Two cells of the written grid that share a unit and a digit are both givens. */
  lemma WrittenPair(g: seq<int>, E: seq<Action>, i: int, j: int)
    requires IsGrid(g) && Writes(g, E) && 0 <= i < j < 81
    requires SameUnit(CellAction(Applied(g, E), i), CellAction(Applied(g, E), j))
    ensures g[i] != 0 && g[j] != 0
  {
    var h := Applied(g, E);
    var k := Source(g, E, i);
    var l := Source(g, E, j);
    if g[i] == 0 && g[j] != 0 {
      SameUnitSym(CellAction(h, i), CellAction(h, j));
    }
  }

  /**
   * solver.py:193-197: a solution of the table built for g, written into g,
   * fills every cell and keeps every given, and clashes only where two
   * givens already clash.
   */
  lemma CoverFills(g: seq<int>, E: seq<Action>)
    requires IsGrid(g) && ExactCover(InitialFrame(g), GivenFlags(g), E)
    ensures Placements(E) && Fills(g, Applied(g, E))
  {
    GivenFlagsMarked(g);
    SolutionWrites(g, GivenFlags(g), E);
    WritesFill(g, E);
  }

  /** Nine digits 1 .. 9, no two equal: a permutation of 1 .. 9, as `np.random.permutation(range(1, 10))` draws one. */
  predicate Perm9(p: seq<int>) {
    |p| == 9 && (forall m :: 0 <= m < 9 ==> 1 <= p[m] <= 9) &&
    (forall m, m' :: 0 <= m < m' < 9 ==> p[m] != p[m'])
  }

  /** Nine distinct digits are all of them. */
  lemma PermCovers(p: seq<int>, d: int) returns (m: int)
    requires Perm9(p) && 1 <= d <= 9
    ensures 0 <= m < 9 && p[m] == d
  {
    if forall m' :: 0 <= m' < 9 ==> p[m'] != d {
      var s := seq(9, m' requires 0 <= m' < 9 => p[m'] - 1);
      assert Distinct(s);
      Pigeonhole(s, 9, d - 1);
      assert false;
    }
    m :| 0 <= m < 9 && p[m] == d;
  }

  /** The cell at row r and column c, and back. */
  lemma RowCol(r: int, c: int)
    requires 0 <= r < 9 && 0 <= c < 9
    ensures 0 <= 9 * r + c < 81 && (9 * r + c) / 9 == r && (9 * r + c) % 9 == c
  {
  }

  /**
   * The cell at place m (0 .. 8) of unit w (0 .. 8) of family f: row w for
   * f == 1, column w for f == 2, box w for f == 3.
   */
  function UnitCell(f: int, w: int, m: int): (c: int)
    requires 1 <= f <= 3 && 0 <= w < 9 && 0 <= m < 9
    ensures 0 <= c < 81
  {
    if f == 1 then RowCol(w, m); 9 * w + m
    else if f == 2 then RowCol(m, w); 9 * m + w
    else RowCol(3 * (w / 3) + m / 3, 3 * (w % 3) + m % 3); 9 * (3 * (w / 3) + m / 3) + 3 * (w % 3) + m % 3
  }

  /** The cell at place m of unit w of family f lies in that row, column or box. */
  lemma UnitCellIn(f: int, w: int, m: int)
    requires 1 <= f <= 3 && 0 <= w < 9 && 0 <= m < 9
    ensures var c := UnitCell(f, w, m);
              (f == 1 ==> c / 9 == w) && (f == 2 ==> c % 9 == w) && (f == 3 ==> Box(c / 9, c % 9) == w)
  {
    if f == 3 {
      var R, C := 3 * (w / 3) + m / 3, 3 * (w % 3) + m % 3;
      RowCol(R, C);
      assert C / 3 == w % 3 && R / 3 == w / 3;
    } else if f == 1 {
      RowCol(w, m);
    } else {
      RowCol(m, w);
    }
  }

  /** Distinct places of a unit are distinct cells. */
  lemma UnitCellsDiffer(f: int, w: int, m: int, m': int)
    requires 1 <= f <= 3 && 0 <= w < 9 && 0 <= m < 9 && 0 <= m' < 9 && m != m'
    ensures UnitCell(f, w, m) != UnitCell(f, w, m')
  {
    if f == 1 {
      RowCol(w, m);
      RowCol(w, m');
    } else {
      RowCol(m, w);
      RowCol(m', w);
    }
  }

  /** A row, column or box constraint, split into its family, its unit and its digit. */
  lemma SplitConstraint(u: int)
    requires 81 <= u < Headers
    ensures var f, w, d := u / 81, u % 81 / 9, u % 9 + 1;
              1 <= f <= 3 && 0 <= w < 9 && 1 <= d <= 9 && u == 81 * f + 9 * w + (d - 1)
  {
  }

  /** The cell at place m of the unit of u, holding the digit of u, meets u. */
  lemma UnitCellMeets(u: int, m: int)
    requires 81 <= u < Headers && 0 <= m < 9
    ensures var c := UnitCell(u / 81, u % 81 / 9, m);
              ConstraintsOf(Action(c / 9, c % 9, u % 9 + 1))[u / 81] == u
  {
    SplitConstraint(u);
    UnitCellIn(u / 81, u % 81 / 9, m);
  }

  /** In a grid with no clash, two places of one unit hold different digits. */
  lemma UnitDigits(h: seq<int>, f: int, w: int, m: int, m': int)
    requires |h| == 81 && (forall j :: 0 <= j < 81 ==> 1 <= h[j] <= 9) && Consistent(h)
    requires 1 <= f <= 3 && 0 <= w < 9 && 0 <= m < 9 && 0 <= m' < 9 && m != m'
    ensures h[UnitCell(f, w, m)] != h[UnitCell(f, w, m')]
  {
    var c, c' := UnitCell(f, w, m), UnitCell(f, w, m');
    UnitCellsDiffer(f, w, m, m');
    UnitCellIn(f, w, m);
    UnitCellIn(f, w, m');
    var lo, hi := if c < c' then c else c', if c < c' then c' else c;
    assert CellAction(h, lo).n == h[lo] && CellAction(h, hi).n == h[hi];
  }

  /**
   * In a grid whose every cell holds a digit and in which no two cells
   * clash, every constraint is met by some cell: a cell constraint by its
   * own cell, a row, column or box constraint by the cell of that unit that
   * holds its digit.
   */
  lemma Meeting(h: seq<int>, u: int) returns (i: int)
    requires |h| == 81 && (forall j :: 0 <= j < 81 ==> 1 <= h[j] <= 9) && Consistent(h) && 0 <= u < Headers
    ensures 0 <= i < 81 && u in ConstraintsOf(CellAction(h, i))
  {
    if u < 81 {
      i := u;
      assert ConstraintsOf(CellAction(h, i))[0] == u;
    } else {
      SplitConstraint(u);
      var f, w := u / 81, u % 81 / 9;
      var s := seq(9, m requires 0 <= m < 9 => h[UnitCell(f, w, m)]);
      forall m, m' | 0 <= m < m' < 9
        ensures s[m] != s[m']
      {
        UnitDigits(h, f, w, m, m');
      }
      var m := PermCovers(s, u % 9 + 1);
      i := UnitCell(f, w, m);
      UnitCellMeets(u, m);
      assert ConstraintsOf(CellAction(h, i))[f] == u;
    }
  }

  /** The placements of h at the cells below n that are empty in g, in cell order. */
  function OpenPlacements(g: seq<int>, h: seq<int>, n: int): seq<Action>
    requires |g| == 81 && |h| == 81 && 0 <= n <= 81
  {
    if n == 0 then [] else OpenPlacements(g, h, n - 1) + (if g[n - 1] == 0 then [CellAction(h, n - 1)] else [])
  }

  /** Each listed placement is the one h makes at an empty cell of g below n, and the cells rise. */
  lemma {:induction false} OpenPlacementsCells(g: seq<int>, h: seq<int>, n: int)
    requires |g| == 81 && |h| == 81 && 0 <= n <= 81
    ensures forall k :: 0 <= k < |OpenPlacements(g, h, n)| ==>
              var a := OpenPlacements(g, h, n)[k]; 0 <= Cell(a) < n && g[Cell(a)] == 0 && a == CellAction(h, Cell(a))
    ensures forall k, l :: 0 <= k < l < |OpenPlacements(g, h, n)| ==>
              Cell(OpenPlacements(g, h, n)[k]) < Cell(OpenPlacements(g, h, n)[l])
  {
    if n > 0 {
      OpenPlacementsCells(g, h, n - 1);
      assert Cell(CellAction(h, n - 1)) == n - 1;
    }
  }

  /** Every empty cell of g below n has its placement listed. */
  lemma {:induction false} OpenPlacementsReach(g: seq<int>, h: seq<int>, n: int, i: int) returns (k: int)
    requires |g| == 81 && |h| == 81 && 0 <= i < n <= 81 && g[i] == 0
    ensures 0 <= k < |OpenPlacements(g, h, n)| && OpenPlacements(g, h, n)[k] == CellAction(h, i)
  {
    var E := OpenPlacements(g, h, n - 1);
    if i < n - 1 {
      k := OpenPlacementsReach(g, h, n - 1, i);
    } else {
      k := |E|;
    }
  }

  /** The digit a solution places at an empty cell meets no constraint a given covers. */
  lemma OpenFits(g: seq<int>, h: seq<int>, i: int)
    requires IsGrid(g) && Completes(g, h) && 0 <= i < 81 && g[i] == 0
    ensures Fits(GivenFlags(g), CellAction(h, i))
  {
    var a := CellAction(h, i);
    forall t | 0 <= t < 4
      ensures !GivenFlags(g)[ConstraintsOf(a)[t]]
    {
      var u := ConstraintsOf(a)[t];
      ConstraintFamilies(a, t);
      GivenMarks(g, |g|, u);
      if j :| 0 <= j < |g| && GivenMeets(g, j, u) {
        assert CellAction(g, j) == CellAction(h, j);
        SharedConstraint(a, CellAction(h, j));
        SameUnitSym(a, CellAction(h, j));
        assert false;
      }
    }
  }

  /** Two cells of a grid with no clash meet no common constraint. */
  lemma CellsApart(h: seq<int>, i: int, j: int)
    requires |h| == 81 && (forall k :: 0 <= k < 81 ==> 1 <= h[k] <= 9) && Consistent(h) && 0 <= i < j < 81
    ensures Disjoint(CellAction(h, i), CellAction(h, j))
  {
    SharedConstraint(CellAction(h, i), CellAction(h, j));
  }

  /**
   * The converse of CoverFills: the placements a solution h of puzzle g
   * makes at the empty cells of g have rows in the table built for g, meet
   * no constraint a given covers, and meet every other constraint exactly
   * once, so they solve the table.
   */
  lemma CompletionCovers(g: seq<int>, h: seq<int>) returns (E: seq<Action>)
    requires IsGrid(g) && Completes(g, h)
    ensures ExactCover(InitialFrame(g), GivenFlags(g), E)
  {
    E := OpenPlacements(g, h, 81);
    OpenPlacementsCells(g, h, 81);
    var F, cov := InitialFrame(g), GivenFlags(g);
    InitialRows(g);
    forall k | 0 <= k < |E|
      ensures HasRow(F, E[k]) && Fits(cov, E[k])
    {
      OpenFits(g, h, Cell(E[k]));
    }
    forall k, l | 0 <= k < l < |E|
      ensures Disjoint(E[k], E[l])
    {
      CellsApart(h, Cell(E[k]), Cell(E[l]));
    }
    forall u | 0 <= u < |cov| && !cov[u]
      ensures exists k :: 0 <= k < |E| && u in ConstraintsOf(E[k])
    {
      var i := Meeting(h, u);
      if g[i] != 0 {
        assert CellAction(g, i) == CellAction(h, i);
        GivenCovers(g, i, u);
      }
      var k := OpenPlacementsReach(g, h, 81, i);
    }
  }

  /**
   * solver.py:177-202: for a puzzle whose givens do not clash, the table
   * built for it has no solution exactly when the puzzle has none.
   */
  lemma SolvableIff(g: seq<int>)
    requires IsGrid(g) && Consistent(g)
    ensures Unsolvable(InitialFrame(g), GivenFlags(g)) <==> forall h :: !Completes(g, h)
  {
    if E :| ExactCover(InitialFrame(g), GivenFlags(g), E) {
      CoverFills(g, E);
      FillsCompletes(g, Applied(g, E));
    }
    if h :| Completes(g, h) {
      var E := CompletionCovers(g, h);
    }
  }

  /** solver.py:196-197: the digits of E are written one after the other. */
  method Write(sudoku: array<int>, E: seq<Action>)
    requires sudoku.Length == 81 && Placements(E)
    modifies sudoku
    ensures sudoku[..] == Applied(old(sudoku[..]), E)
  {
    ghost var g := sudoku[..];
    for k := 0 to |E|
      invariant sudoku[..] == Applied(g, E[..k])
    {
      CellOf(E[k]);
      sudoku[9 * E[k].row + E[k].col] := E[k].n;
      assert E[..k + 1][..k] == E[..k];
    }
    assert E[..|E|] == E;
  }

  /** Every cell holds -1. */
  predicate Failed(h: seq<int>) {
    forall i :: 0 <= i < |h| ==> h[i] == -1
  }

  /**
   * solver.py:177-202, SudokuSolver.__call__ on a puzzle (cell 9 * row +
   * col): the same array is returned, either filled as CoverFills describes
   * with a solution of the table, or with -1 everywhere when the table has
   * no solution, and then the puzzle has no solution either.
   */
  method SolveSudoku(sudoku: array<int>) returns (result: array<int>)
    requires IsGrid(sudoku[..])
    modifies sudoku
    ensures result == sudoku
    ensures Failed(sudoku[..]) || Fills(old(sudoku[..]), sudoku[..])
    ensures Failed(sudoku[..]) ==> Unsolvable(InitialFrame(old(sudoku[..])), GivenFlags(old(sudoku[..])))
    ensures Failed(sudoku[..]) ==> forall h :: !Completes(old(sudoku[..]), h)
    ensures Consistent(old(sudoku[..])) && !Failed(sudoku[..]) ==> Completes(old(sudoku[..]), sudoku[..])
  {
    ghost var g := sudoku[..];
    var constraints := new SudokuConstraints(sudoku);
    InitialCovered(g);
    var found, solution := constraints.Solve();
    if found {
      Complete(sudoku, solution);
    } else {
      forall h | Completes(g, h)
        ensures false
      {
        var E := CompletionCovers(g, h);
      }
      forall i | 0 <= i < sudoku.Length {
        sudoku[i] := -1;
      }
    }
    return sudoku;
  }

  /** solver.py:194-197: a solution found for the table of the puzzle is written into it. */
  method Complete(sudoku: array<int>, solution: seq<Action>)
    requires IsGrid(sudoku[..]) && ExactCover(InitialFrame(sudoku[..]), GivenFlags(sudoku[..]), solution)
    modifies sudoku
    ensures Fills(old(sudoku[..]), sudoku[..]) && !Failed(sudoku[..])
    ensures Consistent(old(sudoku[..])) ==> Completes(old(sudoku[..]), sudoku[..])
  {
    ghost var g := sudoku[..];
    CoverFills(g, solution);
    Write(sudoku, solution);
    assert sudoku[0] != -1;
    if Consistent(g) {
      FillsCompletes(g, sudoku[..]);
    }
  }
}
