/**
 * The exact-cover encoding of a 9x9 sudoku: the 324 constraints and the four
 * constraints that each placement of a digit meets (solver.py:58-71).
 */
module Constraints {

  /** There are always 324 constraints: four families of 81. */
  const ColumnCount: int := 324

  /** A candidate placement, "digit n at (row, col)" (a row of the matrix). */
  datatype Action = Action(row: int, col: int, n: int)

  predicate IsPlacement(a: Action) {
    0 <= a.row < 9 && 0 <= a.col < 9 && 1 <= a.n <= 9
  }

  /** The 3x3 box holding (row, col), numbered row-major. */
  function Box(row: int, col: int): int {
    col / 3 + 3 * (row / 3)
  }

  lemma BoxRange(row: int, col: int)
    requires 0 <= row < 9 && 0 <= col < 9
    ensures 0 <= Box(row, col) < 9
  {
  }

  /**
   * solver.py:58-71: the cell, row-digit, column-digit and box-digit
   * constraints of placing n at (row, col), one from each family.
   */
  function GetConstraints(row: int, col: int, n: int): (r: seq<int>)
    ensures |r| == 4
    ensures 0 <= row < 9 && 0 <= col < 9 && 1 <= n <= 9 ==>
              0 <= r[0] < 81 && 81 <= r[1] < 162 && 162 <= r[2] < 243 && 243 <= r[3] < 324
    ensures 0 <= row < 9 && 0 <= col < 9 && 1 <= n <= 9 ==> forall t :: 0 <= t < 4 ==> 0 <= r[t] < ColumnCount
  {
    var multipliedRow := row * 9;
    var adjustedN := n - 1;
    [multipliedRow + col,
     81 + multipliedRow + adjustedN,
     162 + col * 9 + adjustedN,
     243 + Box(row, col) * 9 + adjustedN]
  }

  function ConstraintsOf(a: Action): seq<int> {
    GetConstraints(a.row, a.col, a.n)
  }

  /** The family (0 cell, 1 row, 2 column, 3 box) an index in [0, 324) belongs to. */
  function Family(k: int): int {
    k / 81
  }

  lemma ConstraintFamilies(a: Action, i: int)
    requires IsPlacement(a) && 0 <= i < 4
    ensures 0 <= ConstraintsOf(a)[i] < ColumnCount
    ensures Family(ConstraintsOf(a)[i]) == i
  {
  }

  /** Two placements meet a common constraint: the same cell, or the same digit in one row, column or box. */
  predicate SameUnit(p: Action, q: Action) {
    (p.row == q.row && p.col == q.col) ||
    (p.n == q.n && (p.row == q.row || p.col == q.col || Box(p.row, p.col) == Box(q.row, q.col)))
  }

  lemma SameUnitSym(p: Action, q: Action)
    requires SameUnit(p, q)
    ensures SameUnit(q, p)
  {
  }

  lemma NineDigits(a: int, b: int, a': int, b': int)
    requires 0 <= b < 9 && 0 <= b' < 9
    requires 9 * a + b == 9 * a' + b'
    ensures a == a' && b == b'
  {
  }

  lemma ThreeDigits(a: int, b: int, a': int, b': int)
    requires 0 <= b < 3 && 0 <= b' < 3
    requires 3 * a + b == 3 * a' + b'
    ensures a == a' && b == b'
  {
  }

  /** Equal indices in one family pin down the unit and the digit the family describes. */
  lemma SameIndex(p: Action, q: Action, i: int)
    requires IsPlacement(p) && IsPlacement(q) && 0 <= i < 4
    requires ConstraintsOf(p)[i] == ConstraintsOf(q)[i]
    ensures i == 0 ==> p.row == q.row && p.col == q.col
    ensures i == 1 ==> p.row == q.row && p.n == q.n
    ensures i == 2 ==> p.col == q.col && p.n == q.n
    ensures i == 3 ==> Box(p.row, p.col) == Box(q.row, q.col) && p.n == q.n
  {
    BoxRange(p.row, p.col);
    BoxRange(q.row, q.col);
    if i == 0 {
      NineDigits(p.row, p.col, q.row, q.col);
    } else if i == 1 {
      NineDigits(p.row, p.n - 1, q.row, q.n - 1);
    } else if i == 2 {
      NineDigits(p.col, p.n - 1, q.col, q.n - 1);
    } else {
      NineDigits(Box(p.row, p.col), p.n - 1, Box(q.row, q.col), q.n - 1);
    }
  }

  /**
   * solver.py:65-68: two placements share a constraint index exactly when they
   * are in the same cell, or hold the same digit in the same row, column or box.
   */
  lemma SharedConstraint(p: Action, q: Action)
    requires IsPlacement(p) && IsPlacement(q)
    ensures (exists k :: k in ConstraintsOf(p) && k in ConstraintsOf(q)) <==> SameUnit(p, q)
  {
    var cp, cq := ConstraintsOf(p), ConstraintsOf(q);
    if SameUnit(p, q) {
      if p.row == q.row && p.col == q.col {
        assert cp[0] in cp && cp[0] in cq;
      } else if p.row == q.row {
        assert cp[1] in cp && cp[1] in cq;
      } else if p.col == q.col {
        assert cp[2] in cp && cp[2] in cq;
      } else {
        assert cp[3] in cp && cp[3] in cq;
      }
    }
    if k :| k in cp && k in cq {
      var i :| 0 <= i < 4 && cp[i] == k;
      var j :| 0 <= j < 4 && cq[j] == k;
      ConstraintFamilies(p, i);
      ConstraintFamilies(q, j);
      SameIndex(p, q, i);
    }
  }

  /**
   * Among the at most nine placements that meet constraint u, the position of a:
   * its digit for a cell constraint, its column, row, or place in the box for
   * a row, column or box constraint.
   */
  function Slot(a: Action, u: int): int {
    if u < 81 then a.n - 1
    else if u < 162 then a.col
    else if u < 243 then a.row
    else 3 * (a.row % 3) + a.col % 3
  }

  /** Distinct placements that meet the same constraint sit in distinct slots of [0, 9). */
  lemma SlotDetermines(p: Action, q: Action, u: int)
    requires IsPlacement(p) && IsPlacement(q)
    requires u in ConstraintsOf(p) && u in ConstraintsOf(q)
    ensures 0 <= Slot(p, u) < 9
    ensures Slot(p, u) == Slot(q, u) ==> p == q
  {
    var cp, cq := ConstraintsOf(p), ConstraintsOf(q);
    var i :| 0 <= i < 4 && cp[i] == u;
    var j :| 0 <= j < 4 && cq[j] == u;
    ConstraintFamilies(p, i);
    ConstraintFamilies(q, j);
    SameIndex(p, q, i);
    if Slot(p, u) == Slot(q, u) && i == 3 {
      ThreeDigits(p.row / 3, p.col / 3, q.row / 3, q.col / 3);
      assert p.row == 3 * (p.row / 3) + p.row % 3;
      assert q.row == 3 * (q.row / 3) + q.row % 3;
      ThreeDigits(p.row % 3, p.col % 3, q.row % 3, q.col % 3);
    }
  }
}
