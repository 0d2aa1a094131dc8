/**
 * SudokuGenerator of generator.py: a random full grid seeded with three
 * diagonal boxes and completed by the solver, and the removal of clues while
 * the puzzle keeps a unique solution. The random draws and the two solver
 * entry points it calls without defining them are parameters here.
 */
module Generator {
  import opened Constraints
  import opened Links
  import opened Exact
  import opened Table
  import opened Matrix
  import opened Solver

  /* ---------------------------------------------------------------------- */
  /* Seeding the diagonal boxes (generator.py:24-28)                        */

  /** The three permutations drawn at generator.py:28, one per diagonal box. */
  predicate Seeds(perms: seq<seq<int>>) {
    |perms| == 3 && forall b :: 0 <= b < 3 ==> Perm9(perms[b])
  }

  /** The diagonal box (0, 1 or 2) that cell k lies in, or -1 when it is in none. */
  function DiagonalBox(k: int): int {
    if k / 27 == k % 9 / 3 then k / 27 else -1
  }

  /** The position of cell k within its 3x3 box, row-major. */
  function BoxPlace(k: int): int {
    3 * (k / 9 % 3) + k % 3
  }

  /** generator.py:24-28: an empty grid with the b-th permutation laid row-major into the b-th diagonal box. */
  function Seeded(perms: seq<seq<int>>): (g: seq<int>)
    requires Seeds(perms)
    ensures |g| == 81
  {
    seq(81, k => if DiagonalBox(k) >= 0 then perms[DiagonalBox(k)][BoxPlace(k)] else 0)
  }

  /** The cell at place m of diagonal box b. */
  lemma BoxCell(b: int, m: int) returns (k: int)
    requires 0 <= b < 3 && 0 <= m < 9
    ensures 0 <= k < 81 && DiagonalBox(k) == b && BoxPlace(k) == m
  {
    k := 9 * (3 * b + m / 3) + 3 * b + m % 3;
    assert k / 9 == 3 * b + m / 3 && k % 9 == 3 * b + m % 3;
  }

  /**
   * generator.py:27-28: each diagonal box of the seeded grid holds every digit
   * 1..9, once each, and each other cell is empty.
   */
  lemma SeededBoxes(perms: seq<seq<int>>, b: int, d: int) returns (k: int)
    requires Seeds(perms) && 0 <= b < 3 && 1 <= d <= 9
    ensures 0 <= k < 81 && DiagonalBox(k) == b && Seeded(perms)[k] == d
    ensures forall k' :: 0 <= k' < 81 && DiagonalBox(k') == b && Seeded(perms)[k'] == d ==> k' == k
    ensures forall k' :: 0 <= k' < 81 && DiagonalBox(k') < 0 ==> Seeded(perms)[k'] == 0
  {
    var m := PermCovers(perms[b], d);
    k := BoxCell(b, m);
    forall k' | 0 <= k' < 81 && DiagonalBox(k') == b && Seeded(perms)[k'] == d
      ensures k' == k
    {
      SamePlace(k, k');
    }
  }

  /** A cell, split into its row and column. */
  lemma Split(k: int)
    requires 0 <= k < 81
    ensures k == 9 * (k / 9) + k % 9 && 0 <= k % 9 < 9
    ensures k / 27 == k / 9 / 3 && k % 3 == k % 9 % 3
  {
  }

  /** Two cells of one diagonal box at the same place are the same cell. */
  lemma SamePlace(k: int, k': int)
    requires 0 <= k < 81 && 0 <= k' < 81 && DiagonalBox(k) >= 0 && DiagonalBox(k) == DiagonalBox(k')
    requires BoxPlace(k) == BoxPlace(k')
    ensures k == k'
  {
    Split(k);
    Split(k');
    var r, c, r', c' := k / 9, k % 9, k' / 9, k' % 9;
    ThreeDigits(r % 3, c % 3, r' % 3, c' % 3);
    assert r == 3 * (r / 3) + r % 3 && r' == 3 * (r' / 3) + r' % 3;
    assert c == 3 * (c / 3) + c % 3 && c' == 3 * (c' / 3) + c' % 3;
  }

  /** The diagonal box of a seeded cell is pinned by its row, by its column and by its box. */
  lemma DiagonalUnit(i: int, j: int)
    requires 0 <= i < 81 && 0 <= j < 81 && DiagonalBox(i) >= 0 && DiagonalBox(j) >= 0
    requires i / 9 == j / 9 || i % 9 == j % 9 || Box(i / 9, i % 9) == Box(j / 9, j % 9)
    ensures DiagonalBox(i) == DiagonalBox(j)
  {
  }

  /**
   * generator.py:27-28: the three boxes share no row and no column, so the
   * seeded grid holds no digit twice in a row, column or box.
   */
  lemma SeededConsistent(perms: seq<seq<int>>)
    requires Seeds(perms)
    ensures IsGrid(Seeded(perms)) && Consistent(Seeded(perms))
  {
    var g := Seeded(perms);
    forall i, j | 0 <= i < j < 81 && g[i] != 0 && g[j] != 0
      ensures !SameUnit(CellAction(g, i), CellAction(g, j))
    {
      if SameUnit(CellAction(g, i), CellAction(g, j)) {
        DiagonalUnit(i, j);
        if BoxPlace(i) == BoxPlace(j) {
          SamePlace(i, j);
        }
      }
    }
  }

  /** generator.py:24-28: the slice assignments, box by box. */
  method Seed(perms: seq<seq<int>>) returns (sudoku: array<int>)
    requires Seeds(perms)
    ensures fresh(sudoku) && sudoku[..] == Seeded(perms)
  {
    sudoku := new int[81](_ => 0);
    for b := 0 to 3
      invariant forall k :: 0 <= k < 81 ==>
        sudoku[k] == if 0 <= DiagonalBox(k) < b then perms[DiagonalBox(k)][BoxPlace(k)] else 0
    {
      forall k | 0 <= k < 81 && DiagonalBox(k) == b {
        sudoku[k] := perms[b][BoxPlace(k)];
      }
    }
  }

  /**
   * generator.py:10-42. The actions stand for what solve_randomly appends
   * for the table of the seeded grid: nothing, or a solution of that table.
   * The grid returned is the seeded one, or a full solution extending it.
   */
  method GenerateSolution(perms: seq<seq<int>>, actions: seq<Action>) returns (sudoku: array<int>)
    requires Seeds(perms)
    requires actions == [] || ExactCover(InitialFrame(Seeded(perms)), GivenFlags(Seeded(perms)), actions)
    ensures fresh(sudoku) && Placements(actions) && sudoku[..] == Applied(Seeded(perms), actions)
    ensures actions != [] ==> Completes(Seeded(perms), sudoku[..])
  {
    sudoku := Seed(perms);
    ghost var g := sudoku[..];
    SeededConsistent(perms);
    var constraints := new SudokuConstraints(sudoku);
    if actions != [] {
      CoverFills(g, actions);
    }
    Write(sudoku, actions);
    if actions != [] {
      FillsCompletes(g, sudoku[..]);
    }
  }

  /* ---------------------------------------------------------------------- */
  /* Removing clues (generator.py:45-62)                                    */

  /** The filled cells among the first n, in increasing order (`np.where(sudoku != 0)`). */
  function FilledCells(g: seq<int>, n: int): (r: seq<int>)
    requires 0 <= n <= |g|
    ensures |r| == n - Zeros(g, n)
    ensures forall m :: 0 <= m < |r| ==> 0 <= r[m] < n && g[r[m]] != 0
    ensures forall i :: 0 <= i < n && g[i] != 0 ==> i in r
  {
    if n == 0 then [] else FilledCells(g, n - 1) + (if g[n - 1] != 0 then [n - 1] else [])
  }

  /** The number of clues of a grid. */
  function Clues(g: seq<int>): nat
    requires |g| == 81
  {
    81 - ZeroCount(g)
  }

  /** p orders [0, n): `np.random.permutation(n)`. */
  predicate IsPermutation(p: seq<int>, n: int) {
    |p| == n && (forall m :: 0 <= m < n ==> 0 <= p[m] < n) && (forall j :: 0 <= j < n ==> j in p)
  }

  /** The order oracle draws a permutation of the clues of every grid it is shown. */
  ghost predicate Shuffles(order: seq<int> -> seq<int>) {
    forall h: seq<int> {:trigger order(h)} :: |h| == 81 ==> IsPermutation(order(h), Clues(h))
  }

  /** Emptying a filled cell leaves one clue fewer, among the first n cells and in all. */
  lemma {:induction false} ZerosClear(g: seq<int>, i: int, n: int)
    requires 0 <= i < |g| && g[i] != 0 && 0 <= n <= |g|
    ensures Zeros(g[i := 0], n) == Zeros(g, n) + (if i < n then 1 else 0)
  {
    if n > 0 {
      ZerosClear(g, i, n - 1);
    }
  }

  /** generator.py:55,59: the grid each recursive call starts from has one clue fewer. */
  lemma ClearFewer(g: seq<int>, i: int)
    requires |g| == 81 && 0 <= i < 81 && g[i] != 0
    ensures Clues(g[i := 0]) == Clues(g) - 1
  {
    ZerosClear(g, i, |g|);
  }

  /** No single clue of h can be emptied and leave the oracle answering 1 (a unique solution). */
  ghost predicate LocallyMinimal(count: seq<int> -> int, h: seq<int>) {
    forall i :: 0 <= i < |h| && h[i] != 0 ==> count(h[i := 0]) != 1
  }

  /**
   * h is g after emptying the cells cs one after the other, each a clue when
   * emptied and each leaving the oracle answering 1.
   */
  ghost predicate Cleared(count: seq<int> -> int, g: seq<int>, cs: seq<int>, h: seq<int>)
    decreases |cs|
  {
    if cs == [] then h == g
    else 0 <= cs[0] < |g| && g[cs[0]] != 0 && count(g[cs[0] := 0]) == 1 && Cleared(count, g[cs[0] := 0], cs[1..], h)
  }

  /** Every cell keeps its value or is emptied. */
  ghost predicate KeptOrEmptied(g: seq<int>, h: seq<int>) {
    |h| == |g| && forall i :: 0 <= i < |g| ==> h[i] == g[i] || h[i] == 0
  }

  /**
   * generator.py:54-62: clearing clues one by one only ever empties cells,
   * and removes exactly one clue per step.
   */
  lemma {:induction false} ClearedKeeps(count: seq<int> -> int, g: seq<int>, cs: seq<int>, h: seq<int>)
    requires |g| == 81 && Cleared(count, g, cs, h)
    ensures KeptOrEmptied(g, h) && |h| == 81 && Clues(h) + |cs| == Clues(g)
    decreases |cs|
  {
    if cs != [] {
      var g' := g[cs[0] := 0];
      ClearedKeeps(count, g', cs[1..], h);
      ClearFewer(g, cs[0]);
    }
  }

  /**
   * generator.py:45-62 on a grid: try the clues in the order the oracle
   * draws, emptying each; the first one after whose removal count_solutions
   * answers 1 stays empty and the search restarts on the smaller grid
   * (clues strictly decrease), otherwise the clue is put back. At the end
   * the grid is locally minimal, and it was reached by accepted removals only.
   */
  method Minimalise(sudoku: array<int>, count: seq<int> -> int, order: seq<int> -> seq<int>)
    returns (ghost cleared: seq<int>)
    requires IsGrid(sudoku[..]) && Shuffles(order)
    modifies sudoku
    ensures Cleared(count, old(sudoku[..]), cleared, sudoku[..])
    ensures LocallyMinimal(count, sudoku[..])
    decreases Clues(sudoku[..])
  {
    ghost var g := sudoku[..];
    var cells := FilledCells(sudoku[..], sudoku.Length);
    var p := order(sudoku[..]);
    assert IsPermutation(p, |cells|);
    for k := 0 to |p|
      invariant sudoku[..] == g
      invariant forall m :: 0 <= m < k ==> count(g[cells[p[m]] := 0]) != 1
    {
      var cell := cells[p[k]];
      var n := sudoku[cell];
      sudoku[cell] := 0;
      if count(sudoku[..]) == 1 {
        ClearFewer(g, cell);
        cleared := Minimalise(sudoku, count, order);
        assert ([cell] + cleared)[1..] == cleared;
        cleared := [cell] + cleared;
        return;
      }
      sudoku[cell] := n;
      assert sudoku[..] == g;
    }
    forall i | 0 <= i < 81 && g[i] != 0
      ensures count(g[i := 0]) != 1
    {
      var j :| 0 <= j < |cells| && cells[j] == i;
      assert j in p;
      var m :| 0 <= m < |p| && p[m] == j;
    }
    cleared := [];
  }

  /**
   * generator.py:65-82: a full solution with clues removed until the puzzle
   * is locally minimal; the array minimalise worked on is the one returned.
   * Every clue left agrees with the solution, and cleared lists the clues
   * removed, in order, each a clue when removed and each accepted by the
   * oracle.
   */
  method GeneratePuzzle(perms: seq<seq<int>>, actions: seq<Action>, count: seq<int> -> int, order: seq<int> -> seq<int>)
    returns (sudoku: array<int>, ghost cleared: seq<int>)
    requires Seeds(perms) && Shuffles(order)
    requires actions == [] || ExactCover(InitialFrame(Seeded(perms)), GivenFlags(Seeded(perms)), actions)
    ensures fresh(sudoku) && Placements(actions)
    ensures Cleared(count, Applied(Seeded(perms), actions), cleared, sudoku[..])
    ensures KeptOrEmptied(Applied(Seeded(perms), actions), sudoku[..])
    ensures actions != [] ==> Completes(Seeded(perms), Applied(Seeded(perms), actions))
    ensures LocallyMinimal(count, sudoku[..])
  {
    sudoku := GenerateSolution(perms, actions);
    ghost var solution := sudoku[..];
    SeededConsistent(perms);
    if actions != [] {
      assert IsGrid(solution);
    }
    cleared := Minimalise(sudoku, count, order);
    ClearedKeeps(count, solution, cleared, sudoku[..]);
  }
}
