/**
 * The game state of SudokuBoard (board.py): the grid being played, its
 * solution and locked clues, the selected cell and the cells connected to
 * it, the incorrect cells, and the stack of moves that undo replays. The
 * grid is a flat array of 81 cells, row-major; a position is a pair of
 * grid indices. Drawing is not modelled.
 */
module Board {
  import opened Wrappers

  /** A pair of grid indices, each in 0..8. */
  predicate InGrid(p: (int, int)) {
    0 <= p.0 < 9 && 0 <= p.1 < 9
  }

  /* ---------------------------------------------------------------------- */
  /* Pixel geometry (board.py:101-150)                                      */

  /**
   * board.py:111-114: the pixel offset of the k-th cell along either axis:
   * two pixels of outline and one of block line before each block, one
   * pixel of cell line between the cells of a block.
   */
  function CellPosition(cellSize: int, k: int): int {
    (k / 3) * (5 + cellSize * 3) + 3 + (k % 3) * (1 + cellSize)
  }

  /** Offset x along one axis lies inside the k-th cell. */
  predicate OnCell(cellSize: int, x: int, k: int) {
    0 <= k < 9 && CellPosition(cellSize, k) <= x < CellPosition(cellSize, k) + cellSize
  }

  /**
   * board.py:119-150: the grid indices of the cell under a surface position
   * when there is one, None otherwise (off the board, on a line between
   * cells). The board's size is 9 * (cellSize + 2).
   */
  function ConvertSurfacePos(cellSize: int, origin: (int, int), p: (int, int)): Option<(int, int)>
    requires cellSize >= 0
  {
    var size := 9 * (cellSize + 2);
    var x, y := p.0 - origin.0 - 3, p.1 - origin.1 - 3;
    if x < 0 || x > size - 6 || y < 0 || y > size - 6 then None
    else
      var blockSize := 3 * cellSize + 5;
      var bx, bY := x / blockSize, y / blockSize;
      var x1, y1 := x - bx * blockSize, y - bY * blockSize;
      var cx, cy := x1 / (cellSize + 1), y1 / (cellSize + 1);
      if cx < 0 || cx > 2 || cy < 0 || cy > 2 then None
      else
        var x2, y2 := x1 - cx * (cellSize + 1), y1 - cy * (cellSize + 1);
        if x2 < 0 || x2 >= cellSize || y2 < 0 || y2 >= cellSize then None
        else Some((bx * 3 + cx, bY * 3 + cy))
  }

  /** An offset inside the board lies in one of its three blocks. */
  lemma BlockBound(cellSize: int, x: int)
    requires cellSize >= 0 && 0 <= x <= 9 * (cellSize + 2) - 6
    ensures x / (3 * cellSize + 5) <= 2
  {
    var d := 3 * cellSize + 5;
    if x / d >= 3 {
      MulAtLeast(x / d, 3, d);
      assert false;
    }
  }

  lemma MulAtLeast(a: int, b: int, d: int)
    requires a >= b && d > 0
    ensures a * d >= b * d
  {
  }

  /** The quotient times the divisor does not pass the dividend. */
  lemma DivBelow(a: int, d: int)
    requires d > 0 && a >= 0
    ensures a / d >= 0 && a - a / d * d >= 0
  {
  }

  /** Integer division is determined by quotient and remainder. */
  lemma DivUnique(a: int, d: int, q: int, r: int)
    requires d > 0 && 0 <= r < d && a == q * d + r
    ensures a / d == q
  {
    var q' := a / d;
    if q' < q {
      MulAtLeast(q, q' + 1, d);
      assert false;
    } else if q' > q {
      MulAtLeast(q', q + 1, d);
      assert false;
    }
  }

  /** Along one axis: an offset inside the k-th cell decomposes into block k / 3, cell k % 3 and the offset within the cell. */
  lemma AxisOn(cellSize: int, x: int, k: int)
    requires cellSize >= 0 && OnCell(cellSize, x + 3, k)
    ensures 0 <= x <= 9 * (cellSize + 2) - 6
    ensures x / (3 * cellSize + 5) == k / 3
    ensures (x - (k / 3) * (3 * cellSize + 5)) / (cellSize + 1) == k % 3
    ensures x - (k / 3) * (3 * cellSize + 5) - (k % 3) * (cellSize + 1) == x + 3 - CellPosition(cellSize, k)
  {
    var d := 3 * cellSize + 5;
    var e := x + 3 - CellPosition(cellSize, k);
    var inner := (k % 3) * (cellSize + 1) + e;
    assert x == (k / 3) * d + inner;
    assert (k % 3) * (cellSize + 1) <= 2 * (cellSize + 1);
    DivUnique(x, d, k / 3, inner);
    DivUnique(inner, cellSize + 1, k % 3, e);
    assert (k / 3) * d <= 2 * d;
  }

  /** Block b, cell c and offset r within the cell make an offset inside cell 3 * b + c. */
  lemma Compose(cellSize: int, b: int, c: int, r: int)
    requires 0 <= b <= 2 && 0 <= c <= 2 && 0 <= r < cellSize
    ensures OnCell(cellSize, b * (3 * cellSize + 5) + c * (cellSize + 1) + r + 3, 3 * b + c)
  {
    var k := 3 * b + c;
    assert k / 3 == b && k % 3 == c;
  }

  /** Along one axis: an offset that passes the three tests lies inside cell 3 * block + cell. */
  lemma AxisBack(cellSize: int, x: int, b: int, c: int)
    requires cellSize >= 0 && 0 <= x <= 9 * (cellSize + 2) - 6
    requires b == x / (3 * cellSize + 5) && c == (x - b * (3 * cellSize + 5)) / (cellSize + 1)
    requires 0 <= c <= 2 && x - b * (3 * cellSize + 5) - c * (cellSize + 1) < cellSize
    ensures OnCell(cellSize, x + 3, 3 * b + c)
  {
    var d, e := 3 * cellSize + 5, cellSize + 1;
    var x1 := x - b * d;
    var r := x1 - c * e;
    BlockBound(cellSize, x);
    DivBelow(x, d);
    DivBelow(x1, e);
    Compose(cellSize, b, c, r);
  }

  /**
   * board.py:111-114 and 119-150: a surface position maps to cell (i, j)
   * exactly when it lies, relative to the board, inside the cell's square
   * at (CellPosition(i), CellPosition(j)) of side cellSize; so the two
   * computations agree, and every other position maps to None.
   */
  lemma ConvertCell(cellSize: int, origin: (int, int), p: (int, int), i: int, j: int)
    requires cellSize >= 0
    ensures ConvertSurfacePos(cellSize, origin, p) == Some((i, j)) <==>
      OnCell(cellSize, p.0 - origin.0, i) && OnCell(cellSize, p.1 - origin.1, j)
  {
    var x, y := p.0 - origin.0 - 3, p.1 - origin.1 - 3;
    if OnCell(cellSize, p.0 - origin.0, i) && OnCell(cellSize, p.1 - origin.1, j) {
      AxisOn(cellSize, x, i);
      AxisOn(cellSize, y, j);
      assert i == (i / 3) * 3 + i % 3 && j == (j / 3) * 3 + j % 3;
    }
    if ConvertSurfacePos(cellSize, origin, p) == Some((i, j)) {
      var d, e := 3 * cellSize + 5, cellSize + 1;
      AxisBack(cellSize, x, x / d, (x - x / d * d) / e);
      AxisBack(cellSize, y, y / d, (y - y / d * d) / e);
    }
  }

  /** board.py:122-150: the result is None or a pair of grid indices. */
  lemma ConvertInGrid(cellSize: int, origin: (int, int), p: (int, int))
    requires cellSize >= 0
    ensures ConvertSurfacePos(cellSize, origin, p).Some? ==> InGrid(ConvertSurfacePos(cellSize, origin, p).value)
  {
    var r := ConvertSurfacePos(cellSize, origin, p);
    if r.Some? {
      ConvertCell(cellSize, origin, p, r.value.0, r.value.1);
    }
  }

  /* ---------------------------------------------------------------------- */
  /* Connected cells (board.py:217-239)                                     */

  /** The cells sharing the first index, the second index or the 3x3 block with p. */
  function Connected(p: (int, int)): set<(int, int)> {
    set i, j | 0 <= i < 9 && 0 <= j < 9 && (i == p.0 || j == p.1 || (i / 3 == p.0 / 3 && j / 3 == p.1 / 3)) :: (i, j)
  }

  /**
   * board.py:217-239: None has no connections; otherwise the cells of the
   * same line along each index and of the same block, added loop by loop.
   */
  method CalculateConnected(pos: Option<(int, int)>) returns (connected: set<(int, int)>)
    requires pos.Some? ==> InGrid(pos.value)
    ensures connected == if pos.None? then {} else Connected(pos.value)
  {
    connected := {};
    if pos.None? {
      return;
    }
    var p := pos.value;
    for col := 0 to 9
      invariant forall q :: q in connected <==> q.0 == p.0 && 0 <= q.1 < col
    {
      connected := connected + {(p.0, col)};
    }
    for row := 0 to 9
      invariant forall q :: q in connected <==> (q.0 == p.0 && 0 <= q.1 < 9) || (0 <= q.0 < row && q.1 == p.1)
    {
      connected := connected + {(row, p.1)};
    }
    var bx, bY := p.0 / 3 * 3, p.1 / 3 * 3;
    for row := 0 to 3
      invariant forall q :: q in connected <==> ((q.0 == p.0 && 0 <= q.1 < 9) || (0 <= q.0 < 9 && q.1 == p.1) ||
        (bx <= q.0 < bx + row && bY <= q.1 < bY + 3))
    {
      for col := 0 to 3
        invariant forall q :: q in connected <==> ((q.0 == p.0 && 0 <= q.1 < 9) || (0 <= q.0 < 9 && q.1 == p.1) ||
          (bx <= q.0 < bx + row && bY <= q.1 < bY + 3) || (q.0 == bx + row && bY <= q.1 < bY + col))
      {
        connected := connected + {(bx + row, bY + col)};
      }
    }
    forall q
      ensures q in connected <==> q in Connected(p)
    {
      if q in connected {
        assert 0 <= q.0 < 9 && 0 <= q.1 < 9;
        assert (q.0, q.1) == q;
      }
    }
  }

  /** The m-th index of 0..8 other than e. */
  function Skip(m: int, e: int): int {
    if m >= e then m + 1 else m
  }

  /** The position of index i among the indices of 0..8 other than e. */
  function Unskip(i: int, e: int): int {
    if i > e then i - 1 else i
  }

  /** The connected cells of p, numbered 0..20: its line along the first index, the rest of its line along the second, the rest of its block. */
  function Enum(p: (int, int), k: int): (int, int) {
    if k < 9 then (p.0, k)
    else if k < 17 then (Skip(k - 9, p.0), p.1)
    else (p.0 / 3 * 3 + Skip((k - 17) / 2, p.0 % 3), p.1 / 3 * 3 + Skip((k - 17) % 2, p.1 % 3))
  }

  /** An injective numbering of n things has n of them. */
  lemma {:induction false} ImageCard<T>(f: int -> T, n: nat)
    requires forall i, j :: 0 <= i < j < n ==> f(i) != f(j)
    ensures |set k | 0 <= k < n :: f(k)| == n
  {
    if n > 0 {
      var s := set k | 0 <= k < n - 1 :: f(k);
      ImageCard(f, n - 1);
      assert (set k | 0 <= k < n :: f(k)) == s + {f(n - 1)};
    }
  }

  /** The numbering of the connected cells never repeats a cell. */
  lemma EnumInjective(p: (int, int), i: int, j: int)
    requires InGrid(p) && 0 <= i < j < 21
    ensures Enum(p, i) != Enum(p, j)
  {
    if 17 <= i && (i - 17) / 2 == (j - 17) / 2 {
      assert (i - 17) % 2 != (j - 17) % 2;
    }
  }

  /** Every connected cell has a number. */
  lemma EnumOnto(p: (int, int), q: (int, int)) returns (k: int)
    requires InGrid(p) && q in Connected(p)
    ensures 0 <= k < 21 && Enum(p, k) == q
  {
    k := if q.0 == p.0 then q.1
      else if q.1 == p.1 then 9 + Unskip(q.0, p.0)
      else 17 + 2 * Unskip(q.0 % 3, p.0 % 3) + Unskip(q.1 % 3, p.1 % 3);
  }

  /** board.py:219-239: a cell of the grid is connected to 21 cells, itself among them. */
  lemma ConnectedSize(p: (int, int))
    requires InGrid(p)
    ensures p in Connected(p) && |Connected(p)| == 21
  {
    var f := k => Enum(p, k);
    forall i, j | 0 <= i < j < 21
      ensures f(i) != f(j)
    {
      EnumInjective(p, i, j);
    }
    forall q | q in Connected(p)
      ensures q in set k | 0 <= k < 21 :: f(k)
    {
      var k := EnumOnto(p, q);
      assert f(k) == q;
    }
    assert Connected(p) == set k | 0 <= k < 21 :: f(k);
    ImageCard(f, 21);
  }

  /* ---------------------------------------------------------------------- */
  /* Incorrect cells (board.py:175-186)                                     */

  /** Cell k holds a digit that differs from the solution. */
  predicate Wrong(g: seq<int>, s: seq<int>, k: int)
    requires 0 <= k < |g| && k < |s|
  {
    g[k] != s[k] && g[k] != 0
  }

  /** The linear index of the (x, y) pair of an incorrect cell: row y, column x. */
  function Linear(q: (int, int)): int {
    9 * q.1 + q.0
  }

  /**
   * board.py:183-186 over the first n cells: the wrong cells in row-major
   * order, each as the pair (column, row).
   */
  function Incorrect(g: seq<int>, s: seq<int>, n: int): seq<(int, int)>
    requires |g| == 81 && |s| == 81 && 0 <= n <= 81
  {
    if n == 0 then []
    else Incorrect(g, s, n - 1) + (if Wrong(g, s, n - 1) then [((n - 1) % 9, (n - 1) / 9)] else [])
  }

  /**
   * board.py:183-186: the pairs listed are exactly the wrong cells, each
   * once, as (column, row), in row-major order.
   */
  lemma {:induction false} IncorrectCells(g: seq<int>, s: seq<int>, n: int)
    requires |g| == 81 && |s| == 81 && 0 <= n <= 81
    ensures var r := Incorrect(g, s, n);
      (forall m :: 0 <= m < |r| ==> InGrid(r[m]) && Linear(r[m]) < n && Wrong(g, s, Linear(r[m]))) &&
      (forall k :: 0 <= k < n && Wrong(g, s, k) ==> (k % 9, k / 9) in r) &&
      (forall m, m' :: 0 <= m < m' < |r| ==> Linear(r[m]) < Linear(r[m']))
  {
    if n > 0 {
      IncorrectCells(g, s, n - 1);
      var k := n - 1;
      assert Linear((k % 9, k / 9)) == k && InGrid((k % 9, k / 9));
    }
  }

  /** No wrong cell among the first n, nothing listed. */
  lemma {:induction false} NoneIncorrect(g: seq<int>, s: seq<int>, n: int)
    requires |g| == 81 && |s| == 81 && 0 <= n <= 81
    requires forall k :: 0 <= k < n ==> !Wrong(g, s, k)
    ensures Incorrect(g, s, n) == []
  {
    if n > 0 {
      NoneIncorrect(g, s, n - 1);
    }
  }

  /** board.py:175-186: the grid equals its solution exactly when no cell is empty and none is incorrect. */
  lemma SolvedIncorrect(g: seq<int>, s: seq<int>)
    requires |g| == 81 && |s| == 81
    ensures g == s <==> (Incorrect(g, s, 81) == [] && forall k :: 0 <= k < 81 ==> g[k] != 0 || s[k] == 0)
  {
    IncorrectCells(g, s, 81);
    if g == s {
      NoneIncorrect(g, s, 81);
    }
    if Incorrect(g, s, 81) == [] && forall k :: 0 <= k < 81 ==> g[k] != 0 || s[k] == 0 {
      forall k | 0 <= k < 81
        ensures g[k] == s[k]
      {
        if Wrong(g, s, k) {
          assert false;
        }
      }
    }
  }

  /** numpy's clip of one index to 0..8. */
  function Clip(v: int): (c: int)
    ensures 0 <= c <= 8
    ensures 0 <= v <= 8 ==> c == v
    ensures v < 0 ==> c == 0
    ensures v > 8 ==> c == 8
  {
    if v < 0 then 0 else if v > 8 then 8 else v
  }

  /* ---------------------------------------------------------------------- */
  /* The board                                                              */

  /** board.py:261, 276 and 191: an entry of the moves stack, a write with the value it replaced, or a clear with a copy of the grid. */
  datatype Move = Write(row: int, col: int, previous: int) | Reset(grid: seq<int>)

  /** The entry fits a grid of 81 cells. */
  predicate Fits(m: Move) {
    match m
    case Write(row, col, _) => InGrid((row, col))
    case Reset(grid) => |grid| == 81
  }

  /** board.py:207-212: the grid that undoing m turns h into. */
  function Revert(m: Move, h: seq<int>): seq<int>
    requires Fits(m) && |h| == 81
  {
    match m
    case Write(row, col, previous) => h[9 * row + col := previous]
    case Reset(grid) => grid
  }

  /** board.py:163: the clue cells of a puzzle. */
  function Mask(h: seq<int>): seq<bool> {
    seq(|h|, k requires 0 <= k < |h| => h[k] > 0)
  }

  /** board.py:192: the grid with every cell that is not locked emptied. */
  function Cleared(locked: seq<bool>, h: seq<int>): seq<int>
    requires |locked| == |h|
  {
    seq(|h|, k requires 0 <= k < |h| => if locked[k] then h[k] else 0)
  }

  /** Every locked cell of h holds its clue. */
  predicate Keeps(locked: seq<bool>, givens: seq<int>, h: seq<int>) {
    |h| == 81 && |locked| == 81 && |givens| == 81 &&
    forall k :: 0 <= k < 81 && locked[k] ==> h[k] == givens[k]
  }

  /**
   * history[i] is the grid just before moves[i] was made, and undoing
   * moves[i] on the grid it produced (the next grid of the history, or g
   * for the last move) gives history[i] back.
   */
  ghost predicate Replays(moves: seq<Move>, history: seq<seq<int>>, g: seq<int>) {
    |history| == |moves| && |g| == 81 &&
    (forall i :: 0 <= i < |moves| ==> Fits(moves[i]) && |history[i]| == 81) &&
    forall i :: 0 <= i < |moves| ==> Revert(moves[i], Next(history, g, i)) == history[i]
  }

  /** The grid the i-th move produced: the next grid of the history, or the current one g. */
  function Next(history: seq<seq<int>>, g: seq<int>, i: nat): seq<int> {
    if i + 1 < |history| then history[i + 1] else g
  }

  /** Pushing a move made on g, which turned g into g', keeps the history replayable. */
  lemma PushReplays(moves: seq<Move>, history: seq<seq<int>>, g: seq<int>, m: Move, g': seq<int>)
    requires Replays(moves, history, g) && Fits(m) && |g'| == 81 && Revert(m, g') == g
    ensures Replays(moves + [m], history + [g], g')
  {
    var ms, hs := moves + [m], history + [g];
    forall i | 0 <= i < |ms|
      ensures Revert(ms[i], Next(hs, g', i)) == hs[i]
    {
      if i < |moves| {
        assert ms[i] == moves[i] && hs[i] == history[i];
        assert Next(hs, g', i) == Next(history, g, i);
      }
    }
  }

  /** Undoing the last move gives back the grid before it, and the rest of the history stays replayable. */
  lemma PopReplays(moves: seq<Move>, history: seq<seq<int>>, g: seq<int>)
    requires Replays(moves, history, g) && |moves| > 0
    ensures Revert(moves[|moves| - 1], g) == history[|moves| - 1]
    ensures Replays(moves[..|moves| - 1], history[..|moves| - 1], history[|moves| - 1])
  {
    var n := |moves| - 1;
    assert Revert(moves[n], Next(history, g, n)) == history[n];
    forall i | 0 <= i < n
      ensures Next(history[..n], history[n], i) == Next(history, g, i)
    {
    }
  }

  class SudokuBoard {
    /** board.py:37, 38, 54: the cell size in pixels, the board's position and its size. */
    const cellSize: int
    const pos: (int, int)
    const size: int
    /** board.py:159: the grid being played, shared with the caller of set_sudoku. */
    var sudoku: array<int>
    /** board.py:160, 163: the solution and the mask of the clue cells. */
    var solution: seq<int>
    var locked: seq<bool>
    /** board.py:65-68: the selected and hovered cells, the cells connected to the selection and the incorrect cells. */
    var selected: Option<(int, int)>
    var hovering: Option<(int, int)>
    var connected: set<(int, int)>
    var incorrect: seq<(int, int)>
    /** board.py:71: the stack of moves. */
    var moves: seq<Move>
    /** The puzzle last set, whose clues are the locked cells. */
    ghost var givens: seq<int>
    /** history[i] is the grid just before moves[i] was made. */
    ghost var history: seq<seq<int>>

    ghost predicate Valid()
      reads this, sudoku
    {
      cellSize >= 0 && size == 9 * (cellSize + 2) &&
      sudoku.Length == 81 && |solution| == 81 && |locked| == 81 && |givens| == 81 &&
      (forall k :: 0 <= k < 81 ==> locked[k] == (givens[k] > 0)) &&
      Keeps(locked, givens, sudoku[..]) &&
      (selected.Some? ==> InGrid(selected.value)) &&
      Replays(moves, history, sudoku[..]) &&
      forall i :: 0 <= i < |history| ==> Keeps(locked, givens, history[i])
    }

    /**
     * board.py:35-71 without fonts, colours and surfaces: no selection, no
     * moves. The grid stays empty until set_sudoku gives one.
     */
    constructor (cellSize: int, pos: (int, int))
      requires cellSize >= 0
      ensures Valid() && fresh(sudoku)
      ensures this.cellSize == cellSize && this.pos == pos && size == 9 * (cellSize + 2)
      ensures selected == None && hovering == None && connected == {} && incorrect == [] && moves == []
    {
      this.cellSize, this.pos, size := cellSize, pos, 9 * (cellSize + 2);
      sudoku := new int[81](_ => 0);
      solution, locked := seq(81, _ => 0), seq(81, _ => false);
      selected, hovering, connected, incorrect, moves := None, None, {}, [], [];
      givens, history := seq(81, _ => 0), [];
    }

    /**
     * board.py:152-173: a puzzle whose solution count is not 1 is refused
     * and nothing changes; otherwise the board plays the caller's array,
     * with its solution, its clues locked and everything else reset. The
     * count and the solution come from solver entry points that are
     * parameters here.
     */
    method SetSudoku(s: array<int>, count: seq<int> -> int, solve: seq<int> -> seq<int>) returns (ok: bool)
      requires s.Length == 81 && |solve(s[..])| == 81 && cellSize >= 0 && size == 9 * (cellSize + 2)
      modifies this
      ensures ok == (count(s[..]) == 1)
      ensures !ok ==> unchanged(this)
      ensures ok ==> (Valid() && sudoku == s && solution == solve(s[..]) &&
        locked == Mask(s[..]))
      ensures ok ==> selected == None && hovering == None && connected == {} && incorrect == [] && moves == []
    {
      if count(s[..]) != 1 {
        return false;
      }
      sudoku := s;
      solution := solve(s[..]);
      locked := Mask(s[..]);
      givens := s[..];
      hovering, selected, connected, incorrect := None, None, {}, [];
      moves, history := [], [];
      return true;
    }

    /** board.py:175-177 */
    predicate CheckSolution()
      reads this, sudoku
      requires Valid()
    {
      sudoku[..] == solution
    }

    /** board.py:179-181: the cell at grid index (row, col) holds its solution. */
    predicate CheckValid(row: int, col: int)
      reads this, sudoku
      requires Valid() && InGrid((row, col))
    {
      sudoku[9 * row + col] == solution[9 * row + col]
    }

    /** The incorrect cells of the current grid (board.py:183-186). */
    function CalculateIncorrect(): seq<(int, int)>
      reads this, sudoku
      requires Valid()
    {
      Incorrect(sudoku[..], solution, 81)
    }

    /**
     * board.py:188-195: push a copy of the grid, then empty every cell that
     * is not locked; locked cells keep their clues.
     */
    method Clear()
      requires Valid()
      modifies this, sudoku
      ensures Valid() && sudoku == old(sudoku)
      ensures sudoku[..] == Cleared(locked, old(sudoku[..]))
      ensures forall k :: 0 <= k < 81 && locked[k] ==> sudoku[k] == old(sudoku[k])
      ensures moves == old(moves) + [Reset(old(sudoku[..]))] && incorrect == CalculateIncorrect()
      ensures solution == old(solution) && locked == old(locked) && selected == old(selected) &&
        hovering == old(hovering) && connected == old(connected)
    {
      var before := sudoku[..];
      forall k | 0 <= k < 81 && !locked[k] {
        sudoku[k] := 0;
      }
      PushReplays(moves, history, before, Reset(before), sudoku[..]);
      moves := moves + [Reset(before)];
      history := history + [before];
      incorrect := Incorrect(sudoku[..], solution, 81);
    }

    /**
     * board.py:198-215: nothing to undo is a no-op; otherwise pop the last
     * move and put back the grid exactly as it was before that move.
     */
    method Undo()
      requires Valid()
      modifies this, sudoku
      ensures Valid() && sudoku == old(sudoku)
      ensures old(moves) == [] ==> unchanged(this) && unchanged(sudoku)
      ensures old(moves) != [] ==> (sudoku[..] == old(history[|history| - 1]) &&
        moves == old(moves[..|moves| - 1]) && incorrect == CalculateIncorrect())
      ensures solution == old(solution) && locked == old(locked) && selected == old(selected) &&
        hovering == old(hovering) && connected == old(connected)
    {
      if |moves| == 0 {
        return;
      }
      var last := moves[|moves| - 1];
      ghost var before := history[|history| - 1];
      PopReplays(moves, history, sudoku[..]);
      moves := moves[..|moves| - 1];
      history := history[..|history| - 1];
      Restore(last);
      incorrect := Incorrect(sudoku[..], solution, 81);
    }

    /** board.py:207-212: write back the cell of a set or remove move, or the whole grid of a clear. */
    method Restore(m: Move)
      requires sudoku.Length == 81 && Fits(m)
      modifies sudoku
      ensures sudoku[..] == Revert(m, old(sudoku[..]))
    {
      match m {
        case Write(row, col, previous) =>
          sudoku[9 * row + col] := previous;
        case Reset(grid) =>
          forall k | 0 <= k < 81 {
            sudoku[k] := grid[k];
          }
      }
    }

    /**
     * board.py:256-265 with a selection (the source indexes the selection
     * before it tests it for None): an unlocked selected cell is emptied and
     * the write pushed; a locked one is left alone.
     */
    method ClearSelectedCell()
      requires Valid() && selected.Some?
      modifies this, sudoku
      ensures Valid() && sudoku == old(sudoku)
      ensures var (x, y) := old(selected).value; var k := 9 * y + x;
        if old(locked[k]) then unchanged(this) && unchanged(sudoku)
        else (sudoku[..] == old(sudoku[..])[k := 0] && moves == old(moves) + [Write(y, x, old(sudoku[k]))] &&
          incorrect == CalculateIncorrect())
      ensures forall k :: 0 <= k < 81 && locked[k] ==> sudoku[k] == old(sudoku[k])
      ensures solution == old(solution) && locked == old(locked) && selected == old(selected) &&
        hovering == old(hovering) && connected == old(connected)
    {
      var (x, y) := selected.value;
      var k := 9 * y + x;
      if !locked[k] {
        ghost var before := sudoku[..];
        moves := moves + [Write(y, x, sudoku[k])];
        sudoku[k] := 0;
        PushReplays(old(moves), history, before, Write(y, x, before[k]), sudoku[..]);
        history := history + [before];
        incorrect := Incorrect(sudoku[..], solution, 81);
      }
    }

    /**
     * board.py:267-286: a digit outside 1..9 changes nothing and answers
     * None. Otherwise (the source then needs a selection) an unlocked
     * selected cell takes the digit, the write with the old value pushed,
     * and the answer is whether the digit is the solution's; a locked cell
     * is left alone and the answer is true.
     */
    method SetSelectedCell(i: int) returns (valid: Option<bool>)
      requires Valid() && (1 <= i <= 9 ==> selected.Some?)
      modifies this, sudoku
      ensures Valid() && sudoku == old(sudoku)
      ensures !(1 <= i <= 9) ==> valid == None && unchanged(this) && unchanged(sudoku)
      ensures 1 <= i <= 9 ==> var (x, y) := old(selected).value; var k := 9 * y + x;
        if old(locked[k]) then valid == Some(true) && unchanged(this) && unchanged(sudoku)
        else (valid == Some(i == solution[k]) && sudoku[..] == old(sudoku[..])[k := i] &&
          moves == old(moves) + [Write(y, x, old(sudoku[k]))] && incorrect == CalculateIncorrect())
      ensures forall k :: 0 <= k < 81 && locked[k] ==> sudoku[k] == old(sudoku[k])
      ensures solution == old(solution) && locked == old(locked) && selected == old(selected) &&
        hovering == old(hovering) && connected == old(connected)
    {
      if i < 1 || i > 9 {
        return None;
      }
      var (x, y) := selected.value;
      var k := 9 * y + x;
      valid := Some(true);
      if !locked[k] {
        ghost var before := sudoku[..];
        moves := moves + [Write(y, x, sudoku[k])];
        sudoku[k] := i;
        PushReplays(old(moves), history, before, Write(y, x, before[k]), sudoku[..]);
        history := history + [before];
        incorrect := Incorrect(sudoku[..], solution, 81);
        if !CheckValid(y, x) {
          valid := Some(false);
        }
      }
    }

    /** board.py:241-244: select the cell under a surface position, if any, and its connected cells. */
    method Select(p: Option<(int, int)>)
      requires Valid()
      modifies this
      ensures Valid()
      ensures selected == if p.None? then None else ConvertSurfacePos(cellSize, pos, p.value)
      ensures connected == if selected.None? then {} else Connected(selected.value)
      ensures sudoku == old(sudoku) && solution == old(solution) && locked == old(locked) &&
        hovering == old(hovering) && incorrect == old(incorrect) && moves == old(moves)
    {
      selected := if p.None? then None else ConvertSurfacePos(cellSize, pos, p.value);
      if p.Some? {
        ConvertInGrid(cellSize, pos, p.value);
      }
      connected := CalculateConnected(selected);
    }

    /** board.py:246-248 */
    method Hover(p: Option<(int, int)>)
      requires Valid()
      modifies this
      ensures Valid()
      ensures hovering == if p.None? then None else ConvertSurfacePos(cellSize, pos, p.value)
      ensures hovering.Some? ==> InGrid(hovering.value)
      ensures sudoku == old(sudoku) && solution == old(solution) && locked == old(locked) && selected == old(selected) &&
        connected == old(connected) && incorrect == old(incorrect) && moves == old(moves)
    {
      hovering := if p.None? then None else ConvertSurfacePos(cellSize, pos, p.value);
      if p.Some? {
        ConvertInGrid(cellSize, pos, p.value);
      }
    }

    /** board.py:250-254 */
    method DeselectAll()
      requires Valid()
      modifies this
      ensures Valid() && selected == None && hovering == None && connected == {}
      ensures sudoku == old(sudoku) && solution == old(solution) && locked == old(locked) &&
        incorrect == old(incorrect) && moves == old(moves)
    {
      selected, hovering, connected := None, None, {};
    }

    /**
     * board.py:288-299: no selection, no move; otherwise both indices move
     * by the given amounts, clipped to the grid, and the connected cells
     * follow.
     */
    method MoveSelection(dx: int, dy: int)
      requires Valid()
      modifies this
      ensures Valid()
      ensures old(selected).None? ==> unchanged(this)
      ensures old(selected).Some? ==> var (x, y) := old(selected).value;
        selected == Some((Clip(x + dx), Clip(y + dy))) && connected == Connected(selected.value)
      ensures sudoku == old(sudoku) && solution == old(solution) && locked == old(locked) &&
        hovering == old(hovering) && incorrect == old(incorrect) && moves == old(moves)
    {
      if selected.None? {
        return;
      }
      var (x, y) := selected.value;
      selected := Some((Clip(x + dx), Clip(y + dy)));
      connected := CalculateConnected(selected);
    }
  }
}
