/**
 * The table solver.py:9-56 builds for one puzzle: the constraints the given
 * digits cover, the candidate rows added cell by cell and digit by digit,
 * and what the finished table holds — exactly one row for every placement
 * of a digit in an empty cell that no given digit rules out, and columns no
 * longer than `max_size` allows.
 */
module Table {
  import opened Wrappers
  import opened Constraints
  import opened Splice
  import opened Links
  import opened Exact
  import opened Build

  /** A puzzle: 81 cells in row-major order (cell 9 * row + col), 0 for an empty cell, else its digit. */
  predicate IsGrid(g: seq<int>) {
    |g| == 81 && forall i :: 0 <= i < 81 ==> 0 <= g[i] <= 9
  }

  /** The number of empty cells among the first n. */
  function Zeros(g: seq<int>, n: int): (z: nat)
    requires 0 <= n <= |g|
    ensures z <= n
  {
    if n == 0 then 0 else Zeros(g, n - 1) + (if g[n - 1] == 0 then 1 else 0)
  }

  /** solver.py:13: `(sudoku == 0).sum()`. */
  function ZeroCount(g: seq<int>): nat
    requires |g| == 81
  {
    Zeros(g, |g|)
  }

  /** solver.py:12-14: 324 headers and four nodes for each of the nine candidate rows of every empty cell. */
  function Nodes(g: seq<int>): int
    requires |g| == 81
  {
    4 * (9 * ZeroCount(g)) + Headers
  }

  /** The placement the given digit of cell i stands for. */
  function CellAction(g: seq<int>, i: int): Action
    requires 0 <= i < |g|
  {
    Action(i / 9, i % 9, g[i])
  }

  /** solver.py:40-43 over the first n cells: the constraints of every given digit are covered. */
  function Givens(g: seq<int>, n: int): (cov: seq<bool>)
    requires IsGrid(g) && 0 <= n <= 81
    ensures |cov| == Headers
  {
    if n == 0 then seq(Headers, _ => false)
    else if g[n - 1] != 0 then Marked(Givens(g, n - 1), ConstraintsOf(CellAction(g, n - 1)))
    else Givens(g, n - 1)
  }

  /** The covered flags once every given digit is marked. */
  function GivenFlags(g: seq<int>): (cov: seq<bool>)
    requires IsGrid(g)
    ensures |cov| == Headers
  {
    Givens(g, |g|)
  }

  /** Cell i holds a given digit that meets constraint u. */
  predicate GivenMeets(g: seq<int>, i: int, u: int)
    requires 0 <= i < |g|
  {
    g[i] != 0 && u in ConstraintsOf(CellAction(g, i))
  }

  /** Cell m covers constraint u exactly when it holds a given digit that meets u; other constraints keep their flag. */
  lemma GivenStep(g: seq<int>, m: int, u: int)
    requires IsGrid(g) && 0 <= m < 81 && 0 <= u < Headers
    ensures Givens(g, m + 1)[u] == (Givens(g, m)[u] || GivenMeets(g, m, u))
  {
    if g[m] != 0 {
      assert Givens(g, m + 1) == Marked(Givens(g, m), ConstraintsOf(CellAction(g, m)));
    }
  }

  /** A constraint is covered after the first n cells exactly when one of their given digits meets it. */
  lemma {:induction false} GivenMarks(g: seq<int>, n: int, u: int)
    requires IsGrid(g) && 0 <= n <= 81 && 0 <= u < Headers
    ensures Givens(g, n)[u] <==> exists i :: 0 <= i < n && GivenMeets(g, i, u)
  {
    if n > 0 {
      var m := n - 1;
      GivenMarks(g, m, u);
      GivenStep(g, m, u);
      if GivenMeets(g, m, u) {
        assert 0 <= m < n && GivenMeets(g, m, u);
      } else if Givens(g, m)[u] {
        var i :| 0 <= i < m && GivenMeets(g, i, u);
        assert 0 <= i < n && GivenMeets(g, i, u);
      } else {
        forall i | 0 <= i < n
          ensures !GivenMeets(g, i, u)
        {
        }
      }
    }
  }

  /* ---------------------------------------------------------------------- */
  /* The candidate rows in the order solver.py:48-51 tries them             */

  /** The k-th candidate: cell k / 9, digit k % 9 + 1. */
  function Candidate(k: int): Action {
    Action(k / 9 / 9, k / 9 % 9, k % 9 + 1)
  }

  /** The position of placement a in that order. */
  function Key(a: Action): int {
    9 * (9 * a.row + a.col) + a.n - 1
  }

  lemma KeyOfCandidate(k: int)
    requires 0 <= k < 729
    ensures IsPlacement(Candidate(k)) && Key(Candidate(k)) == k
    ensures 9 * Candidate(k).row + Candidate(k).col == k / 9
  {
  }

  lemma CandidateOfKey(a: Action)
    requires IsPlacement(a)
    ensures 0 <= Key(a) < 729 && Candidate(Key(a)) == a && Key(a) / 9 == 9 * a.row + a.col
  {
    var k := Key(a);
    assert k == 9 * (9 * a.row + a.col) + (a.n - 1);
    assert k / 9 == 9 * a.row + a.col;
  }

  /** The number of candidates before the k-th that stand at an empty cell, each one add_row call. */
  function Tried(g: seq<int>, k: int): (r: nat)
    requires |g| == 81 && 0 <= k <= 729
    ensures r <= k
  {
    if k == 0 then 0 else Tried(g, k - 1) + (if g[(k - 1) / 9] == 0 then 1 else 0)
  }

  /** Within cell i, the first t candidates are tried exactly when the cell is empty. */
  lemma {:induction false} TriedInCell(g: seq<int>, i: int, t: int)
    requires |g| == 81 && 0 <= i < 81 && 0 <= t <= 9
    ensures Tried(g, 9 * i + t) == Tried(g, 9 * i) + (if g[i] == 0 then t else 0)
  {
    if t > 0 {
      TriedInCell(g, i, t - 1);
      var k := 9 * i + t - 1;
      assert k / 9 == i;
      assert k + 1 == 9 * i + t;
    }
  }

  /** Every candidate of every empty cell among the first i is tried. */
  lemma {:induction false} TriedCells(g: seq<int>, i: int)
    requires |g| == 81 && 0 <= i <= 81
    ensures Tried(g, 9 * i) == 9 * Zeros(g, i)
  {
    if i > 0 {
      TriedCells(g, i - 1);
      TriedInCell(g, i - 1, 9);
      assert 9 * (i - 1) + 9 == 9 * i;
    }
  }

  lemma {:induction false} TriedMono(g: seq<int>, k: int, k': int)
    requires |g| == 81 && 0 <= k <= k' <= 729
    ensures Tried(g, k) <= Tried(g, k')
    decreases k' - k
  {
    if k < k' {
      TriedMono(g, k, k' - 1);
    }
  }

  /** No more rows are tried than solver.py:13 makes room for. */
  lemma TriedBound(g: seq<int>, k: int)
    requires |g| == 81 && 0 <= k <= 729
    ensures Tried(g, k) <= 9 * ZeroCount(g) && Tried(g, 9 * |g|) == 9 * ZeroCount(g)
  {
    TriedCells(g, |g|);
    TriedMono(g, k, 9 * |g|);
  }

  /* ---------------------------------------------------------------------- */
  /* Filling the table                                                       */

  /** The arrays and the running `next_index`. */
  datatype Stage = Stage(draft: Draft, next: int)

  /** solver.py:16-31 and 40-47: the blank arrays, with the given digits' constraints covered. */
  function Start(g: seq<int>): (d: Draft)
    requires IsGrid(g)
    ensures Shaped(d) && |d.columns| == Nodes(g)
  {
    var nodes := Nodes(g);
    Draft(Mesh(seq(nodes, j => j), seq(nodes, j => j), seq(Headers, _ => 0)), GivenFlags(g),
          seq(nodes, j => j), seq(nodes, _ => None), seq(Headers, u => u), seq(Headers, _ => []))
  }

  /** solver.py:46-51 after the first k candidates: each one at an empty cell goes through add_row. */
  function Fill(g: seq<int>, k: int): (r: Stage)
    requires IsGrid(g) && 0 <= k <= 729
    ensures Shaped(r.draft) && |r.draft.columns| == Nodes(g) && r.draft.covered == GivenFlags(g)
    ensures Headers <= r.next <= Headers + 4 * Tried(g, k)
    decreases k
  {
    if k == 0 then Stage(Start(g), Headers)
    else
      var s := Fill(g, k - 1);
      var a := Candidate(k - 1);
      KeyOfCandidate(k - 1);
      if g[(k - 1) / 9] == 0 then
        TriedBound(g, k);
        Stage(RowAdded(s.draft, s.next, a), NextIndex(s.draft.covered, s.next, a))
      else s
  }

  /** The covered flags of the finished table are those of the givens. */
  lemma InitialCovered(g: seq<int>)
    requires IsGrid(g)
    ensures Initial(g).covered == GivenFlags(g)
  {
  }

  /** Every row of the table is a placement at an empty cell that fits the givens and comes before the k-th candidate. */
  ghost predicate RowsFrom(g: seq<int>, F: Frame, k: int)
    requires IsGrid(g)
  {
    F.used <= |F.actions| &&
    forall x :: Headers <= x < F.used ==>
      F.actions[x].Some? && Fits(GivenFlags(g), F.actions[x].value) &&
      g[9 * F.actions[x].value.row + F.actions[x].value.col] == 0 && Key(F.actions[x].value) < k
  }

  /** Nodes that stand for one placement are in one row. */
  ghost predicate RowsApart(F: Frame) {
    F.used <= |F.actions| &&
    forall x, y :: Headers <= x < F.used && Headers <= y < F.used && F.actions[x] == F.actions[y] ==> Base(x) == Base(y)
  }

  /** Every candidate before the k-th at an empty cell that fits the givens has a row. */
  ghost predicate RowsFor(g: seq<int>, F: Frame, k: int)
    requires IsGrid(g) && 0 <= k <= 729
  {
    forall j :: 0 <= j < k && g[j / 9] == 0 && Fits(GivenFlags(g), Candidate(j)) ==> HasRow(F, Candidate(j))
  }

  ghost predicate Recorded(g: seq<int>, F: Frame, k: int)
    requires IsGrid(g) && 0 <= k <= 729
  {
    RowsFrom(g, F, k) && RowsApart(F) && RowsFor(g, F, k)
  }

  function FrameOf(s: Stage): Frame {
    Frame(s.draft.columns, s.draft.actions, s.next)
  }

  /** The blank arrays satisfy the invariant of the construction, with no rows yet. */
  lemma StartFilling(g: seq<int>)
    requires IsGrid(g)
    ensures Filling(Start(g), Headers) && Recorded(g, FrameOf(Stage(Start(g), Headers)), 0)
  {
    var d := Start(g);
    forall u | 0 <= u < Headers
      ensures Hanging(d, u, Headers)
    {
      assert d.lists[u] == [];
    }
    assert Off(Headers) == 0;
  }

  /** F' is F with one more row, of placement a, at the end. */
  ghost predicate Appended(F: Frame, F': Frame, a: Action) {
    F'.used == F.used + 4 && |F'.actions| == |F.actions| && F'.used <= |F.actions| &&
    forall j :: 0 <= j < |F.actions| ==> F'.actions[j] == if F.used <= j < F'.used then Some(a) else F.actions[j]
  }

  lemma AppendFrom(g: seq<int>, k: int, F: Frame, F': Frame, a: Action)
    requires IsGrid(g) && RowsFrom(g, F, k) && Appended(F, F', a)
    requires Fits(GivenFlags(g), a) && g[9 * a.row + a.col] == 0 && Key(a) == k
    ensures RowsFrom(g, F', k + 1)
  {
  }

  lemma AppendApart(F: Frame, F': Frame, a: Action)
    requires RowsApart(F) && Appended(F, F', a) && Headers <= F.used && Off(F.used) == 0
    requires forall x :: Headers <= x < F.used ==> F.actions[x] != Some(a)
    ensures RowsApart(F')
  {
    forall x, y | Headers <= x < F'.used && Headers <= y < F'.used && F'.actions[x] == F'.actions[y]
      ensures Base(x) == Base(y)
    {
      if F.used <= x {
        OffBase(F.used, x - F.used);
      }
      if F.used <= y {
        OffBase(F.used, y - F.used);
      }
    }
  }

  lemma AppendFor(g: seq<int>, k: int, F: Frame, F': Frame, a: Action)
    requires IsGrid(g) && 0 <= k < 729 && RowsFor(g, F, k) && Appended(F, F', a) && Headers <= F.used
    requires a == Candidate(k)
    ensures RowsFor(g, F', k + 1)
  {
    forall j | 0 <= j < k + 1 && g[j / 9] == 0 && Fits(GivenFlags(g), Candidate(j))
      ensures HasRow(F', Candidate(j))
    {
      if j < k {
        assert HasRow(F, Candidate(j));
        var x :| Headers <= x < F.used && x < |F.actions| && F.actions[x] == Some(Candidate(j));
        assert F'.actions[x] == Some(Candidate(j));
      } else {
        assert F'.actions[F.used] == Some(a);
      }
    }
  }

  /** One add_row call on the k-th candidate, at an empty cell, keeps the record. */
  lemma AddRowRecords(g: seq<int>, k: int, d: Draft, next: int)
    requires IsGrid(g) && 0 <= k < 729 && g[k / 9] == 0
    requires Filling(d, next) && d.covered == GivenFlags(g)
    requires Fits(d.covered, Candidate(k)) ==> next + 4 <= |d.columns|
    requires Recorded(g, Frame(d.columns, d.actions, next), k)
    ensures Recorded(g, Frame(RowAdded(d, next, Candidate(k)).columns, RowAdded(d, next, Candidate(k)).actions,
                              NextIndex(d.covered, next, Candidate(k))), k + 1)
  {
    var a := Candidate(k);
    KeyOfCandidate(k);
    var F := Frame(d.columns, d.actions, next);
    if Fits(d.covered, a) {
      var r := PutNodes(d, a, next, 4);
      var F' := Frame(r.columns, r.actions, next + 4);
      PutNodesAppended(d, a, next);
      AppendRecorded(g, k, F, F');
    } else {
      SkipRecorded(g, k, F);
    }
  }

  /** A candidate that gets no row, at a given cell or blocked by a given, leaves the record as it is. */
  lemma SkipRecorded(g: seq<int>, k: int, F: Frame)
    requires IsGrid(g) && 0 <= k < 729 && Recorded(g, F, k)
    requires g[k / 9] != 0 || !Fits(GivenFlags(g), Candidate(k))
    ensures Recorded(g, F, k + 1)
  {
    forall j | 0 <= j < k + 1 && g[j / 9] == 0 && Fits(GivenFlags(g), Candidate(j))
      ensures HasRow(F, Candidate(j))
    {
      assert j < k;
    }
  }

  /** The row add_row hangs for a takes the four nodes from index on and nothing else. */
  lemma PutNodesAppended(d: Draft, a: Action, index: int)
    requires Shaped(d) && IsPlacement(a) && Headers <= index && index + 4 <= |d.columns|
    ensures Appended(Frame(d.columns, d.actions, index),
                     Frame(PutNodes(d, a, index, 4).columns, PutNodes(d, a, index, 4).actions, index + 4), a)
  {
    PutNodesCells(d, a, index, 4);
  }

  /** Appending the row of the k-th candidate, fitting and at an empty cell, keeps the record. */
  lemma AppendRecorded(g: seq<int>, k: int, F: Frame, F': Frame)
    requires IsGrid(g) && 0 <= k < 729 && g[k / 9] == 0 && Fits(GivenFlags(g), Candidate(k))
    requires Recorded(g, F, k) && Appended(F, F', Candidate(k)) && Headers <= F.used && Off(F.used) == 0
    ensures Recorded(g, F', k + 1)
  {
    var a := Candidate(k);
    KeyOfCandidate(k);
    AppendFrom(g, k, F, F', a);
    AppendApart(F, F', a);
    AppendFor(g, k, F, F', a);
  }

  /** One pass of solver.py:49-51 keeps the invariant of the construction and the record of its rows. */
  lemma FillStep(g: seq<int>, j: int, s: Stage, r: Stage)
    requires IsGrid(g) && 0 <= j < 729
    requires Filling(s.draft, s.next) && Recorded(g, FrameOf(s), j)
    requires s.draft.covered == GivenFlags(g) && |s.draft.columns| == Nodes(g)
    requires s.next <= Headers + 4 * Tried(g, j) && Tried(g, j + 1) <= 9 * ZeroCount(g)
    requires r == if g[j / 9] == 0 then Stage(RowAdded(s.draft, s.next, Candidate(j)), NextIndex(s.draft.covered, s.next, Candidate(j))) else s
    ensures Filling(r.draft, r.next) && Recorded(g, FrameOf(r), j + 1)
  {
    KeyOfCandidate(j);
    if g[j / 9] == 0 {
      AddRowKeeps(s.draft, s.next, Candidate(j));
      AddRowRecords(g, j, s.draft, s.next);
    } else {
      SkipRecorded(g, j, FrameOf(s));
    }
  }

  /** solver.py:46-51 keeps both the invariant of the construction and the record of its rows. */
  lemma {:induction false} FillRecords(g: seq<int>, k: int)
    requires IsGrid(g) && 0 <= k <= 729
    ensures Filling(Fill(g, k).draft, Fill(g, k).next) && Recorded(g, FrameOf(Fill(g, k)), k)
  {
    if k == 0 {
      StartFilling(g);
    } else {
      var j := k - 1;
      FillRecords(g, j);
      TriedBound(g, k);
      FillStep(g, j, Fill(g, j), Fill(g, k));
    }
  }

  /* ---------------------------------------------------------------------- */
  /* The finished table                                                      */

  /** solver.py:54-56 on the filled arrays: the table SudokuConstraints holds after construction. */
  ghost function Initial(g: seq<int>): State
    requires IsGrid(g)
  {
    var d := Fill(g, 9 * |g|).draft;
    State(CloseColumns(d, Headers), d.covered, d.lists)
  }

  ghost function InitialFrame(g: seq<int>): Frame
    requires IsGrid(g)
  {
    FrameOf(Fill(g, 9 * |g|))
  }

  /** The table has a row for exactly the placements at empty cells that no given digit rules out. */
  lemma InitialRows(g: seq<int>)
    requires IsGrid(g)
    ensures forall a {:trigger HasRow(InitialFrame(g), a)} ::
              HasRow(InitialFrame(g), a) <==> Fits(GivenFlags(g), a) && g[9 * a.row + a.col] == 0
  {
    var F := InitialFrame(g);
    FillRecords(g, 9 * |g|);
    forall a
      ensures HasRow(F, a) <==> Fits(GivenFlags(g), a) && g[9 * a.row + a.col] == 0
    {
      if HasRow(F, a) {
        var x :| Headers <= x < F.used && x < |F.actions| && F.actions[x] == Some(a);
      }
      if Fits(GivenFlags(g), a) && g[9 * a.row + a.col] == 0 {
        CandidateOfKey(a);
      }
    }
  }

  /* Counting the nodes of a column                                         */

  /** The values of a sequence, as a set. */
  function Elements(s: seq<int>): set<int> {
    set k | 0 <= k < |s| :: s[k]
  }

  lemma {:induction false} ElementsDistinct(s: seq<int>)
    requires Distinct(s)
    ensures |Elements(s)| == |s|
  {
    if s != [] {
      var p := s[..|s| - 1];
      assert Distinct(p);
      ElementsDistinct(p);
      assert Elements(s) == Elements(p) + {s[|s| - 1]};
      assert s[|s| - 1] !in Elements(p);
    }
  }

  /** The values of [0, n) other than e. */
  function Range(n: int, e: int): (r: set<int>)
    ensures forall v :: v in r <==> 0 <= v < n && v != e
    ensures n >= 0 ==> |r| == n - (if 0 <= e < n then 1 else 0)
    decreases n
  {
    if n <= 0 then {} else if n - 1 == e then Range(n - 1, e) else Range(n - 1, e) + {n - 1}
  }

  /** Distinct values taken from [0, n) without e are at most as many as that range holds. */
  lemma Pigeonhole(s: seq<int>, n: nat, e: int)
    requires Distinct(s)
    requires forall k :: 0 <= k < |s| ==> 0 <= s[k] < n && s[k] != e
    ensures |s| <= n - (if 0 <= e < n then 1 else 0)
  {
    ElementsDistinct(s);
    var S, R := Elements(s), Range(n, e);
    assert S <= R;
    assert R == S + (R - S);
    assert S !! (R - S);
  }

  /** Two distinct used nodes of one column stand for distinct placements. */
  lemma RowsDiffer(F: Frame, x: int, y: int)
    requires RowsValid(F) && RowsApart(F)
    requires Headers <= x < F.used && Headers <= y < F.used && x != y && F.columns[x] == F.columns[y]
    ensures Placement(F, x) != Placement(F, y)
  {
    if Base(x) == Base(y) {
      SameRowSameColumn(F, x, y);
    }
    assert RowNode(F, x) && RowNode(F, y);
  }

  /** The placement of a used node meets the constraint of its column. */
  lemma MeetsOwnColumn(F: Frame, x: int)
    requires RowsValid(F) && Headers <= x < F.used
    ensures IsPlacement(Placement(F, x)) && F.columns[x] in ConstraintsOf(Placement(F, x))
  {
    assert RowNode(F, x);
    MateFacts(x, 0);
    RowMeets(F, x, F.columns[x]);
  }

  /** A column holds at most nine rows: distinct placements meeting one constraint take distinct slots. */
  lemma ColumnSlots(F: Frame, u: int, L: seq<int>)
    requires RowsValid(F) && RowsApart(F) && Distinct(L)
    requires forall k :: 0 <= k < |L| ==> Headers <= L[k] < F.used && F.columns[L[k]] == u
    ensures |L| <= 9
  {
    var S := seq(|L|, k requires 0 <= k < |L| => Slot(Placement(F, L[k]), u));
    forall k | 0 <= k < |L|
      ensures 0 <= S[k] < 9
    {
      MeetsOwnColumn(F, L[k]);
      SlotDetermines(Placement(F, L[k]), Placement(F, L[k]), u);
    }
    forall i, j | 0 <= i < j < |L|
      ensures S[i] != S[j]
    {
      RowsDiffer(F, L[i], L[j]);
      MeetsOwnColumn(F, L[i]);
      MeetsOwnColumn(F, L[j]);
      SlotDetermines(Placement(F, L[i]), Placement(F, L[j]), u);
    }
    Pigeonhole(S, 9, -1);
  }

  /** A puzzle with one empty cell has no other. */
  lemma {:induction false} OneZero(g: seq<int>, n: int, i: int, j: int)
    requires 0 <= i < j < n <= |g| && g[i] == 0 && g[j] == 0
    ensures Zeros(g, n) >= 2
  {
    if j < n - 1 {
      OneZero(g, n - 1, i, j);
    } else {
      assert Zeros(g, n - 1) >= 1 by { ZeroAt(g, n - 1, i); }
    }
  }

  lemma {:induction false} ZeroAt(g: seq<int>, n: int, i: int)
    requires 0 <= i < n <= |g| && g[i] == 0
    ensures Zeros(g, n) >= 1
  {
    if i < n - 1 {
      ZeroAt(g, n - 1, i);
    }
  }

  /** With one empty cell, two placements at empty cells are at the same cell. */
  lemma OneCell(g: seq<int>, p: Action, q: Action)
    requires IsGrid(g) && ZeroCount(g) == 1 && IsPlacement(p) && IsPlacement(q)
    requires g[9 * p.row + p.col] == 0 && g[9 * q.row + q.col] == 0
    ensures p.row == q.row && p.col == q.col
  {
    var cp, cq := 9 * p.row + p.col, 9 * q.row + q.col;
    if cp < cq {
      OneZero(g, |g|, cp, cq);
    } else if cq < cp {
      OneZero(g, |g|, cq, cp);
    }
    NineDigits(p.row, p.col, q.row, q.col);
  }

  /**
   * With one empty cell, the digit given to its right-hand neighbour in the
   * same row covers a row-digit constraint that rules out that digit there.
   */
  lemma NeighbourDigit(g: seq<int>, p: Action) returns (dd: int)
    requires IsGrid(g) && ZeroCount(g) == 1 && IsPlacement(p) && g[9 * p.row + p.col] == 0
    ensures 1 <= dd <= 9 && GivenFlags(g)[81 + 9 * p.row + dd - 1]
  {
    var cell := 9 * p.row + p.col;
    var mate := 9 * p.row + (p.col + 1) % 9;
    if g[mate] == 0 {
      OneZero(g, |g|, if cell < mate then cell else mate, if cell < mate then mate else cell);
    }
    dd := g[mate];
    var q := CellAction(g, mate);
    assert q.row == p.row && q.n == dd;
    assert ConstraintsOf(q)[1] == 81 + 9 * p.row + dd - 1;
    assert GivenMeets(g, mate, 81 + 9 * p.row + dd - 1);
    GivenMarks(g, |g|, 81 + 9 * p.row + dd - 1);
  }

  /**
   * With one empty cell a column holds at most eight rows: all rows are at
   * that cell, and the digit given to its right-hand neighbour in the same
   * row is ruled out.
   */
  lemma ColumnDigits(g: seq<int>, F: Frame, u: int, L: seq<int>)
    requires IsGrid(g) && ZeroCount(g) == 1
    requires RowsValid(F) && RowsApart(F) && RowsFrom(g, F, 729) && Distinct(L)
    requires forall k :: 0 <= k < |L| ==> Headers <= L[k] < F.used && F.columns[L[k]] == u
    ensures |L| <= 8
  {
    if L != [] {
      var p := Placement(F, L[0]);
      assert Fits(GivenFlags(g), p) && g[9 * p.row + p.col] == 0;
      var dd := NeighbourDigit(g, p);
      var D := seq(|L|, k requires 0 <= k < |L| => Placement(F, L[k]).n - 1);
      forall k | 0 <= k < |L|
        ensures 0 <= D[k] < 9 && D[k] != dd - 1
      {
        AtTheCell(g, F, p, dd, L[k]);
      }
      forall i, j | 0 <= i < j < |L|
        ensures D[i] != D[j]
      {
        RowsDiffer(F, L[i], L[j]);
        AtTheCell(g, F, p, dd, L[i]);
        AtTheCell(g, F, p, dd, L[j]);
      }
      Pigeonhole(D, 9, dd - 1);
    }
  }

  /** With one empty cell, every row is a placement at that cell of a digit other than dd, once dd is ruled out there. */
  lemma AtTheCell(g: seq<int>, F: Frame, p: Action, dd: int, x: int)
    requires IsGrid(g) && ZeroCount(g) == 1 && RowsValid(F) && RowsFrom(g, F, 729) && Headers <= x < F.used
    requires IsPlacement(p) && g[9 * p.row + p.col] == 0 && 1 <= dd <= 9 && GivenFlags(g)[81 + 9 * p.row + dd - 1]
    ensures Placement(F, x).row == p.row && Placement(F, x).col == p.col
    ensures 1 <= Placement(F, x).n <= 9 && Placement(F, x).n != dd
  {
    var q := Placement(F, x);
    assert Fits(GivenFlags(g), q) && g[9 * q.row + q.col] == 0;
    OneCell(g, q, p);
    assert ConstraintsOf(q)[1] == 81 + 9 * p.row + q.n - 1;
  }

  /**
   * The table after construction: valid, every fitting row linked, the
   * givens' constraints covered and empty, rows for exactly the placements
   * that fit, and columns short enough that the argmin of solver.py:151
   * picks an uncovered one.
   */
  lemma InitialTable(g: seq<int>)
    requires IsGrid(g)
    ensures var s, F := Initial(g), InitialFrame(g);
      ValidState(s, F) && Complete(s, F) && s.covered == GivenFlags(g) &&
      |F.columns| == Nodes(g) && |s.mesh.up| == Nodes(g) &&
      (forall u :: 0 <= u < Headers && s.covered[u] ==> s.lists[u] == []) &&
      ReadyAt(s, 9 * ZeroCount(g), F.used)
  {
    var st := Fill(g, 9 * |g|);
    var s, F := Initial(g), InitialFrame(g);
    FillRecords(g, 9 * |g|);
    Built(st.draft, st.next);
    TriedBound(g, 9 * |g|);
    if ZeroCount(g) > 0 {
      forall u | 0 <= u < Headers && !s.covered[u]
        ensures s.mesh.sizes[u] < 9 * ZeroCount(g)
      {
        assert ListOk(s.mesh, F, u, s.lists[u]);
        if ZeroCount(g) == 1 {
          ColumnDigits(g, F, u, s.lists[u]);
        } else {
          ColumnSlots(F, u, s.lists[u]);
        }
      }
    }
  }

  /** One more constraint marked. */
  lemma MarkOne(cov: seq<bool>, cs: seq<int>, c: int)
    requires 0 <= c < |cov|
    ensures Marked(cov, cs)[c := true] == Marked(cov, cs + [c])
  {
  }

  /** The candidate of cell i with digit n. */
  lemma CellCandidate(i: int, n: int)
    requires 0 <= i < 81 && 1 <= n <= 9
    ensures (9 * i + n - 1) / 9 == i && Candidate(9 * i + n - 1) == Action(i / 9, i % 9, n)
  {
    var k := 9 * i + (n - 1);
    assert k / 9 == i && k % 9 == n - 1;
  }

  /** The candidates of a cell holding a given digit add no row. */
  lemma {:induction false} SkipCell(g: seq<int>, i: int, b: int, e: int)
    requires IsGrid(g) && 0 <= i < 81 && b == 9 * i && b <= e <= b + 9 && g[i] != 0
    ensures Fill(g, e) == Fill(g, b)
    decreases e - b
  {
    if e > b {
      var j := e - 1;
      CandidateCell(g, i, b, j);
      FillSkip(g, j, e);
      SkipCell(g, i, b, j);
    }
  }

  /** The candidates 9i to 9i + 8 are those of cell i, and fall on its digit. */
  lemma CandidateCell(g: seq<int>, i: int, b: int, j: int)
    requires IsGrid(g) && 0 <= i < 81 && b == 9 * i && b <= j < b + 9
    ensures 0 <= j < 729 && j / 9 == i && g[j / 9] == g[i]
  {
  }

  /** Fill passes over candidate j, of a cell that holds a given digit. */
  lemma FillSkip(g: seq<int>, j: int, k: int)
    requires IsGrid(g) && 0 <= j < 729 && k == j + 1 && g[j / 9] != 0
    ensures Fill(g, k) == Fill(g, j)
  {
  }

  /** The step of Fill at digit n of the empty cell i is one add_row call, with room for its nodes. */
  lemma FillNext(g: seq<int>, i: int, n: int, j: int, k: int, d: Draft, next: int)
    requires IsGrid(g) && 0 <= i < 81 && 1 <= n <= 9 && g[i] == 0 && j == 9 * i + n - 1 && k == j + 1
    requires Stage(d, next) == Fill(g, j)
    ensures IsPlacement(Action(i / 9, i % 9, n)) && Shaped(d) && Headers <= next && next + 4 <= |d.columns|
    ensures Fill(g, k) == Stage(RowAdded(d, next, Action(i / 9, i % 9, n)), NextIndex(d.covered, next, Action(i / 9, i % 9, n)))
  {
    CellCandidate(i, n);
    FillAt(g, j, d, next);
  }

  /** One step of Fill at a candidate of an empty cell. */
  lemma FillAt(g: seq<int>, k: int, d: Draft, next: int)
    requires IsGrid(g) && 0 <= k < 729 && g[k / 9] == 0
    requires Stage(d, next) == Fill(g, k)
    ensures IsPlacement(Candidate(k)) && Shaped(d) && Headers <= next && next + 4 <= |d.columns|
    ensures Fill(g, k + 1) == Stage(RowAdded(d, next, Candidate(k)), NextIndex(d.covered, next, Candidate(k)))
  {
    KeyOfCandidate(k);
    TriedBound(g, k + 1);
  }

  /* ---------------------------------------------------------------------- */
  /* The arrays                                                             */

  /**
   * The arrays solver.py:9-56 fills before the table is handed to
   * SudokuConstraints, with `lists` recording the order of every column.
   */
  class Builder {
    const up: array<int>
    const down: array<int>
    const sizes: array<int>
    const covered: array<bool>
    const columns: array<int>
    const actions: array<Option<Action>>
    ghost var lists: seq<seq<int>>
    /** `next_index`: the first node no row was put in. */
    var next: int

    /** The integer arrays, and `last_nodes`, are distinct arrays. */
    ghost predicate Apart(last: array<int>) {
      up != down && up != sizes && up != columns && up != last &&
      down != sizes && down != columns && down != last &&
      sizes != columns && sizes != last && columns != last
    }

    ghost function Value(last: array<int>): Draft
      reads this, up, down, sizes, covered, columns, actions, last
    {
      Draft(Mesh(up[..], down[..], sizes[..]), covered[..], columns[..], actions[..], last[..], lists)
    }

    /**
     * solver.py:9-56 up to the fields of the finished table: the blank
     * arrays of 16-31, then the loops of 40-43, 46-51 and 54-56, ending in
     * the state and rows Initial and InitialFrame describe.
     */
    constructor (g: seq<int>)
      requires IsGrid(g)
      ensures fresh(up) && fresh(down) && fresh(sizes) && fresh(covered) && fresh(columns) && fresh(actions)
      ensures up != down && up != sizes && down != sizes
      ensures State(Mesh(up[..], down[..], sizes[..]), covered[..], lists) == Initial(g)
      ensures Frame(columns[..], actions[..], next) == InitialFrame(g)
    {
      var nodes := 4 * (9 * ZeroCount(g)) + Headers;
      up := new int[nodes](j => j);
      down := new int[nodes](j => j);
      sizes := new int[Headers](_ => 0);
      covered := new bool[Headers](_ => false);
      columns := new int[nodes](j => j);
      actions := new Option<Action>[nodes](_ => None);
      lists := seq(Headers, _ => []);
      new;
      var last := new int[Headers](u => u);
      MarkGivens(g);
      assert Value(last) == Start(g);
      next := AddRows(g, last);
      CloseAll(last);
    }

    /** solver.py:40-43: the constraints of every given digit are marked covered. */
    method MarkGivens(g: seq<int>)
      requires IsGrid(g) && covered.Length == Headers
      requires forall u :: 0 <= u < Headers ==> !covered[u]
      modifies covered
      ensures covered[..] == GivenFlags(g)
    {
      assert covered[..] == Givens(g, 0);
      for i := 0 to 81
        invariant covered[..] == Givens(g, i)
      {
        if g[i] != 0 {
          var constraints := GetConstraints(i / 9, i % 9, g[i]);
          assert constraints == ConstraintsOf(CellAction(g, i));
          ghost var before := covered[..];
          for t := 0 to 4
            invariant covered[..] == Marked(before, constraints[..t])
          {
            MarkOne(before, constraints[..t], constraints[t]);
            covered[constraints[t]] := true;
            assert constraints[..t + 1] == constraints[..t] + [constraints[t]];
          }
          assert constraints[..4] == constraints;
        }
      }
    }

    /**
     * solver.py:46-51: add_row on every digit of every empty cell, in
     * row-major order; the arrays and next_index end as Fill says.
     */
    method AddRows(g: seq<int>, last: array<int>) returns (index: int)
      requires IsGrid(g) && Apart(last) && Value(last) == Start(g)
      modifies up, down, sizes, columns, actions, last, this`lists
      ensures Stage(Value(last), index) == Fill(g, 9 * |g|)
    {
      index := Headers;
      ghost var k := 0;
      for i := 0 to 81
        invariant k == 9 * i
        invariant Stage(Value(last), index) == Fill(g, k)
      {
        ghost var b := k;
        k := k + 9;
        if g[i] == 0 {
          index := AddCell(g, i, b, k, index, last);
        } else {
          SkipCell(g, i, b, k);
        }
      }
    }

    /** solver.py:50-51: the nine digits of the empty cell i, candidates b to e = b + 9 of Fill. */
    method AddCell(g: seq<int>, i: int, ghost b: int, ghost e: int, index: int, last: array<int>) returns (next: int)
      requires IsGrid(g) && 0 <= i < 81 && g[i] == 0 && b == 9 * i && e == b + 9
      requires Apart(last) && Stage(Value(last), index) == Fill(g, b)
      modifies up, down, sizes, columns, actions, last, this`lists
      ensures Stage(Value(last), next) == Fill(g, e)
    {
      next := index;
      ghost var k := b;
      for n := 1 to 10
        invariant k == b + n - 1
        invariant Stage(Value(last), next) == Fill(g, k)
      {
        ghost var d, at, j := Value(last), next, k;
        k := k + 1;
        FillNext(g, i, n, j, k, d, at);
        next := AddRow(next, i / 9, i % 9, n, last);
      }
      assert k == e;
    }

    /** solver.py:54-56: the lowest node of every uncovered column is linked back to its header. */
    method CloseAll(last: array<int>)
      requires Apart(last) && Shaped(Value(last))
      modifies up, down
      ensures Mesh(up[..], down[..], sizes[..]) == CloseColumns(old(Value(last)), Headers)
    {
      ghost var d := Value(last);
      for c := 0 to Headers
        invariant Mesh(up[..], down[..], sizes[..]) == CloseColumns(d, c)
      {
        if !covered[c] {
          LinkBelow(last[c], c);
        }
      }
    }

    /** solver.py:94-97. */
    method LinkBelow(node: int, link: int)
      requires up != down && 0 <= node < down.Length && 0 <= link < up.Length
      modifies up, down
      ensures Mesh(up[..], down[..], sizes[..]) == LinkedBelow(Mesh(old(up[..]), old(down[..]), sizes[..]), node, link)
    {
      down[node] := link;
      up[link] := node;
    }

    /**
     * solver.py:73-92: the arrays end as RowAdded says, and the index
     * returned is the next free node.
     */
    method AddRow(index: int, row: int, col: int, n: int, last: array<int>) returns (next: int)
      requires Apart(last) && Shaped(Value(last)) && IsPlacement(Action(row, col, n)) && Headers <= index
      requires Fits(covered[..], Action(row, col, n)) ==> index + 4 <= columns.Length
      modifies up, down, sizes, columns, actions, last, this`lists
      ensures Value(last) == RowAdded(old(Value(last)), index, Action(row, col, n))
      ensures next == NextIndex(old(covered[..]), index, Action(row, col, n))
    {
      var a := Action(row, col, n);
      var free := Free(a);
      if !free {
        return index;
      }
      HangRow(index, a, last);
      return index + 4;
    }

    /** solver.py:79-81: whether none of the four constraints of a is covered. */
    method Free(a: Action) returns (free: bool)
      requires IsPlacement(a) && covered.Length == Headers
      ensures free == Fits(covered[..], a)
    {
      var constraints := GetConstraints(a.row, a.col, a.n);
      assert constraints == ConstraintsOf(a);
      for i := 0 to 4
        invariant forall t :: 0 <= t < i ==> !covered[..][constraints[t]]
      {
        if covered[constraints[i]] {
          assert covered[..][constraints[i]];
          return false;
        }
      }
      return true;
    }

    /** solver.py:84-90: the four nodes from index on become placement a's row. */
    method HangRow(index: int, a: Action, last: array<int>)
      requires Apart(last) && Shaped(Value(last)) && IsPlacement(a) && Headers <= index && index + 4 <= columns.Length
      modifies up, down, sizes, columns, actions, last, this`lists
      ensures Value(last) == PutNodes(old(Value(last)), a, index, 4)
    {
      var constraints := GetConstraints(a.row, a.col, a.n);
      ghost var d0 := Value(last);
      for i := 0 to 4
        invariant Shaped(Value(last)) && |Value(last).columns| == |d0.columns|
        invariant Value(last) == PutNodes(d0, a, index, i)
      {
        ghost var before := Value(last);
        HangNode(constraints[i], index + i, a, last);
        PutNodesNext(d0, a, index, i);
        assert Value(last) == PutNode(before, ConstraintsOf(a)[i], index + i, a);
      }
    }

    /** solver.py:86-90, one pass of the loop. */
    method HangNode(c: int, node: int, a: Action, last: array<int>)
      requires Apart(last) && Shaped(Value(last)) && 0 <= c < Headers && 0 <= node < columns.Length
      modifies up, down, sizes, columns, actions, last, this`lists
      ensures Value(last) == PutNode(old(Value(last)), c, node, a)
    {
      LinkBelow(last[c], node);
      last[c] := node;
      sizes[c] := sizes[c] + 1;
      columns[node] := c;
      actions[node] := Some(a);
      lists := lists[c := lists[c] + [node]];
    }
  }
}
