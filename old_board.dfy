/**
 * Board of old/board.py: the earlier board keeps its digits in a
 * dictionary from (column, row) to digit, counts completions with a
 * backtracking search and grows a full solution one random placement at a
 * time. Colours, surfaces, drawing and mouse handling are not modelled.
 */
module OldBoard {
  import opened Wrappers
  import Cells = Board
  import opened OldTile

  type Pos = (int, int)

  /** A board as old/board.py passes it around: digits keyed by (column, row). */
  type Grid = map<Pos, int>

  /** Row-major place of a position: the order the search scans the board in. */
  function Index(p: Pos): int {
    9 * p.1 + p.0
  }

  /** The position at row-major place k. */
  function CellPos(k: int): Pos {
    (k % 9, k / 9)
  }

  lemma CellIndex(p: Pos)
    requires Cells.InGrid(p)
    ensures 0 <= Index(p) < 81 && CellPos(Index(p)) == p
  {
  }

  lemma IndexCell(k: int)
    requires 0 <= k < 81
    ensures Cells.InGrid(CellPos(k)) && Index(CellPos(k)) == k
  {
  }

  /** Every key of the board is a position of the 9x9 grid. */
  predicate GridOnly(board: Grid) {
    forall p :: p in board ==> Cells.InGrid(p)
  }

  /** The number of places below n whose position the board leaves empty. */
  function EmptyCells(board: Grid, n: nat): nat {
    if n == 0 then 0 else EmptyCells(board, n - 1) + (if CellPos(n - 1) in board then 0 else 1)
  }

  /** The number of empty grid positions: what each recursive call of the search lowers. */
  function EmptyCount(board: Grid): nat {
    EmptyCells(board, 81)
  }

  lemma {:induction false} FillFewerBelow(board: Grid, p: Pos, v: int, n: nat)
    requires Cells.InGrid(p) && p !in board && n <= 81
    ensures EmptyCells(board[p := v], n) == EmptyCells(board, n) - (if Index(p) < n then 1 else 0)
  {
    if n > 0 {
      FillFewerBelow(board, p, v, n - 1);
      CellIndex(p);
      if CellPos(n - 1) == p {
        assert Index(p) == n - 1;
      } else {
        IndexCell(n - 1);
      }
    }
  }

  /** Filling an empty grid position leaves one empty position fewer. */
  lemma FillFewer(board: Grid, p: Pos, v: int)
    requires Cells.InGrid(p) && p !in board
    ensures EmptyCount(board[p := v]) == EmptyCount(board) - 1
  {
    FillFewerBelow(board, p, v, 81);
    CellIndex(p);
  }

  /**
   * The first place at or after k whose position is empty, as the scan of
   * old/board.py:167-177 finds it.
   */
  function FirstEmpty(board: Grid, k: nat): Option<nat>
    decreases 81 - k
  {
    if k >= 81 then None
    else if CellPos(k) !in board then Some(k)
    else FirstEmpty(board, k + 1)
  }

  /** The place FirstEmpty finds is at or after k, on the grid, and empty. */
  lemma {:induction false} FirstEmptyFound(board: Grid, k: nat)
    ensures var r := FirstEmpty(board, k);
      r.Some? ==> k <= r.value < 81 && CellPos(r.value) !in board
    decreases 81 - k
  {
    if k < 81 && CellPos(k) in board {
      FirstEmptyFound(board, k + 1);
    }
  }

  /** Every place from k up to the one FirstEmpty finds, or to the end, is filled. */
  lemma {:induction false} FirstEmptyFirst(board: Grid, k: nat)
    ensures var r := FirstEmpty(board, k);
      forall j :: k <= j < (if r.Some? then r.value else 81) ==> CellPos(j) in board
    decreases 81 - k
  {
    if k < 81 && CellPos(k) in board {
      FirstEmptyFirst(board, k + 1);
    }
  }

  /**
   * old/board.py:167-177: scanning rows from start's row, and that row from
   * start's column, the first position missing from the board.
   */
  method FindTile(board: Grid, start: Pos) returns (tile: Option<Pos>)
    requires Cells.InGrid(start)
    ensures tile.None? ==> FirstEmpty(board, Index(start)).None?
    ensures tile.Some? ==> (FirstEmpty(board, Index(start)) == Some(Index(tile.value)) &&
      CellPos(Index(tile.value)) == tile.value)
  {
    tile := None;
    var c0 := start.0;
    for r := start.1 to 9
      invariant tile.None?
      invariant 0 <= c0 < 9 && (r != start.1 ==> c0 == 0)
      invariant FirstEmpty(board, Index(start)) == FirstEmpty(board, 9 * r + c0)
    {
      ghost var k := 9 * r + c0;
      for c := c0 to 9
        invariant tile.None? && k == 9 * r + c
        invariant FirstEmpty(board, Index(start)) == FirstEmpty(board, k)
      {
        CellAt(c, r);
        if (c, r) !in board {
          FirstEmptyAt(board, k);
          tile := Some((c, r));
          break;
        }
        FirstEmptyAt(board, k);
        k := k + 1;
      }
      c0 := 0;
      if tile.Some? {
        break;
      }
    }
  }

  /** One step of FirstEmpty at place k. */
  lemma FirstEmptyAt(board: Grid, k: nat)
    requires k < 81
    ensures CellPos(k) !in board ==> FirstEmpty(board, k) == Some(k)
    ensures CellPos(k) in board ==> FirstEmpty(board, k) == FirstEmpty(board, k + 1)
  {
  }

  lemma CellAt(c: int, r: int)
    requires 0 <= c < 9 && 0 <= r < 9
    ensures CellPos(9 * r + c) == (c, r) && Index((c, r)) == 9 * r + c
  {
  }

  /** Python's list.remove: drops the first occurrence of v. */
  function Remove(s: seq<int>, v: int): (r: seq<int>)
    requires v in s
    ensures |r| == |s| - 1
  {
    if s[0] == v then s[1..] else [s[0]] + Remove(s[1..], v)
  }

  /** No tile connected to t on the board holds n. */
  ghost predicate Allowed(board: Grid, t: Pos, n: int) {
    forall p :: p in board && IsPeer(p, t) ==> board[p] != n
  }

  /** No position among ps that is on the board holds n. */
  ghost predicate AllowedBy(board: Grid, ps: seq<Pos>, n: int) {
    forall m :: 0 <= m < |ps| && ps[m] in board ==> board[ps[m]] != n
  }

  /** The digits lo .. 9, in order, that no tile connected to t holds. */
  ghost function CandidatesFrom(board: Grid, t: Pos, lo: int): seq<int>
    decreases 10 - lo
  {
    if lo > 9 then [] else (if Allowed(board, t, lo) then [lo] else []) + CandidatesFrom(board, t, lo + 1)
  }

  /** The digits the search may place at t: 1 .. 9, less those held by tiles connected to t. */
  ghost function Candidates(board: Grid, t: Pos): seq<int> {
    CandidatesFrom(board, t, 1)
  }

  /** The digits lo .. 9, in order, that no position among ps holds. */
  ghost function Free(board: Grid, ps: seq<Pos>, lo: int): seq<int>
    decreases 10 - lo
  {
    if lo > 9 then [] else (if AllowedBy(board, ps, lo) then [lo] else []) + Free(board, ps, lo + 1)
  }

  lemma {:induction false} FreeMember(board: Grid, ps: seq<Pos>, lo: int, v: int)
    ensures v in Free(board, ps, lo) <==> lo <= v <= 9 && AllowedBy(board, ps, v)
    decreases 10 - lo
  {
    if lo <= 9 {
      FreeMember(board, ps, lo + 1, v);
    }
  }

  /** With no position to exclude, every digit is free. */
  lemma FreeNone(board: Grid)
    ensures Free(board, [], 1) == [1, 2, 3, 4, 5, 6, 7, 8, 9]
  {
    assert forall n :: AllowedBy(board, [], n);
    assert Free(board, [], 10) == [];
    assert Free(board, [], 9) == [9];
    assert Free(board, [], 8) == [8, 9];
    assert Free(board, [], 7) == [7, 8, 9];
    assert Free(board, [], 6) == [6, 7, 8, 9];
    assert Free(board, [], 5) == [5, 6, 7, 8, 9];
    assert Free(board, [], 4) == [4, 5, 6, 7, 8, 9];
    assert Free(board, [], 3) == [3, 4, 5, 6, 7, 8, 9];
    assert Free(board, [], 2) == [2, 3, 4, 5, 6, 7, 8, 9];
  }

  /** Excluding one more position p also excludes the digit p holds. */
  lemma AllowedByStep(board: Grid, ps: seq<Pos>, p: Pos, n: int)
    ensures AllowedBy(board, ps + [p], n) <==> AllowedBy(board, ps, n) && (p in board ==> board[p] != n)
  {
    var ps' := ps + [p];
    if AllowedBy(board, ps, n) && (p in board ==> board[p] != n) {
      forall m | 0 <= m < |ps'| && ps'[m] in board
        ensures board[ps'[m]] != n
      {
        if m < |ps| {
          assert ps'[m] == ps[m];
        }
      }
    }
    if AllowedBy(board, ps', n) {
      assert ps'[|ps|] == p;
      forall m | 0 <= m < |ps| && ps[m] in board
        ensures board[ps[m]] != n
      {
        assert ps'[m] == ps[m];
      }
    }
  }

  /**
   * Excluding one more position p drops the digit p holds, by Python's
   * list.remove, when it is still free; otherwise nothing changes.
   */
  lemma {:induction false} FreeStep(board: Grid, ps: seq<Pos>, p: Pos, lo: int)
    ensures Free(board, ps + [p], lo) ==
      if p in board && board[p] in Free(board, ps, lo) then Remove(Free(board, ps, lo), board[p])
      else Free(board, ps, lo)
    decreases 10 - lo
  {
    if lo <= 9 {
      var ps' := ps + [p];
      FreeStep(board, ps, p, lo + 1);
      AllowedByStep(board, ps, p, lo);
      var F, F' := Free(board, ps, lo), Free(board, ps, lo + 1);
      assert Free(board, ps', lo) == (if AllowedBy(board, ps', lo) then [lo] else []) + Free(board, ps', lo + 1);
      FreeMember(board, ps, lo + 1, lo);
      if p in board {
        var v := board[p];
        FreeMember(board, ps, lo, v);
        FreeMember(board, ps, lo + 1, v);
        if AllowedBy(board, ps, lo) {
          assert F == [lo] + F';
          if v in F && v != lo {
            assert Remove(F, v) == [lo] + Remove(F', v);
          }
        } else {
          assert F == F';
        }
      } else {
        assert AllowedBy(board, ps', lo) == AllowedBy(board, ps, lo);
      }
    }
  }

  /** Excluding exactly the tiles connected to t leaves the candidates of t. */
  lemma {:induction false} FreeConnected(board: Grid, t: Pos, ps: seq<Pos>, lo: int)
    requires forall n :: AllowedBy(board, ps, n) <==> Allowed(board, t, n)
    ensures Free(board, ps, lo) == CandidatesFrom(board, t, lo)
    decreases 10 - lo
  {
    if lo <= 9 {
      FreeConnected(board, t, ps, lo + 1);
    }
  }

  /**
   * old/board.py:179-182 (and the same loop at 145-148): the digits 1 .. 9
   * in order, less every digit held by a tile connected to t.
   */
  method Numbers(board: Grid, tile: Pos) returns (numbers: seq<int>)
    requires Cells.InGrid(tile)
    ensures numbers == Candidates(board, tile)
  {
    numbers := [1, 2, 3, 4, 5, 6, 7, 8, 9];
    FreeNone(board);
    var connections := FindConnectedTiles(tile);
    for m := 0 to |connections|
      invariant numbers == Free(board, connections[..m], 1)
    {
      var connection := connections[m];
      assert connections[..m + 1] == connections[..m] + [connection];
      FreeStep(board, connections[..m], connection, 1);
      if connection in board && board[connection] in numbers {
        numbers := Remove(numbers, board[connection]);
      }
    }
    assert connections[..|connections|] == connections;
    ConnectedAllowed(board, tile, connections);
    FreeConnected(board, tile, connections, 1);
  }

  /** Listing exactly the tiles connected to t, ps excludes the digits connected tiles hold. */
  lemma ConnectedAllowed(board: Grid, t: Pos, ps: seq<Pos>)
    requires forall m :: 0 <= m < |ps| ==> IsPeer(ps[m], t)
    requires forall p :: IsPeer(p, t) ==> p in ps
    ensures forall n :: AllowedBy(board, ps, n) <==> Allowed(board, t, n)
  {
    forall n
      ensures AllowedBy(board, ps, n) <==> Allowed(board, t, n)
    {
      if AllowedBy(board, ps, n) {
        forall p | p in board && IsPeer(p, t)
          ensures board[p] != n
        {
          var m :| 0 <= m < |ps| && ps[m] == p;
        }
      }
    }
  }

  /**
   * The number of completions the search of old/board.py:159-193 counts
   * from place k, when no limit cuts it short: 1 for a board with 81
   * entries, 0 when no position at or after k is empty, and otherwise the
   * sum over the candidates of the first empty position.
   */
  ghost function Count(board: Grid, k: nat): nat
    requires k <= 81
    decreases EmptyCount(board), 1, 0
  {
    if |board| == 81 then 1
    else match FirstEmpty(board, k)
      case None => 0
      case Some(t) =>
        FirstEmptyFound(board, k);
        SumCounts(board, t, Candidates(board, CellPos(t)))
  }

  /** The counts below t filled with each of ns in turn, added up. */
  ghost function SumCounts(board: Grid, t: nat, ns: seq<int>): nat
    requires t < 81 && CellPos(t) !in board
    decreases EmptyCount(board), 0, |ns|
  {
    if ns == [] then 0
    else
      IndexCell(t);
      FillFewer(board, CellPos(t), ns[|ns| - 1]);
      SumCounts(board, t, ns[..|ns| - 1]) + Count(board[CellPos(t) := ns[|ns| - 1]], t)
  }

  /** A prefix of the candidates counts no more than all of them. */
  lemma {:induction false} SumPrefix(board: Grid, t: nat, ns: seq<int>, i: nat)
    requires t < 81 && CellPos(t) !in board && i <= |ns|
    ensures SumCounts(board, t, ns[..i]) <= SumCounts(board, t, ns)
    decreases |ns|
  {
    if i < |ns| {
      assert ns[..i] == ns[..|ns| - 1][..i];
      SumPrefix(board, t, ns[..|ns| - 1], i);
    } else {
      assert ns[..i] == ns;
    }
  }

  /** The counts of the first i + 1 candidates are those of the first i and the count for candidate i. */
  lemma SumNext(board: Grid, t: nat, ns: seq<int>, i: nat)
    requires t < 81 && CellPos(t) !in board && i < |ns|
    ensures SumCounts(board, t, ns[..i + 1]) == SumCounts(board, t, ns[..i]) + Count(board[CellPos(t) := ns[i]], t)
  {
    assert ns[..i + 1][..i] == ns[..i];
  }

  /** Below 81 entries, the count from k is the sum over the candidates of the first empty place. */
  lemma CountSum(board: Grid, k: nat, t: nat)
    requires k <= 81 && |board| != 81 && FirstEmpty(board, k) == Some(t)
    ensures t < 81 && CellPos(t) !in board
    ensures Count(board, k) == SumCounts(board, t, Candidates(board, CellPos(t)))
  {
    FirstEmptyFound(board, k);
  }

  /**
   * old/board.py:159-193, for a dictionary board: the number of completions
   * the search counts from start, exactly when it is at most limit; once
   * the running total passes limit the search stops and returns a total
   * above limit. The board itself is a value and is never changed.
   */
  method Backtrack(board: Grid, limit: int, start: Pos) returns (total: int)
    requires Cells.InGrid(start)
    ensures 0 <= total
    ensures Count(board, Index(start)) <= limit ==> total == Count(board, Index(start))
    ensures Count(board, Index(start)) > limit ==> total > limit
    ensures GridOnly(board) && FilledBefore(board, Index(start)) ==> Count(board, Index(start)) == |Completions(board)|
    decreases EmptyCount(board)
  {
    CellIndex(start);
    if |board| == 81 {
      CompletionsFrom(board, Index(start));
      return 1;
    }
    var tile := FindTile(board, start);
    if tile.None? {
      CompletionsFrom(board, Index(start));
      return 0;
    }
    var t := tile.value;
    ghost var k := Index(t);
    FirstEmptyFound(board, Index(start));
    IndexCell(k);
    var numbers := Numbers(board, t);
    if |numbers| < 1 {
      CountSum(board, Index(start), k);
      CompletionsFrom(board, Index(start));
      return 0;
    }
    total := 0;
    for i := 0 to |numbers|
      invariant total == SumCounts(board, k, numbers[..i])
      invariant i > 0 ==> total <= limit
    {
      var tempBoard := board[t := numbers[i]];
      FillFewer(board, t, numbers[i]);
      var sub := Backtrack(tempBoard, limit, t);
      SumStep(board, k, numbers, i, total, sub, limit);
      total := total + sub;
      if total > limit {
        break;
      }
    }
    assert numbers[..|numbers|] == numbers;
    CountSum(board, Index(start), k);
    CompletionsFrom(board, Index(start));
  }

  /**
   * One candidate of the search: adding the count the recursive call
   * returns either keeps the running total the sum so far, or passes
   * limit, and then so does the sum over all candidates.
   */
  lemma SumStep(board: Grid, k: nat, ns: seq<int>, i: nat, total: int, sub: int, limit: int)
    requires k < 81 && CellPos(k) !in board && i < |ns|
    requires total == SumCounts(board, k, ns[..i]) && 0 <= sub
    requires Count(board[CellPos(k) := ns[i]], k) <= limit ==> sub == Count(board[CellPos(k) := ns[i]], k)
    requires Count(board[CellPos(k) := ns[i]], k) > limit ==> sub > limit
    ensures total + sub <= limit ==> total + sub == SumCounts(board, k, ns[..i + 1])
    ensures total + sub > limit ==> SumCounts(board, k, ns) > limit
  {
    SumNext(board, k, ns, i);
    SumPrefix(board, k, ns, i + 1);
  }

  /** No tile connected to p in full holds the digit full has at p. */
  ghost predicate NoClash(full: Grid, p: Pos)
    requires p in full
  {
    forall q :: q in full && IsPeer(q, p) ==> full[q] != full[p]
  }

  /**
   * full is a completion of board: it fills every grid position and
   * nothing else, keeps every entry of board, and every digit it adds is
   * 1 .. 9 with no connected tile holding the same digit.
   */
  ghost predicate Completes(board: Grid, full: Grid) {
    GridOnly(full) && (forall p :: Cells.InGrid(p) ==> p in full) &&
    (forall p :: p in board ==> p in full && full[p] == board[p]) &&
    (forall p :: p in full && p !in board ==> 1 <= full[p] <= 9 && NoClash(full, p))
  }

  /** The board can be completed. */
  ghost predicate Completable(board: Grid) {
    exists full :: Completes(board, full)
  }

  lemma PeerSymmetric(p: Pos, q: Pos)
    requires Cells.InGrid(q) && IsPeer(p, q)
    ensures IsPeer(q, p)
  {
  }

  lemma {:induction false} CandidatesMember(board: Grid, t: Pos, lo: int, v: int)
    ensures v in CandidatesFrom(board, t, lo) <==> lo <= v <= 9 && Allowed(board, t, v)
    decreases 10 - lo
  {
    if lo <= 9 {
      CandidatesMember(board, t, lo + 1, v);
    }
  }

  lemma {:induction false} EmptyNone(n: nat)
    ensures EmptyCells(map[], n) == n
  {
    if n > 0 {
      EmptyNone(n - 1);
    }
  }

  /** With no empty place below n, every place below n is filled. */
  lemma {:induction false} EmptyZero(board: Grid, n: nat)
    requires EmptyCells(board, n) == 0
    ensures forall j :: 0 <= j < n ==> CellPos(j) in board
  {
    if n > 0 {
      EmptyZero(board, n - 1);
    }
  }

  /** Some empty place below n exists when the count says so. */
  lemma {:induction false} EmptySome(board: Grid, n: nat) returns (j: nat)
    requires EmptyCells(board, n) > 0
    ensures j < n && CellPos(j) !in board
  {
    if CellPos(n - 1) in board {
      j := EmptySome(board, n - 1);
    } else {
      j := n - 1;
    }
  }

  /** On the grid, entries and empty positions add up to 81. */
  lemma {:induction false} EntriesAndEmpty(board: Grid)
    requires GridOnly(board)
    ensures |board| + EmptyCount(board) == 81
    decreases |board|
  {
    if board == map[] {
      EmptyNone(81);
    } else {
      var p :| p in board;
      var rest := board - {p};
      assert rest.Keys == board.Keys - {p};
      assert |rest.Keys| == |board.Keys| - 1;
      EntriesAndEmpty(rest);
      FillFewer(rest, p, board[p]);
      assert rest[p := board[p]] == board;
    }
  }

  /** A board with no empty place fills every grid position. */
  lemma NoneEmpty(board: Grid)
    requires EmptyCount(board) == 0
    ensures forall p :: Cells.InGrid(p) ==> p in board
  {
    EmptyZero(board, 81);
    forall p | Cells.InGrid(p)
      ensures p in board
    {
      CellIndex(p);
    }
  }

  /** A board on the grid with 81 entries fills every position. */
  lemma FullBoard(board: Grid)
    requires GridOnly(board) && |board| == 81
    ensures forall p :: Cells.InGrid(p) ==> p in board
  {
    EntriesAndEmpty(board);
    NoneEmpty(board);
  }

  /** A positive sum of counts has a positive term. */
  lemma {:induction false} SumSound(board: Grid, t: nat, ns: seq<int>) returns (i: nat)
    requires t < 81 && CellPos(t) !in board && SumCounts(board, t, ns) > 0
    ensures i < |ns| && Count(board[CellPos(t) := ns[i]], t) > 0
    decreases |ns|
  {
    var last := |ns| - 1;
    if Count(board[CellPos(t) := ns[last]], t) > 0 {
      i := last;
    } else {
      i := SumSound(board, t, ns[..last]);
      assert ns[..last][i] == ns[i];
    }
  }

  /** Every term is at most the sum of counts. */
  lemma SumAtLeast(board: Grid, t: nat, ns: seq<int>, i: nat)
    requires t < 81 && CellPos(t) !in board && i < |ns|
    ensures Count(board[CellPos(t) := ns[i]], t) <= SumCounts(board, t, ns)
  {
    SumNext(board, t, ns, i);
    SumPrefix(board, t, ns, i + 1);
  }

  /** Filling P with an allowed digit keeps a completion of the filled board a completion of board. */
  lemma Extend(board: Grid, P: Pos, n: int, full: Grid)
    requires Cells.InGrid(P) && P !in board && 1 <= n <= 9 && Allowed(board, P, n)
    requires Completes(board[P := n], full)
    ensures Completes(board, full)
  {
    var next := board[P := n];
    forall p | p in full && p !in board
      ensures 1 <= full[p] <= 9 && NoClash(full, p)
    {
      if p == P {
        forall q | q in full && IsPeer(q, P)
          ensures full[q] != full[P]
        {
          if q !in board {
            PeerSymmetric(q, P);
          }
        }
      }
    }
  }

  /**
   * Soundness of the search: when it counts a completion of a board on
   * the grid, the board has one.
   */
  lemma {:induction false} CountSound(board: Grid, k: nat)
    requires k <= 81 && GridOnly(board) && Count(board, k) > 0
    ensures Completable(board)
    decreases EmptyCount(board)
  {
    if |board| == 81 {
      FullBoard(board);
      assert Completes(board, board);
    } else {
      FirstEmptyFound(board, k);
      var t := FirstEmpty(board, k).value;
      var P := CellPos(t);
      IndexCell(t);
      var ns := Candidates(board, P);
      CountSum(board, k, t);
      var i := SumSound(board, t, ns);
      var n := ns[i];
      FillFewer(board, P, n);
      CountSound(board[P := n], t);
      var full :| Completes(board[P := n], full);
      CandidatesMember(board, P, 1, n);
      Extend(board, P, n, full);
    }
  }

  /**
   * Completeness of the search: a search from place k, with every place
   * before k filled, counts at least one completion of a completable board
   * on the grid.
   */
  lemma {:induction false} CountComplete(board: Grid, k: nat, full: Grid)
    requires k <= 81 && GridOnly(board) && (forall j :: 0 <= j < k ==> CellPos(j) in board)
    requires Completes(board, full)
    ensures Count(board, k) > 0
    decreases EmptyCount(board)
  {
    if |board| != 81 {
      EntriesAndEmpty(board);
      var e := EmptySome(board, 81);
      FirstEmptyFirst(board, k);
      FirstEmptyFound(board, k);
      var t := FirstEmpty(board, k).value;
      var P := CellPos(t);
      IndexCell(t);
      var n := full[P];
      forall q | q in board && IsPeer(q, P)
        ensures board[q] != n
      {
      }
      CandidatesMember(board, P, 1, n);
      var ns := Candidates(board, P);
      var i :| 0 <= i < |ns| && ns[i] == n;
      var next := board[P := n];
      FillFewer(board, P, n);
      forall j | 0 <= j < t
        ensures CellPos(j) in next
      {
      }
      CountComplete(next, t, full);
      SumAtLeast(board, t, ns, i);
      CountSum(board, k, t);
    }
  }

  /** From the top of the board, the search counts a completion exactly when there is one. */
  lemma CountIffCompletable(board: Grid)
    requires GridOnly(board)
    ensures Count(board, 0) > 0 <==> Completable(board)
  {
    if Count(board, 0) > 0 {
      CountSound(board, 0);
    }
    if Completable(board) {
      var full :| Completes(board, full);
      CountComplete(board, 0, full);
    }
  }

  /** Every place before k is filled: how every call of the search below the top finds the board. */
  ghost predicate FilledBefore(board: Grid, k: nat) {
    forall j :: 0 <= j < k ==> CellPos(j) in board
  }

  /**
   * The completions the search of old/board.py:159-193 visits from place k:
   * the board itself once it has 81 entries, none when no place at or after k
   * is empty, and otherwise, for each candidate of the first empty place,
   * those of the board with that candidate placed.
   */
  ghost function Sols(board: Grid, k: nat): set<Grid>
    requires k <= 81
    decreases EmptyCount(board), 1, 0
  {
    if |board| == 81 then {board}
    else match FirstEmpty(board, k)
      case None => {}
      case Some(t) =>
        FirstEmptyFound(board, k);
        SolsFor(board, t, Candidates(board, CellPos(t)))
  }

  /** The completions visited below t filled with each of ns in turn, gathered together. */
  ghost function SolsFor(board: Grid, t: nat, ns: seq<int>): set<Grid>
    requires t < 81 && CellPos(t) !in board
    decreases EmptyCount(board), 0, |ns|
  {
    if ns == [] then {}
    else
      IndexCell(t);
      FillFewer(board, CellPos(t), ns[|ns| - 1]);
      SolsFor(board, t, ns[..|ns| - 1]) + Sols(board[CellPos(t) := ns[|ns| - 1]], t)
  }

  /** The completions of a board, as the search from the top visits them. */
  ghost function Completions(board: Grid): set<Grid> {
    Sols(board, 0)
  }

  /** Every candidate of t is a digit 1 .. 9 that no tile connected to t holds. */
  lemma CandidatesAllowed(board: Grid, t: Pos)
    ensures forall i :: 0 <= i < |Candidates(board, t)| ==>
              1 <= Candidates(board, t)[i] <= 9 && Allowed(board, t, Candidates(board, t)[i])
  {
    var ns := Candidates(board, t);
    forall i | 0 <= i < |ns|
      ensures 1 <= ns[i] <= 9 && Allowed(board, t, ns[i])
    {
      CandidatesMember(board, t, 1, ns[i]);
    }
  }

  /** The candidates from lo are strictly increasing, so no two are equal. */
  lemma {:induction false} CandidatesRising(board: Grid, t: Pos, lo: int)
    ensures forall i, j :: 0 <= i < j < |CandidatesFrom(board, t, lo)| ==>
              CandidatesFrom(board, t, lo)[i] < CandidatesFrom(board, t, lo)[j]
    decreases 10 - lo
  {
    if lo <= 9 {
      CandidatesRising(board, t, lo + 1);
      var ns, rest := CandidatesFrom(board, t, lo), CandidatesFrom(board, t, lo + 1);
      if Allowed(board, t, lo) {
        assert ns == [lo] + rest;
        forall i, j | 0 <= i < j < |ns|
          ensures ns[i] < ns[j]
        {
          assert ns[j] == rest[j - 1];
          CandidatesMember(board, t, lo + 1, rest[j - 1]);
          if i > 0 {
            assert ns[i] == rest[i - 1];
          }
        }
      } else {
        assert ns == rest;
      }
    }
  }

  /** A completion of a board with an empty place P is one of the board with P filled as the completion fills it. */
  lemma Restrict(board: Grid, P: Pos, full: Grid)
    requires Cells.InGrid(P) && P !in board && Completes(board, full)
    ensures P in full && Completes(board[P := full[P]], full)
  {
  }

  /** A completion of a board with an empty place P holds a candidate of P there. */
  lemma CompletionCandidate(board: Grid, P: Pos, full: Grid)
    requires Cells.InGrid(P) && P !in board && Completes(board, full)
    ensures P in full && full[P] in Candidates(board, P)
  {
    forall q | q in board && IsPeer(q, P)
      ensures board[q] != full[P]
    {
    }
    CandidatesMember(board, P, 1, full[P]);
  }

  /**
   * On the grid, with every place before k filled and fewer than 81
   * entries, the search from k finds an empty place t, and every place
   * before t is filled.
   */
  lemma FirstEmptySome(board: Grid, k: nat) returns (t: nat)
    requires k <= 81 && GridOnly(board) && FilledBefore(board, k) && |board| != 81
    ensures FirstEmpty(board, k) == Some(t)
    ensures t < 81 && Cells.InGrid(CellPos(t)) && CellPos(t) !in board && FilledBefore(board, t)
  {
    EntriesAndEmpty(board);
    var e := EmptySome(board, 81);
    FirstEmptyFirst(board, k);
    FirstEmptyFound(board, k);
    t := FirstEmpty(board, k).value;
    IndexCell(t);
  }

  /** A board on the grid with 81 entries is its own and only completion. */
  lemma FullSelf(board: Grid)
    requires GridOnly(board) && |board| == 81
    ensures Completes(board, board)
    ensures forall full :: Completes(board, full) ==> full == board
  {
    FullBoard(board);
    forall full | Completes(board, full)
      ensures full == board
    {
      assert full.Keys == board.Keys;
    }
  }

  /**
   * With every place before k filled, the completions the search visits
   * from k are exactly the completions of the board, and the search counts
   * each of them once: there are Count(board, k) of them.
   */
  lemma {:induction false} SolsExact(board: Grid, k: nat)
    requires k <= 81 && GridOnly(board) && FilledBefore(board, k)
    ensures forall full :: full in Sols(board, k) <==> Completes(board, full)
    ensures |Sols(board, k)| == Count(board, k)
    decreases EmptyCount(board), 1, 0
  {
    if |board| == 81 {
      FullSelf(board);
    } else {
      var t := FirstEmptySome(board, k);
      var P := CellPos(t);
      var ns := Candidates(board, P);
      assert Sols(board, k) == SolsFor(board, t, ns);
      CountSum(board, k, t);
      CandidatesAllowed(board, P);
      CandidatesRising(board, P, 1);
      SolsForExact(board, t, ns);
      forall full | Completes(board, full)
        ensures full in Sols(board, k)
      {
        CompletionCandidate(board, P, full);
      }
    }
  }

  /**
   * The completions visited for distinct allowed candidates ns of the first
   * empty place t are exactly the completions holding one of ns at t; the
   * candidates' completions never overlap, so they number SumCounts.
   */
  lemma {:induction false} SolsForExact(board: Grid, t: nat, ns: seq<int>)
    requires t < 81 && CellPos(t) !in board && GridOnly(board) && FilledBefore(board, t)
    requires forall i :: 0 <= i < |ns| ==> 1 <= ns[i] <= 9 && Allowed(board, CellPos(t), ns[i])
    requires forall i, j :: 0 <= i < j < |ns| ==> ns[i] < ns[j]
    ensures forall full :: full in SolsFor(board, t, ns) <==>
              Completes(board, full) && CellPos(t) in full && full[CellPos(t)] in ns
    ensures |SolsFor(board, t, ns)| == SumCounts(board, t, ns)
    decreases EmptyCount(board), 0, |ns|
  {
    if ns != [] {
      var P := CellPos(t);
      IndexCell(t);
      var last, init := ns[|ns| - 1], ns[..|ns| - 1];
      assert ns == init + [last];
      var next := board[P := last];
      FillFewer(board, P, last);
      SolsForExact(board, t, init);
      SolsExact(next, t);
      forall full
        ensures full in Sols(next, t) <==> Completes(board, full) && P in full && full[P] == last
      {
        if full in Sols(next, t) {
          Extend(board, P, last, full);
        }
        if Completes(board, full) && P in full && full[P] == last {
          Restrict(board, P, full);
        }
      }
      assert SolsFor(board, t, init) !! Sols(next, t);
    }
  }

  /** The completions the search visits from the top are exactly the completions of a board on the grid. */
  lemma CompletionsExact(board: Grid)
    requires GridOnly(board)
    ensures forall full :: full in Completions(board) <==> Completes(board, full)
  {
    SolsExact(board, 0);
  }

  /**
   * With every place before k filled, the search from k counts each
   * completion of the board once, as the search from the top does.
   */
  lemma CompletionsFrom(board: Grid, k: nat)
    requires k <= 81
    ensures GridOnly(board) && FilledBefore(board, k) ==> |Completions(board)| == Count(board, k)
  {
    if GridOnly(board) && FilledBefore(board, k) {
      SolsExact(board, k);
      SolsExact(board, 0);
      assert Sols(board, k) == Completions(board);
    }
  }

  /** A set has one member exactly when some member is its only one. */
  lemma Singleton(S: set<Grid>)
    ensures |S| == 1 <==> exists x :: x in S && forall y :: y in S ==> y == x
  {
    if |S| == 1 {
      var x :| x in S;
      assert |S - {x}| == 0;
      assert forall y :: y in S ==> y == x by {
        forall y | y in S
          ensures y == x
        {
          assert y !in S - {x};
        }
      }
    }
    if exists x :: x in S && forall y :: y in S ==> y == x {
      var x :| x in S && forall y :: y in S ==> y == x;
      assert S == {x};
    }
  }

  /**
   * old/board.py:121 and 133: the search counts exactly one completion
   * when the board has one and only one completion.
   */
  lemma CountOne(board: Grid)
    requires GridOnly(board)
    ensures Count(board, 0) == 1 <==>
              exists full :: Completes(board, full) && forall other :: Completes(board, other) ==> other == full
  {
    CompletionsFrom(board, 0);
    CompletionsExact(board);
    Singleton(Completions(board));
  }

  /** Place j in the column-by-column order of old/board.py:141. */
  function ColumnPos(j: nat): Pos {
    (j / 9, j % 9)
  }

  lemma ColumnIndex(p: Pos)
    requires Cells.InGrid(p)
    ensures ColumnPos(9 * p.0 + p.1) == p
  {
  }

  lemma ColumnInGrid(j: nat)
    requires j < 81
    ensures Cells.InGrid(ColumnPos(j)) && 9 * ColumnPos(j).0 + ColumnPos(j).1 == j
  {
  }

  /** The grid positions before place j, column by column, that the board leaves empty. */
  function Unfilled(board: Grid, j: nat): seq<Pos> {
    if j == 0 then []
    else Unfilled(board, j - 1) + (if ColumnPos(j - 1) !in board then [ColumnPos(j - 1)] else [])
  }

  /** Every empty grid position is pending exactly once, and nothing else is. */
  ghost predicate Pending(board: Grid, ts: seq<Pos>) {
    forall p :: multiset(ts)[p] == if Cells.InGrid(p) && p !in board then 1 else 0
  }

  lemma {:induction false} UnfilledCount(board: Grid, j: nat, p: Pos)
    requires j <= 81
    ensures multiset(Unfilled(board, j))[p] ==
      if Cells.InGrid(p) && p !in board && 9 * p.0 + p.1 < j then 1 else 0
  {
    if j > 0 {
      UnfilledCount(board, j - 1, p);
      ColumnInGrid(j - 1);
      if Cells.InGrid(p) {
        ColumnIndex(p);
      }
    }
  }

  lemma UnfilledPending(board: Grid)
    ensures Pending(board, Unfilled(board, 81))
  {
    forall p
      ensures multiset(Unfilled(board, 81))[p] == if Cells.InGrid(p) && p !in board then 1 else 0
    {
      UnfilledCount(board, 81, p);
    }
  }

  /** Nothing pending: the board fills the grid. */
  lemma PendingNone(board: Grid, ts: seq<Pos>)
    requires Pending(board, ts) && |ts| == 0
    ensures forall p :: Cells.InGrid(p) ==> p in board
  {
    forall p | Cells.InGrid(p)
      ensures p in board
    {
      assert multiset(ts)[p] == 0;
    }
  }

  /** Filling the first pending position leaves the rest pending. */
  lemma PendingPop(board: Grid, ts: seq<Pos>, n: int)
    requires Pending(board, ts) && |ts| > 0
    ensures Cells.InGrid(ts[0]) && ts[0] !in board
    ensures Pending(board[ts[0] := n], ts[1..])
  {
    assert ts == [ts[0]] + ts[1..];
    assert multiset(ts) == multiset{ts[0]} + multiset(ts[1..]);
  }

  /**
   * board keeps every entry of board0, and every entry it adds is on the
   * grid, a digit 1 .. 9, and held by no connected tile.
   */
  ghost predicate Extends(board0: Grid, board: Grid) {
    (forall p :: p in board0 ==> p in board && board[p] == board0[p]) &&
    (forall p :: p in board && p !in board0 ==> Cells.InGrid(p) && 1 <= board[p] <= 9 && NoClash(board, p))
  }

  /** Placing an allowed digit keeps the extension proper. */
  lemma ExtendsStep(board0: Grid, board: Grid, P: Pos, n: int)
    requires Extends(board0, board) && Cells.InGrid(P) && P !in board
    requires 1 <= n <= 9 && Allowed(board, P, n)
    ensures Extends(board0, board[P := n])
  {
    var next := board[P := n];
    forall p | p in next && p !in board0
      ensures Cells.InGrid(p) && 1 <= next[p] <= 9 && NoClash(next, p)
    {
      forall q | q in next && IsPeer(q, p)
        ensures next[q] != next[p]
      {
        if q == P {
          PeerSymmetric(q, p);
        }
      }
    }
  }

  /** A proper extension of a board on the grid that fills the grid completes it. */
  lemma FilledCompletes(board0: Grid, board: Grid)
    requires GridOnly(board0) && Extends(board0, board)
    requires forall p :: Cells.InGrid(p) ==> p in board
    ensures Completes(board0, board)
  {
  }

  /** A completion of a board stays one after placing the digit it holds. */
  lemma CompletesStep(board: Grid, full: Grid, P: Pos)
    requires Completes(board, full) && Cells.InGrid(P) && P !in board
    ensures Completes(board[P := full[P]], full)
  {
  }

  /** A completable board offers, among the candidates at an empty position, one the search accepts. */
  lemma CandidateKnown(board: Grid, tile: Pos) returns (n: int)
    requires GridOnly(board) && Completable(board) && Cells.InGrid(tile) && tile !in board
    ensures n in Candidates(board, tile) && Count(board[tile := n], 0) > 0
  {
    var full :| Completes(board, full);
    CompletesStep(board, full, tile);
    n := full[tile];
    CountComplete(board[tile := n], 0, full);
    CandidatesMember(board, tile, 1, n);
  }

  /** Accepting candidate n at the first pending position keeps every invariant of the generator. */
  lemma Accept(board0: Grid, board: Grid, ts: seq<Pos>, n: int)
    requires Pending(board, ts) && |ts| > 0 && Extends(board0, board)
    requires n in Candidates(board, ts[0]) && Count(board[ts[0] := n], 0) > 0
    ensures Pending(board[ts[0] := n], ts[1..]) && Extends(board0, board[ts[0] := n])
    ensures EmptyCount(board[ts[0] := n]) == EmptyCount(board) - 1
    ensures GridOnly(board0) ==> Completable(board[ts[0] := n])
  {
    PendingPop(board, ts, n);
    CandidatesMember(board, ts[0], 1, n);
    ExtendsStep(board0, board, ts[0], n);
    FillFewer(board, ts[0], n);
    if GridOnly(board0) {
      CountSound(board[ts[0] := n], 0);
    }
  }

  /**
   * old/board.py:140-156: while grid positions are left empty, shuffle
   * them, take the first, and place there the first candidate digit after
   * which the search still counts a completion. The shuffle of each round
   * is a parameter, and the loop runs at most fuel rounds.
   */
  method GenerateSolution(board0: Grid, shuffle: (seq<Pos>, nat) -> seq<Pos>, fuel: nat) returns (board: Grid)
    requires forall ts, n :: multiset(shuffle(ts, n)) == multiset(ts)
    ensures Extends(board0, board)
    ensures GridOnly(board0) && board != board0 ==> Completable(board)
    ensures GridOnly(board0) && Completable(board0) ==> Completable(board)
    ensures GridOnly(board0) && Completable(board0) && EmptyCount(board0) <= fuel ==> Completes(board0, board)
  {
    board := board0;
    var validTiles := Unfilled(board, 81);
    UnfilledPending(board);
    var round := 0;
    while |validTiles| > 0 && round < fuel
      invariant round <= fuel
      invariant Pending(board, validTiles) && Extends(board0, board)
      invariant GridOnly(board0) && board != board0 ==> Completable(board)
      invariant GridOnly(board0) && Completable(board0) ==>
        Completable(board) && EmptyCount(board) + round == EmptyCount(board0)
      decreases fuel - round
    {
      validTiles := shuffle(validTiles, round);
      PendingPop(board, validTiles, 0);
      var tile := validTiles[0];
      var numbers := Numbers(board, tile);
      ghost var known, accepts := -1, board;
      if GridOnly(board0) && Completable(board) {
        var n := CandidateKnown(board, tile);
        known :| 0 <= known < |numbers| && numbers[known] == n;
        accepts := board[tile := n];
      }
      ghost var current, pending := board, validTiles;
      for i := 0 to |numbers|
        invariant board == current && validTiles == pending
        invariant known >= 0 ==> i <= known < |numbers| && accepts == board[tile := numbers[known]]
      {
        var tempBoard := board[tile := numbers[i]];
        var solutions := Backtrack(tempBoard, 0, (0, 0));
        if solutions > 0 {
          Accept(board0, board, validTiles, numbers[i]);
          board := tempBoard;
          validTiles := validTiles[1..];
          break;
        }
        if i == known {
          assert false;
        }
      }
      round := round + 1;
    }
    if GridOnly(board0) && Completable(board0) && EmptyCount(board0) <= fuel {
      if |validTiles| == 0 {
        PendingNone(board, validTiles);
      } else {
        NoneEmpty(board);
      }
      FilledCompletes(board0, board);
    }
  }

  /** The digit of a solved grid at column c, row r: (c + 3 * (r % 3) + r / 3) % 9 + 1. */
  function PatternAt(p: Pos): int {
    (p.0 + 3 * (p.1 % 3) + p.1 / 3) % 9 + 1
  }

  /** The solved grid at the first k places. */
  function Pattern(k: nat): Grid {
    if k == 0 then map[] else Pattern(k - 1)[CellPos(k - 1) := PatternAt(CellPos(k - 1))]
  }

  lemma {:induction false} PatternKeys(k: nat, p: Pos)
    requires k <= 81
    ensures p in Pattern(k) <==> Cells.InGrid(p) && Index(p) < k
    ensures p in Pattern(k) ==> Pattern(k)[p] == PatternAt(p)
  {
    if k > 0 {
      PatternKeys(k - 1, p);
      IndexCell(k - 1);
      if Cells.InGrid(p) {
        CellIndex(p);
      }
    }
  }

  lemma Mod9(x: int)
    requires 0 <= x < 18
    ensures x % 9 == if x < 9 then x else x - 9
  {
  }

  /** The column offsets 3 * (r % 3) + r / 3 are distinct digits 0 .. 8. */
  lemma RowOffset(r: int, s: int)
    requires 0 <= r < 9 && 0 <= s < 9
    ensures 0 <= 3 * (r % 3) + r / 3 < 9
    ensures r != s ==> 3 * (r % 3) + r / 3 != 3 * (s % 3) + s / 3
  {
  }

  lemma PatternClash(p: Pos, q: Pos)
    requires Cells.InGrid(p) && Cells.InGrid(q) && IsPeer(q, p)
    ensures PatternAt(q) != PatternAt(p)
  {
    RowOffset(p.1, q.1);
    var u := 3 * (p.1 % 3) + p.1 / 3;
    var v := 3 * (q.1 % 3) + q.1 / 3;
    Mod9(p.0 + u);
    Mod9(q.0 + v);
    if p.0 != q.0 && p.1 != q.1 {
      assert p.0 / 3 == q.0 / 3 && p.1 / 3 == q.1 / 3;
      assert p.1 % 3 != q.1 % 3;
    }
  }

  /** The empty board can be completed. */
  lemma EmptyCompletable()
    ensures Completable(map[])
  {
    var full := Pattern(81);
    forall p
      ensures p in full <==> Cells.InGrid(p)
      ensures p in full ==> full[p] == PatternAt(p)
    {
      PatternKeys(81, p);
    }
    forall p | p in full
      ensures 1 <= full[p] <= 9 && NoClash(full, p)
    {
      forall q | q in full && IsPeer(q, p)
        ensures full[q] != full[p]
      {
        PatternClash(p, q);
      }
    }
    assert Completes(map[], full);
  }

  /** The entries of board that set_number and lock accept: digits 1 .. 9 on the grid. */
  function Digits(board: Grid): Grid {
    map p | p in board && Cells.InGrid(p) && 1 <= board[p] <= 9 :: board[p]
  }

  /** The tile's state after fromDict(board, locked) reaches it. */
  predicate Loaded(board: Grid, locked: bool, t: Tile)
    reads t
  {
    t.number == (if t.pos in board && 1 <= board[t.pos] <= 9 then Some(board[t.pos]) else None) &&
    t.locked == (locked && t.pos in board)
  }

  /** old/board.py:42, one row: the fresh, empty, unlocked tiles of row y, column by column. */
  method NewRow(y: int) returns (row: seq<Tile>)
    requires 0 <= y < 9
    ensures |row| == 9
    ensures forall c :: 0 <= c < 9 ==>
      fresh(row[c]) && row[c].pos == (c, y) && !row[c].locked && row[c].number == None
  {
    row := [];
    for x := 0 to 9
      invariant |row| == x
      invariant forall c :: 0 <= c < x ==>
        fresh(row[c]) && row[c].pos == (c, y) && !row[c].locked && row[c].number == None
    {
      var tile := new Tile((x, y));
      row := row + [tile];
    }
  }

  /** The empty board is on the grid, completable, and leaves all 81 places empty. */
  lemma EmptyStart(board: Grid)
    requires board == map[]
    ensures GridOnly(board) && Completable(board) && EmptyCount(board) == 81
  {
    EmptyNone(81);
    EmptyCompletable();
  }

  /**
   * old/board.py:140 with its default argument: from the empty board the
   * generator fills a solved grid whenever it is given 81 rounds or more.
   */
  method GenerateFromEmpty(shuffle: (seq<Pos>, nat) -> seq<Pos>, fuel: nat) returns (board: Grid)
    requires forall ts, n :: multiset(shuffle(ts, n)) == multiset(ts)
    ensures Extends(map[], board)
    ensures 81 <= fuel ==> Completes(map[], board)
  {
    var empty: Grid := map[];
    EmptyStart(empty);
    board := GenerateSolution(empty, shuffle, fuel);
  }

  /** old/board.py:42: nine rows of fresh, empty, unlocked tiles; tile c of row r stands at (c, r). */
  method NewTiles() returns (rows: seq<seq<Tile>>)
    ensures |rows| == 9 && forall r :: 0 <= r < 9 ==> |rows[r]| == 9
    ensures forall r, c :: 0 <= r < 9 && 0 <= c < 9 ==>
      fresh(rows[r][c]) && rows[r][c].pos == (c, r) && !rows[r][c].locked && rows[r][c].number == None
  {
    rows := [];
    for y := 0 to 9
      invariant |rows| == y
      invariant forall r :: 0 <= r < y ==> |rows[r]| == 9
      invariant forall r, c :: 0 <= r < y && 0 <= c < 9 ==>
        fresh(rows[r][c]) && rows[r][c].pos == (c, r) && !rows[r][c].locked && rows[r][c].number == None
    {
      var row := NewRow(y);
      rows := rows + [row];
    }
  }

  /** old/board.py:6-193 without drawing: the tiles of a board and the solution it generates. */
  class Board {
    /** old/board.py:42: tiles[r][c] is the tile at column c, row r. */
    const tiles: seq<seq<Tile>>
    /** old/board.py:35,38-39 */
    const startSize: int
    /** old/board.py:48 */
    var solution: Grid

    /** The tile objects of the board. */
    function Tiles(): set<Tile> {
      set r, c | 0 <= r < |tiles| && 0 <= c < |tiles[r]| :: tiles[r][c]
    }

    /** Nine rows of nine tiles, each at its own position. */
    predicate Shaped() {
      |tiles| == 9 && (forall r :: 0 <= r < 9 ==> |tiles[r]| == 9) &&
      forall r, c :: 0 <= r < 9 && 0 <= c < 9 ==> tiles[r][c].pos == (c, r)
    }

    /** Every tile holds a digit 1 .. 9 or nothing. */
    predicate Valid()
      reads Tiles()
    {
      Shaped() &&
      forall r, c :: 0 <= r < 9 && 0 <= c < 9 ==>
        tiles[r][c].number.Some? ==> 1 <= tiles[r][c].number.value <= 9
    }

    /**
     * old/board.py:31-51 without drawing and without generate_start: nine
     * rows of fresh, empty, unlocked tiles, the start size (34, the "hard"
     * difficulty, when none is given), and a solution generated from the
     * empty board, which is a solved grid whenever the rounds suffice.
     */
    constructor (startSize: Option<int>, shuffle: (seq<Pos>, nat) -> seq<Pos>, fuel: nat)
      requires forall ts, n :: multiset(shuffle(ts, n)) == multiset(ts)
      ensures Valid() && fresh(Tiles())
      ensures forall r, c :: 0 <= r < 9 && 0 <= c < 9 ==> !tiles[r][c].locked && tiles[r][c].number == None
      ensures this.startSize == if startSize == None || startSize == Some(0) then 34 else startSize.value
      ensures Extends(map[], solution)
      ensures 81 <= fuel ==> Completes(map[], solution)
    {
      var generated := GenerateFromEmpty(shuffle, fuel);
      var rows := NewTiles();
      tiles := rows;
      this.startSize := if startSize == None || startSize == Some(0) then 34 else startSize.value;
      solution := generated;
    }

    /**
     * old/board.py:53-54: the numbered tiles as a dictionary from
     * (column, row) to their digit; it holds only digits, so loading it
     * with fromDict gives back the same numbers.
     */
    function ToDict(): (d: Grid)
      requires Valid()
      reads Tiles()
      ensures GridOnly(d) && Digits(d) == d
      ensures forall c, r :: 0 <= c < 9 && 0 <= r < 9 ==>
        ((c, r) in d <==> tiles[r][c].number.Some?) &&
        ((c, r) in d ==> d[(c, r)] == tiles[r][c].number.value)
    {
      map c, r | 0 <= c < 9 && 0 <= r < 9 && tiles[r][c].number.Some? :: (c, r) := tiles[r][c].number.value
    }

    /**
     * old/board.py:56-65: every tile is cleared and unlocked, then takes
     * the board's digit at its position, locked when locked is asked for;
     * keys off the grid and values outside 1 .. 9 are ignored.
     */
    method FromDict(board: Grid, locked: bool)
      requires Valid()
      modifies Tiles()
      ensures Valid()
      ensures forall r, c :: 0 <= r < 9 && 0 <= c < 9 ==> Loaded(board, locked, tiles[r][c])
      ensures ToDict() == Digits(board)
    {
      for r := 0 to 9
        invariant forall r', c' :: 0 <= r' < r && 0 <= c' < 9 ==> Loaded(board, locked, tiles[r'][c'])
      {
        for c := 0 to 9
          invariant forall r', c' :: 0 <= r' < r && 0 <= c' < 9 ==> Loaded(board, locked, tiles[r'][c'])
          invariant forall c' :: 0 <= c' < c ==> Loaded(board, locked, tiles[r][c'])
        {
          tiles[r][c].ClearNumber(true);
          var key := (c, r);
          if key in board {
            if locked {
              tiles[key.1][key.0].Lock(board[key]);
            } else {
              tiles[key.1][key.0].SetNumber(board[key]);
            }
          }
        }
      }
      LoadedDict(board, locked);
    }

    /** Once every tile is loaded from board, the dictionary of the tiles is the digits of board. */
    lemma LoadedDict(board: Grid, locked: bool)
      requires Shaped() && forall r, c :: 0 <= r < 9 && 0 <= c < 9 ==> Loaded(board, locked, tiles[r][c])
      ensures Valid() && ToDict() == Digits(board)
    {
      var d := ToDict();
      forall p
        ensures p in d <==> p in Digits(board)
        ensures p in d ==> d[p] == Digits(board)[p]
      {
        if Cells.InGrid(p) {
          assert tiles[p.1][p.0].pos == p;
        }
      }
    }
  }
}
