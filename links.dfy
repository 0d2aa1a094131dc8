/**
 * The shape of the dancing-links table of solver.py as values: which node
 * sits in which column and row, the order of the nodes of every column, and
 * the invariant the table keeps between calls of `cover`, `uncover` and
 * `solve`.
 *
 * Nodes 0..323 are the column headers; from 324 on, every four consecutive
 * nodes form one row of the table, one candidate placement of a digit.
 */
module Links {
  import opened Wrappers
  import opened Constraints
  import opened Splice

  const Headers: int := ColumnCount

  /**
   * The position of node x in its row of four (solver.py:34-37): rows start
   * at 324 and every four nodes; this counts back in steps of four.
   */
  function Off(x: int): (r: int)
    ensures x >= Headers ==> 0 <= r < 4
    decreases x
  {
    if x < Headers + 4 then x - Headers else Off(x - 4)
  }

  /** The nodes of x's row are at positions 0..3 from its first node. */
  lemma {:induction false} OffBase(x: int, r: int)
    requires x >= Headers && 0 <= r < 4
    ensures Off(Base(x) + r) == r && Base(x) >= Headers
    decreases x
  {
    if x >= Headers + 4 {
      OffBase(x - 4, r);
      assert Base(x) == Base(x - 4) + 4;
      assert Off(Base(x) + r) == Off(Base(x - 4) + r);
    }
  }

  /** When u starts a row, the row of any node before u ends no later than u. */
  lemma RowEnd(x: int, u: int)
    requires Headers <= x < u && Off(u) == 0
    ensures Base(x) + 4 <= u
  {
    if Base(x) + 4 > u {
      OffBase(x, u - Base(x));
    }
  }

  /** The first node of x's row. */
  function Base(x: int): int {
    x - Off(x)
  }

  /** solver.py:35,37: the right neighbour; the last node of a row points back to its first. */
  function RightOf(x: int): int {
    if x >= Headers && Off(x) == 3 then x - 3 else x + 1
  }

  /** solver.py:34,36: the left neighbour; the first node of a row points to its last. */
  function LeftOf(x: int): int {
    if x >= Headers && Off(x) == 0 then x + 3 else x - 1
  }

  /** The node t places to the right of x in x's row. */
  function Mate(x: int, t: int): int {
    Base(x) + Rot(x, t)
  }

  /** The position in the row of the node t places to the right of x. */
  function Rot(x: int, t: int): int {
    if Off(x) + t < 4 then Off(x) + t else Off(x) + t - 4
  }

  /** The other three nodes of x's row, in the order a walk to the right meets them. */
  function Mates(x: int): seq<int> {
    [Mate(x, 1), Mate(x, 2), Mate(x, 3)]
  }

  lemma MateFacts(x: int, t: int)
    requires x >= Headers && 0 <= t < 4
    ensures 0 <= Rot(x, t) < 4 && (t == 0 <==> Rot(x, t) == Off(x))
    ensures Base(Mate(x, t)) == Base(x) && Off(Mate(x, t)) == Rot(x, t)
    ensures Base(x) <= Mate(x, t) < Base(x) + 4
    ensures t != 0 ==> Mate(x, t) != x
  {
    OffBase(x, Rot(x, t));
  }

  /** The three mates of a row node are distinct. */
  lemma MatesDistinct(x: int)
    requires x >= Headers
    ensures Mate(x, 1) != Mate(x, 2) && Mate(x, 1) != Mate(x, 3) && Mate(x, 2) != Mate(x, 3)
  {
  }

  lemma MatesAt(x: int, t: int)
    requires 1 <= t < 4
    ensures Mates(x)[t - 1] == Mate(x, t)
  {
  }

  /** The place among x's mates of a node listed in Mates(x). */
  lemma MatesIndex(x: int, y: int) returns (t: int)
    requires y in Mates(x)
    ensures 1 <= t < 4 && y == Mate(x, t)
  {
    if y == Mate(x, 1) {
      t := 1;
    } else if y == Mate(x, 2) {
      t := 2;
    } else {
      t := 3;
    }
  }

  /** Walking right from x meets its three mates and comes back to x; walking left meets them in reverse. */
  lemma Walks(x: int)
    requires x >= Headers
    ensures RightOf(x) == Mate(x, 1) && RightOf(Mate(x, 1)) == Mate(x, 2)
    ensures RightOf(Mate(x, 2)) == Mate(x, 3) && RightOf(Mate(x, 3)) == x
    ensures LeftOf(x) == Mate(x, 3) && LeftOf(Mate(x, 3)) == Mate(x, 2)
    ensures LeftOf(Mate(x, 2)) == Mate(x, 1) && LeftOf(Mate(x, 1)) == x
    ensures Mate(x, 1) != x && Mate(x, 2) != x && Mate(x, 3) != x
  {
    MateFacts(x, 1);
    MateFacts(x, 2);
    MateFacts(x, 3);
    MateFacts(x, 0);
  }

  /** One step right from mate t of x, for t in 1..3. */
  lemma WalkStep(x: int, t: int)
    requires x >= Headers && 1 <= t < 4
    ensures RightOf(Mate(x, t)) == (if t + 1 < 4 then Mate(x, t + 1) else x)
    ensures t + 1 < 4 ==> Mate(x, t + 1) != x
  {
    Walks(x);
  }

  /** One step left from mate t of x, for t in 1..3. */
  lemma WalkBack(x: int, t: int)
    requires x >= Headers && 1 <= t < 4
    ensures LeftOf(Mate(x, t)) == (if t > 1 then Mate(x, t - 1) else x)
    ensures t > 1 ==> Mate(x, t - 1) != x
  {
    Walks(x);
  }

  /** The nodes a cover of a column with node list L takes out, row by row. */
  function CoverSeq(L: seq<int>): (r: seq<int>)
    ensures |r| == 3 * |L|
    decreases |L|
  {
    if L == [] then [] else CoverSeq(L[..|L| - 1]) + Mates(L[|L| - 1])
  }

  lemma {:induction false} CoverSeqMember(L: seq<int>, y: int)
    ensures y in CoverSeq(L) <==> exists k :: 0 <= k < |L| && y in Mates(L[k])
    decreases |L|
  {
    if L != [] {
      var L' := L[..|L| - 1];
      CoverSeqMember(L', y);
      if y in CoverSeq(L') {
        var k :| 0 <= k < |L'| && y in Mates(L'[k]);
        assert L[k] == L'[k];
      }
      if k :| 0 <= k < |L| && y in Mates(L[k]) {
        if k < |L'| {
          assert L'[k] == L[k];
        }
      }
    }
  }

  lemma CoverSeqPrefix(L: seq<int>, k: int)
    requires 0 <= k < |L|
    ensures CoverSeq(L[..k + 1]) == CoverSeq(L[..k]) + Mates(L[k])
  {
    assert L[..k + 1][..k] == L[..k];
  }

  lemma {:induction false} CoverSeqLength(L: seq<int>)
    ensures |CoverSeq(L)| == 3 * |L|
    decreases |L|
  {
    if L != [] {
      CoverSeqLength(L[..|L| - 1]);
    }
  }

  /** The first 3k nodes a cover takes out are those of the first k rows. */
  lemma {:induction false} CoverSeqTake(L: seq<int>, k: int)
    requires 0 <= k <= |L|
    ensures |CoverSeq(L)| == 3 * |L|
    ensures CoverSeq(L)[..3 * k] == CoverSeq(L[..k])
    decreases |L|
  {
    CoverSeqLength(L);
    if k == |L| {
      assert L[..k] == L;
    } else {
      var L' := L[..|L| - 1];
      CoverSeqLength(L');
      CoverSeqTake(L', k);
      assert L'[..k] == L[..k];
      assert CoverSeq(L)[..3 * k] == CoverSeq(L')[..3 * k];
    }
  }

  /** Node 3k + t - 1 of a cover is mate t of the k-th row, after the mates before it. */
  lemma CoverSeqSlice(L: seq<int>, k: int, t: int, n: int)
    requires 0 <= k < |L| && 1 <= t <= 4 && n == 3 * k + t - 1
    ensures CoverSeq(L)[..n] == CoverSeq(L[..k]) + Mates(L[k])[..t - 1]
    ensures t < 4 ==> CoverSeq(L)[n] == Mate(L[k], t)
  {
    var CS := CoverSeq(L);
    var A, M := CoverSeq(L[..k]), Mates(L[k]);
    var e := 3 * k + 3;
    CoverSeqTake(L, k + 1);
    assert 3 * (k + 1) == e;
    CoverSeqPrefix(L, k);
    var P := CS[..e];
    assert P == A + M;
    assert |A| == 3 * k && n - |A| == t - 1;
    TakeTake(CS, e, n);
    TakeConcat(A, M, n);
    if t < 4 {
      IndexConcat(A, M, n);
      MatesAt(L[k], t);
      assert CS[n] == P[n];
    }
  }

  /* ---------------------------------------------------------------------- */
  /* The table as a value                                                    */

  /**
   * The fixed part of the table: the column of every node, the placement
   * every row stands for, and `used`, the first node no row was put in
   * (`next_index` at the end of solver.py:46-51).
   */
  datatype Frame = Frame(columns: seq<int>, actions: seq<Option<Action>>, used: int)

  /** The changing part: the vertical links, the sizes, the covered flags, and the node order of every column. */
  datatype State = State(mesh: Mesh, covered: seq<bool>, lists: seq<seq<int>>)

  /** A used node stands in the column of constraint Off(x) of its row's placement. */
  ghost predicate RowNode(F: Frame, x: int)
    requires Headers <= x < |F.columns| == |F.actions|
  {
    0 <= Base(x) < |F.actions| &&
    F.actions[x].Some? && IsPlacement(F.actions[x].value) &&
    F.actions[Base(x)] == F.actions[x] &&
    F.columns[x] == ConstraintsOf(F.actions[x].value)[Off(x)]
  }

  /** Headers are their own column; the used nodes form whole rows of placements. */
  ghost predicate RowsValid(F: Frame) {
    Headers <= F.used <= |F.columns| && |F.columns| == |F.actions| &&
    Off(F.used) == 0 &&
    (forall h :: 0 <= h < Headers ==> F.columns[h] == h) &&
    (forall x {:trigger RowNode(F, x)} :: Headers <= x < F.used ==> RowNode(F, x))
  }

  ghost function Placement(F: Frame, x: int): Action
    requires RowsValid(F) && Headers <= x < F.used
  {
    assert RowNode(F, x);
    F.actions[x].value
  }

  ghost predicate Distinct(L: seq<int>) {
    forall i, j :: 0 <= i < j < |L| ==> L[i] != L[j]
  }

  function First(L: seq<int>, u: int): int {
    if L == [] then u else L[0]
  }

  function Last(L: seq<int>, u: int): int {
    if L == [] then u else L[|L| - 1]
  }

  function Next(L: seq<int>, u: int, k: int): int
    requires 0 <= k < |L|
  {
    if k + 1 < |L| then L[k + 1] else u
  }

  function Prev(L: seq<int>, u: int, k: int): int
    requires 0 <= k < |L|
  {
    if k > 0 then L[k - 1] else u
  }

  /** Header u and the nodes of L, in this order, form a circular doubly linked list. */
  ghost predicate ColumnLinked(m: Mesh, u: int, L: seq<int>) {
    |m.up| == |m.down| && 0 <= u < |m.up| &&
    (forall k :: 0 <= k < |L| ==> 0 <= L[k] < |m.up|) &&
    m.down[u] == First(L, u) && m.up[u] == Last(L, u) &&
    (forall k {:trigger m.down[L[k]]} :: 0 <= k < |L| ==> m.down[L[k]] == Next(L, u, k)) &&
    (forall k {:trigger m.up[L[k]]} :: 0 <= k < |L| ==> m.up[L[k]] == Prev(L, u, k))
  }

  /** Column u holds the distinct used nodes L, as many as its size says, linked in order. */
  ghost predicate ListOk(m: Mesh, F: Frame, u: int, L: seq<int>) {
    0 <= u < |m.sizes| && F.used <= |F.columns| &&
    (forall k :: 0 <= k < |L| ==> Headers <= L[k] < F.used && F.columns[L[k]] == u) &&
    Distinct(L) && m.sizes[u] == |L| && ColumnLinked(m, u, L)
  }

  /** Everything but the agreement between rows and covered flags. */
  ghost predicate Structured(s: State, F: Frame) {
    RowsValid(F) && ColumnClosed(s.mesh, F.columns) &&
    |s.mesh.sizes| == Headers && |s.covered| == Headers && |s.lists| == Headers &&
    (forall u {:trigger ListOk(s.mesh, F, u, s.lists[u])} :: 0 <= u < Headers ==> ListOk(s.mesh, F, u, s.lists[u]))
  }

  /** Node x is currently linked into the column it belongs to. */
  ghost predicate InColumn(s: State, F: Frame, x: int) {
    0 <= x < |F.columns| && 0 <= F.columns[x] < |s.lists| && x in s.lists[F.columns[x]]
  }

  ghost predicate Open(s: State, F: Frame, x: int) {
    0 <= x < |F.columns| && 0 <= F.columns[x] < |s.covered| && !s.covered[F.columns[x]]
  }

  /** All four nodes of x's row are linked, in columns not covered. */
  ghost predicate RowActive(s: State, F: Frame, x: int) {
    forall y :: Base(x) <= y < Base(x) + 4 ==> InColumn(s, F, y) && Open(s, F, y)
  }

  /** A row still seen from an uncovered column is whole and meets only uncovered constraints. */
  ghost predicate ActiveRows(s: State, F: Frame) {
    forall x {:trigger RowActive(s, F, x)} :: Headers <= x < F.used && InColumn(s, F, x) && Open(s, F, x) ==> RowActive(s, F, x)
  }

  /** The invariant of the table between operations. */
  ghost predicate ValidState(s: State, F: Frame) {
    Structured(s, F) && ActiveRows(s, F)
  }

  /* ---------------------------------------------------------------------- */
  /* Facts about rows                                                       */

  /** The four nodes of a row meet the four constraints of its placement, each in its own column. */
  lemma RowColumns(F: Frame, x: int, t: int)
    requires RowsValid(F) && Headers <= x < F.used && 0 <= t < 4
    ensures Headers <= Mate(x, t) < F.used
    ensures Placement(F, Mate(x, t)) == Placement(F, x)
    ensures F.columns[Mate(x, t)] == ConstraintsOf(Placement(F, x))[Rot(x, t)]
    ensures 0 <= F.columns[Mate(x, t)] < Headers
    ensures t != 0 ==> F.columns[Mate(x, t)] != F.columns[x]
  {
    MateFacts(x, t);
    var y := Mate(x, t);
    RowEnd(x, F.used);
    assert RowNode(F, x) && RowNode(F, y);
    assert RowNode(F, Base(x));
    ConstraintFamilies(Placement(F, x), Rot(x, t));
    ConstraintFamilies(Placement(F, x), Off(x));
  }

  /** Two used nodes of one row in one column are the same node. */
  lemma SameRowSameColumn(F: Frame, x: int, y: int)
    requires RowsValid(F) && Headers <= x < F.used && Headers <= y < F.used
    requires Base(x) == Base(y) && F.columns[x] == F.columns[y]
    ensures x == y
  {
    var t := MateIndex(x, y);
    RowColumns(F, x, t);
  }

  /* ---------------------------------------------------------------------- */
  /* Taking one node out of its column                                      */

  function IndexOf(L: seq<int>, j: int): (k: int)
    requires j in L
    ensures 0 <= k < |L| && L[k] == j
    ensures forall i :: 0 <= i < k ==> L[i] != j
  {
    if L[0] == j then 0 else 1 + IndexOf(L[1..], j)
  }

  /** The state after cover's step solver.py:113-115 on node j. */
  ghost function Detach(s: State, F: Frame, j: int): State {
    if !InColumn(s, F, j) then s
    else
      var c := F.columns[j];
      var k := IndexOf(s.lists[c], j);
      State(Unlink(s.mesh, F.columns, j), s.covered, s.lists[c := s.lists[c][..k] + s.lists[c][k + 1..]])
  }

  /** The links Unlink leaves when j's neighbours are other nodes. */
  lemma UnlinkShape(m: Mesh, columns: seq<int>, j: int)
    requires Linkable(m, columns, j) && m.down[j] != j
    ensures Unlink(m, columns, j).up == m.up[m.down[j] := m.up[j]]
    ensures Unlink(m, columns, j).down == m.down[m.up[j] := m.down[j]]
    ensures Unlink(m, columns, j).sizes == m.sizes[columns[j] := m.sizes[columns[j]] - 1]
  {
  }

  /** Header u and node L[k] point at the neighbours the order L gives them. */
  lemma LinkedAt(m: Mesh, u: int, L: seq<int>, k: int)
    requires ColumnLinked(m, u, L) && 0 <= k < |L|
    ensures m.down[L[k]] == Next(L, u, k) && m.up[L[k]] == Prev(L, u, k)
    ensures m.down[Prev(L, u, k)] == L[k] && m.up[Next(L, u, k)] == L[k]
  {
    if k > 0 {
      assert m.down[L[k - 1]] == Next(L, u, k - 1);
    }
    if k + 1 < |L| {
      assert m.up[L[k + 1]] == Prev(L, u, k + 1);
    }
  }

  /** The links of the list with L[k] removed, element by element. */
  lemma RemovedOrder(L: seq<int>, u: int, k: int, i: int)
    requires 0 <= k < |L| && 0 <= i < |L| - 1
    ensures (L[..k] + L[k + 1..])[i] == (if i < k then L[i] else L[i + 1])
    ensures Next(L[..k] + L[k + 1..], u, i) == (if i + 1 == k then Next(L, u, k) else if i < k then Next(L, u, i) else Next(L, u, i + 1))
    ensures Prev(L[..k] + L[k + 1..], u, i) == (if i == k then Prev(L, u, k) else if i < k then Prev(L, u, i) else Prev(L, u, i + 1))
  {
  }

  /** Unlinking L[k] from a well linked column leaves the column with L[k] removed. */
  lemma RemoveLinked(m: Mesh, columns: seq<int>, u: int, L: seq<int>, k: int)
    requires ColumnLinked(m, u, L) && Distinct(L) && u !in L
    requires 0 <= k < |L| && |columns| == |m.up| && 0 <= columns[L[k]] < |m.sizes|
    ensures Detachable(m, columns, L[k])
    ensures ColumnLinked(Unlink(m, columns, L[k]), u, L[..k] + L[k + 1..])
  {
    var j := L[k];
    var p, n := Prev(L, u, k), Next(L, u, k);
    LinkedAt(m, u, L, k);
    assert p != j && n != j;
    UnlinkShape(m, columns, j);
    var m' := Unlink(m, columns, j);
    var L' := L[..k] + L[k + 1..];
    assert |L'| == |L| - 1;
    assert m'.down[u] == First(L', u) by {
      if |L'| > 0 {
        RemovedOrder(L, u, k, 0);
      }
    }
    assert m'.up[u] == Last(L', u) by {
      if |L'| > 0 {
        RemovedOrder(L, u, k, |L'| - 1);
      }
    }
    forall i | 0 <= i < |L'|
      ensures 0 <= L'[i] < |m'.up|
      ensures m'.down[L'[i]] == Next(L', u, i) && m'.up[L'[i]] == Prev(L', u, i)
    {
      RemovedOrder(L, u, k, i);
      if i < k {
        LinkedAt(m, u, L, i);
      } else {
        LinkedAt(m, u, L, i + 1);
      }
    }
  }

  /** A column whose nodes' links are untouched stays linked. */
  lemma LinkedFrame(m: Mesh, m': Mesh, columns: seq<int>, u: int, L: seq<int>)
    requires ColumnLinked(m, u, L) && |m'.up| == |m.up| && |m'.down| == |m.down|
    requires |columns| == |m.up| && columns[u] == u
    requires forall k :: 0 <= k < |L| ==> columns[L[k]] == u
    requires forall x :: 0 <= x < |columns| && columns[x] == u ==> m'.up[x] == m.up[x] && m'.down[x] == m.down[x]
    ensures ColumnLinked(m', u, L)
  {
  }

  lemma UnlinkFrame(m: Mesh, columns: seq<int>, j: int, x: int)
    requires ColumnClosed(m, columns) && 0 <= j < |columns| && 0 <= x < |columns|
    requires columns[x] != columns[j]
    ensures Unlink(m, columns, j).up[x] == m.up[x] && Unlink(m, columns, j).down[x] == m.down[x]
  {
  }

  lemma DistinctRemove(L: seq<int>, k: int)
    requires Distinct(L) && 0 <= k < |L|
    ensures Distinct(L[..k] + L[k + 1..])
    ensures forall x :: x in L[..k] + L[k + 1..] <==> x in L && x != L[k]
  {
    var L' := L[..k] + L[k + 1..];
    assert forall i :: 0 <= i < |L'| ==> L'[i] == (if i < k then L[i] else L[i + 1]);
    forall x | x in L && x != L[k]
      ensures x in L'
    {
      var i :| 0 <= i < |L| && L[i] == x;
      assert L'[if i < k then i else i - 1] == x;
    }
  }

  /** Column c of the detached state: L with j removed. */
  lemma ListOkRemove(s: State, F: Frame, j: int)
    requires Structured(s, F) && Headers <= j < F.used && InColumn(s, F, j)
    ensures Detachable(s.mesh, F.columns, j)
    ensures ListOk(Detach(s, F, j).mesh, F, F.columns[j], Detach(s, F, j).lists[F.columns[j]])
    ensures forall x :: x in Detach(s, F, j).lists[F.columns[j]] <==> x in s.lists[F.columns[j]] && x != j
  {
    var c := F.columns[j];
    var L := s.lists[c];
    var k := IndexOf(L, j);
    assert ListOk(s.mesh, F, c, L);
    RemoveLinked(s.mesh, F.columns, c, L, k);
    DistinctRemove(L, k);
    UnlinkShape(s.mesh, F.columns, j);
    var L' := L[..k] + L[k + 1..];
    assert Detach(s, F, j).lists[c] == L';
    forall i | 0 <= i < |L'|
      ensures Headers <= L'[i] < F.used && F.columns[L'[i]] == c
    {
      assert L'[i] in L;
    }
  }

  /** A column whose links are untouched by a new mesh is still well formed in it. */
  lemma ListOkFrame(s: State, F: Frame, u: int, m': Mesh)
    requires Structured(s, F) && 0 <= u < Headers
    requires |m'.up| == |s.mesh.up| && |m'.down| == |s.mesh.down| && |m'.sizes| == Headers
    requires m'.sizes[u] == s.mesh.sizes[u]
    requires forall x | 0 <= x < |F.columns| && F.columns[x] == u :: m'.up[x] == s.mesh.up[x] && m'.down[x] == s.mesh.down[x]
    ensures ListOk(m', F, u, s.lists[u])
  {
    assert ListOk(s.mesh, F, u, s.lists[u]);
    LinkedFrame(s.mesh, m', F.columns, u, s.lists[u]);
  }

  /** Columns other than j's keep their order and links. */
  lemma ListOkOther(s: State, F: Frame, j: int, u: int)
    requires Structured(s, F) && Headers <= j < F.used && InColumn(s, F, j)
    requires 0 <= u < Headers && u != F.columns[j]
    ensures ListOk(Detach(s, F, j).mesh, F, u, Detach(s, F, j).lists[u])
  {
    var m' := Unlink(s.mesh, F.columns, j);
    forall x | 0 <= x < |F.columns| && F.columns[x] == u
      ensures m'.up[x] == s.mesh.up[x] && m'.down[x] == s.mesh.down[x]
    {
      UnlinkFrame(s.mesh, F.columns, j, x);
    }
    ListOkFrame(s, F, u, m');
    assert Detach(s, F, j).lists[u] == s.lists[u];
  }

  /**
   * solver.py:113-115: taking a linked used node out of its column keeps the
   * table well formed, removes exactly that node from its column's order,
   * and lowers only that column's size.
   */
  lemma DetachStep(s: State, F: Frame, j: int)
    requires Structured(s, F) && Headers <= j < F.used && InColumn(s, F, j)
    ensures Detachable(s.mesh, F.columns, j)
    ensures Structured(Detach(s, F, j), F)
    ensures Detach(s, F, j).covered == s.covered
    ensures forall x :: InColumn(Detach(s, F, j), F, x) <==> InColumn(s, F, x) && x != j
    ensures forall u :: 0 <= u < Headers && u != F.columns[j] ==> Detach(s, F, j).lists[u] == s.lists[u]
    ensures forall u :: 0 <= u < Headers ==> Detach(s, F, j).mesh.sizes[u] <= s.mesh.sizes[u]
  {
    var c := F.columns[j];
    var s' := Detach(s, F, j);
    ListOkRemove(s, F, j);
    UnlinkClosed(s.mesh, F.columns, j);
    UnlinkShape(s.mesh, F.columns, j);
    forall u | 0 <= u < Headers
      ensures ListOk(s'.mesh, F, u, s'.lists[u])
    {
      if u != c {
        ListOkOther(s, F, j, u);
      }
    }
    forall x
      ensures InColumn(s', F, x) <==> InColumn(s, F, x) && x != j
    {
      if 0 <= x < |F.columns| && 0 <= F.columns[x] < Headers && F.columns[x] != c {
        assert s'.lists[F.columns[x]] == s.lists[F.columns[x]];
      }
    }
  }

  /* ---------------------------------------------------------------------- */
  /* Covering one column                                                     */

  /**
   * What `cover` (solver.py:99-115) does to an uncovered column c: it marks c
   * covered and takes every other node of every row of c out of its column,
   * each one while it is properly linked; c keeps its own node order.
   */
  ghost predicate CoverStep(s: State, F: Frame, c: int, s': State) {
    0 <= c < |s.covered| == |s'.covered| && 0 <= c < |s.lists| == |s'.lists| &&
    !s.covered[c] && s'.covered == s.covered[c := true] &&
    s'.lists[c] == s.lists[c] &&
    SafeSeq(s.mesh, F.columns, CoverSeq(s.lists[c])) &&
    s'.mesh == UnlinkAll(s.mesh, F.columns, CoverSeq(s.lists[c]))
  }

  /** No node of the rows of L lies in L's column c except the one in L. */
  lemma CoverSeqColumns(s: State, F: Frame, c: int, L: seq<int>, y: int)
    requires Structured(s, F) && 0 <= c < Headers && L == s.lists[c]
    requires y in CoverSeq(L)
    ensures Headers <= y < F.used && 0 <= F.columns[y] < Headers && F.columns[y] != c
    ensures exists k :: 0 <= k < |L| && Base(y) == Base(L[k])
  {
    assert ListOk(s.mesh, F, c, L);
    CoverSeqMember(L, y);
    var k :| 0 <= k < |L| && y in Mates(L[k]);
    var t := MatesIndex(L[k], y);
    RowColumns(F, L[k], t);
    MateFacts(L[k], t);
  }

  /** Every node of x's row is one of x's mates or x itself. */
  lemma MateIndex(x: int, y: int) returns (t: int)
    requires x >= Headers && Base(x) <= y < Base(x) + 4
    ensures 0 <= t < 4 && y == Mate(x, t) && (t == 0 <==> y == x)
  {
    var d, o := y - Base(x), Off(x);
    if d >= o {
      t := d - o;
    } else {
      t := d - o + 4;
    }
  }

  /** A node of a row of column c other than the one in c is taken out by c's cover. */
  lemma InCoverRow(s: State, F: Frame, c: int, k: int, x: int)
    requires Structured(s, F) && 0 <= c < Headers && 0 <= k < |s.lists[c]|
    requires Headers <= x < F.used && Base(x) == Base(s.lists[c][k]) && F.columns[x] != c
    ensures x in CoverSeq(s.lists[c])
  {
    var L := s.lists[c];
    assert ListOk(s.mesh, F, c, L);
    var y := L[k];
    assert Headers <= y && F.columns[y] == c;
    assert Base(y) <= x < Base(y) + 4;
    var t := MateIndex(y, x);
    assert t != 0;
    assert x == Mates(y)[t - 1];
    CoverSeqMember(L, x);
  }

  /** A row not taken out by c's cover has no node among the nodes the cover takes out. */
  lemma CoverMissesRow(s: State, F: Frame, c: int, x: int, y: int)
    requires Structured(s, F) && 0 <= c < Headers
    requires Headers <= x < F.used && F.columns[x] != c && x !in CoverSeq(s.lists[c])
    requires Base(x) <= y < Base(x) + 4
    ensures y !in CoverSeq(s.lists[c])
  {
    var L := s.lists[c];
    if y in CoverSeq(L) {
      CoverSeqColumns(s, F, c, L, y);
      var k :| 0 <= k < |L| && Base(y) == Base(L[k]);
      var t := MateIndex(x, y);
      MateFacts(x, t);
      InCoverRow(s, F, c, k, x);
      assert false;
    }
  }

  /** A row not taken out by c's cover has no node in column c. */
  lemma CoverMissesColumn(s: State, F: Frame, c: int, x: int, y: int)
    requires Structured(s, F) && 0 <= c < Headers
    requires Headers <= x < F.used && F.columns[x] != c && x !in CoverSeq(s.lists[c])
    requires Base(x) <= y < Base(x) + 4 && InColumn(s, F, y)
    ensures F.columns[y] != c
  {
    var L := s.lists[c];
    if F.columns[y] == c {
      var k :| 0 <= k < |L| && L[k] == y;
      var t := MateIndex(x, y);
      MateFacts(x, t);
      InCoverRow(s, F, c, k, x);
      assert false;
    }
  }

  /** A row seen from an uncovered column other than c, but not taken out by c's cover, stays whole and open. */
  lemma CoverKeepsRow(s: State, F: Frame, c: int, x: int, y: int)
    requires ValidState(s, F) && 0 <= c < Headers && !s.covered[c]
    requires Headers <= x < F.used && InColumn(s, F, x) && Open(s, F, x) && F.columns[x] != c
    requires x !in CoverSeq(s.lists[c])
    requires Base(x) <= y < Base(x) + 4
    ensures InColumn(s, F, y) && Open(s, F, y)
    ensures y !in CoverSeq(s.lists[c]) && F.columns[y] != c
  {
    assert RowActive(s, F, x);
    CoverMissesRow(s, F, c, x, y);
    CoverMissesColumn(s, F, c, x, y);
  }

  /**
   * After a cover of an uncovered column the table is valid again: no row of
   * the covered column is seen from an uncovered column, and every other
   * row is untouched.
   */
  lemma CoverValid(s: State, F: Frame, c: int, s': State)
    requires ValidState(s, F) && 0 <= c < Headers && !s.covered[c]
    requires Structured(s', F) && s'.covered == s.covered[c := true]
    requires forall x :: InColumn(s', F, x) <==> InColumn(s, F, x) && x !in CoverSeq(s.lists[c])
    ensures ValidState(s', F)
  {
    forall x | Headers <= x < F.used && InColumn(s', F, x) && Open(s', F, x)
      ensures RowActive(s', F, x)
    {
      forall y | Base(x) <= y < Base(x) + 4
        ensures InColumn(s', F, y) && Open(s', F, y)
      {
        CoverKeepsRow(s, F, c, x, y);
      }
    }
  }
}
