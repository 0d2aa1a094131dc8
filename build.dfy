/**
 * Building the table (solver.py:9-56 and 73-97): the arrays as values, the
 * steps `add_row` and `link_below` take on them, the invariant those steps
 * keep while the rows go in, and the table they leave once every column is
 * closed into a ring.
 */
module Build {
  import opened Wrappers
  import opened Constraints
  import opened Splice
  import opened Links
  import opened Exact

  /**
   * The arrays of the table while it is built, `last_nodes` (solver.py:47)
   * and, as a record kept for the proofs, the nodes of every column in the
   * order they were hung below each other.
   */
  datatype Draft = Draft(mesh: Mesh, covered: seq<bool>, columns: seq<int>,
                         actions: seq<Option<Action>>, last: seq<int>, lists: seq<seq<int>>)

  /** Every node array has one entry per node, every column array one per constraint, and `last_nodes` names nodes. */
  predicate Shaped(d: Draft) {
    |d.mesh.up| == |d.columns| && |d.mesh.down| == |d.columns| && |d.actions| == |d.columns| &&
    |d.mesh.sizes| == Headers && |d.covered| == Headers && |d.last| == Headers && |d.lists| == Headers &&
    Headers <= |d.columns| &&
    forall u :: 0 <= u < Headers ==> 0 <= d.last[u] < |d.columns|
  }

  /** solver.py:94-97: link goes below node. */
  function LinkedBelow(m: Mesh, node: int, link: int): Mesh
    requires 0 <= node < |m.down| && 0 <= link < |m.up|
  {
    m.(down := m.down[node := link], up := m.up[link := node])
  }

  /** solver.py:86-90, one pass: node becomes the lowest node of column c and stands for placement a. */
  function PutNode(d: Draft, c: int, node: int, a: Action): (r: Draft)
    requires Shaped(d) && 0 <= c < Headers && 0 <= node < |d.columns|
    ensures Shaped(r) && |r.columns| == |d.columns|
  {
    Draft(LinkedBelow(d.mesh, d.last[c], node).(sizes := d.mesh.sizes[c := d.mesh.sizes[c] + 1]),
          d.covered, d.columns[node := c], d.actions[node := Some(a)], d.last[c := node],
          d.lists[c := d.lists[c] + [node]])
  }

  /** The first i passes of the loop solver.py:85-90 for the row of placement a that starts at node index. */
  function PutNodes(d: Draft, a: Action, index: int, i: int): (r: Draft)
    requires Shaped(d) && IsPlacement(a) && 0 <= i <= 4 && Headers <= index && index + i <= |d.columns|
    ensures Shaped(r) && |r.columns| == |d.columns| && r.covered == d.covered
    decreases i
  {
    if i == 0 then d
    else PutNode(PutNodes(d, a, index, i - 1), ConstraintsOf(a)[i - 1], index + (i - 1), a)
  }

  /** Pass i of the loop solver.py:85-90 hangs the node index + i below constraint i of a. */
  lemma PutNodesNext(d: Draft, a: Action, index: int, i: int)
    requires Shaped(d) && IsPlacement(a) && 0 <= i < 4 && Headers <= index && index + i + 1 <= |d.columns|
    ensures PutNodes(d, a, index, i + 1) == PutNode(PutNodes(d, a, index, i), ConstraintsOf(a)[i], index + i, a)
  {
  }

  /** solver.py:73-92, on the arrays: unchanged when a covered constraint blocks a, else a's row of four nodes added. */
  function RowAdded(d: Draft, index: int, a: Action): (r: Draft)
    requires Shaped(d) && IsPlacement(a) && Headers <= index
    requires Fits(d.covered, a) ==> index + 4 <= |d.columns|
    ensures Shaped(r) && |r.columns| == |d.columns| && r.covered == d.covered
  {
    if Fits(d.covered, a) then PutNodes(d, a, index, 4) else d
  }

  /** solver.py:80 and 92: the index add_row returns. */
  function NextIndex(cov: seq<bool>, index: int, a: Action): int {
    if Fits(cov, a) then index + 4 else index
  }

  /** solver.py:54-56: the lowest node of every uncovered column among the first n is linked back up to its header. */
  function CloseColumns(d: Draft, n: int): (m: Mesh)
    requires Shaped(d) && 0 <= n <= Headers
    ensures |m.up| == |d.columns| && |m.down| == |d.columns| && m.sizes == d.mesh.sizes
  {
    if n == 0 then d.mesh
    else
      var m := CloseColumns(d, n - 1);
      if !d.covered[n - 1] then LinkedBelow(m, d.last[n - 1], n - 1) else m
  }

  /* ---------------------------------------------------------------------- */
  /* The invariant of the construction                                      */

  /**
   * Column u while the rows go in: its nodes, all below bound, hang from
   * the header in order; the lowest one still points down to itself and the
   * header's up link is still its own. A covered column gets no node.
   */
  ghost predicate Hanging(d: Draft, u: int, bound: int)
    requires Shaped(d) && 0 <= u < Headers
  {
    var L := d.lists[u];
    bound <= |d.columns| &&
    (forall k :: 0 <= k < |L| ==> Headers <= L[k] < bound && d.columns[L[k]] == u) &&
    Distinct(L) && d.mesh.sizes[u] == |L| && d.last[u] == Last(L, u) &&
    d.mesh.down[u] == First(L, u) && d.mesh.up[u] == u && (d.covered[u] ==> L == []) &&
    (forall k {:trigger d.mesh.down[L[k]]} :: 0 <= k < |L| ==> d.mesh.down[L[k]] == (if k + 1 < |L| then L[k + 1] else L[k])) &&
    (forall k {:trigger d.mesh.up[L[k]]} :: 0 <= k < |L| ==> d.mesh.up[L[k]] == Prev(L, u, k))
  }

  /** The nodes from bound on are as solver.py:16-31 made them: linked to themselves, their own column, no action. */
  ghost predicate Untouched(d: Draft, bound: int)
    requires Shaped(d) && 0 <= bound
  {
    forall j :: bound <= j < |d.columns| ==>
      d.mesh.up[j] == j && d.mesh.down[j] == j && d.columns[j] == j && d.actions[j] == None
  }

  /** The table while the rows go in, below node bound. */
  ghost predicate Growing(d: Draft, bound: int) {
    Shaped(d) && Headers <= bound <= |d.columns| && Untouched(d, bound) &&
    (forall h :: 0 <= h < Headers ==> d.columns[h] == h) &&
    (forall u {:trigger Hanging(d, u, bound)} :: 0 <= u < Headers ==> Hanging(d, u, bound)) &&
    (forall x :: Headers <= x < bound ==>
       0 <= d.columns[x] < Headers && !d.covered[d.columns[x]] && x in d.lists[d.columns[x]])
  }

  /** Growing, and the nodes below bound form whole rows. */
  ghost predicate Filling(d: Draft, bound: int) {
    Growing(d, bound) && RowsValid(Frame(d.columns, d.actions, bound))
  }

  /** The last node of column c is its header or a node of column c. */
  lemma LastOfColumn(d: Draft, c: int, bound: int)
    requires Shaped(d) && 0 <= c < Headers && Hanging(d, c, bound)
    ensures d.last[c] == c || (Headers <= d.last[c] < bound && d.columns[d.last[c]] == c && d.last[c] in d.lists[c])
  {
    var L := d.lists[c];
    if L != [] {
      assert d.last[c] == L[|L| - 1];
    }
  }

  /** Putting a node into column c leaves every other column as it was. */
  lemma HangingOther(d: Draft, c: int, node: int, a: Action, u: int)
    requires Shaped(d) && Headers <= node < |d.columns| && 0 <= c < Headers && 0 <= u < Headers && u != c
    requires Hanging(d, u, node)
    requires d.last[c] == c || (Headers <= d.last[c] < |d.columns| && d.columns[d.last[c]] == c)
    ensures Hanging(PutNode(d, c, node, a), u, node + 1)
  {
    var r := PutNode(d, c, node, a);
    var L := d.lists[u];
    var p := d.last[c];
    assert r.lists[u] == L;
    assert forall k :: 0 <= k < |L| ==> L[k] != node && L[k] != p;
  }

  /** Putting a node into column c hangs it below the column's lowest node. */
  lemma HangingSame(d: Draft, c: int, node: int, a: Action)
    requires Shaped(d) && Headers <= node < |d.columns| && 0 <= c < Headers && !d.covered[c]
    requires Hanging(d, c, node) && d.mesh.down[node] == node
    ensures Hanging(PutNode(d, c, node, a), c, node + 1)
  {
    var r := PutNode(d, c, node, a);
    var L := d.lists[c];
    assert r.lists[c] == L + [node];
    assert node !in L;
    LastOfColumn(d, c, node);
    HangingSameLinks(d, c, node, a);
  }

  /** The links of column c after a node is put below its lowest one. */
  lemma HangingSameLinks(d: Draft, c: int, node: int, a: Action)
    requires Shaped(d) && Headers <= node < |d.columns| && 0 <= c < Headers
    requires Hanging(d, c, node) && d.mesh.down[node] == node
    ensures var r := PutNode(d, c, node, a);
      var L' := d.lists[c] + [node];
      forall k :: 0 <= k < |L'| ==>
        0 <= L'[k] < |r.mesh.down| &&
        r.mesh.down[L'[k]] == (if k + 1 < |L'| then L'[k + 1] else L'[k]) && r.mesh.up[L'[k]] == Prev(L', c, k)
  {
    var r := PutNode(d, c, node, a);
    var L := d.lists[c];
    var L' := L + [node];
    LastOfColumn(d, c, node);
    forall k | 0 <= k < |L'|
      ensures 0 <= L'[k] < |r.mesh.down|
      ensures r.mesh.down[L'[k]] == (if k + 1 < |L'| then L'[k + 1] else L'[k])
      ensures r.mesh.up[L'[k]] == Prev(L', c, k)
    {
      if k < |L| {
        assert L'[k] == L[k] && L[k] < node;
      }
    }
  }

  /** solver.py:86-90, one pass, keeps the invariant. */
  lemma PutNodeGrows(d: Draft, c: int, node: int, a: Action, bound: int)
    requires Growing(d, node) && node < |d.columns| && 0 <= c < Headers && !d.covered[c] && bound == node + 1
    ensures Growing(PutNode(d, c, node, a), bound)
  {
    var r := PutNode(d, c, node, a);
    assert Hanging(d, c, node);
    LastOfColumn(d, c, node);
    forall u | 0 <= u < Headers
      ensures Hanging(r, u, bound)
    {
      if u == c {
        HangingSame(d, c, node, a);
      } else {
        HangingOther(d, c, node, a, u);
      }
    }
    forall x | Headers <= x < node + 1
      ensures 0 <= r.columns[x] < Headers && !r.covered[r.columns[x]] && x in r.lists[r.columns[x]]
    {
      if x < node {
        assert x in d.lists[d.columns[x]];
      }
    }
  }

  /** The passes of solver.py:85-90 for one row keep the invariant, below the nodes already put in. */
  lemma {:induction false} PutNodesGrow(d: Draft, a: Action, index: int, i: int)
    requires Growing(d, index) && Fits(d.covered, a) && index + 4 <= |d.columns| && 0 <= i <= 4
    ensures Growing(PutNodes(d, a, index, i), index + i)
    decreases i
  {
    if i > 0 {
      PutNodesGrow(d, a, index, i - 1);
      PutNodesStep(d, a, index, i);
    }
  }

  /** Pass i - 1 of solver.py:85-90 keeps the invariant, one node further down. */
  lemma PutNodesStep(d: Draft, a: Action, index: int, i: int)
    requires Shaped(d) && Fits(d.covered, a) && Headers <= index && index + 4 <= |d.columns| && 0 < i <= 4
    requires Growing(PutNodes(d, a, index, i - 1), index + (i - 1))
    ensures Growing(PutNodes(d, a, index, i), index + i)
  {
    ConstraintFamilies(a, i - 1);
    PutNodeGrows(PutNodes(d, a, index, i - 1), ConstraintsOf(a)[i - 1], index + (i - 1), a, index + i);
  }

  /** Constraint u is among the first i constraints of placement a (the constraint of family i of a is a's i-th). */
  predicate Hit(a: Action, i: int, u: int) {
    0 <= u < Headers && Family(u) < i && ConstraintsOf(a)[Family(u)] == u
  }

  /** The first i passes write column constraint t and action a into node index+t, and nothing else. */
  lemma {:induction false} PutNodesCells(d: Draft, a: Action, index: int, i: int)
    requires Shaped(d) && IsPlacement(a) && 0 <= i <= 4 && Headers <= index && index + 4 <= |d.columns|
    ensures var r := PutNodes(d, a, index, i);
      r.covered == d.covered &&
      forall j :: 0 <= j < |d.columns| ==>
        r.columns[j] == (if index <= j < index + i then ConstraintsOf(a)[j - index] else d.columns[j]) &&
        r.actions[j] == (if index <= j < index + i then Some(a) else d.actions[j])
    decreases i
  {
    if i > 0 {
      PutNodesCells(d, a, index, i - 1);
    }
  }

  /** The first i passes put node index+t at the end of the list of constraint t, whose size grows by one; no other column changes. */
  lemma {:induction false} PutNodesLists(d: Draft, a: Action, index: int, i: int)
    requires Shaped(d) && IsPlacement(a) && 0 <= i <= 4 && Headers <= index && index + 4 <= |d.columns|
    ensures var r := PutNodes(d, a, index, i);
      forall u :: 0 <= u < Headers ==>
        r.lists[u] == (if Hit(a, i, u) then d.lists[u] + [index + Family(u)] else d.lists[u]) &&
        r.mesh.sizes[u] == (if Hit(a, i, u) then d.mesh.sizes[u] + 1 else d.mesh.sizes[u])
    decreases i
  {
    if i > 0 {
      PutNodesLists(d, a, index, i - 1);
      ConstraintFamilies(a, i - 1);
      var c := ConstraintsOf(a)[i - 1];
      forall u | 0 <= u < Headers
        ensures Hit(a, i, u) == (Hit(a, i - 1, u) || u == c)
        ensures u == c ==> !Hit(a, i - 1, u) && Family(u) == i - 1
      {
      }
    }
  }

  /** The four nodes a row puts in start at index and form one whole row of its placement. */
  lemma RowsAfter(d: Draft, a: Action, index: int)
    requires Filling(d, index) && Fits(d.covered, a) && index + 4 <= |d.columns|
    ensures RowsValid(Frame(PutNodes(d, a, index, 4).columns, PutNodes(d, a, index, 4).actions, index + 4))
  {
    var r := PutNodes(d, a, index, 4);
    var F := Frame(d.columns, d.actions, index);
    var F' := Frame(r.columns, r.actions, index + 4);
    PutNodesCells(d, a, index, 4);
    assert Off(index) == 0 && Base(index) == index;
    assert Off(index + 4) == Off(index);
    forall x | Headers <= x < index + 4
      ensures RowNode(F', x)
    {
      if x < index {
        assert RowNode(F, x);
        OffBase(x, 0);
        RowEnd(x, index);
      } else {
        OffBase(index, x - index);
        assert Base(x) == index;
      }
    }
  }

  /** solver.py:73-92 keeps the invariant: the table below the index add_row returns is whole. */
  lemma AddRowKeeps(d: Draft, index: int, a: Action)
    requires Filling(d, index) && IsPlacement(a)
    requires Fits(d.covered, a) ==> index + 4 <= |d.columns|
    ensures Filling(RowAdded(d, index, a), NextIndex(d.covered, index, a))
  {
    if Fits(d.covered, a) {
      PutNodesGrow(d, a, index, 4);
      RowsAfter(d, a, index);
    }
  }

  /* ---------------------------------------------------------------------- */
  /* Closing the columns                                                    */

  /** After the first n passes of solver.py:54-56: those columns are rings, the rest still hang open. */
  ghost predicate Closing(d: Draft, bound: int, n: int)
    requires Shaped(d) && 0 <= bound && 0 <= n <= Headers
  {
    var m := CloseColumns(d, n);
    (forall u {:trigger ColumnLinked(m, u, d.lists[u])} :: 0 <= u < n ==> ColumnLinked(m, u, d.lists[u])) &&
    (forall u {:trigger Hanging(d.(mesh := m), u, bound)} :: n <= u < Headers ==> Hanging(d.(mesh := m), u, bound)) &&
    (forall j :: bound <= j < |d.columns| ==> m.up[j] == j && m.down[j] == j)
  }

  /** A covered column holds no node. */
  lemma CoveredEmpty(d: Draft, bound: int, c: int)
    requires Growing(d, bound) && 0 <= c < Headers && d.covered[c]
    ensures d.lists[c] == []
  {
    assert Hanging(d, c, bound);
  }

  lemma {:induction false} ClosingHolds(d: Draft, bound: int, n: int)
    requires Growing(d, bound) && 0 <= n <= Headers
    ensures Closing(d, bound, n)
    decreases n
  {
    if n == 0 {
      assert d.(mesh := CloseColumns(d, 0)) == d;
    } else {
      ClosingHolds(d, bound, n - 1);
      CloseStep(d, bound, n - 1);
    }
  }

  /** One pass of solver.py:54-56: column c becomes a ring and nothing else moves. */
  lemma CloseStep(d: Draft, bound: int, c: int)
    requires Growing(d, bound) && 0 <= c < Headers && Closing(d, bound, c)
    ensures Closing(d, bound, c + 1)
  {
    var m' := CloseColumns(d, c + 1);
    forall u | 0 <= u < c
      ensures ColumnLinked(m', u, d.lists[u])
    {
      CloseEarlier(d, bound, c, u);
    }
    forall u | c < u < Headers
      ensures Hanging(d.(mesh := m'), u, bound)
    {
      CloseLater(d, bound, c, u);
    }
    CloseSelf(d, bound, c);
    LastOfColumn(d, c, bound);
  }

  /** The node the pass for column c writes its down link into is of column c, below bound. */
  lemma CloseTarget(d: Draft, bound: int, c: int, u: int)
    requires Growing(d, bound) && 0 <= c < Headers && 0 <= u < Headers && u != c
    ensures d.last[c] != u && d.last[c] !in d.lists[u] && c !in d.lists[u]
  {
    assert Hanging(d, c, bound) && Hanging(d, u, bound);
    LastOfColumn(d, c, bound);
  }

  lemma CloseEarlier(d: Draft, bound: int, c: int, u: int)
    requires Growing(d, bound) && 0 <= c < Headers && Closing(d, bound, c) && 0 <= u < c
    ensures ColumnLinked(CloseColumns(d, c + 1), u, d.lists[u])
  {
    assert ColumnLinked(CloseColumns(d, c), u, d.lists[u]);
    CloseTarget(d, bound, c, u);
  }

  lemma CloseLater(d: Draft, bound: int, c: int, u: int)
    requires Growing(d, bound) && 0 <= c < Headers && Closing(d, bound, c) && c < u < Headers
    ensures Hanging(d.(mesh := CloseColumns(d, c + 1)), u, bound)
  {
    assert Hanging(d.(mesh := CloseColumns(d, c)), u, bound);
    CloseTarget(d, bound, c, u);
  }

  lemma CloseSelf(d: Draft, bound: int, c: int)
    requires Growing(d, bound) && 0 <= c < Headers && Closing(d, bound, c)
    ensures ColumnLinked(CloseColumns(d, c + 1), c, d.lists[c])
  {
    assert Hanging(d.(mesh := CloseColumns(d, c)), c, bound);
    if !d.covered[c] {
      CloseOpen(d, bound, c);
    }
  }

  /** The pass for an uncovered column c links its lowest node down to the header and the header up to it. */
  lemma CloseOpen(d: Draft, bound: int, c: int)
    requires Growing(d, bound) && 0 <= c < Headers && !d.covered[c]
    requires Hanging(d.(mesh := CloseColumns(d, c)), c, bound)
    ensures ColumnLinked(CloseColumns(d, c + 1), c, d.lists[c])
  {
    var m' := CloseColumns(d, c + 1);
    var L := d.lists[c];
    var p := d.last[c];
    assert Hanging(d, c, bound);
    assert c !in L;
    forall k | 0 <= k < |L|
      ensures m'.down[L[k]] == Next(L, c, k) && m'.up[L[k]] == Prev(L, c, k)
    {
      if k + 1 < |L| {
        assert L[k] != p;
      }
    }
  }

  /** The links of one node of the finished table stay inside its column. */
  lemma ClosedAt(d: Draft, bound: int, x: int)
    requires Growing(d, bound) && 0 <= x < |d.columns|
    ensures var m := CloseColumns(d, Headers);
      0 <= m.up[x] < |m.up| && d.columns[m.up[x]] == d.columns[x] &&
      0 <= m.down[x] < |m.down| && d.columns[m.down[x]] == d.columns[x]
  {
    var m := CloseColumns(d, Headers);
    ClosingHolds(d, bound, Headers);
    if x < Headers {
      var L := d.lists[x];
      assert ColumnLinked(m, x, L) && Hanging(d, x, bound);
      if L != [] {
        assert L[|L| - 1] in L;
      }
    } else if x < bound {
      var u := d.columns[x];
      var L := d.lists[u];
      assert x in L && ColumnLinked(m, u, L) && Hanging(d, u, bound);
      var k := IndexOf(L, x);
      if k + 1 < |L| {
        assert L[k + 1] in L;
      }
      if k > 0 {
        assert L[k - 1] in L;
      }
    }
  }

  /**
   * The table solver.py:9-56 leaves: every column is a ring holding exactly
   * the rows put into it, every row is linked into all four of its columns,
   * and a covered column holds no node.
   */
  lemma Built(d: Draft, bound: int)
    requires Filling(d, bound)
    ensures var s := State(CloseColumns(d, Headers), d.covered, d.lists);
      var F := Frame(d.columns, d.actions, bound);
      ValidState(s, F) && Complete(s, F) &&
      (forall u :: 0 <= u < Headers && d.covered[u] ==> d.lists[u] == [])
  {
    var m := CloseColumns(d, Headers);
    var s := State(m, d.covered, d.lists);
    var F := Frame(d.columns, d.actions, bound);
    ClosingHolds(d, bound, Headers);
    forall x | 0 <= x < |d.columns|
      ensures 0 <= m.up[x] < |m.up| && d.columns[m.up[x]] == d.columns[x]
      ensures 0 <= m.down[x] < |m.down| && d.columns[m.down[x]] == d.columns[x]
    {
      ClosedAt(d, bound, x);
    }
    assert ColumnClosed(m, d.columns);
    forall u | 0 <= u < Headers
      ensures ListOk(m, F, u, d.lists[u])
    {
      assert ColumnLinked(m, u, d.lists[u]) && Hanging(d, u, bound);
    }
    forall x | Headers <= x < bound
      ensures RowActive(s, F, x)
    {
      OffBase(x, 0);
      RowEnd(x, bound);
    }
    forall u | 0 <= u < Headers && d.covered[u]
      ensures d.lists[u] == []
    {
      CoveredEmpty(d, bound, u);
    }
  }
}
