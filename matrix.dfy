/**
 * The class SudokuConstraints of solver.py: the dancing-links table and the
 * operations that change it in place.
 */
module Matrix {
  import opened Wrappers
  import opened Constraints
  import opened Splice
  import opened Links
  import opened Exact
  import opened Search
  import opened Build
  import opened Table

  /** Each node a cover takes out is linked at that moment and not in the covered column. */
  lemma CoverNext(s0: State, F: Frame, c: int, k: int, t: int)
    requires ValidState(s0, F) && 0 <= c < Headers && !s0.covered[c]
    requires 0 <= k < |s0.lists[c]| && 1 <= t < 4
    ensures Headers <= Mate(s0.lists[c][k], t) < F.used
    ensures InColumn(s0, F, Mate(s0.lists[c][k], t))
    ensures F.columns[Mate(s0.lists[c][k], t)] != c
    ensures Mate(s0.lists[c][k], t) !in CoverSeq(s0.lists[c][..k]) + Mates(s0.lists[c][k])[..t - 1]
  {
    var L := s0.lists[c];
    var x := L[k];
    var j := Mate(x, t);
    assert ListOk(s0.mesh, F, c, L);
    assert InColumn(s0, F, x) && Open(s0, F, x);
    assert RowActive(s0, F, x);
    RowColumns(F, x, t);
    MateFacts(x, t);
    assert InColumn(s0, F, j);
    NotTakenYet(s0, F, c, k, t);
    MatesDistinct(x);
  }

  /** No node of an earlier row of column c is a node of its k-th row. */
  lemma NotTakenYet(s0: State, F: Frame, c: int, k: int, t: int)
    requires Structured(s0, F) && 0 <= c < Headers && 0 <= k < |s0.lists[c]| && 1 <= t < 4
    ensures Mate(s0.lists[c][k], t) !in CoverSeq(s0.lists[c][..k])
  {
    var L := s0.lists[c];
    var x := L[k];
    var j := Mate(x, t);
    assert ListOk(s0.mesh, F, c, L);
    if j in CoverSeq(L[..k]) {
      CoverSeqMember(L[..k], j);
      var k' :| 0 <= k' < k && j in Mates(L[..k][k']);
      assert L[..k][k'] == L[k'];
      var t' := MatesIndex(L[k'], j);
      MateFacts(L[k'], t');
      MateFacts(x, t);
      SameRowSameColumn(F, x, L[k']);
      assert false;
    }
  }

  /** Where cover stands after taking out the nodes `done`, in order. */
  ghost predicate CoverProgress(s0: State, F: Frame, c: int, done: seq<int>, s: State) {
    Structured(s, F) && 0 <= c < Headers &&
    |s0.lists| == Headers && |s0.covered| == Headers && |s0.mesh.sizes| == Headers &&
    s.lists[c] == s0.lists[c] && s.covered == s0.covered[c := true] &&
    SafeSeq(s0.mesh, F.columns, done) &&
    s.mesh == UnlinkAll(s0.mesh, F.columns, done) &&
    (forall x {:trigger InColumn(s, F, x)} :: InColumn(s, F, x) <==> InColumn(s0, F, x) && x !in done) &&
    (forall u :: 0 <= u < Headers ==> s.mesh.sizes[u] <= s0.mesh.sizes[u])
  }

  /** One step of cover's inner loop (solver.py:113-115) keeps its progress invariant. */
  lemma CoverProgressStep(s0: State, F: Frame, c: int, done: seq<int>, s: State, j: int)
    requires ValidState(s0, F) && CoverProgress(s0, F, c, done, s)
    requires Headers <= j < F.used && InColumn(s0, F, j) && j !in done && F.columns[j] != c
    ensures Detachable(s.mesh, F.columns, j)
    ensures CoverProgress(s0, F, c, done + [j], Detach(s, F, j))
  {
    DetachStep(s, F, j);
    UnlinkAllAppend(s0.mesh, F.columns, done, [j]);
    SafeSeqAppend(s0.mesh, F.columns, done, [j]);
    var s' := Detach(s, F, j);
    forall x
      ensures InColumn(s', F, x) <==> InColumn(s0, F, x) && x !in done + [j]
    {
    }
  }

  /** The state after cover has marked column c and taken out the nodes `done`, in order. */
  ghost function CoverState(s0: State, F: Frame, c: int, done: seq<int>): State
    decreases |done|
  {
    if done == [] then
      (if 0 <= c < |s0.covered| then s0.(covered := s0.covered[c := true]) else s0)
    else
      Detach(CoverState(s0, F, c, done[..|done| - 1]), F, done[|done| - 1])
  }

  /** Node n of a cover's node sequence is linked before the cover, lies outside column c, and is not taken out twice. */
  lemma CoverNextAt(s0: State, F: Frame, c: int, n: int)
    requires ValidState(s0, F) && 0 <= c < Headers && !s0.covered[c]
    requires 0 <= n < |CoverSeq(s0.lists[c])|
    ensures Headers <= CoverSeq(s0.lists[c])[n] < F.used
    ensures InColumn(s0, F, CoverSeq(s0.lists[c])[n])
    ensures F.columns[CoverSeq(s0.lists[c])[n]] != c
    ensures CoverSeq(s0.lists[c])[n] !in CoverSeq(s0.lists[c])[..n]
  {
    var L := s0.lists[c];
    CoverSeqLength(L);
    var k, t := n / 3, n % 3 + 1;
    CoverSeqSlice(L, k, t, n);
    CoverNext(s0, F, c, k, t);
  }

  /** One more node of the cover's sequence taken out keeps the progress invariant. */
  lemma CoverStateProgressStep(s0: State, F: Frame, c: int, n: int)
    requires ValidState(s0, F) && 0 <= c < Headers && !s0.covered[c]
    requires 0 <= n < |CoverSeq(s0.lists[c])|
    requires CoverProgress(s0, F, c, CoverSeq(s0.lists[c])[..n], CoverState(s0, F, c, CoverSeq(s0.lists[c])[..n]))
    ensures Detachable(CoverState(s0, F, c, CoverSeq(s0.lists[c])[..n]).mesh, F.columns, CoverSeq(s0.lists[c])[n])
    ensures InColumn(CoverState(s0, F, c, CoverSeq(s0.lists[c])[..n]), F, CoverSeq(s0.lists[c])[n])
    ensures CoverState(s0, F, c, CoverSeq(s0.lists[c])[..n + 1]) ==
            Detach(CoverState(s0, F, c, CoverSeq(s0.lists[c])[..n]), F, CoverSeq(s0.lists[c])[n])
    ensures CoverProgress(s0, F, c, CoverSeq(s0.lists[c])[..n + 1], CoverState(s0, F, c, CoverSeq(s0.lists[c])[..n + 1]))
  {
    var CS := CoverSeq(s0.lists[c]);
    var j := CS[n];
    CoverNextAt(s0, F, c, n);
    CoverProgressStep(s0, F, c, CS[..n], CoverState(s0, F, c, CS[..n]), j);
    TakeSnoc(CS, n);
  }

  /** Every prefix of a cover's node sequence leads to a state with the progress invariant. */
  lemma {:induction false} CoverStateProgress(s0: State, F: Frame, c: int, n: int)
    requires ValidState(s0, F) && 0 <= c < Headers && !s0.covered[c]
    requires 0 <= n <= |CoverSeq(s0.lists[c])|
    ensures CoverProgress(s0, F, c, CoverSeq(s0.lists[c])[..n], CoverState(s0, F, c, CoverSeq(s0.lists[c])[..n]))
    decreases n
  {
    var CS := CoverSeq(s0.lists[c]);
    if n == 0 {
      assert CS[..0] == [];
    } else {
      var m := n - 1;
      CoverStateProgress(s0, F, c, m);
      CoverStateProgressStep(s0, F, c, m);
      assert m + 1 == n;
    }
  }

  /** Cover never changes the links of column c itself. */
  lemma CoverStateColumn(s0: State, F: Frame, c: int, k: int)
    requires ValidState(s0, F) && 0 <= c < Headers && !s0.covered[c]
    requires 0 <= k < |s0.lists[c]|
    ensures 0 <= s0.lists[c][k] < |CoverState(s0, F, c, CoverSeq(s0.lists[c])[..3 * k + 3]).mesh.down|
    ensures CoverState(s0, F, c, CoverSeq(s0.lists[c])[..3 * k + 3]).mesh.down[s0.lists[c][k]] == Next(s0.lists[c], c, k)
  {
    var L := s0.lists[c];
    CoverStateProgress(s0, F, c, 3 * k + 3);
    var s := CoverState(s0, F, c, CoverSeq(L)[..3 * k + 3]);
    assert ListOk(s.mesh, F, c, L);
    LinkedAt(s.mesh, c, L, k);
  }

  /** Node n of the sequence a cover of a column with rows L takes out. */
  ghost function CoverNode(L: seq<int>, n: int): int
    requires 0 <= n < |CoverSeq(L)|
  {
    CoverSeq(L)[n]
  }

  /** The state after cover has marked column c and taken out the first n nodes of its sequence. */
  ghost function CoverAt(s0: State, F: Frame, c: int, n: int): State
    requires 0 <= c < |s0.lists| && 0 <= n <= |CoverSeq(s0.lists[c])|
    decreases n
  {
    if n == 0 then
      (if c < |s0.covered| then s0.(covered := s0.covered[c := true]) else s0)
    else
      Detach(CoverAt(s0, F, c, n - 1), F, CoverSeq(s0.lists[c])[n - 1])
  }

  lemma {:induction false} CoverAtState(s0: State, F: Frame, c: int, n: int)
    requires 0 <= c < |s0.lists| && 0 <= n <= |CoverSeq(s0.lists[c])|
    ensures CoverAt(s0, F, c, n) == CoverState(s0, F, c, CoverSeq(s0.lists[c])[..n])
    decreases n
  {
    var CS := CoverSeq(s0.lists[c]);
    if n == 0 {
      assert CS[..0] == [];
    } else {
      var m := n - 1;
      CoverAtState(s0, F, c, m);
      TakeSnoc(CS, m);
      assert m + 1 == n;
    }
  }

  /** Column c's down links after the first k + 1 rows of its cover. */
  lemma CoverAtColumn(s0: State, F: Frame, c: int, k: int)
    requires ValidState(s0, F) && 0 <= c < Headers && !s0.covered[c]
    requires 0 <= k < |s0.lists[c]|
    ensures 0 <= s0.lists[c][k] < |CoverAt(s0, F, c, 3 * k + 3).mesh.down|
    ensures CoverAt(s0, F, c, 3 * k + 3).mesh.down[s0.lists[c][k]] == Next(s0.lists[c], c, k)
  {
    CoverStateColumn(s0, F, c, k);
    CoverAtState(s0, F, c, 3 * k + 3);
  }

  /** Node 3k + t - 1 of a cover is mate t of its k-th row. */
  lemma CoverSeqAt(L: seq<int>, k: int, t: int, n: int)
    requires 0 <= k < |L| && 1 <= t < 4 && n == 3 * k + t - 1
    ensures 0 <= n < |CoverSeq(L)| && CoverNode(L, n) == Mate(L[k], t)
  {
    CoverSeqSlice(L, k, t, n);
  }

  /** The table after a cover of column c (solver.py:99-115) from state s0. */
  ghost function Covered(s0: State, F: Frame, c: int): State
    requires 0 <= c < |s0.lists|
  {
    CoverState(s0, F, c, CoverSeq(s0.lists[c]))
  }

  /** A whole cover of an uncovered column is the step CoverStep describes. */
  lemma CoverStateDone(s0: State, F: Frame, c: int)
    requires ValidState(s0, F) && 0 <= c < Headers && !s0.covered[c]
    ensures Covered(s0, F, c) == CoverAt(s0, F, c, |CoverSeq(s0.lists[c])|)
    ensures CoverStep(s0, F, c, Covered(s0, F, c))
    ensures ValidState(Covered(s0, F, c), F)
    ensures forall u :: 0 <= u < Headers ==> Covered(s0, F, c).mesh.sizes[u] <= s0.mesh.sizes[u]
    ensures forall x :: InColumn(Covered(s0, F, c), F, x) <==> InColumn(s0, F, x) && x !in CoverSeq(s0.lists[c])
    ensures Complete(s0, F) ==> Complete(Covered(s0, F, c), F)
  {
    var CS := CoverSeq(s0.lists[c]);
    CoverStateProgress(s0, F, c, |CS|);
    CoverAtState(s0, F, c, |CS|);
    assert CS[..|CS|] == CS;
    CoverValid(s0, F, c, Covered(s0, F, c));
    if Complete(s0, F) {
      CoverComplete(s0, F, c, Covered(s0, F, c));
    }
  }

  /** The states a cover of column c passes through, one per node it takes out. */
  ghost function CoverPathOf(s0: State, F: Frame, c: int): seq<State>
    requires 0 <= c < |s0.lists|
  {
    seq(|CoverSeq(s0.lists[c])| + 1, n requires 0 <= n <= |CoverSeq(s0.lists[c])| => CoverAt(s0, F, c, n))
  }

  /**
   * What the loops of cover and uncover rely on, step by step, for the
   * states P that a cover of column c passes through: every node the cover
   * takes out is linked when its turn comes and Detach is what taking it
   * out does; column c points down to its next row after each of its rows
   * and up to the row before once the rows below are back; and after the
   * cover, header c points up to its last row.
   */
  ghost predicate CoverPath(s0: State, F: Frame, c: int, P: seq<State>) {
    0 <= c < |s0.lists| && c < |s0.covered| && F.used <= |F.columns| &&
    |P| == |CoverSeq(s0.lists[c])| + 1 &&
    P[0] == s0.(covered := s0.covered[c := true]) &&
    P[|P| - 1] == Covered(s0, F, c) && Covered(s0, F, c).covered == s0.covered[c := true] &&
    c < |P[|P| - 1].mesh.up| && P[|P| - 1].mesh.up[c] == Last(s0.lists[c], c) &&
    (forall k :: 0 <= k < |s0.lists[c]| ==> Headers <= s0.lists[c][k] && Base(s0.lists[c][k]) + 4 <= |F.columns|) &&
    PathSteps(F, s0.lists[c], P) && PathColumn(s0.lists[c], c, P)
  }

  /** Each node of the cover is linked when its turn comes, and Detach is what taking it out does. */
  ghost predicate PathSteps(F: Frame, L: seq<int>, P: seq<State>) {
    |P| == |CoverSeq(L)| + 1 &&
    forall n {:trigger CoverNode(L, n)} :: 0 <= n < |CoverSeq(L)| ==>
      InColumn(P[n], F, CoverNode(L, n)) &&
      Detachable(P[n].mesh, F.columns, CoverNode(L, n)) &&
      P[n + 1] == Detach(P[n], F, CoverNode(L, n))
  }

  /** Row k of column c points down to the next row once it is done, and up to the row before before it is done. */
  ghost predicate PathColumn(L: seq<int>, c: int, P: seq<State>) {
    |P| == 3 * |L| + 1 &&
    (forall k {:trigger Next(L, c, k)} :: 0 <= k < |L| ==>
       0 <= L[k] < |P[3 * k + 3].mesh.down| && P[3 * k + 3].mesh.down[L[k]] == Next(L, c, k)) &&
    (forall k {:trigger Prev(L, c, k)} :: 0 <= k < |L| ==>
       0 <= L[k] < |P[3 * k].mesh.up| && P[3 * k].mesh.up[L[k]] == Prev(L, c, k))
  }

  /** Once row k of column c is done, it points down to the next row, or back to c after the last. */
  lemma ColumnStep(L: seq<int>, c: int, P: seq<State>, k: int)
    requires PathColumn(L, c, P) && 0 <= k < |L|
    ensures 0 <= L[k] < |P[3 * k + 3].mesh.down|
    ensures P[3 * k + 3].mesh.down[L[k]] == if k + 1 < |L| then L[k + 1] else c
  {
    assert Next(L, c, k) == if k + 1 < |L| then L[k + 1] else c;
  }

  /** Column c's up links after the first k rows of its cover. */
  lemma CoverAtColumnUp(s0: State, F: Frame, c: int, k: int)
    requires ValidState(s0, F) && 0 <= c < Headers && !s0.covered[c]
    requires 0 <= k < |s0.lists[c]|
    ensures 0 <= s0.lists[c][k] < |CoverAt(s0, F, c, 3 * k).mesh.up|
    ensures CoverAt(s0, F, c, 3 * k).mesh.up[s0.lists[c][k]] == Prev(s0.lists[c], c, k)
  {
    var L := s0.lists[c];
    CoverStateProgress(s0, F, c, 3 * k);
    CoverAtState(s0, F, c, 3 * k);
    var s := CoverAt(s0, F, c, 3 * k);
    assert ListOk(s.mesh, F, c, L);
    LinkedAt(s.mesh, c, L, k);
  }

  /** Step n of a cover: the node it takes out is linked at that moment, and Detach is what taking it out does. */
  lemma PathStepAt(s0: State, F: Frame, c: int, n: int)
    requires ValidState(s0, F) && 0 <= c < Headers && !s0.covered[c]
    requires 0 <= n < |CoverSeq(s0.lists[c])|
    ensures InColumn(CoverAt(s0, F, c, n), F, CoverNode(s0.lists[c], n))
    ensures Detachable(CoverAt(s0, F, c, n).mesh, F.columns, CoverNode(s0.lists[c], n))
    ensures CoverAt(s0, F, c, n + 1) == Detach(CoverAt(s0, F, c, n), F, CoverNode(s0.lists[c], n))
  {
    CoverStateProgress(s0, F, c, n);
    CoverStateProgressStep(s0, F, c, n);
    CoverAtState(s0, F, c, n);
  }

  lemma PathStepsHold(s0: State, F: Frame, c: int)
    requires ValidState(s0, F) && 0 <= c < Headers && !s0.covered[c]
    ensures PathSteps(F, s0.lists[c], CoverPathOf(s0, F, c))
  {
    var L := s0.lists[c];
    var P := CoverPathOf(s0, F, c);
    forall n | 0 <= n < |CoverSeq(L)|
      ensures InColumn(P[n], F, CoverNode(L, n))
      ensures Detachable(P[n].mesh, F.columns, CoverNode(L, n))
      ensures P[n + 1] == Detach(P[n], F, CoverNode(L, n))
    {
      PathStepAt(s0, F, c, n);
    }
  }

  lemma PathColumnHolds(s0: State, F: Frame, c: int)
    requires ValidState(s0, F) && 0 <= c < Headers && !s0.covered[c]
    ensures PathColumn(s0.lists[c], c, CoverPathOf(s0, F, c))
  {
    var L := s0.lists[c];
    var P := CoverPathOf(s0, F, c);
    forall k | 0 <= k < |L|
      ensures 0 <= L[k] < |P[3 * k + 3].mesh.down| && P[3 * k + 3].mesh.down[L[k]] == Next(L, c, k)
    {
      CoverAtColumn(s0, F, c, k);
    }
    forall k | 0 <= k < |L|
      ensures 0 <= L[k] < |P[3 * k].mesh.up| && P[3 * k].mesh.up[L[k]] == Prev(L, c, k)
    {
      CoverAtColumnUp(s0, F, c, k);
    }
  }

  /** From a valid table, cover and uncover of an uncovered column can take every step. */
  lemma CoverPathHolds(s0: State, F: Frame, c: int)
    requires ValidState(s0, F) && 0 <= c < Headers && !s0.covered[c]
    ensures CoverPath(s0, F, c, CoverPathOf(s0, F, c))
  {
    var L := s0.lists[c];
    assert ListOk(s0.mesh, F, c, L);
    PathStepsHold(s0, F, c);
    PathColumnHolds(s0, F, c);
    CoverStateDone(s0, F, c);
    CoverAtState(s0, F, c, 0);
    var s := Covered(s0, F, c);
    assert ListOk(s.mesh, F, c, L);
    forall k | 0 <= k < |L|
      ensures Headers <= L[k] && Base(L[k]) + 4 <= |F.columns|
    {
      RowEnd(L[k], F.used);
    }
  }

  /** Walking right from node i = L[k] meets the three nodes of L's cover after 3k, in order, then comes back to i. */
  ghost predicate RowRightOk(L: seq<int>, k: int, i: int, right: seq<int>) {
    0 <= k < |L| && i == L[k] && 3 * k + 3 <= |CoverSeq(L)| &&
    0 <= i < |right| && right[i] == CoverNode(L, 3 * k) &&
    forall m {:trigger CoverNode(L, m)} :: 3 * k <= m < 3 * k + 3 ==>
      0 <= CoverNode(L, m) < |right| && CoverNode(L, m) != i &&
      right[CoverNode(L, m)] == (if m + 1 < 3 * k + 3 then CoverSeq(L)[m + 1] else i)
  }

  /** Walking left from node i = L[k] meets the same three nodes in reverse, then comes back to i. */
  ghost predicate RowLeftOk(L: seq<int>, k: int, i: int, left: seq<int>) {
    0 <= k < |L| && i == L[k] && 3 * k + 3 <= |CoverSeq(L)| &&
    0 <= i < |left| && left[i] == CoverNode(L, 3 * k + 2) &&
    forall m {:trigger CoverNode(L, m)} :: 3 * k <= m < 3 * k + 3 ==>
      0 <= CoverNode(L, m) < |left| && CoverNode(L, m) != i &&
      left[CoverNode(L, m)] == (if m > 3 * k then CoverSeq(L)[m - 1] else i)
  }

  /** Node m of the cover, in row k, and its right neighbour. */
  lemma RowRightAt(L: seq<int>, k: int, right: seq<int>, m: int)
    requires 0 <= k < |L| && Headers <= L[k] && Base(L[k]) + 4 <= |right|
    requires forall x :: 0 <= x < |right| ==> right[x] == RightOf(x)
    requires 3 * k <= m < 3 * k + 3
    ensures 0 <= m < |CoverSeq(L)|
    ensures 0 <= CoverNode(L, m) < |right| && CoverNode(L, m) != L[k]
    ensures right[CoverNode(L, m)] == (if m + 1 < 3 * k + 3 then CoverSeq(L)[m + 1] else L[k])
  {
    var x, t := L[k], m - 3 * k + 1;
    CoverSeqAt(L, k, t, m);
    MateFacts(x, t);
    WalkStep(x, t);
    if t + 1 < 4 {
      CoverSeqAt(L, k, t + 1, m + 1);
    }
  }

  lemma RowRight(L: seq<int>, k: int, right: seq<int>)
    requires 0 <= k < |L| && Headers <= L[k] && Base(L[k]) + 4 <= |right|
    requires forall x :: 0 <= x < |right| ==> right[x] == RightOf(x)
    ensures RowRightOk(L, k, L[k], right)
  {
    forall m | 3 * k <= m < 3 * k + 3
      ensures 0 <= CoverNode(L, m) < |right| && CoverNode(L, m) != L[k]
      ensures right[CoverNode(L, m)] == (if m + 1 < 3 * k + 3 then CoverSeq(L)[m + 1] else L[k])
    {
      RowRightAt(L, k, right, m);
    }
    Walks(L[k]);
    CoverSeqAt(L, k, 1, 3 * k);
    CoverSeqAt(L, k, 3, 3 * k + 2);
  }

  /** Node m of the cover, in row k, and its left neighbour. */
  lemma RowLeftAt(L: seq<int>, k: int, left: seq<int>, m: int)
    requires 0 <= k < |L| && Headers <= L[k] && Base(L[k]) + 4 <= |left|
    requires forall x :: 0 <= x < |left| ==> left[x] == LeftOf(x)
    requires 3 * k <= m < 3 * k + 3
    ensures 0 <= m < |CoverSeq(L)|
    ensures 0 <= CoverNode(L, m) < |left| && CoverNode(L, m) != L[k]
    ensures left[CoverNode(L, m)] == (if m > 3 * k then CoverSeq(L)[m - 1] else L[k])
  {
    var x, t := L[k], m - 3 * k + 1;
    CoverSeqAt(L, k, t, m);
    MateFacts(x, t);
    WalkBack(x, t);
    if t > 1 {
      CoverSeqAt(L, k, t - 1, m - 1);
    }
  }

  lemma RowLeft(L: seq<int>, k: int, left: seq<int>)
    requires 0 <= k < |L| && Headers <= L[k] && Base(L[k]) + 4 <= |left|
    requires forall x :: 0 <= x < |left| ==> left[x] == LeftOf(x)
    ensures RowLeftOk(L, k, L[k], left)
  {
    forall m | 3 * k <= m < 3 * k + 3
      ensures 0 <= CoverNode(L, m) < |left| && CoverNode(L, m) != L[k]
      ensures left[CoverNode(L, m)] == (if m > 3 * k then CoverSeq(L)[m - 1] else L[k])
    {
      RowLeftAt(L, k, left, m);
    }
    Walks(L[k]);
    CoverSeqAt(L, k, 3, 3 * k + 2);
    CoverSeqAt(L, k, 1, 3 * k);
  }

  /** Relinking node p of a cover undoes its unlink. */
  lemma UncoverStep(F: Frame, L: seq<int>, P: seq<State>, p: int)
    requires PathSteps(F, L, P) && 0 <= p < |CoverSeq(L)|
    ensures Linkable(P[p + 1].mesh, F.columns, CoverNode(L, p))
    ensures Relink(P[p + 1].mesh, F.columns, CoverNode(L, p)) == P[p].mesh
  {
    var j := CoverNode(L, p);
    assert InColumn(P[p], F, j) && Detachable(P[p].mesh, F.columns, j);
    assert P[p + 1] == Detach(P[p], F, j);
    RelinkUnlink(P[p].mesh, F.columns, j);
  }

  /**
   * The states a walk along row x passes through while covering the columns
   * of x's other three nodes (solver.py:159-160): T[i] is the state before
   * the column of the node i + 1 places to the right of x is covered, and
   * the state after that cover is T[i + 1], or s after the last one.
   */
  ghost predicate RowTrail(F: Frame, x: int, T: seq<State>, s: State)
    decreases |T|
  {
    |T| <= 3 &&
    (T != [] ==>
       var n := |T|;
       0 <= Mate(x, n) < |F.columns| && 0 <= ColumnOfMate(F, x, n) < Headers &&
       ValidState(T[n - 1], F) && !T[n - 1].covered[ColumnOfMate(F, x, n)] &&
       s == Covered(T[n - 1], F, ColumnOfMate(F, x, n)) &&
       RowTrail(F, x, T[..n - 1], T[n - 1]))
  }

  /** One more cover along the row extends the trail by the state before it. */
  lemma TrailSnoc(F: Frame, x: int, T: seq<State>, s: State, s': State)
    requires RowTrail(F, x, T, s) && |T| < 3
    requires 0 <= Mate(x, |T| + 1) < |F.columns| && 0 <= ColumnOfMate(F, x, |T| + 1) < Headers
    requires ValidState(s, F) && !s.covered[ColumnOfMate(F, x, |T| + 1)]
    requires s' == Covered(s, F, ColumnOfMate(F, x, |T| + 1))
    ensures RowTrail(F, x, T + [s], s')
  {
    assert (T + [s])[..|T|] == T;
  }

  /** The trail with its last state dropped ends in that state. */
  lemma TrailTake(F: Frame, x: int, T: seq<State>, s: State, t: int)
    requires 0 < t <= |T| && RowTrail(F, x, T[..t], s)
    ensures 0 <= Mate(x, t) < |F.columns| && 0 <= ColumnOfMate(F, x, t) < Headers
    ensures ValidState(T[t - 1], F) && !T[t - 1].covered[ColumnOfMate(F, x, t)]
    ensures s == Covered(T[t - 1], F, ColumnOfMate(F, x, t))
    ensures RowTrail(F, x, T[..t - 1], T[t - 1])
  {
    assert T[..t][t - 1] == T[t - 1];
    assert T[..t][..t - 1] == T[..t - 1];
  }

  /** The flags cov with the columns of the first n nodes to the right of x covered. */
  ghost function MarkMates(F: Frame, cov: seq<bool>, x: int, n: int): (r: seq<bool>)
    requires 0 <= n <= 3
    requires forall t :: 1 <= t <= 3 ==> 0 <= Mate(x, t) < |F.columns| && 0 <= ColumnOfMate(F, x, t) < |cov|
    ensures |r| == |cov|
    decreases n
  {
    if n == 0 then cov else MarkMates(F, cov, x, n - 1)[ColumnOfMate(F, x, n) := true]
  }

  /**
   * Along a trail the table stays valid and complete, the choice stays safe,
   * and the flags gain exactly the columns covered.
   */
  lemma {:induction false} TrailFacts(F: Frame, x: int, T: seq<State>, s: State, maxSize: int)
    requires 0 < |T| && RowTrail(F, x, T, s)
    requires forall t :: 1 <= t <= 3 ==> 0 <= Mate(x, t) < |F.columns| && 0 <= ColumnOfMate(F, x, t) < Headers
    ensures ValidState(s, F)
    ensures |T[0].covered| == Headers && s.covered == MarkMates(F, T[0].covered, x, |T|)
    ensures Complete(T[0], F) ==> Complete(s, F)
    ensures ReadyAt(T[0], maxSize, F.used) ==> ReadyAt(s, maxSize, F.used)
    decreases |T|
  {
    var n := |T|;
    var last := T[n - 1];
    var c := ColumnOfMate(F, x, n);
    CoverStateDone(last, F, c);
    if n > 1 {
      TrailFacts(F, x, T[..n - 1], last, maxSize);
      assert T[..n - 1][0] == T[0];
    }
  }

  /** Covering a column keeps the table safe for the choice of solver.py:151. */
  lemma CoverReady(s0: State, F: Frame, c: int, maxSize: int, used: int)
    requires ValidState(s0, F) && 0 <= c < Headers && !s0.covered[c]
    ensures ReadyAt(s0, maxSize, used) ==> ReadyAt(Covered(s0, F, c), maxSize, used)
  {
    CoverStateDone(s0, F, c);
  }

  /**
   * A row k of the chosen uncovered column c, seen right after c was covered
   * (state s1): its other three columns are distinct and still uncovered,
   * and its placement has a row in the table and fits the flags s0 had.
   */
  lemma RowStart(F: Frame, s0: State, s1: State, c: int, k: int)
    requires ValidState(s0, F) && 0 <= c < Headers && !s0.covered[c] && 0 <= k < |s0.lists[c]|
    requires s1.covered == s0.covered[c := true]
    ensures Headers <= s0.lists[c][k] < F.used && Base(s0.lists[c][k]) + 4 <= |F.columns| && F.columns[s0.lists[c][k]] == c
    ensures F.actions[s0.lists[c][k]] == Some(Placement(F, s0.lists[c][k]))
    ensures HasRow(F, Placement(F, s0.lists[c][k])) && Fits(s0.covered, Placement(F, s0.lists[c][k]))
    ensures forall t :: 1 <= t < 4 ==>
              0 <= Mate(s0.lists[c][k], t) < |F.columns| && 0 <= F.columns[Mate(s0.lists[c][k], t)] < Headers &&
              !s1.covered[F.columns[Mate(s0.lists[c][k], t)]]
    ensures forall t, t' :: 1 <= t < t' < 4 ==>
              F.columns[Mate(s0.lists[c][k], t)] != F.columns[Mate(s0.lists[c][k], t')]
  {
    RowFits(s0, F, c, k);
    RowEnd(s0.lists[c][k], F.used);
  }

  /**
   * solver.py:151 on a table that is ready for it: the column chosen is
   * uncovered, or, in a table without rows, is column 0; with its flag
   * cleared the table is valid and complete.
   */
  lemma ChoiceSafe(s0: State, F: Frame, maxSize: int, u0: int)
    requires ValidState(s0, F) && Complete(s0, F) && ReadyAt(s0, maxSize, F.used)
    requires 0 <= u0 < Headers && !s0.covered[u0]
    ensures var column := ArgMin(Masked(s0.covered, s0.mesh.sizes, maxSize));
            var base := s0.(covered := s0.covered[column := false]);
            0 <= column < Headers && ValidState(base, F) && Complete(base, F) &&
            (maxSize > 0 ==> base == s0) &&
            (maxSize == 0 ==> column == 0 && F.used == Headers && s0.lists[column] == [])
  {
    var column := ArgMin(Masked(s0.covered, s0.mesh.sizes, maxSize));
    var base := s0.(covered := s0.covered[column := false]);
    if maxSize > 0 {
      ChoiceOpen(s0.covered, s0.mesh.sizes, maxSize, u0);
      assert base == s0;
    } else {
      NoRows(s0, F);
      ChoiceFirst(s0.covered, s0.mesh.sizes, maxSize);
      NoRowsFlags(s0, F, base.covered);
    }
  }

  /**
   * solver.py:172-174: when no row of the chosen column leads to a
   * solution, there is none at all.
   */
  lemma Exhausted(s0: State, F: Frame, column: int, maxSize: int, u0: int)
    requires ValidState(s0, F) && Complete(s0, F) && |s0.covered| == Headers && 0 <= column < Headers
    requires 0 <= u0 < Headers && !s0.covered[u0] && maxSize >= 0
    requires maxSize > 0 ==> !s0.covered[column]
    requires maxSize == 0 ==> F.used == Headers
    requires maxSize > 0 ==> forall j :: 0 <= j < |s0.lists[column]| ==>
               Headers <= s0.lists[column][j] < F.used && Excluded(F, s0.covered, Placement(F, s0.lists[column][j]))
    ensures Unsolvable(F, s0.covered)
  {
    if maxSize > 0 {
      forall a | HasRow(F, a) && Fits(s0.covered, a) && column in ConstraintsOf(a)
        ensures Excluded(F, s0.covered, a)
      {
        Candidates(s0, F, column, a);
      }
      NoneAtAll(F, s0.covered, column);
    } else {
      NoRowsNoCover(F, s0.covered, u0);
    }
  }

  /**
   * solver.py:154-162 on the flags: covering the chosen column c and then the
   * columns of the other three nodes of its row x puts x's placement in and
   * leaves fewer constraints open than covering c alone.
   */
  lemma FlagsAfter(F: Frame, cov: seq<bool>, c: int, x: int, cov': seq<bool>)
    requires RowsValid(F) && Headers <= x < F.used && |cov| == Headers && 0 <= c < Headers
    requires 0 <= Mate(x, 0) < |F.columns| && ColumnOfMate(F, x, 0) == c
    requires forall t :: 1 <= t <= 3 ==> 0 <= Mate(x, t) < |F.columns| && 0 <= ColumnOfMate(F, x, t) < Headers
    requires ColumnOfMate(F, x, 1) != c && !cov[ColumnOfMate(F, x, 1)]
    requires cov' == MarkMates(F, cov[c := true], x, 3)
    ensures cov' == Place(cov, Placement(F, x))
    ensures OpenCount(cov') < OpenCount(cov[c := true])
  {
    PlaceRow(F, cov, x);
    RowConstraints(F, x, c);
    PlaceShrinks(F, cov, c, x);
  }

  /**
   * solver.py:154-162: after covering the chosen column c and the other
   * columns of its k-th row, the flags are those of s0 with the row's
   * placement put in, fewer constraints are open, and the table is still
   * valid, complete and safe for the next choice.
   */
  lemma Descent(F: Frame, cov0: seq<bool>, s1: State, c: int, x: int, T: seq<State>, s2: State, maxSize: int)
    requires RowsValid(F) && Headers <= x < F.used && 0 <= c < Headers && |cov0| == Headers && F.columns[x] == c
    requires s1.covered == cov0[c := true] && Complete(s1, F) && ReadyAt(s1, maxSize, F.used)
    requires forall t :: 1 <= t <= 3 ==>
               0 <= Mate(x, t) < |F.columns| && 0 <= ColumnOfMate(F, x, t) < Headers && !s1.covered[ColumnOfMate(F, x, t)]
    requires |T| == 3 && T[0] == s1 && RowTrail(F, x, T, s2)
    ensures s2.covered == Place(cov0, Placement(F, x))
    ensures OpenCount(s2.covered) < OpenCount(s1.covered)
    ensures ValidState(s2, F) && Complete(s2, F) && ReadyAt(s2, maxSize, F.used)
  {
    TrailFacts(F, x, T, s2, maxSize);
    MateFacts(x, 0);
    FlagsAfter(F, cov0, c, x, s2.covered);
  }

  class SudokuConstraints {
    /** solver.py:30-31: the vertical links, changed by cover and uncover. */
    const up: array<int>
    const down: array<int>
    /** solver.py:17: the size of each column, changed by cover and uncover. */
    const sizes: array<int>
    /** solver.py:18: which columns are covered. */
    const covered: array<bool>
    /** solver.py:34-37: the horizontal links, fixed by the construction. */
    const left: seq<int>
    const right: seq<int>
    /** solver.py:24: the column of each node. */
    const columns: seq<int>
    /** solver.py:27: the placement each row node stands for. */
    const actions: seq<Option<Action>>
    /** solver.py:21: the size given to covered columns when choosing the next one. */
    const maxSize: int
    /** The first node no row was put in (`next_index` at the end of the construction). */
    ghost const used: int
    /** The node order of every column, header excluded. */
    ghost var lists: seq<seq<int>>

    /** The arrays have the right lengths. */
    ghost predicate Shape() {
      up.Length == down.Length == |left| == |right| == |columns| == |actions| &&
      sizes.Length == Headers && covered.Length == Headers &&
      up != down && up != sizes && down != sizes
    }

    /** ... and the horizontal links are those of solver.py:34-37. */
    ghost predicate Fixed() {
      Shape() &&
      (forall x :: 0 <= x < |right| ==> right[x] == RightOf(x)) &&
      (forall x :: 0 <= x < |left| ==> left[x] == LeftOf(x))
    }

    ghost function F(): Frame {
      Frame(columns, actions, used)
    }

    ghost function St(): State
      reads this`lists, up, down, sizes, covered
    {
      State(Mesh(up[..], down[..], sizes[..]), covered[..], lists)
    }

    ghost predicate Valid()
      reads this, up, down, sizes, covered
    {
      Fixed() && ValidState(St(), F())
    }

    /**
     * What makes the choice of solver.py:151 an uncovered column whenever
     * there is one: either the puzzle had no empty cell (no rows, max_size
     * 0), or every uncovered column is smaller than max_size.
     */
    ghost predicate Ready()
      reads this`lists, up, down, sizes, covered
    {
      ReadyAt(St(), maxSize, used)
    }

    /**
     * solver.py:9-56: the table for the puzzle sudoku (cell 9 * row + col):
     * the state and rows Initial and InitialFrame describe, `max_size` nine
     * rows per empty cell, and the invariants every later operation keeps.
     */
    constructor (sudoku: array<int>)
      requires IsGrid(sudoku[..])
      ensures Valid() && Complete(St(), F()) && Ready()
      ensures St() == Initial(sudoku[..]) && F() == InitialFrame(sudoku[..]) && maxSize == 9 * ZeroCount(sudoku[..])
      ensures fresh(up) && fresh(down) && fresh(sizes) && fresh(covered)
    {
      var g := sudoku[..];
      var b := new Builder(g);
      InitialTable(g);
      up, down, sizes, covered := b.up, b.down, b.sizes, b.covered;
      left, right := seq(b.columns.Length, LeftOf), seq(b.columns.Length, RightOf);
      columns, actions := b.columns[..], b.actions[..];
      maxSize, used, lists := 9 * ZeroCount(g), b.next, b.lists;
    }

    /** solver.py:113-115: splice node j out of its column. */
    method UnlinkNode(j: int)
      requires Shape() && Detachable(St().mesh, columns, j)
      modifies up, down, sizes
      ensures St().mesh == Unlink(old(St().mesh), columns, j)
    {
      ghost var m := St().mesh;
      UnlinkShape(m, columns, j);
      up[down[j]] := up[j];
      down[up[j]] := down[j];
      sizes[columns[j]] := sizes[columns[j]] - 1;
    }

    /** solver.py:113-115 on a linked node j, with the column orders kept up to date. */
    method DetachNode(j: int)
      requires Shape() && InColumn(St(), F(), j) && Detachable(St().mesh, columns, j)
      modifies up, down, sizes, this`lists
      ensures St() == Detach(old(St()), F(), j)
    {
      ghost var s := St();
      UnlinkNode(j);
      lists := Detach(s, F(), j).lists;
    }

    /**
     * solver.py:112-115, one row of a cover: every node of the row of node
     * i = L[k] other than i, walking right, is taken out of its column, the
     * steps 3k to 3k + 2 of the path P of the cover.
     */
    method CoverRow(ghost F0: Frame, ghost L: seq<int>, ghost P: seq<State>, ghost k: int, ghost n: int, i: int)
      requires Shape() && F() == F0 && PathSteps(F0, L, P) && RowRightOk(L, k, i, right)
      requires n == 3 * k && St() == P[n]
      modifies up, down, sizes, this`lists
      ensures St() == P[n + 3]
    {
      var j := right[i];
      ghost var m := n;
      while j != i
        invariant n <= m <= n + 3
        invariant m < n + 3 ==> j == CoverNode(L, m) && j != i
        invariant m == n + 3 ==> j == i
        invariant St() == P[m]
        decreases n + 3 - m
      {
        DetachNode(j);
        j := right[j];
        m := m + 1;
      }
    }

    /** solver.py:109-115: the rows of the column being covered, from the top down. */
    method CoverRows(ghost F0: Frame, ghost L: seq<int>, ghost P: seq<State>, column: int)
      requires Fixed() && F() == F0 && PathSteps(F0, L, P) && PathColumn(L, column, P)
      requires forall k :: 0 <= k < |L| ==> Headers <= L[k] && Base(L[k]) + 4 <= |F0.columns|
      requires 0 <= column < Headers && column < down.Length && down[column] == First(L, column)
      requires St() == P[0]
      modifies up, down, sizes, this`lists
      ensures St() == P[|P| - 1]
    {
      var i := down[column];
      ghost var k := 0;
      ghost var n := 0;
      while i != column
        invariant 0 <= k <= |L| && n == 3 * k
        invariant k < |L| ==> i == L[k] && Headers <= i
        invariant k == |L| ==> i == column
        invariant St() == P[n]
        decreases |L| - k
      {
        RowRight(L, k, right);
        CoverRow(F0, L, P, k, n, i);
        ColumnStep(L, column, P, k);
        assert down[..] == P[n + 3].mesh.down;
        i := down[i];
        k, n := k + 1, n + 3;
      }
    }

    /**
     * solver.py:99-115: covering an uncovered column marks it covered and
     * takes every other node of each of its rows out of its column; the
     * column keeps its own rows. A covered column is left as it is.
     */
    method Cover(column: int)
      requires Valid() && 0 <= column < Headers
      modifies up, down, sizes, covered, this`lists
      ensures Valid()
      ensures old(covered[column]) ==> St() == old(St())
      ensures !old(covered[column]) ==> St() == Covered(old(St()), F(), column)
      ensures !old(covered[column]) ==> CoverStep(old(St()), F(), column, St())
      ensures covered[..] == old(covered[..])[column := true]
      ensures Complete(old(St()), F()) ==> Complete(St(), F())
      ensures old(Ready()) ==> Ready()
    {
      if covered[column] {
        return;
      }
      ghost var s0 := St();
      ghost var P := CoverPathOf(s0, F(), column);
      CoverPathHolds(s0, F(), column);
      assert ListOk(s0.mesh, F(), column, s0.lists[column]);
      covered[column] := true;
      CoverRows(F(), s0.lists[column], P, column);
      CoverStateDone(s0, F(), column);
      CoverReady(s0, F(), column, maxSize, used);
    }
      /** solver.py:131-133: splice node j back between the neighbours it points to. */
    method RelinkNode(j: int)
      requires Shape() && Linkable(St().mesh, columns, j)
      modifies up, down, sizes
      ensures St().mesh == Relink(old(St().mesh), columns, j)
    {
      sizes[columns[j]] := sizes[columns[j]] + 1;
      down[up[j]] := j;
      up[down[j]] := j;
    }

    /** solver.py:131-133 on node j = step p of the cover P: back from the state after that step to the one before. */
    method RestoreNode(ghost F0: Frame, ghost L: seq<int>, ghost P: seq<State>, ghost p: int, j: int)
      requires Shape() && F() == F0 && PathSteps(F0, L, P) && 0 <= p < |CoverSeq(L)| && j == CoverNode(L, p)
      requires St().mesh == P[p + 1].mesh
      modifies up, down, sizes, this`lists
      ensures St().mesh == P[p].mesh && lists == P[p].lists
    {
      UncoverStep(F0, L, P, p);
      RelinkNode(j);
      lists := P[p].lists;
    }

    /**
     * solver.py:130-133, one row of an uncover: the nodes of the row of node
     * i = L[k] other than i, walking left, are put back into their columns,
     * going back from step 3k + 3 to step 3k of the path P of the cover.
     */
    method UncoverRow(ghost F0: Frame, ghost L: seq<int>, ghost P: seq<State>, ghost k: int, ghost n: int, i: int)
      requires Shape() && F() == F0 && PathSteps(F0, L, P) && RowLeftOk(L, k, i, left)
      requires n == 3 * k && St().mesh == P[n + 3].mesh && lists == P[n + 3].lists
      modifies up, down, sizes, this`lists
      ensures St().mesh == P[n].mesh && lists == P[n].lists
    {
      var j := left[i];
      ghost var m := n + 3;
      while j != i
        invariant n <= m <= n + 3
        invariant m > n ==> j == CoverNode(L, m - 1) && j != i
        invariant m == n ==> j == i
        invariant St().mesh == P[m].mesh && lists == P[m].lists
        decreases m
      {
        ghost var p := m - 1;
        assert p + 1 == m;
        RestoreNode(F0, L, P, p, j);
        j := left[j];
        m := p;
      }
    }

    /** solver.py:127-133: the rows of the column being uncovered, from the bottom up. */
    method UncoverRows(ghost F0: Frame, ghost L: seq<int>, ghost P: seq<State>, column: int)
      requires Shape() && (forall x :: 0 <= x < |left| ==> left[x] == LeftOf(x)) && F() == F0 && PathSteps(F0, L, P) && PathColumn(L, column, P)
      requires forall k :: 0 <= k < |L| ==> Headers <= L[k] && Base(L[k]) + 4 <= |F0.columns|
      requires 0 <= column < Headers && column < up.Length && up[column] == Last(L, column)
      requires St().mesh == P[|P| - 1].mesh && lists == P[|P| - 1].lists
      modifies up, down, sizes, this`lists
      ensures St().mesh == P[0].mesh && lists == P[0].lists
    {
      var i := up[column];
      ghost var k := |L| - 1;
      ghost var n := 3 * |L|;
      while i != column
        invariant -1 <= k < |L| && n == 3 * k + 3
        invariant k >= 0 ==> i == L[k] && Headers <= i
        invariant k == -1 ==> i == column
        invariant St().mesh == P[n].mesh && lists == P[n].lists
        decreases k
      {
        ghost var n' := n - 3;
        assert n' == 3 * k;
        assert 0 <= L[k] < |P[3 * k].mesh.up| && P[3 * k].mesh.up[L[k]] == Prev(L, column, k);
        RowLeft(L, k, left);
        UncoverRow(F0, L, P, k, n', i);
        assert up[i] == P[n'].mesh.up[L[k]] == Prev(L, column, k);
        i := up[i];
        k, n := k - 1, n';
      }
    }

    /**
     * solver.py:117-133: uncovering a column right after it was covered from
     * a valid table s0 gives back s0 exactly: every link, size and flag. An
     * uncovered column is left as it is.
     */
    method Uncover(column: int, ghost s0: State)
      requires Fixed() && 0 <= column < Headers
      requires covered[column] ==> ValidState(s0, F()) && !s0.covered[column] && St() == Covered(s0, F(), column)
      modifies up, down, sizes, covered, this`lists
      ensures old(covered[column]) ==> St() == s0
      ensures !old(covered[column]) ==> St() == old(St())
    {
      if !covered[column] {
        return;
      }
      ghost var P := CoverPathOf(s0, F(), column);
      CoverPathHolds(s0, F(), column);
      covered[column] := false;
      assert covered[..] == s0.covered;
      UncoverRows(F(), s0.lists[column], P, column);
    }
    /**
     * solver.py:159-160: walking right from node `row`, cover the column of
     * each of the row's other three nodes. T records the state before each
     * of those covers, for the walk back.
     */
    method CoverRowColumns(row: int) returns (ghost T: seq<State>)
      requires Valid() && Headers <= row < used
      requires forall t :: 1 <= t < 4 ==>
                 0 <= Mate(row, t) < |columns| && 0 <= columns[Mate(row, t)] < Headers &&
                 !covered[columns[Mate(row, t)]]
      requires forall t, t' :: 1 <= t < t' < 4 ==> columns[Mate(row, t)] != columns[Mate(row, t')]
      modifies up, down, sizes, covered, this`lists
      ensures Valid() && |T| == 3 && T[0] == old(St()) && RowTrail(F(), row, T, St())
    {
      ghost var s0 := St();
      Walks(row);
      var node := right[row];
      ghost var t := 1;
      T := [];
      while node != row
        invariant 1 <= t <= 4 && |T| == t - 1
        invariant t < 4 ==> node == Mate(row, t)
        invariant t == 4 ==> node == row
        invariant Valid()
        invariant t == 1 ==> St() == s0
        invariant t > 1 ==> T[0] == s0
        invariant RowTrail(F(), row, T, St())
        invariant forall t' :: t <= t' < 4 ==> !covered[columns[Mate(row, t')]]
        decreases 4 - t
      {
        T := CoverMate(row, node, t, T);
        WalkStep(row, t);
        node := right[node];
        t := t + 1;
      }
    }

    /** solver.py:160 for the node t places right of `row`: one more step of the trail of covers. */
    method CoverMate(row: int, node: int, ghost t: int, ghost T: seq<State>) returns (ghost T': seq<State>)
      requires Valid() && Headers <= row && 1 <= t < 4 && |T| == t - 1 && RowTrail(F(), row, T, St())
      requires node == Mate(row, t) && 0 <= node < |columns| && 0 <= columns[node] < Headers && !covered[columns[node]]
      modifies up, down, sizes, covered, this`lists
      ensures Valid() && T' == T + [old(St())] && RowTrail(F(), row, T', St())
      ensures covered[..] == old(covered[..])[columns[node] := true]
    {
      ghost var s := St();
      Cover(columns[node]);
      TrailSnoc(F(), row, T, s, St());
      T' := T + [s];
    }

    /**
     * solver.py:169-170: walking left from node `row`, uncover the columns
     * the walk right covered, in reverse order, back to the state before it.
     */
    method UncoverRowColumns(row: int, ghost T: seq<State>)
      requires Fixed() && Headers <= row && Base(row) + 4 <= |columns| && |T| == 3 && RowTrail(F(), row, T, St())
      modifies up, down, sizes, covered, this`lists
      ensures St() == T[0]
    {
      Walks(row);
      var node := left[row];
      ghost var t := 3;
      assert T[..3] == T;
      while node != row
        invariant 0 <= t <= 3
        invariant t > 0 ==> node == Mate(row, t)
        invariant t == 0 ==> node == row
        invariant RowTrail(F(), row, T[..t], St())
        invariant t < 3 ==> St() == T[t]
        decreases t
      {
        ghost var c := ColumnOfMate(F(), row, t);
        TrailTake(F(), row, T, St(), t);
        CoverStateDone(T[t - 1], F(), c);
        Uncover(columns[node], T[t - 1]);
        WalkBack(row, t);
        node := left[node];
        t := t - 1;
      }
    }

    /**
     * solver.py:135-174, Algorithm X. It answers whether the placements the
     * table has rows for can meet every constraint not yet covered exactly
     * once: a solution is an exact cover of the flags at entry, and "no" means
     * there is none. When it fails, the table is back as it was, except for
     * the edge case of a puzzle without empty cells, where the flag of
     * column 0 ends up cleared.
     */
    method Solve() returns (found: bool, solution: seq<Action>)
      requires Valid() && Complete(St(), F()) && Ready()
      modifies up, down, sizes, covered, this`lists
      ensures Valid() && Complete(St(), F()) && Ready()
      ensures found ==> ExactCover(F(), old(covered[..]), solution)
      ensures found ==> forall u :: 0 <= u < Headers ==> covered[u]
      ensures !found ==> Unsolvable(F(), old(covered[..]))
      ensures !found && maxSize > 0 ==> St() == old(St())
      ensures !found && maxSize == 0 ==> St() == old(St()).(covered := old(covered[..])[0 := false])
      ensures (forall u :: 0 <= u < Headers ==> old(covered[u])) ==> found && solution == [] && St() == old(St())
      decreases OpenCount(covered[..]), 3
    {
      if forall u | 0 <= u < Headers :: covered[u] {
        NothingLeft(F(), covered[..]);
        return true, [];
      }
      ghost var F0 := F();
      ghost var s0 := St();
      ghost var u0 :| 0 <= u0 < Headers && !covered[u0];
      var column := ArgMin(Masked(covered[..], sizes[..], maxSize));
      ghost var base := s0.(covered := s0.covered[column := false]);
      ChoiceSafe(s0, F0, maxSize, u0);
      found, solution := Branch(F0, s0, base, column);
      if found {
        return;
      }
      Exhausted(s0, F0, column, maxSize, u0);
      return false, [];
    }

    /**
     * solver.py:152-172, the branch on the chosen column: cover it, try its
     * rows one after the other, and uncover it again when none of them leads
     * to a solution. The state base is s0 with the column's flag cleared.
     */
    method Branch(ghost F0: Frame, ghost s0: State, ghost base: State, column: int)
      returns (found: bool, solution: seq<Action>)
      requires Fixed() && F() == F0 && St() == s0 && ValidState(s0, F0) && ReadyAt(s0, maxSize, used)
      requires 0 <= column < Headers && base == s0.(covered := s0.covered[column := false])
      requires ValidState(base, F0) && Complete(base, F0)
      requires s0.covered[column] ==> s0.lists[column] == []
      modifies up, down, sizes, covered, this`lists
      ensures found ==> base == s0 && Valid() && Complete(St(), F()) && Ready()
      ensures found ==> ExactCover(F0, s0.covered, solution) && forall u :: 0 <= u < Headers ==> covered[u]
      ensures !found ==> St() == base
      ensures !found ==> forall j :: 0 <= j < |base.lists[column]| ==>
                Headers <= base.lists[column][j] < F0.used && Excluded(F0, base.covered, Placement(F0, base.lists[column][j]))
      decreases OpenCount(s0.covered), 2
    {
      assert ListOk(s0.mesh, F0, column, s0.lists[column]);
      assert !s0.covered[column] ==> base == s0;
      assert s0.covered[column] ==> base.(covered := base.covered[column := true]) == s0 && CoverSeq([]) == [];
      Cover(column);
      assert St() == Covered(base, F0, column);
      ghost var s1 := St();
      CoverStateDone(base, F0, column);
      OpenCountMono(s0.covered, s1.covered);
      found, solution := TryRows(F0, base, s1, column);
      if found {
        return;
      }
      Uncover(column, base);
    }

    /**
     * solver.py:153-170, the loop of solve over the rows of the chosen
     * column, which has just been covered (state s1 after state s0): it stops
     * at the first row that leads to a solution, and otherwise leaves the
     * table as it found it, having shown that no placement of the column's
     * rows is part of a solution.
     */
    method TryRows(ghost F0: Frame, ghost s0: State, ghost s1: State, column: int)
      returns (found: bool, solution: seq<Action>)
      requires Fixed() && F() == F0 && St() == s1
      requires ValidState(s0, F0) && 0 <= column < Headers && !s0.covered[column]
      requires ValidState(s1, F0) && Complete(s1, F0) && ReadyAt(s1, maxSize, used)
      requires s1.covered == s0.covered[column := true] && s1.lists[column] == s0.lists[column]
      modifies up, down, sizes, covered, this`lists
      ensures found ==> s0.lists[column] != [] && Valid() && Complete(St(), F()) && Ready()
      ensures found ==> ExactCover(F0, s0.covered, solution) && forall u :: 0 <= u < Headers ==> covered[u]
      ensures !found ==> St() == s1
      ensures !found ==> forall j :: 0 <= j < |s0.lists[column]| ==>
                Headers <= s0.lists[column][j] < F0.used && Excluded(F0, s0.covered, Placement(F0, s0.lists[column][j]))
      decreases OpenCount(s1.covered), 1
    {
      ghost var L := s0.lists[column];
      assert ListOk(s1.mesh, F0, column, L);
      var row := down[column];
      ghost var k := 0;
      while row != column
        invariant St() == s1
        invariant 0 <= k <= |L| && (k < |L| ==> row == L[k]) && (k == |L| ==> row == column)
        invariant forall j :: 0 <= j < k ==>
                    Headers <= L[j] < used && Excluded(F0, s0.covered, Placement(F0, L[j]))
        decreases |L| - k
      {
        found, solution := TryRow(F0, s0, s1, column, k, row);
        if found {
          return;
        }
        LinkedAt(s1.mesh, column, L, k);
        row := down[row];
        k := k + 1;
      }
      return false, [];
    }

    /**
     * solver.py:158-170, one turn of the loop of solve: for the row of node
     * `row`, k-th of the chosen column, cover the columns of its other
     * nodes, search on, and either add the row's placement to the solution
     * found or uncover those columns again, which shows that no solution
     * uses that placement.
     */
    method TryRow(ghost F0: Frame, ghost s0: State, ghost s1: State, ghost column: int, ghost k: int, row: int)
      returns (found: bool, solution: seq<Action>)
      requires Fixed() && F() == F0 && St() == s1
      requires ValidState(s0, F0) && 0 <= column < Headers && !s0.covered[column]
      requires ValidState(s1, F0) && Complete(s1, F0) && ReadyAt(s1, maxSize, used)
      requires s1.covered == s0.covered[column := true]
      requires 0 <= k < |s0.lists[column]| && row == s0.lists[column][k]
      modifies up, down, sizes, covered, this`lists
      ensures found ==> Valid() && Complete(St(), F()) && Ready()
      ensures found ==> ExactCover(F0, s0.covered, solution) && forall u :: 0 <= u < Headers ==> covered[u]
      ensures !found ==> St() == s1 && Headers <= row < used && Excluded(F0, s0.covered, Placement(F0, row))
      decreases OpenCount(s1.covered), 0
    {
      RowStart(F0, s0, s1, column, k);
      ghost var a := Placement(F0, row);
      ghost var T := CoverRowColumns(row);
      ghost var s2 := St();
      Descent(F0, s0.covered, s1, column, row, T, s2, maxSize);
      var sol;
      found, sol := Solve();
      if found {
        Extend(F0, s0.covered, a, sol);
        solution := sol + [actions[row].value];
        return;
      }
      assert St() == s2;
      UncoverRowColumns(row, T);
      NoneThrough(F0, s0.covered, a);
      solution := [];
    }
  }
}
