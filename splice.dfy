/**
 * The vertical links of the dancing-links matrix as values: the `up`, `down`
 * and `sizes` arrays of solver.py, and the splice steps that `cover` and
 * `uncover` apply to them (solver.py:112-115 and solver.py:130-133).
 */
module Splice {

  /** The part of the matrix that cover and uncover change (besides the covered flags). */
  datatype Mesh = Mesh(up: seq<int>, down: seq<int>, sizes: seq<int>)

  /** Node j, its two vertical neighbours and its column are valid indices. */
  predicate Linkable(m: Mesh, columns: seq<int>, j: int) {
    |m.up| == |m.down| && 0 <= j < |m.up| && j < |columns| &&
    0 <= m.up[j] < |m.up| && 0 <= m.down[j] < |m.up| &&
    0 <= columns[j] < |m.sizes|
  }

  /** solver.py:113-115: take j out of its column; j keeps its own links. */
  function Unlink(m: Mesh, columns: seq<int>, j: int): Mesh {
    if !Linkable(m, columns, j) then m
    else
      var up' := m.up[m.down[j] := m.up[j]];
      Mesh(up', m.down[up'[j] := m.down[j]], m.sizes[columns[j] := m.sizes[columns[j]] - 1])
  }

  /** solver.py:131-133: put j back between the neighbours it still points to. */
  function Relink(m: Mesh, columns: seq<int>, j: int): Mesh {
    if !Linkable(m, columns, j) then m
    else
      var down' := m.down[m.up[j] := j];
      Mesh(m.up[down'[j] := j], down', m.sizes[columns[j] := m.sizes[columns[j]] + 1])
  }

  /** j is properly linked in a list of which it is not the only member. */
  predicate Detachable(m: Mesh, columns: seq<int>, j: int) {
    Linkable(m, columns, j) &&
    m.up[j] != j && m.down[j] != j &&
    m.down[m.up[j]] == j && m.up[m.down[j]] == j
  }

  /** Splicing a properly linked node out and back in restores every link and size. */
  lemma RelinkUnlink(m: Mesh, columns: seq<int>, j: int)
    requires Detachable(m, columns, j)
    ensures Linkable(Unlink(m, columns, j), columns, j)
    ensures Relink(Unlink(m, columns, j), columns, j) == m
  {
    var u := Unlink(m, columns, j);
    assert u.up[j] == m.up[j] && u.down[j] == m.down[j];
    var r := Relink(u, columns, j);
    assert r.down == m.down;
    assert r.up == m.up;
  }

  /** The unlinks of a cover, in the order cover performs them. */
  function UnlinkAll(m: Mesh, columns: seq<int>, js: seq<int>): Mesh
    decreases |js|
  {
    if js == [] then m else UnlinkAll(Unlink(m, columns, js[0]), columns, js[1..])
  }

  /** The relinks of an uncover: the nodes of js from the last to the first. */
  function RelinkRev(m: Mesh, columns: seq<int>, js: seq<int>): Mesh
    decreases |js|
  {
    if js == [] then m else RelinkRev(Relink(m, columns, js[|js| - 1]), columns, js[..|js| - 1])
  }

  /** Every unlink of js happens on a node that is properly linked at that moment. */
  predicate SafeSeq(m: Mesh, columns: seq<int>, js: seq<int>)
    decreases |js|
  {
    js == [] || (Detachable(m, columns, js[0]) && SafeSeq(Unlink(m, columns, js[0]), columns, js[1..]))
  }

  lemma {:induction false} UnlinkAllAppend(m: Mesh, columns: seq<int>, a: seq<int>, b: seq<int>)
    ensures UnlinkAll(m, columns, a + b) == UnlinkAll(UnlinkAll(m, columns, a), columns, b)
    decreases |a|
  {
    if a != [] {
      assert (a + b)[0] == a[0] && (a + b)[1..] == a[1..] + b;
      UnlinkAllAppend(Unlink(m, columns, a[0]), columns, a[1..], b);
    } else {
      assert a + b == b;
    }
  }

  lemma {:induction false} SafeSeqAppend(m: Mesh, columns: seq<int>, a: seq<int>, b: seq<int>)
    ensures SafeSeq(m, columns, a + b) <==>
            SafeSeq(m, columns, a) && SafeSeq(UnlinkAll(m, columns, a), columns, b)
    decreases |a|
  {
    if a != [] {
      assert (a + b)[0] == a[0] && (a + b)[1..] == a[1..] + b;
      SafeSeqAppend(Unlink(m, columns, a[0]), columns, a[1..], b);
    } else {
      assert a + b == b;
    }
  }

  lemma {:induction false} RelinkRevAppend(m: Mesh, columns: seq<int>, a: seq<int>, b: seq<int>)
    ensures RelinkRev(m, columns, a + b) == RelinkRev(RelinkRev(m, columns, b), columns, a)
    decreases |b|
  {
    if b == [] {
      assert a + b == a;
    } else {
      var ab := a + b;
      assert ab[|ab| - 1] == b[|b| - 1];
      assert ab[..|ab| - 1] == a + b[..|b| - 1];
      RelinkRevAppend(Relink(m, columns, b[|b| - 1]), columns, a, b[..|b| - 1]);
    }
  }

  /**
   * solver.py:99-133: undoing a sequence of unlinks in reverse order restores
   * the links and sizes exactly, provided each unlink took out a properly
   * linked node.
   */
  lemma {:induction false} RelinkRevUnlinkAll(m: Mesh, columns: seq<int>, js: seq<int>)
    requires SafeSeq(m, columns, js)
    ensures RelinkRev(UnlinkAll(m, columns, js), columns, js) == m
    decreases |js|
  {
    if js != [] {
      var m1 := Unlink(m, columns, js[0]);
      var t := UnlinkAll(m1, columns, js[1..]);
      assert js == [js[0]] + js[1..];
      RelinkRevAppend(t, columns, [js[0]], js[1..]);
      RelinkRevUnlinkAll(m1, columns, js[1..]);
      assert RelinkRev(m1, columns, [js[0]]) == RelinkRev(Relink(m1, columns, js[0]), columns, []);
      RelinkUnlink(m, columns, js[0]);
    }
  }

  /** A prefix one longer is the prefix with the next element appended. */
  lemma TakeSnoc(s: seq<int>, n: int)
    requires 0 <= n < |s|
    ensures s[..n + 1] == s[..n] + [s[n]]
    ensures s[..n + 1][..n] == s[..n]
  {
  }

  lemma TakeTake(s: seq<int>, m: int, n: int)
    requires 0 <= n <= m <= |s|
    ensures s[..m][..n] == s[..n]
  {
  }

  /** A prefix of a + b that reaches into b. */
  lemma TakeConcat(a: seq<int>, b: seq<int>, n: int)
    requires |a| <= n <= |a| + |b|
    ensures (a + b)[..n] == a + b[..n - |a|]
  {
  }

  lemma IndexConcat(a: seq<int>, b: seq<int>, i: int)
    requires |a| <= i < |a| + |b|
    ensures (a + b)[i] == b[i - |a|]
  {
  }

  /** Every vertical link stays inside the column of the node it leaves (headers are their own column). */
  predicate ColumnClosed(m: Mesh, columns: seq<int>) {
    |m.up| == |m.down| == |columns| &&
    (forall x {:trigger m.up[x]} :: 0 <= x < |m.up| ==> 0 <= m.up[x] < |m.up| && columns[m.up[x]] == columns[x]) &&
    (forall x {:trigger m.down[x]} :: 0 <= x < |m.down| ==> 0 <= m.down[x] < |m.down| && columns[m.down[x]] == columns[x])
  }

  lemma UnlinkClosed(m: Mesh, columns: seq<int>, j: int)
    requires ColumnClosed(m, columns)
    ensures ColumnClosed(Unlink(m, columns, j), columns)
    ensures |Unlink(m, columns, j).sizes| == |m.sizes|
  {
  }
}
