/**
 * Tile of old/tile.py: one cell of the earlier board, at position (x, y)
 * (column, row), with an optional digit, a lock, and the list of the 20
 * positions it is connected to. Fonts and drawing are not modelled.
 */
module OldTile {
  import opened Wrappers
  import Cells = Board
  import Constraints

  /** Positions p and t share a column, a row or a 3x3 area. */
  predicate SharesUnit(p: (int, int), t: (int, int)) {
    p.0 == t.0 || p.1 == t.1 || (p.0 / 3 == t.0 / 3 && p.1 / 3 == t.1 / 3)
  }

  /** p is one of the tiles connected to t: another tile of its column, row or area. */
  predicate IsPeer(p: (int, int), t: (int, int)) {
    Cells.InGrid(p) && p != t && SharesUnit(p, t)
  }

  /** p lies in the 3x3 area of t. */
  predicate SameArea(p: (int, int), t: (int, int)) {
    p.0 / 3 == t.0 / 3 && p.1 / 3 == t.1 / 3
  }

  /**
   * The place of a peer p of t in the order find_connected_tiles lists
   * them (old/tile.py:24-35): the tiles of t's own area first, by column
   * then row; then the other areas by column then row, three tiles each,
   * along t's column or t's row.
   */
  function Rank(t: (int, int), p: (int, int)): int {
    if SameArea(p, t) then 3 * (p.0 % 3) + p.1 % 3
    else 9 + 3 * (3 * (p.0 / 3) + p.1 / 3) + (if p.0 == t.0 then p.1 % 3 else p.0 % 3)
  }

  /** L lists, in rank order, exactly the peers of t that rank below bound. */
  ghost predicate Listed(t: (int, int), L: seq<(int, int)>, bound: int) {
    (forall m :: 0 <= m < |L| ==> IsPeer(L[m], t) && Rank(t, L[m]) < bound) &&
    (forall m, m' :: 0 <= m < m' < |L| ==> Rank(t, L[m]) < Rank(t, L[m'])) &&
    (forall p :: IsPeer(p, t) && Rank(t, p) < bound ==> p in L)
  }

  /** Every peer ranks at 0 or more, so nothing is listed below 0. */
  lemma ListedEmpty(t: (int, int))
    ensures Listed(t, [], 0)
  {
    forall p | IsPeer(p, t)
      ensures Rank(t, p) >= 0
    {
    }
  }

  /** Appending the peers of rank bound .. bound + |N| - 1, in order, extends a listing. */
  lemma ListMore(t: (int, int), L: seq<(int, int)>, bound: int, N: seq<(int, int)>)
    requires Listed(t, L, bound)
    requires forall m :: 0 <= m < |N| ==> IsPeer(N[m], t) && Rank(t, N[m]) == bound + m
    requires forall p :: IsPeer(p, t) && bound <= Rank(t, p) < bound + |N| ==> p in N
    ensures Listed(t, L + N, bound + |N|)
  {
    var L' := L + N;
    forall m | 0 <= m < |L'|
      ensures IsPeer(L'[m], t) && Rank(t, L'[m]) < bound + |N|
    {
      if m >= |L| {
        assert L'[m] == N[m - |L|];
      }
    }
    forall m, m' | 0 <= m < m' < |L'|
      ensures Rank(t, L'[m]) < Rank(t, L'[m'])
    {
      if m' >= |L| {
        assert L'[m'] == N[m' - |L|];
        if m >= |L| {
          assert L'[m] == N[m - |L|];
        }
      }
    }
  }

  /** The tile at offset (c, r) of t's area, unless it is t itself (old/tile.py:26-28). */
  function AreaAdded(t: (int, int), c: int, r: int): seq<(int, int)> {
    var pos := (t.0 / 3 * 3 + c, t.1 / 3 * 3 + r);
    if pos != t then [pos] else []
  }

  /** The tiles added for area (c, r) by old/tile.py:31-35; outside t's area the two cases exclude each other. */
  function Added(t: (int, int), c: int, r: int): seq<(int, int)> {
    var area := (t.0 / 3, t.1 / 3);
    if (c, r) == area then []
    else if c == area.0 then AlongColumn(t.0, r)
    else if r == area.1 then AlongRow(c, t.1)
    else []
  }

  /** old/tile.py:33: the three tiles of column x in area row r. */
  function AlongColumn(x: int, r: int): seq<(int, int)> {
    seq(3, i requires 0 <= i < 3 => (x, r * 3 + i))
  }

  /** old/tile.py:35: the three tiles of row y in area column c. */
  function AlongRow(c: int, y: int): seq<(int, int)> {
    seq(3, i requires 0 <= i < 3 => (c * 3 + i, y))
  }

  /** What the first loop pair has listed before offset (c, r) of t's area. */
  function AreaUpTo(t: (int, int), c: nat, r: nat): seq<(int, int)>
    decreases c, r
  {
    if r == 0 then (if c == 0 then [] else AreaUpTo(t, c - 1, 3))
    else AreaUpTo(t, c, r - 1) + AreaAdded(t, c, r - 1)
  }

  /** What the second loop pair has listed, after A, before area (c, r). */
  function OtherUpTo(t: (int, int), A: seq<(int, int)>, c: nat, r: nat): seq<(int, int)>
    decreases c, r
  {
    if r == 0 then (if c == 0 then A else OtherUpTo(t, A, c - 1, 3))
    else OtherUpTo(t, A, c, r - 1) + Added(t, c, r - 1)
  }

  /** The tile at offset (c, r) of t's area has rank 3 * c + r. */
  lemma AreaRank(t: (int, int), c: int, r: int)
    requires Cells.InGrid(t) && 0 <= c < 3 && 0 <= r < 3
    ensures var q := (t.0 / 3 * 3 + c, t.1 / 3 * 3 + r);
      SameArea(q, t) && Rank(t, q) == 3 * c + r && (q != t ==> IsPeer(q, t))
  {
  }

  /** No other peer of t has the rank 3 * c + r of the tile at offset (c, r) of its area. */
  lemma AreaUnique(t: (int, int), c: int, r: int, p: (int, int))
    requires Cells.InGrid(t) && 0 <= c < 3 && 0 <= r < 3
    requires IsPeer(p, t) && Rank(t, p) == 3 * c + r
    ensures p == (t.0 / 3 * 3 + c, t.1 / 3 * 3 + r)
  {
    RankArea(t, p);
    Constraints.ThreeDigits(p.0 % 3, p.1 % 3, c, r);
  }

  /** The tile at offset (c, r) of t's area is, unless it is t, the one peer of rank 3 * c + r. */
  lemma AreaTile(t: (int, int), c: int, r: int, L: seq<(int, int)>)
    requires Cells.InGrid(t) && 0 <= c < 3 && 0 <= r < 3 && Listed(t, L, 3 * c + r)
    ensures Listed(t, L + AreaAdded(t, c, r), 3 * c + r + 1)
  {
    var q := (t.0 / 3 * 3 + c, t.1 / 3 * 3 + r);
    AreaRank(t, c, r);
    forall p | IsPeer(p, t) && Rank(t, p) == 3 * c + r
      ensures p == q
    {
      AreaUnique(t, c, r, p);
    }
    if q != t {
      assert AreaAdded(t, c, r) == [q];
      ListMore(t, L, 3 * c + r, [q]);
    } else {
      assert AreaAdded(t, c, r) == [];
      assert L + AreaAdded(t, c, r) == L;
    }
  }

  /** Peers below rank 9 lie in t's area. */
  lemma RankArea(t: (int, int), p: (int, int))
    requires IsPeer(p, t) && Rank(t, p) < 9
    ensures SameArea(p, t) && Rank(t, p) == 3 * (p.0 % 3) + p.1 % 3
  {
  }

  /**
   * A peer outside t's area lies in area (c, r) of another area column or
   * row, along t's column when c is t's area column and along t's row
   * otherwise.
   */
  lemma OtherArea(t: (int, int), p: (int, int))
    requires IsPeer(p, t) && !SameArea(p, t)
    ensures var c, r := p.0 / 3, p.1 / 3;
      0 <= c < 3 && 0 <= r < 3 && (c, r) != (t.0 / 3, t.1 / 3) &&
      (c == t.0 / 3 ==> p.0 == t.0 && p == (t.0, r * 3 + p.1 % 3)) &&
      (c != t.0 / 3 ==> r == t.1 / 3 && p.1 == t.1 && p == (c * 3 + p.0 % 3, t.1)) &&
      Rank(t, p) == 9 + 3 * (3 * c + r) + (if c == t.0 / 3 then p.1 % 3 else p.0 % 3)
  {
  }

  /** A peer ranked among the three after bound = 9 + 3 * (3 * c + r) lies in area (c, r). */
  lemma InArea(t: (int, int), p: (int, int), c: int, r: int)
    requires 0 <= c < 3 && 0 <= r < 3
    requires IsPeer(p, t) && 9 + 3 * (3 * c + r) <= Rank(t, p) < 9 + 3 * (3 * c + r) + 3
    ensures !SameArea(p, t) && p.0 / 3 == c && p.1 / 3 == r
  {
    OtherArea(t, p);
    var i := if p.0 / 3 == t.0 / 3 then p.1 % 3 else p.0 % 3;
    var k := Rank(t, p) - 9 - 3 * (3 * c + r);
    Constraints.ThreeDigits(3 * (p.0 / 3) + p.1 / 3, i, 3 * c + r, k);
    Constraints.ThreeDigits(p.0 / 3, p.1 / 3, c, r);
  }

  /** old/tile.py:32-33: the three tiles of t's column in area (c, r) are the peers of the next three ranks. */
  lemma FromColumn(t: (int, int), c: int, r: int, L: seq<(int, int)>)
    requires Cells.InGrid(t) && 0 <= r < 3 && c == t.0 / 3 && r != t.1 / 3
    requires Listed(t, L, 9 + 3 * (3 * c + r))
    ensures Listed(t, L + AlongColumn(t.0, r), 9 + 3 * (3 * c + r) + 3)
  {
    var bound, next := 9 + 3 * (3 * c + r), AlongColumn(t.0, r);
    forall m | 0 <= m < 3
      ensures IsPeer(next[m], t) && Rank(t, next[m]) == bound + m
    {
      assert next[m] == (t.0, r * 3 + m);
      assert next[m].1 / 3 == r;
    }
    forall p | IsPeer(p, t) && bound <= Rank(t, p) < bound + 3
      ensures p in next
    {
      InArea(t, p, c, r);
      OtherArea(t, p);
      assert p == next[p.1 % 3];
    }
    ListMore(t, L, bound, next);
  }

  /** old/tile.py:34-35: the three tiles of t's row in area (c, r) are the peers of the next three ranks. */
  lemma FromRow(t: (int, int), c: int, r: int, L: seq<(int, int)>)
    requires Cells.InGrid(t) && 0 <= c < 3 && r == t.1 / 3 && c != t.0 / 3
    requires Listed(t, L, 9 + 3 * (3 * c + r))
    ensures Listed(t, L + AlongRow(c, t.1), 9 + 3 * (3 * c + r) + 3)
  {
    var bound, next := 9 + 3 * (3 * c + r), AlongRow(c, t.1);
    forall m | 0 <= m < 3
      ensures IsPeer(next[m], t) && Rank(t, next[m]) == bound + m
    {
      assert next[m] == (c * 3 + m, t.1);
      assert next[m].0 / 3 == c;
    }
    forall p | IsPeer(p, t) && bound <= Rank(t, p) < bound + 3
      ensures p in next
    {
      InArea(t, p, c, r);
      OtherArea(t, p);
      assert p == next[p.0 % 3];
    }
    ListMore(t, L, bound, next);
  }

  /** Area (c, r) holds no peer of t when it is t's own area, or shares neither its area column nor its area row. */
  lemma NoneThere(t: (int, int), c: int, r: int, L: seq<(int, int)>)
    requires Cells.InGrid(t) && 0 <= c < 3 && 0 <= r < 3
    requires (c, r) == (t.0 / 3, t.1 / 3) || (c != t.0 / 3 && r != t.1 / 3)
    requires Listed(t, L, 9 + 3 * (3 * c + r))
    ensures Listed(t, L, 9 + 3 * (3 * c + r) + 3)
  {
    forall p | IsPeer(p, t) && 9 + 3 * (3 * c + r) <= Rank(t, p) < 9 + 3 * (3 * c + r) + 3
      ensures false
    {
      InArea(t, p, c, r);
      OtherArea(t, p);
    }
  }

  /** One step of the second loop pair lists the peers of the next three ranks. */
  lemma OtherTile(t: (int, int), c: int, r: int, L: seq<(int, int)>)
    requires Cells.InGrid(t) && 0 <= c < 3 && 0 <= r < 3 && Listed(t, L, 9 + 3 * (3 * c + r))
    ensures Listed(t, L + Added(t, c, r), 9 + 3 * (3 * c + r) + 3)
  {
    if (c, r) == (t.0 / 3, t.1 / 3) || (c != t.0 / 3 && r != t.1 / 3) {
      NoneThere(t, c, r, L);
      assert L + Added(t, c, r) == L;
    } else if c == t.0 / 3 {
      FromColumn(t, c, r, L);
    } else {
      FromRow(t, c, r, L);
    }
  }

  /** The first loop pair lists, in order, the peers of t in its own area. */
  lemma {:induction false} AreaListed(t: (int, int), c: nat, r: nat)
    requires Cells.InGrid(t) && c <= 3 && r <= 3 && (c == 3 ==> r == 0)
    ensures Listed(t, AreaUpTo(t, c, r), 3 * c + r)
    decreases c, r
  {
    if r == 0 {
      if c == 0 {
        ListedEmpty(t);
      } else {
        AreaListed(t, c - 1, 3);
      }
    } else {
      AreaListed(t, c, r - 1);
      AreaTile(t, c, r - 1, AreaUpTo(t, c, r - 1));
    }
  }

  /** One round of the inner loop of the second pair keeps the listing in rank order. */
  lemma OtherStep(t: (int, int), A: seq<(int, int)>, c: nat, r: nat)
    requires Cells.InGrid(t) && c < 3 && 0 < r <= 3
    requires Listed(t, OtherUpTo(t, A, c, r - 1), 9 + 3 * (3 * c + (r - 1)))
    ensures Listed(t, OtherUpTo(t, A, c, r), 9 + 3 * (3 * c + r))
  {
    OtherTile(t, c, r - 1, OtherUpTo(t, A, c, r - 1));
  }

  /** Moving on to the next area column keeps the listing: no round is added in between. */
  lemma OtherWrap(t: (int, int), A: seq<(int, int)>, c: nat)
    requires 0 < c
    requires Listed(t, OtherUpTo(t, A, c - 1, 3), 9 + 3 * (3 * (c - 1) + 3))
    ensures Listed(t, OtherUpTo(t, A, c, 0), 9 + 3 * (3 * c + 0))
  {
  }

  /** The second loop pair lists, in order, the peers of t outside its area. */
  lemma {:induction false} OtherListed(t: (int, int), A: seq<(int, int)>, c: nat, r: nat)
    requires Cells.InGrid(t) && c <= 3 && r <= 3 && (c == 3 ==> r == 0) && Listed(t, A, 9)
    ensures Listed(t, OtherUpTo(t, A, c, r), 9 + 3 * (3 * c + r))
    decreases c, r
  {
    if r == 0 {
      if c != 0 {
        OtherListed(t, A, c - 1, 3);
        OtherWrap(t, A, c);
      }
    } else {
      OtherListed(t, A, c, r - 1);
      OtherStep(t, A, c, r);
    }
  }

  /** The first loop pair skips exactly the offset of t itself within its area. */
  lemma AreaLength(t: (int, int), c: int, r: int)
    requires Cells.InGrid(t) && 0 <= c < 3 && 0 <= r < 3
    ensures |AreaAdded(t, c, r)| == if (c, r) == (t.0 % 3, t.1 % 3) then 0 else 1
  {
    assert t.0 == t.0 / 3 * 3 + t.0 % 3 && t.1 == t.1 / 3 * 3 + t.1 % 3;
  }

  /** The first loop pair lists 8 tiles: all of t's area but t. */
  lemma {:induction false} AreaCount(t: (int, int), c: nat, r: nat)
    requires Cells.InGrid(t) && c <= 3 && r <= 3 && (c == 3 ==> r == 0)
    ensures |AreaUpTo(t, c, r)| == 3 * c + r - (if t.0 % 3 < c || (t.0 % 3 == c && t.1 % 3 < r) then 1 else 0)
    decreases c, r
  {
    if r == 0 {
      if c != 0 {
        AreaCount(t, c - 1, 3);
      }
    } else {
      AreaCount(t, c, r - 1);
      AreaLength(t, c, r - 1);
    }
  }

  /** The second loop pair adds three tiles for each other area in t's area column or area row. */
  lemma OtherLength(t: (int, int), c: int, r: int)
    ensures |Added(t, c, r)| == if (c, r) != (t.0 / 3, t.1 / 3) && (c == t.0 / 3 || r == t.1 / 3) then 3 else 0
  {
  }

  /** The second loop pair adds 12 tiles: two other areas along t's column and two along its row. */
  lemma {:induction false} OtherCount(t: (int, int), A: seq<(int, int)>, c: nat, r: nat)
    requires Cells.InGrid(t) && c <= 3 && r <= 3 && (c == 3 ==> r == 0)
    ensures |OtherUpTo(t, A, c, r)| == |A| + 3 * (if c > t.0 / 3 then 2 + c - 1 else c) +
      3 * (if c == t.0 / 3 then r - (if t.1 / 3 < r then 1 else 0) else if t.1 / 3 < r then 1 else 0)
    decreases c, r
  {
    if r == 0 {
      if c != 0 {
        OtherCount(t, A, c - 1, 3);
      }
    } else {
      OtherCount(t, A, c, r - 1);
      OtherLength(t, c, r - 1);
    }
  }

  /** Every peer of t ranks below 36, so a listing up to 36 is complete and, being ordered, has no repeats. */
  lemma ListedAll(t: (int, int), L: seq<(int, int)>)
    requires Listed(t, L, 36)
    ensures forall m, m' :: 0 <= m < m' < |L| ==> L[m] != L[m']
    ensures forall m :: 0 <= m < |L| ==> IsPeer(L[m], t)
    ensures forall p :: IsPeer(p, t) ==> p in L
  {
    forall p | IsPeer(p, t)
      ensures Rank(t, p) < 36
    {
      if !SameArea(p, t) {
        OtherArea(t, p);
      }
    }
    forall m, m' | 0 <= m < m' < |L|
      ensures L[m] != L[m']
    {
      assert Rank(t, L[m]) < Rank(t, L[m']);
    }
  }

  /** The two loop pairs together list the 20 peers of t, each once. */
  lemma AllListed(t: (int, int))
    requires Cells.InGrid(t)
    ensures var L := OtherUpTo(t, AreaUpTo(t, 3, 0), 3, 0);
      |L| == 20 &&
      (forall m, m' :: 0 <= m < m' < |L| ==> L[m] != L[m']) &&
      (forall m :: 0 <= m < |L| ==> IsPeer(L[m], t)) &&
      (forall p :: IsPeer(p, t) ==> p in L)
  {
    var A := AreaUpTo(t, 3, 0);
    AreaListed(t, 3, 0);
    AreaCount(t, 3, 0);
    OtherListed(t, A, 3, 0);
    OtherCount(t, A, 3, 0);
    ListedAll(t, OtherUpTo(t, A, 3, 0));
  }

  /**
   * old/tile.py:18-36: the 20 positions connected to a tile, which is on
   * the board at (x, y): the rest of its area, then, area by area, the
   * tiles of its column and of its row outside it. They are pairwise
   * distinct, none is the tile itself, each shares a column, row or area
   * with it and every such position is listed.
   */
  method FindConnectedTiles(tile: (int, int)) returns (connected: seq<(int, int)>)
    requires Cells.InGrid(tile)
    ensures |connected| == 20
    ensures forall m, m' :: 0 <= m < m' < |connected| ==> connected[m] != connected[m']
    ensures forall m :: 0 <= m < |connected| ==> IsPeer(connected[m], tile)
    ensures forall p :: IsPeer(p, tile) ==> p in connected
  {
    connected := [];
    var x, y := tile.0, tile.1;
    var area := (x / 3, y / 3);
    for c := 0 to 3
      invariant connected == AreaUpTo(tile, c, 0)
    {
      for r := 0 to 3
        invariant connected == AreaUpTo(tile, c, r)
      {
        var pos := (area.0 * 3 + c, area.1 * 3 + r);
        if pos != tile {
          connected := connected + [pos];
        }
      }
    }
    ghost var inArea := connected;
    for c := 0 to 3
      invariant connected == OtherUpTo(tile, inArea, c, 0)
    {
      for r := 0 to 3
        invariant connected == OtherUpTo(tile, inArea, c, r)
      {
        ghost var before := connected;
        if (c, r) != area {
          if c == area.0 {
            connected := connected + AlongColumn(x, r);
          }
          if r == area.1 {
            connected := connected + AlongRow(c, y);
          }
        }
        assert connected == before + Added(tile, c, r);
      }
    }
    AllListed(tile);
  }

  class Tile {
    /** old/tile.py:8-10: the tile's position (column, row). */
    const pos: (int, int)
    const x: int
    const y: int
    /** old/tile.py:11-12 */
    var locked: bool
    var number: Option<int>
    /** old/tile.py:15 */
    const connected: seq<(int, int)>

    /** old/tile.py:7-16 without fonts: unlocked, empty, with its connected positions. */
    constructor (pos: (int, int))
      requires Cells.InGrid(pos)
      ensures this.pos == pos && x == pos.0 && y == pos.1 && !locked && number == None
      ensures |connected| == 20 && (forall m :: 0 <= m < 20 ==> IsPeer(connected[m], pos)) &&
        forall p :: IsPeer(p, pos) ==> p in connected
    {
      var c := FindConnectedTiles(pos);
      this.pos, x, y := pos, pos.0, pos.1;
      locked, number := false, None;
      connected := c;
    }

    /**
     * old/tile.py:50-53: an unlocked tile takes a digit 1..9; anything else
     * leaves the number as it was. The lock never changes.
     */
    method SetNumber(num: int)
      modifies this
      ensures locked == old(locked)
      ensures number == if !old(locked) && 1 <= num <= 9 then Some(num) else old(number)
    {
      if !locked && 1 <= num <= 9 && Some(num) != number {
        number := Some(num);
      }
    }

    /**
     * old/tile.py:45-48: the tile ends locked, holding num when it is a
     * digit 1..9 and its previous number otherwise.
     */
    method Lock(num: int)
      modifies this
      ensures locked
      ensures number == if 1 <= num <= 9 then Some(num) else old(number)
    {
      locked := false;
      SetNumber(num);
      locked := true;
    }

    /**
     * old/tile.py:55-60: an unlocked tile, or any tile when unlock is asked
     * for, becomes empty; unlock also lifts the lock.
     */
    method ClearNumber(unlock: bool)
      modifies this
      ensures number == if !old(locked) || unlock then None else old(number)
      ensures locked == (old(locked) && !unlock)
    {
      if !locked || unlock {
        number := None;
      }
      if unlock {
        locked := false;
      }
    }
  }
}
