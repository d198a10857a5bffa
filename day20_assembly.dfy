/**
 * Day 20, the assembly search: starting from a corner tile in each of the eight orientations, the
 * grid is filled in row-major order, and every partial assembly is extended by each unused tile in
 * each orientation whose top and left edges match the tiles above and to the left.
 */
module Day20Assembly {
  import opened Wrappers
  import opened Arith
  import opened Day20

  /** A tile laid in the grid in an orientation. */
  datatype Placed = Placed(tile: Tile, o: Orientation)

  /** A placement the edge accessors can read: a turn below four and four edges. */
  predicate Laid(p: Placed) {
    p.o.rotation < 4 && |p.tile.edges| == 4
  }

  /** A partial assembly whose placements can all be read. */
  predicate AllLaid(s: seq<Placed>) {
    forall q :: 0 <= q < |s| ==> Laid(s[q])
  }

  /** The tiles have four edges each, as `parse` builds them. */
  predicate FourEdges(tiles: seq<Tile>) {
    forall k :: 0 <= k < |tiles| ==> |tiles[k].edges| == 4
  }

  /** The placement above position `(x, y)` sits `w` places back. */
  lemma AboveIndex(x: nat, y: nat, w: nat)
    requires y > 0
    ensures (y - 1) * w + x == y * w + x - w && y * w >= w
  {
    MulMonotone(1, y, w);
  }

  /**
   * `top`: the bottom edge, read counter-clockwise, of the tile `w` places back, which is the tile
   * above when there is a row above.
   */
  function Above(s: seq<Placed>, w: nat): Option<bv16>
    requires AllLaid(s)
  {
    if w > 0 && |s| >= w then Some(BottomEdge(s[|s| - w].o, s[|s| - w].tile, true)) else None
  }

  /** `left`: the right edge, read counter-clockwise, of the last tile, when column `x` is not the first. */
  function LeftOf(s: seq<Placed>, x: nat): Option<bv16>
    requires AllLaid(s) && x <= |s|
  {
    if x > 0 then Some(RightEdge(s[|s| - 1].o, s[|s| - 1].tile, true)) else None
  }

  /** The orientation shows the required top and left edges, read clockwise. */
  predicate Fits(t: Tile, o: Orientation, top: Option<bv16>, left: Option<bv16>)
    requires o.rotation < 4 && |t.edges| == 4
  {
    (top.None? || TopEdge(o, t, false) == top.value) && (left.None? || LeftEdge(o, t, false) == left.value)
  }

  /** A tile with this id is already placed. */
  predicate Used(s: seq<Placed>, id: nat) {
    exists q :: 0 <= q < |s| && s[q].tile.id == id
  }

  /** A placement of one of the puzzle's tiles in one of the orientations of the table. */
  predicate FromPuzzle(p: Placed, tiles: seq<Tile>, table: seq<Orientation>) {
    p.tile in tiles && p.o in table
  }

  /**
   * `e` is `s` with one more placement: a puzzle tile whose id is not yet used, in an orientation
   * of the table that shows the required top and left edges.
   */
  predicate Grows(s: seq<Placed>, e: seq<Placed>, tiles: seq<Tile>, table: seq<Orientation>, top: Option<bv16>, left: Option<bv16>) {
    |e| == |s| + 1 && e[..|s|] == s && FromPuzzle(e[|s|], tiles, table) && Laid(e[|s|])
    && !Used(s, e[|s|].tile.id) && Fits(e[|s|].tile, e[|s|].o, top, left)
  }

  /** Orientations the accessors can read, as every entry of `ALL_ORIENTATIONS` is. */
  predicate Turns(table: seq<Orientation>) {
    forall j :: 0 <= j < |table| ==> table[j].rotation < 4
  }

  /** `ALL_ORIENTATIONS` can be read. */
  lemma AllOrientationsTurn()
    ensures Turns(AllOrientations)
  {
    AllOrientationsComplete();
  }

  /** The concatenation of the lists, in order. */
  function Flatten<T>(ss: seq<seq<T>>): seq<T>
    decreases |ss|
  {
    if ss == [] then [] else Flatten(ss[..|ss| - 1]) + ss[|ss| - 1]
  }

  /** One more list appends its elements. */
  lemma FlattenNext<T>(ss: seq<seq<T>>, k: nat)
    requires k < |ss|
    ensures Flatten(ss[..k + 1]) == Flatten(ss[..k]) + ss[k]
  {
    assert ss[..k + 1][..k] == ss[..k];
  }

  /** An element of a concatenation is in one of its parts. */
  lemma InConcat<T>(a: seq<T>, b: seq<T>, x: T)
    requires x in a + b
    ensures x in a || x in b
  {
    var i :| 0 <= i < |a + b| && (a + b)[i] == x;
    if i >= |a| {
      assert b[i - |a|] == x;
    }
  }

  /** Every element of the concatenation comes from one of the lists. */
  lemma {:induction false} InFlatten<T>(ss: seq<seq<T>>, x: T)
    requires x in Flatten(ss)
    ensures exists k :: 0 <= k < |ss| && x in ss[k]
    decreases |ss|
  {
    var init := ss[..|ss| - 1];
    InConcat(Flatten(init), ss[|ss| - 1], x);
    if x in Flatten(init) {
      InFlatten(init, x);
      var k :| 0 <= k < |init| && x in init[k];
      assert ss[k] == init[k];
    }
  }

  /** Every element of every list is in the concatenation. */
  lemma {:induction false} FlattenIn<T>(ss: seq<seq<T>>, k: nat, x: T)
    requires k < |ss| && x in ss[k]
    ensures x in Flatten(ss)
    decreases |ss|
  {
    var init := ss[..|ss| - 1];
    if k < |ss| - 1 {
      assert init[k] == ss[k];
      FlattenIn(init, k, x);
      var i :| 0 <= i < |Flatten(init)| && Flatten(init)[i] == x;
      assert Flatten(ss)[i] == x;
    } else {
      var i :| 0 <= i < |ss[k]| && ss[k][i] == x;
      assert Flatten(ss)[|Flatten(init)| + i] == x;
    }
  }

  /** For each orientation of `os` in turn: `s` extended by `t` so laid, if it fits. */
  function OrientationLists(s: seq<Placed>, t: Tile, top: Option<bv16>, left: Option<bv16>, os: seq<Orientation>): (r: seq<seq<seq<Placed>>>)
    requires Turns(os) && |t.edges| == 4
    ensures |r| == |os|
  {
    seq(|os|, j requires 0 <= j < |os| => if Fits(t, os[j], top, left) then [s + [Placed(t, os[j])]] else [])
  }

  /** The extensions of `s` by `t` in those orientations of `os` that fit, in order. */
  function TileExtensions(s: seq<Placed>, t: Tile, top: Option<bv16>, left: Option<bv16>, os: seq<Orientation>): seq<seq<Placed>>
    requires Turns(os) && |t.edges| == 4
  {
    Flatten(OrientationLists(s, t, top, left, os))
  }

  /** For each tile in turn: its extensions of `s`, none where its id is already used. */
  function TileLists(s: seq<Placed>, tiles: seq<Tile>, table: seq<Orientation>, top: Option<bv16>, left: Option<bv16>): (r: seq<seq<seq<Placed>>>)
    requires FourEdges(tiles) && Turns(table)
    ensures |r| == |tiles|
  {
    seq(|tiles|, i requires 0 <= i < |tiles| => if Used(s, tiles[i].id) then [] else TileExtensions(s, tiles[i], top, left, table))
  }

  /** The extensions of `s` by every unused tile in every fitting orientation, in loop order. */
  function Extensions(s: seq<Placed>, tiles: seq<Tile>, table: seq<Orientation>, top: Option<bv16>, left: Option<bv16>): seq<seq<Placed>>
    requires FourEdges(tiles) && Turns(table)
  {
    Flatten(TileLists(s, tiles, table, top, left))
  }

  /** Every assembly can be read and holds at least the `x` tiles left of column `x`. */
  predicate Readable(states: seq<seq<Placed>>, x: nat) {
    forall k :: 0 <= k < |states| ==> AllLaid(states[k]) && x <= |states[k]|
  }

  /** For each partial assembly in turn: its extensions at a position in column `x`. */
  function StateLists(states: seq<seq<Placed>>, tiles: seq<Tile>, table: seq<Orientation>, w: nat, x: nat): (r: seq<seq<seq<Placed>>>)
    requires FourEdges(tiles) && Turns(table) && Readable(states, x)
    ensures |r| == |states|
  {
    seq(|states|, k requires 0 <= k < |states| => Extensions(states[k], tiles, table, Above(states[k], w), LeftOf(states[k], x)))
  }

  /** `new_states`: every partial assembly extended at a position in column `x`. */
  function ExpandAll(states: seq<seq<Placed>>, tiles: seq<Tile>, table: seq<Orientation>, w: nat, x: nat): seq<seq<Placed>>
    requires FourEdges(tiles) && Turns(table) && Readable(states, x)
  {
    Flatten(StateLists(states, tiles, table, w, x))
  }

  // ---- What the search lists ----

  /** Each extension by a tile adds that tile in a fitting orientation of `os`. */
  lemma TileExtensionsGrow(s: seq<Placed>, t: Tile, top: Option<bv16>, left: Option<bv16>, os: seq<Orientation>, e: seq<Placed>)
    requires Turns(os) && |t.edges| == 4 && e in TileExtensions(s, t, top, left, os)
    ensures |e| == |s| + 1 && e[..|s|] == s && e[|s|].tile == t && e[|s|].o in os
    ensures e[|s|].o.rotation < 4 && Fits(t, e[|s|].o, top, left)
  {
    var ls := OrientationLists(s, t, top, left, os);
    InFlatten(ls, e);
    var j :| 0 <= j < |ls| && e in ls[j];
    assert e == s + [Placed(t, os[j])];
  }

  /** Each extension of an assembly grows it by one fitting unused tile. */
  lemma ExtensionsGrow(s: seq<Placed>, tiles: seq<Tile>, table: seq<Orientation>, top: Option<bv16>, left: Option<bv16>, e: seq<Placed>)
    requires FourEdges(tiles) && Turns(table) && e in Extensions(s, tiles, table, top, left)
    ensures Grows(s, e, tiles, table, top, left)
  {
    var ls := TileLists(s, tiles, table, top, left);
    InFlatten(ls, e);
    var i :| 0 <= i < |ls| && e in ls[i];
    TileExtensionsGrow(s, tiles[i], top, left, table, e);
  }

  /** Each assembly listed after a step grows a listed one by one fitting unused tile. */
  lemma ExpandAllGrows(states: seq<seq<Placed>>, tiles: seq<Tile>, table: seq<Orientation>, w: nat, x: nat, e: seq<Placed>)
    requires FourEdges(tiles) && Turns(table) && Readable(states, x)
    requires e in ExpandAll(states, tiles, table, w, x)
    ensures |e| > x && e[..|e| - 1] in states
    ensures Grows(e[..|e| - 1], e, tiles, table, Above(e[..|e| - 1], w), LeftOf(e[..|e| - 1], x))
  {
    var ls := StateLists(states, tiles, table, w, x);
    InFlatten(ls, e);
    var k :| 0 <= k < |ls| && e in ls[k];
    var s := states[k];
    ExtensionsGrow(s, tiles, table, Above(s, w), LeftOf(s, x), e);
    assert e[..|e| - 1] == s;
  }

  /** A fitting orientation is among the extensions by a tile. */
  lemma InTileExtensions(s: seq<Placed>, t: Tile, top: Option<bv16>, left: Option<bv16>, os: seq<Orientation>, j: nat)
    requires j < |os| && Turns(os) && |t.edges| == 4
    requires Fits(t, os[j], top, left)
    ensures s + [Placed(t, os[j])] in TileExtensions(s, t, top, left, os)
  {
    var ls := OrientationLists(s, t, top, left, os);
    assert s + [Placed(t, os[j])] in ls[j];
    FlattenIn(ls, j, s + [Placed(t, os[j])]);
  }

  /** A fitting unused tile is among the extensions of an assembly. */
  lemma InExtensions(s: seq<Placed>, tiles: seq<Tile>, table: seq<Orientation>, top: Option<bv16>, left: Option<bv16>, i: nat, j: nat)
    requires i < |tiles| && j < |table| && FourEdges(tiles) && Turns(table)
    requires !Used(s, tiles[i].id) && Fits(tiles[i], table[j], top, left)
    ensures s + [Placed(tiles[i], table[j])] in Extensions(s, tiles, table, top, left)
  {
    InTileExtensions(s, tiles[i], top, left, table, j);
    FlattenIn(TileLists(s, tiles, table, top, left), i, s + [Placed(tiles[i], table[j])]);
  }

  /** Every fitting extension of a listed assembly is listed after the step. */
  lemma InExpandAll(states: seq<seq<Placed>>, tiles: seq<Tile>, table: seq<Orientation>, w: nat, x: nat, k: nat, i: nat, j: nat)
    requires k < |states| && i < |tiles| && j < |table| && FourEdges(tiles) && Turns(table) && Readable(states, x)
    requires !Used(states[k], tiles[i].id)
    requires Fits(tiles[i], table[j], Above(states[k], w), LeftOf(states[k], x))
    ensures states[k] + [Placed(tiles[i], table[j])] in ExpandAll(states, tiles, table, w, x)
  {
    var s := states[k];
    InExtensions(s, tiles, table, Above(s, w), LeftOf(s, x), i, j);
    FlattenIn(StateLists(states, tiles, table, w, x), k, s + [Placed(tiles[i], table[j])]);
  }

  // ---- Consistency ----

  /** Every tile comes from the puzzle, laid in an orientation of the table. */
  predicate Sourced(s: seq<Placed>, tiles: seq<Tile>, table: seq<Orientation>) {
    forall q :: 0 <= q < |s| ==> FromPuzzle(s[q], tiles, table) && Laid(s[q])
  }

  /** No tile id is placed twice. */
  predicate DistinctIds(s: seq<Placed>) {
    forall q1, q2 :: 0 <= q1 < q2 < |s| ==> s[q1].tile.id != s[q2].tile.id
  }

  /** Every tile not in the first column shows on its left the right edge of its left neighbour. */
  predicate RowsMatch(s: seq<Placed>, w: nat)
    requires AllLaid(s) && w > 0
  {
    forall q :: 0 < q < |s| && Column(q, w) > 0 ==>
      LeftEdge(s[q].o, s[q].tile, false) == RightEdge(s[q - 1].o, s[q - 1].tile, true)
  }

  /** Every tile not in the first row shows on its top the bottom edge of the tile above. */
  predicate ColumnsMatch(s: seq<Placed>, w: nat)
    requires AllLaid(s)
  {
    forall q :: w <= q < |s| ==>
      TopEdge(s[q].o, s[q].tile, false) == BottomEdge(s[q - w].o, s[q - w].tile, true)
  }

  /**
   * What the search guarantees of a partial assembly of width `w`: every tile comes from the
   * puzzle in an orientation of the table, no tile id is placed twice, and every tile's top and
   * left edges (read clockwise) equal the bottom and right edges (read counter-clockwise) of its
   * neighbours.
   */
  predicate Consistent(s: seq<Placed>, tiles: seq<Tile>, table: seq<Orientation>, w: nat)
    requires w > 0
  {
    Sourced(s, tiles, table) && DistinctIds(s) && RowsMatch(s, w) && ColumnsMatch(s, w)
  }

  /** A consistent assembly grown by a fitting unused tile stays consistent. */
  lemma GrowConsistent(s: seq<Placed>, e: seq<Placed>, tiles: seq<Tile>, table: seq<Orientation>, w: nat, x: nat)
    requires w > 0 && x == Column(|s|, w) && Consistent(s, tiles, table, w)
    requires Grows(s, e, tiles, table, Above(s, w), LeftOf(s, x))
    ensures Consistent(e, tiles, table, w)
  {
    var p := e[|s|];
    assert e == s + [p];
    assert Sourced(e, tiles, table) by {
      assert forall q :: 0 <= q < |s| ==> e[q] == s[q];
    }
    assert DistinctIds(e) by {
      forall q1, q2 | 0 <= q1 < q2 < |e|
        ensures e[q1].tile.id != e[q2].tile.id
      {
        if q2 == |s| {
          assert s[q1].tile.id != p.tile.id;
        }
      }
    }
    ExtendRows(s, p, w, x);
    ExtendColumns(s, p, w);
  }

  /** The row condition survives a fitting extension. */
  lemma ExtendRows(s: seq<Placed>, p: Placed, w: nat, x: nat)
    requires w > 0 && x == Column(|s|, w) && AllLaid(s) && Laid(p) && RowsMatch(s, w)
    requires LeftOf(s, x).Some? ==> LeftEdge(p.o, p.tile, false) == LeftOf(s, x).value
    ensures AllLaid(s + [p]) && RowsMatch(s + [p], w)
  {
    var e := s + [p];
    assert forall q :: 0 <= q < |s| ==> e[q] == s[q];
  }

  /** The column condition survives a fitting extension. */
  lemma ExtendColumns(s: seq<Placed>, p: Placed, w: nat)
    requires w > 0 && AllLaid(s) && Laid(p) && ColumnsMatch(s, w)
    requires Above(s, w).Some? ==> TopEdge(p.o, p.tile, false) == Above(s, w).value
    ensures AllLaid(s + [p]) && ColumnsMatch(s + [p], w)
  {
    var e := s + [p];
    assert forall q :: 0 <= q < |s| ==> e[q] == s[q];
  }

  /** A consistent assembly one longer than a listed one is listed after the step. */
  lemma ExpandComplete(states: seq<seq<Placed>>, tiles: seq<Tile>, table: seq<Orientation>, w: nat, x: nat, e: seq<Placed>)
    requires FourEdges(tiles) && Turns(table) && w > 0 && Readable(states, x)
    requires |e| > 0 && x == Column(|e| - 1, w) && Consistent(e, tiles, table, w) && e[..|e| - 1] in states
    ensures e in ExpandAll(states, tiles, table, w, x)
  {
    var p := |e| - 1;
    var s := e[..p];
    var k :| 0 <= k < |states| && states[k] == s;
    var last := e[p];
    var i :| 0 <= i < |tiles| && tiles[i] == last.tile;
    var j :| 0 <= j < |table| && table[j] == last.o;
    assert e == s + [Placed(tiles[i], table[j])];
    MatchesNeighbours(e, tiles, table, w, x);
    InExpandAll(states, tiles, table, w, x, k, i, j);
  }

  /** The last tile of a consistent assembly fits the edges its neighbours require. */
  lemma MatchesNeighbours(e: seq<Placed>, tiles: seq<Tile>, table: seq<Orientation>, w: nat, x: nat)
    requires w > 0 && |e| > 0 && x == Column(|e| - 1, w) && Consistent(e, tiles, table, w)
    ensures AllLaid(e[..|e| - 1])
    ensures Fits(e[|e| - 1].tile, e[|e| - 1].o, Above(e[..|e| - 1], w), LeftOf(e[..|e| - 1], x))
  {
    var p := |e| - 1;
    var s := e[..p];
    assert forall q :: 0 <= q < p ==> s[q] == e[q];
  }

  /** A prefix of a consistent assembly is consistent. */
  lemma ConsistentPrefix(e: seq<Placed>, tiles: seq<Tile>, table: seq<Orientation>, w: nat, n: nat)
    requires w > 0 && n <= |e| && Consistent(e, tiles, table, w)
    ensures Consistent(e[..n], tiles, table, w)
  {
    var s := e[..n];
    assert forall q :: 0 <= q < n ==> s[q] == e[q];
  }

  // ---- The search ----

  /** The column of position `p` of a grid `w` wide, filled in row-major order. */
  function Column(p: nat, w: nat): (x: nat)
    requires w > 0
    ensures x < w && x <= p
    decreases p
  {
    if p < w then p else Column(p - w, w)
  }

  /** Position `y * w + x` lies in column `x`. */
  lemma {:induction false} ColumnOf(x: nat, y: nat, w: nat)
    requires x < w
    ensures Column(y * w + x, w) == x
  {
    if y > 0 {
      AboveIndex(x, y, w);
      ColumnOf(x, y - 1, w);
    }
  }

  /** The starting assemblies: the first corner in every orientation of the table. */
  function Start(first: Tile, table: seq<Orientation>): (r: seq<seq<Placed>>)
    ensures |r| == |table|
  {
    seq(|table|, j requires 0 <= j < |table| => [Placed(first, table[j])])
  }

  /**
   * The list holds precisely the consistent assemblies of length `k` that start with the first
   * corner: what the search keeps after filling `k` positions.
   */
  ghost predicate Exactly(states: seq<seq<Placed>>, tiles: seq<Tile>, table: seq<Orientation>, w: nat, first: Tile, k: nat)
    requires w > 0 && k >= 1
  {
    forall e: seq<Placed> :: e in states <==> |e| == k && e[0].tile == first && Consistent(e, tiles, table, w)
  }

  /** The starting list holds exactly the one-tile assemblies of the first corner. */
  lemma StartExactly(tiles: seq<Tile>, table: seq<Orientation>, w: nat, first: Tile)
    requires Turns(table) && w > 0 && first in tiles && |first.edges| == 4
    ensures Exactly(Start(first, table), tiles, table, w, first, 1)
  {
    forall e: seq<Placed>
      ensures e in Start(first, table) <==> |e| == 1 && e[0].tile == first && Consistent(e, tiles, table, w)
    {
      if e in Start(first, table) {
        var j :| 0 <= j < |table| && e == Start(first, table)[j];
      }
      if |e| == 1 && e[0].tile == first && Consistent(e, tiles, table, w) {
        var j :| 0 <= j < |table| && table[j] == e[0].o;
        assert e == Start(first, table)[j];
      }
    }
  }

  /**
   * One step of the search is exact: from precisely the consistent assemblies of length `k`, the
   * extensions at the next position, in column `x`, are precisely those of length `k + 1`.
   */
  lemma StepExactly(states: seq<seq<Placed>>, tiles: seq<Tile>, table: seq<Orientation>, w: nat, first: Tile, x: nat, k: nat)
    requires FourEdges(tiles) && Turns(table) && w > 0 && k >= 1 && x == Column(k, w)
    requires Exactly(states, tiles, table, w, first, k)
    ensures Readable(states, x)
    ensures Exactly(ExpandAll(states, tiles, table, w, x), tiles, table, w, first, k + 1)
  {
    assert Readable(states, x) by {
      forall m | 0 <= m < |states|
        ensures AllLaid(states[m]) && x <= |states[m]|
      {
        assert states[m] in states;
      }
    }
    forall e: seq<Placed>
      ensures e in ExpandAll(states, tiles, table, w, x) <==>
        |e| == k + 1 && e[0].tile == first && Consistent(e, tiles, table, w)
    {
      if e in ExpandAll(states, tiles, table, w, x) {
        ExpandSound(states, tiles, table, w, first, x, k, e);
      }
      if |e| == k + 1 && e[0].tile == first && Consistent(e, tiles, table, w) {
        ExpandExact(states, tiles, table, w, first, x, k, e);
      }
    }
  }

  /** Every listed assembly has the length the list is exact for. */
  lemma ExactLengths(states: seq<seq<Placed>>, tiles: seq<Tile>, table: seq<Orientation>, w: nat, first: Tile, k: nat)
    requires w > 0 && k >= 1 && Exactly(states, tiles, table, w, first, k)
    ensures forall m :: 0 <= m < |states| ==> |states[m]| == k
  {
    forall m | 0 <= m < |states|
      ensures |states[m]| == k
    {
      assert states[m] in states;
    }
  }

  /** An extension of a listed assembly is consistent and starts with the first corner. */
  lemma ExpandSound(states: seq<seq<Placed>>, tiles: seq<Tile>, table: seq<Orientation>, w: nat, first: Tile, x: nat, k: nat, e: seq<Placed>)
    requires FourEdges(tiles) && Turns(table) && w > 0 && k >= 1 && x == Column(k, w)
    requires Exactly(states, tiles, table, w, first, k) && Readable(states, x)
    requires e in ExpandAll(states, tiles, table, w, x)
    ensures |e| == k + 1 && e[0].tile == first && Consistent(e, tiles, table, w)
  {
    ExpandAllGrows(states, tiles, table, w, x, e);
    var s := e[..|e| - 1];
    GrowConsistent(s, e, tiles, table, w, x);
    assert e[0] == s[0];
  }

  /** A consistent assembly one longer than the listed ones is among their extensions. */
  lemma ExpandExact(states: seq<seq<Placed>>, tiles: seq<Tile>, table: seq<Orientation>, w: nat, first: Tile, x: nat, k: nat, e: seq<Placed>)
    requires FourEdges(tiles) && Turns(table) && w > 0 && k >= 1 && x == Column(k, w)
    requires Exactly(states, tiles, table, w, first, k) && Readable(states, x)
    requires |e| == k + 1 && e[0].tile == first && Consistent(e, tiles, table, w)
    ensures e in ExpandAll(states, tiles, table, w, x)
  {
    var s := e[..k];
    assert s in states by {
      ConsistentPrefix(e, tiles, table, w, k);
      assert s[0] == e[0];
    }
    ExpandComplete(states, tiles, table, w, x, e);
  }

  /** The extensions of one assembly, as the loops over the tiles and the table compute them. */
  method ExtendState(s: seq<Placed>, tiles: seq<Tile>, table: seq<Orientation>, top: Option<bv16>, left: Option<bv16>)
    returns (r: seq<seq<Placed>>)
    requires FourEdges(tiles) && Turns(table)
    ensures r == Extensions(s, tiles, table, top, left)
  {
    ghost var ls := TileLists(s, tiles, table, top, left);
    r := [];
    for i := 0 to |tiles|
      invariant r == Flatten(ls[..i])
    {
      FlattenNext(ls, i);
      var t := tiles[i];
      if Used(s, t.id) {
        assert r + ls[i] == r;
        continue;
      }
      var more := ExtendByTile(s, t, table, top, left);
      r := r + more;
    }
    assert ls[..|tiles|] == ls;
  }

  /** The inner loop: `s` extended by `t` in each orientation of the table that fits. */
  method ExtendByTile(s: seq<Placed>, t: Tile, table: seq<Orientation>, top: Option<bv16>, left: Option<bv16>)
    returns (r: seq<seq<Placed>>)
    requires Turns(table) && |t.edges| == 4
    ensures r == TileExtensions(s, t, top, left, table)
  {
    ghost var os := OrientationLists(s, t, top, left, table);
    r := [];
    for j := 0 to |table|
      invariant r == Flatten(os[..j])
    {
      FlattenNext(os, j);
      var o := table[j];
      if top.Some? && TopEdge(o, t, false) != top.value {
        assert os[j] == [];
        continue;
      }
      if left.Some? && LeftEdge(o, t, false) != left.value {
        assert os[j] == [];
        continue;
      }
      assert os[j] == [s + [Placed(t, o)]];
      r := r + [s + [Placed(t, o)]];
    }
    assert os[..|table|] == os;
  }

  /** One position of the search: every assembly extended in turn into `new_states`. */
  method ExpandStates(states: seq<seq<Placed>>, tiles: seq<Tile>, table: seq<Orientation>, w: nat, x: nat, y: nat, ghost first: Tile, ghost k: nat)
    returns (next: seq<seq<Placed>>)
    requires FourEdges(tiles) && Turns(table) && x < w && k == y * w + x && k >= 1
    requires Exactly(states, tiles, table, w, first, k)
    ensures Readable(states, x) && next == ExpandAll(states, tiles, table, w, x)
    ensures Exactly(next, tiles, table, w, first, k + 1)
  {
    ColumnOf(x, y, w);
    StepExactly(states, tiles, table, w, first, x, k);
    ExactLengths(states, tiles, table, w, first, k);
    ghost var ls := StateLists(states, tiles, table, w, x);
    next := [];
    for m := 0 to |states|
      invariant next == Flatten(ls[..m])
    {
      var r := ExpandOne(states[m], tiles, table, w, x, y);
      FlattenNext(ls, m);
      next := next + r;
    }
    assert ls[..|states|] == ls;
  }

  /** The body of the `for state in states` loop: the neighbour edges read off the state, then its extensions. */
  method ExpandOne(s: seq<Placed>, tiles: seq<Tile>, table: seq<Orientation>, w: nat, x: nat, y: nat)
    returns (r: seq<seq<Placed>>)
    requires FourEdges(tiles) && Turns(table) && AllLaid(s) && x < w && x <= |s| && |s| == y * w + x
    ensures r == Extensions(s, tiles, table, Above(s, w), LeftOf(s, x))
  {
    SourceNeighbours(s, w, x, y);
    var top: Option<bv16> := None;
    if y > 0 {
      var (tile, orientation) := (s[(y - 1) * w + x].tile, s[(y - 1) * w + x].o);
      top := Some(BottomEdge(orientation, tile, true));
    }
    var left: Option<bv16> := None;
    if x > 0 {
      var (tile, orientation) := (s[y * w + x - 1].tile, s[y * w + x - 1].o);
      left := Some(RightEdge(orientation, tile, true));
    }
    r := ExtendState(s, tiles, table, top, left);
  }

  /** The source's indices `(y - 1) * w + x` and `y * w + x - 1` name the tiles above and to the left. */
  lemma SourceNeighbours(s: seq<Placed>, w: nat, x: nat, y: nat)
    requires AllLaid(s) && x < w && x <= |s| && |s| == y * w + x
    ensures y > 0 ==> (y - 1) * w + x < |s| && Above(s, w) == Some(BottomEdge(s[(y - 1) * w + x].o, s[(y - 1) * w + x].tile, true))
    ensures y == 0 ==> Above(s, w) == None
    ensures x > 0 ==> y * w + x - 1 < |s| && LeftOf(s, x) == Some(RightEdge(s[y * w + x - 1].o, s[y * w + x - 1].tile, true))
    ensures x == 0 ==> LeftOf(s, x) == None
  {
    if y > 0 {
      AboveIndex(x, y, w);
    }
  }

  /**
   * The search over the `w` by `w` grid, position by position in row-major order: what remains is
   * precisely the set of consistent full assemblies that start with the first corner.
   */
  method Assemble(tiles: seq<Tile>, table: seq<Orientation>, w: nat, first: Tile) returns (states: seq<seq<Placed>>)
    requires FourEdges(tiles) && Turns(table) && w > 0 && first in tiles && |first.edges| == 4
    ensures Exactly(states, tiles, table, w, first, w * w)
  {
    states := Start(first, table);
    StartExactly(tiles, table, w, first);
    ghost var filled := 1;
    ghost var row := 0;
    for y := 0 to w
      invariant row == y * w
      invariant filled == if y == 0 then 1 else row
      invariant Exactly(states, tiles, table, w, first, filled)
    {
      for x := 0 to w
        invariant filled == if y == 0 && x == 0 then 1 else row + x
        invariant Exactly(states, tiles, table, w, first, filled)
      {
        if x == 0 && y == 0 {
          continue;
        }
        states := ExpandStates(states, tiles, table, w, x, y, first, filled);
        filled := filled + 1;
      }
      Distribute(w, y, 1);
      row := row + w;
    }
  }

  /** `states.into_iter().next().unwrap()`: `None` where no assembly survives. */
  function FirstAssembly(states: seq<seq<Placed>>): (r: Option<seq<Placed>>)
    ensures r.Some? <==> |states| > 0
    ensures r.Some? ==> r.value in states
  {
    if states == [] then None else Some(states[0])
  }
}
