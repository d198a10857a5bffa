/**
 * Day 20, part 1: every edge value of every tile is filed under the tiles that show it; a value
 * shown only once lies on the border of the puzzle, and a corner tile has four such values.
 */
module Day20Corners {
  import opened Wrappers
  import opened Day20

  /** The values a tile files, in order: `cw` then `ccw` of each of its edges. */
  function EdgeValues(edges: seq<Edge>): (vs: seq<bv16>)
    ensures |vs| == 2 * |edges|
    decreases |edges|
  {
    if edges == [] then []
    else EdgeValues(edges[..|edges| - 1]) + [edges[|edges| - 1].cw, edges[|edges| - 1].ccw]
  }

  /** The values of edge `k` sit at positions `2k` and `2k + 1`. */
  lemma {:induction false} EdgeValuesAt(edges: seq<Edge>, k: nat)
    requires k < |edges|
    ensures EdgeValues(edges)[2 * k] == edges[k].cw && EdgeValues(edges)[2 * k + 1] == edges[k].ccw
    decreases |edges|
  {
    if k < |edges| - 1 {
      var init := edges[..|edges| - 1];
      EdgeValuesAt(init, k);
      assert init[k] == edges[k];
    }
  }

  /** The `(value, tile id)` pushes one tile makes. */
  function TilePushes(tile: Tile): (ps: seq<(nat, nat)>)
    ensures |ps| == 2 * |tile.edges|
  {
    var vs := EdgeValues(tile.edges);
    seq(|vs|, i requires 0 <= i < |vs| => (vs[i] as nat, tile.id))
  }

  /** All pushes, tile after tile. */
  function Pushes(tiles: seq<Tile>): seq<(nat, nat)>
    decreases |tiles|
  {
    if tiles == [] then [] else Pushes(tiles[..|tiles| - 1]) + TilePushes(tiles[|tiles| - 1])
  }

  /** `entry(value).and_modify(push).or_insert_with(vec![id])`; a `u16` key is held as its number. */
  function Push(m: map<nat, seq<nat>>, key: nat, id: nat): (r: map<nat, seq<nat>>)
    ensures r.Keys == m.Keys + {key}
  {
    m[key := (if key in m then m[key] else []) + [id]]
  }

  /** `tiles_for_edge` after the given pushes. */
  function Buckets(ps: seq<(nat, nat)>): map<nat, seq<nat>>
    decreases |ps|
  {
    if ps == [] then map[] else Push(Buckets(ps[..|ps| - 1]), ps[|ps| - 1].0, ps[|ps| - 1].1)
  }

  /** The ids pushed with `value`, in push order: the reference reading of a bucket. */
  function IdsFor(ps: seq<(nat, nat)>, value: nat): seq<nat>
    decreases |ps|
  {
    if ps == [] then []
    else IdsFor(ps[..|ps| - 1], value) + (if ps[|ps| - 1].0 == value then [ps[|ps| - 1].1] else [])
  }

  /** A bucket exists exactly for the values pushed at least once, and holds their ids in push order. */
  lemma {:induction false} BucketsMeans(ps: seq<(nat, nat)>, value: nat)
    ensures value in Buckets(ps) <==> IdsFor(ps, value) != []
    ensures value in Buckets(ps) ==> Buckets(ps)[value] == IdsFor(ps, value)
    decreases |ps|
  {
    if ps != [] {
      var init, last := ps[..|ps| - 1], ps[|ps| - 1];
      BucketsMeans(init, value);
      var m := Buckets(init);
      assert Buckets(ps) == Push(m, last.0, last.1);
      if last.0 == value {
        assert IdsFor(ps, value) == IdsFor(init, value) + [last.1];
      } else {
        assert IdsFor(ps, value) == IdsFor(init, value);
      }
    }
  }

  /** `tiles_for_edge` filled by the two nested loops of the Rust code. */
  method BuildBuckets(tiles: seq<Tile>) returns (m: map<nat, seq<nat>>)
    ensures m == Buckets(Pushes(tiles))
  {
    m := map[];
    for i := 0 to |tiles|
      invariant m == Buckets(Pushes(tiles[..i]))
    {
      var tile := tiles[i];
      ghost var before := Pushes(tiles[..i]);
      assert before + TilePushes(tile)[..0] == before;
      for j := 0 to |tile.edges|
        invariant m == Buckets(before + TilePushes(tile)[..2 * j])
      {
        EdgeValuesAt(tile.edges, j);
        PushTwice(before, TilePushes(tile), j);
        m := Push(m, tile.edges[j].cw as nat, tile.id);
        m := Push(m, tile.edges[j].ccw as nat, tile.id);
      }
      assert TilePushes(tile)[..2 * |tile.edges|] == TilePushes(tile);
      assert tiles[..i + 1][..i] == tiles[..i];
    }
    assert tiles[..|tiles|] == tiles;
  }

  /** One more edge extends the pushes by its two values. */
  lemma PushTwice(before: seq<(nat, nat)>, ps: seq<(nat, nat)>, j: nat)
    requires 2 * j + 2 <= |ps|
    ensures Buckets(before + ps[..2 * j + 2])
      == Push(Push(Buckets(before + ps[..2 * j]), ps[2 * j].0, ps[2 * j].1), ps[2 * j + 1].0, ps[2 * j + 1].1)
  {
    assert (before + ps[..2 * j + 2])[..|before| + 2 * j + 1] == before + ps[..2 * j + 1];
    assert (before + ps[..2 * j + 1])[..|before| + 2 * j] == before + ps[..2 * j];
  }

  /** `puzzle_edge_edges`: the values whose bucket holds a single id. */
  function OuterEdges(m: map<nat, seq<nat>>): (r: set<nat>)
    ensures forall v :: v in r <==> v in m && |m[v]| == 1
  {
    set v | v in m && |m[v]| == 1
  }

  /** A value is a border value exactly when it was pushed exactly once. */
  lemma OuterMeans(tiles: seq<Tile>, value: bv16)
    ensures value as nat in OuterEdges(Buckets(Pushes(tiles))) <==> |IdsFor(Pushes(tiles), value as nat)| == 1
  {
    BucketsMeans(Pushes(tiles), value as nat);
  }

  /** How many of `vs` lie in `outer`. */
  function CountIn(vs: seq<bv16>, outer: set<nat>): (n: nat)
    ensures n <= |vs|
    decreases |vs|
  {
    if vs == [] then 0 else CountIn(vs[..|vs| - 1], outer) + (if vs[|vs| - 1] as nat in outer then 1 else 0)
  }

  /** How many of `vs` were pushed exactly once: the count read off the pushes themselves. */
  function CountUnique(vs: seq<bv16>, ps: seq<(nat, nat)>): nat
    decreases |vs|
  {
    if vs == [] then 0 else CountUnique(vs[..|vs| - 1], ps) + (if |IdsFor(ps, vs[|vs| - 1] as nat)| == 1 then 1 else 0)
  }

  /** Counting against `puzzle_edge_edges` counts the tile's values that occur once in the whole puzzle. */
  lemma {:induction false} CountMeans(vs: seq<bv16>, tiles: seq<Tile>)
    ensures CountIn(vs, OuterEdges(Buckets(Pushes(tiles)))) == CountUnique(vs, Pushes(tiles))
    decreases |vs|
  {
    if vs != [] {
      CountMeans(vs[..|vs| - 1], tiles);
      OuterMeans(tiles, vs[|vs| - 1]);
    }
  }

  /** A tile with exactly four of its eight edge values on the border. */
  predicate IsCorner(tile: Tile, outer: set<nat>) {
    CountIn(EdgeValues(tile.edges), outer) == 4
  }

  /** `corner_tiles`: the ids of the corner tiles, in tile order. */
  function Corners(tiles: seq<Tile>, outer: set<nat>): (ids: seq<nat>)
    ensures |ids| <= |tiles|
    decreases |tiles|
  {
    if tiles == [] then []
    else
      var last := tiles[|tiles| - 1];
      Corners(tiles[..|tiles| - 1], outer) + (if IsCorner(last, outer) then [last.id] else [])
  }

  /** An id is listed exactly when some tile with that id is a corner. */
  lemma CornersMeans(tiles: seq<Tile>, outer: set<nat>, id: nat)
    ensures id in Corners(tiles, outer) <==>
      exists k :: 0 <= k < |tiles| && tiles[k].id == id && IsCorner(tiles[k], outer)
  {
    if id in Corners(tiles, outer) {
      CornersSound(tiles, outer, id);
    }
    if exists k :: 0 <= k < |tiles| && tiles[k].id == id && IsCorner(tiles[k], outer) {
      var k :| 0 <= k < |tiles| && tiles[k].id == id && IsCorner(tiles[k], outer);
      CornersComplete(tiles, outer, k);
    }
  }

  /** Every listed id belongs to a corner tile. */
  lemma {:induction false} CornersSound(tiles: seq<Tile>, outer: set<nat>, id: nat)
    requires id in Corners(tiles, outer)
    ensures exists k :: 0 <= k < |tiles| && tiles[k].id == id && IsCorner(tiles[k], outer)
    decreases |tiles|
  {
    var init, last := tiles[..|tiles| - 1], tiles[|tiles| - 1];
    if id in Corners(init, outer) {
      CornersSound(init, outer, id);
      var k :| 0 <= k < |init| && init[k].id == id && IsCorner(init[k], outer);
      assert tiles[k] == init[k];
    } else {
      assert tiles[|tiles| - 1] == last && last.id == id && IsCorner(last, outer);
    }
  }

  /** Every corner tile's id is listed. */
  lemma {:induction false} CornersComplete(tiles: seq<Tile>, outer: set<nat>, k: nat)
    requires k < |tiles| && IsCorner(tiles[k], outer)
    ensures tiles[k].id in Corners(tiles, outer)
    decreases |tiles|
  {
    var init := tiles[..|tiles| - 1];
    if k < |init| {
      assert init[k] == tiles[k];
      CornersComplete(init, outer, k);
    }
  }

  /** The product of the ids. */
  function Product(ids: seq<nat>): nat
    decreases |ids|
  {
    if ids == [] then 1 else ids[0] * Product(ids[1..])
  }

  /** The corner ids, `None` where `assert_eq!(corner_tiles.len(), 4)` panics. */
  function CornerIds(tiles: seq<Tile>): (r: Option<seq<nat>>)
    ensures r.Some? ==> |r.value| == 4
  {
    var corners := Corners(tiles, OuterEdges(Buckets(Pushes(tiles))));
    if |corners| != 4 then None else Some(corners)
  }

  /** Each corner id is the id of a tile four of whose eight edge readings belong to no other tile. */
  lemma CornerIdsMeans(tiles: seq<Tile>, id: nat)
    requires CornerIds(tiles).Some? && id in CornerIds(tiles).value
    ensures exists k :: 0 <= k < |tiles| && tiles[k].id == id && CountUnique(EdgeValues(tiles[k].edges), Pushes(tiles)) == 4
  {
    CornersMeans(tiles, OuterEdges(Buckets(Pushes(tiles))), id);
    var k :| 0 <= k < |tiles| && tiles[k].id == id && IsCorner(tiles[k], OuterEdges(Buckets(Pushes(tiles))));
    CountMeans(EdgeValues(tiles[k].edges), tiles);
  }

  /** Part 1: the buckets built by the loops, then the product of the four corner ids. */
  method Part1(tiles: seq<Tile>) returns (r: Option<nat>)
    ensures CornerIds(tiles).None? ==> r.None?
    ensures CornerIds(tiles).Some? ==> r == Some(Product(CornerIds(tiles).value))
  {
    var buckets := BuildBuckets(tiles);
    var corners := Corners(tiles, OuterEdges(buckets));
    if |corners| != 4 {
      return None;
    }
    r := Some(Product(corners));
  }

  /** `first_corner`: the first tile whose id is a corner id. */
  function FirstCorner(tiles: seq<Tile>, corners: seq<nat>): (r: Option<Tile>)
    ensures r.Some? ==> exists k :: (0 <= k < |tiles| && tiles[k] == r.value && r.value.id in corners &&
      forall j :: 0 <= j < k ==> tiles[j].id !in corners)
    ensures r.None? <==> forall k :: 0 <= k < |tiles| ==> tiles[k].id !in corners
    decreases |tiles|
  {
    if tiles == [] then None
    else if tiles[0].id in corners then Some(tiles[0])
    else
      var r := FirstCorner(tiles[1..], corners);
      assert forall k :: 1 <= k < |tiles| ==> tiles[k] == tiles[1..][k - 1];
      assert r.Some? ==> exists k :: (0 <= k < |tiles| && tiles[k] == r.value && r.value.id in corners &&
        forall j :: 0 <= j < k ==> tiles[j].id !in corners) by {
        if r.Some? {
          var k :| 0 <= k < |tiles[1..]| && tiles[1..][k] == r.value && r.value.id in corners &&
            forall j :: 0 <= j < k ==> tiles[1..][j].id !in corners;
          assert forall j :: 0 <= j < k + 1 ==> tiles[j].id !in corners by {
            forall j | 0 <= j < k + 1
              ensures tiles[j].id !in corners
            {
              if j > 0 {
                assert tiles[j] == tiles[1..][j - 1];
              }
            }
          }
          assert tiles[k + 1] == r.value;
        }
      }
      r
  }

  /** Every listed corner id belongs to a tile, so the first corner is found. */
  lemma FirstCornerFound(tiles: seq<Tile>)
    requires CornerIds(tiles).Some?
    ensures FirstCorner(tiles, CornerIds(tiles).value).Some?
  {
    var ids := CornerIds(tiles).value;
    assert ids[0] in ids;
    CornerIdsMeans(tiles, ids[0]);
    var k :| 0 <= k < |tiles| && tiles[k].id == ids[0] && CountUnique(EdgeValues(tiles[k].edges), Pushes(tiles)) == 4;
  }
}
