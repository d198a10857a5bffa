/**
 * Day 20, part 2, end to end: the first corner, the grid width, the assembly search, the first
 * assembly left, the picture built from it and the search for sea monsters in that picture.
 */
module Day20Part2 {
  import opened Wrappers
  import opened Day20
  import opened Day20Assembly
  import opened Day20Corners
  import opened Day20Final
  import opened Day20Search

  /** Tiles as `parse` builds them: a 10 by 10 picture and the four edges read from it. */
  predicate Parsed(tiles: seq<Tile>) {
    forall k :: 0 <= k < |tiles| ==> IsImage(tiles[k].image) && tiles[k].edges == Edges(tiles[k].image)
  }

  /** `(tiles.len() as f64).sqrt() as usize`: the side of the square grid. */
  function Width(tiles: seq<Tile>): nat {
    ISqrt(|tiles|)
  }

  /** The first tile that is a corner; `None` where the corner count panics. */
  function Anchor(tiles: seq<Tile>): (r: Option<Tile>)
    ensures r.Some? ==> r.value in tiles
    ensures r.Some? <==> CornerIds(tiles).Some?
  {
    match CornerIds(tiles)
    case None => None
    case Some(ids) =>
      FirstCornerFound(tiles);
      FirstCorner(tiles, ids)
  }

  /** A full assembly of the `w` by `w` grid that starts with `first` and whose neighbours' edges match. */
  predicate Assembly(e: seq<Placed>, tiles: seq<Tile>, w: nat, first: Tile) {
    w > 0 && |e| == w * w && e[0].tile == first && Consistent(e, tiles, AllOrientations, w)
  }

  /** `img` is the picture of the `w` by `w` grid `placed`: each block holds its tile's interior. */
  predicate Pictures(img: seq<bool>, placed: seq<Placed>, w: nat)
    requires Pictured(placed)
  {
    |placed| >= w * w && |img| == 8 * w * (8 * w) &&
    forall tx, ty :: 0 <= tx < w && 0 <= ty < w ==> Copied(img, 8 * w, placed, w, tx, ty)
  }

  /** Parsed tiles have four edges each. */
  lemma ParsedFourEdges(tiles: seq<Tile>)
    requires Parsed(tiles)
    ensures FourEdges(tiles)
  {
  }

  /** Every tile of an assembly built from parsed tiles carries a 10 by 10 picture. */
  lemma AssemblyPictured(e: seq<Placed>, tiles: seq<Tile>, w: nat)
    requires Parsed(tiles) && w > 0 && Consistent(e, tiles, AllOrientations, w)
    ensures Pictured(e)
  {
    forall p | p in e
      ensures IsImage(p.tile.image)
    {
      var q :| 0 <= q < |e| && e[q] == p;
      assert FromPuzzle(e[q], tiles, AllOrientations);
      var k :| 0 <= k < |tiles| && tiles[k] == p.tile;
    }
  }

  /**
   * `n` is what part 2 prints for the tiles: `placed` is a full assembly from the first corner,
   * `img` its picture, and `n` the roughness the search finds in it.
   */
  ghost predicate Yields(tiles: seq<Tile>, placed: seq<Placed>, img: seq<bool>, n: nat) {
    Anchor(tiles).Some? && Assembly(placed, tiles, Width(tiles), Anchor(tiles).value) &&
    Pictured(placed) && Pictures(img, placed, Width(tiles)) && Search(img, 8 * Width(tiles)) == Roughness(n)
  }

  /** Part 2 has no answer for `placed` and `img`: they are the assembly and picture, but no monster shows. */
  ghost predicate Unanswered(tiles: seq<Tile>, placed: seq<Placed>, img: seq<bool>) {
    Anchor(tiles).Some? &&
    ((forall e :: !Assembly(e, tiles, Width(tiles), Anchor(tiles).value)) ||
     (Assembly(placed, tiles, Width(tiles), Anchor(tiles).value) &&
      Pictured(placed) && Pictures(img, placed, Width(tiles)) && !Search(img, 8 * Width(tiles)).Roughness?))
  }

  /**
   * Part 2: the four corners (a panic unless there are exactly four), the first tile that is a
   * corner, the grid width, the assembly search from that corner, the first full assembly (a panic
   * when none is left), its picture, and the roughness of the first orientation of the picture that
   * shows a sea monster (a panic when none does). Which assembly comes first is not modelled, so the
   * result is stated for the assembly and the picture handed back beside it.
   */
  method Part2(tiles: seq<Tile>) returns (r: Option<nat>, ghost placed: seq<Placed>, ghost img: seq<bool>)
    requires Parsed(tiles)
    ensures CornerIds(tiles).None? ==> r.None?
    ensures r.Some? ==> Yields(tiles, placed, img, r.value)
    ensures r.None? && CornerIds(tiles).Some? ==> Unanswered(tiles, placed, img)
  {
    placed, img := [], [];
    var corners := CornerIds(tiles);
    if corners.None? {
      return None, placed, img;
    }
    var first := Anchor(tiles).value;
    var w := ISqrt(|tiles|);
    if w == 0 {
      // A corner was found, so there is a tile; the width is at least one.
      assert false;
    }
    r, placed, img := Render(tiles, w, first);
  }

  /**
   * From the first corner on: the assembly search, the first full assembly (a panic when none is
   * left), its picture, and the roughness the search finds in it (a panic when there is none).
   */
  method Render(tiles: seq<Tile>, w: nat, first: Tile) returns (r: Option<nat>, ghost placed: seq<Placed>, ghost img: seq<bool>)
    requires Parsed(tiles) && w > 0 && first in tiles
    ensures r.Some? ==> (Assembly(placed, tiles, w, first) && Pictured(placed) && Pictures(img, placed, w) &&
      Search(img, 8 * w) == Roughness(r.value))
    ensures r.None? ==> ((forall e :: !Assembly(e, tiles, w, first)) ||
      (Assembly(placed, tiles, w, first) && Pictured(placed) && Pictures(img, placed, w) && !Search(img, 8 * w).Roughness?))
  {
    placed, img := [], [];
    ParsedFourEdges(tiles);
    AllOrientationsTurn();
    var states := Assemble(tiles, AllOrientations, w, first);
    var chosen := FirstAssembly(states);
    if chosen.None? {
      forall e | Assembly(e, tiles, w, first)
        ensures false
      {
        assert false;
      }
      return None, placed, img;
    }
    var tileStates := chosen.value;
    assert tileStates in states;
    AssemblyPictured(tileStates, tiles, w);
    var image, fw := FinalImage(tileStates, w);
    placed, img := tileStates, image;
    var found := FindSeaMonsters(image, fw);
    if found.Roughness? {
      r := Some(found.n);
    } else {
      r := None;
    }
  }
}
