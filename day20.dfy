/**
 * Day 20 (jurassic jigsaw): square tiles of 10 by 10 pixels, each edge read as a 10-bit number in
 * both directions, the eight orientations of a tile, and the edge each orientation shows on a side.
 */
module Day20 {
  import opened Wrappers
  import opened Text
  import opened Bits

  /** A tile image: rows of pixels, `true` for '#'. */
  type Image = seq<seq<bool>>

  /** 10 rows of 10 pixels, the `[[bool; 10]; 10]` of a tile. */
  predicate IsImage(image: Image) {
    |image| == 10 && forall y :: 0 <= y < 10 ==> |image[y]| == 10
  }

  /** An edge read clockwise (`cw`) and counter-clockwise (`ccw`), one pixel per bit. */
  datatype Edge = Edge(cw: bv16, ccw: bv16)

  /** A tile: its number, its image and its top, right, bottom and left edges. */
  datatype Tile = Tile(id: nat, image: Image, edges: seq<Edge>)

  // ---- Edge folds ----

  /** The fold over the first `n` pixels of an edge: pixel `i` sets bit `i` of `cw` and bit `9 - i` of `ccw`. */
  function Fold(pixels: seq<bool>, n: bv16): Edge
    requires n <= 10 && |pixels| == 10
    decreases n as int
  {
    if n == 0 then Edge(0, 0)
    else
      var e := Fold(pixels, n - 1);
      var value: bv16 := if pixels[n - 1] then 1 else 0;
      Edge(e.cw | (value << (n - 1)), e.ccw | (value << (9 - (n - 1))))
  }

  /** Both readings of a fold fit in 10 bits. */
  lemma {:induction false} FoldBound(pixels: seq<bool>, n: bv16)
    requires n <= 10 && |pixels| == 10
    ensures Fold(pixels, n).cw < 1024
    ensures Fold(pixels, n).ccw < 1024
    decreases n as int
  {
    if n > 0 {
      FoldBound(pixels, n - 1);
      var e := Fold(pixels, n - 1);
      var value: bv16 := if pixels[n - 1] then 1 else 0;
      SetBitBound(e.cw, value, n - 1);
      SetBitBound(e.ccw, value, 9 - (n - 1));
    }
  }

  /** After `n` pixels, bit `i` of `cw` is pixel `i` when `i < n`, and clear otherwise. */
  lemma {:induction false} FoldCw(pixels: seq<bool>, n: bv16)
    requires n <= 10 && |pixels| == 10
    ensures forall i: bv16 :: i < 10 ==> (Bit(Fold(pixels, n).cw, i) <==> i < n && pixels[i])
    decreases n as int
  {
    if n > 0 {
      FoldCw(pixels, n - 1);
      var e := Fold(pixels, n - 1);
      var value: bv16 := if pixels[n - 1] then 1 else 0;
      forall i: bv16 | i < 10
        ensures Bit(Fold(pixels, n).cw, i) <==> i < n && pixels[i]
      {
        SetBit(e.cw, value, n - 1, i);
      }
    }
  }

  /** After `n` pixels, bit `j` of `ccw` is pixel `9 - j` when `9 - j < n`, and clear otherwise. */
  lemma {:induction false} FoldCcw(pixels: seq<bool>, n: bv16)
    requires n <= 10 && |pixels| == 10
    ensures forall j: bv16 :: j < 10 ==> (Bit(Fold(pixels, n).ccw, j) <==> 9 - j < n && pixels[9 - j])
    decreases n as int
  {
    if n > 0 {
      FoldCcw(pixels, n - 1);
      var e := Fold(pixels, n - 1);
      var value: bv16 := if pixels[n - 1] then 1 else 0;
      forall j: bv16 | j < 10
        ensures Bit(Fold(pixels, n).ccw, j) <==> 9 - j < n && pixels[9 - j]
      {
        SetBit(e.ccw, value, 9 - (n - 1), j);
      }
    }
  }

  /** `ccw` is `cw` read backwards: both fit in 10 bits, and bit `i` of `ccw` is bit `9 - i` of `cw`. */
  ghost predicate Reversal(cw: bv16, ccw: bv16) {
    cw < 1024 && ccw < 1024 && forall i: bv16 :: i < 10 ==> (Bit(ccw, i) <==> Bit(cw, 9 - i))
  }

  /** Reading backwards is symmetric. */
  lemma ReversalSymmetric(cw: bv16, ccw: bv16)
    requires Reversal(cw, ccw)
    ensures Reversal(ccw, cw)
  {
    forall i: bv16 | i < 10
      ensures Bit(cw, i) <==> Bit(ccw, 9 - i)
    {
      assert Bit(ccw, 9 - i) <==> Bit(cw, 9 - (9 - i));
    }
  }

  /** The pixels of side `side` (top, right, bottom, left) in clockwise order, as the folds read them. */
  function EdgePixels(image: Image, side: nat): (pixels: seq<bool>)
    requires IsImage(image) && side < 4
    ensures |pixels| == 10
  {
    seq(10, i requires 0 <= i < 10 =>
      if side == 0 then image[0][i]
      else if side == 1 then image[i][9]
      else if side == 2 then image[9][9 - i]
      else image[9 - i][0])
  }

  /** The four edges `parse` folds out of a tile image. */
  function Edges(image: Image): (edges: seq<Edge>)
    requires IsImage(image)
    ensures |edges| == 4
  {
    seq(4, side requires 0 <= side < 4 => Fold(EdgePixels(image, side), 10))
  }

  /**
   * Each edge is read from its side clockwise into `cw` (bit `i` is the `i`-th pixel) and backwards
   * into `ccw`, so that `ccw` is the 10-bit reversal of `cw`.
   */
  lemma EdgesRead(image: Image, side: nat)
    requires IsImage(image) && side < 4
    ensures Reversal(Edges(image)[side].cw, Edges(image)[side].ccw)
    ensures forall i: bv16 :: i < 10 ==> (Bit(Edges(image)[side].cw, i) <==> EdgePixels(image, side)[i])
  {
    var pixels := EdgePixels(image, side);
    assert Edges(image)[side] == Fold(pixels, 10);
    FoldBound(pixels, 10);
    FoldCw(pixels, 10);
    FoldCcw(pixels, 10);
  }

  /** Every edge of a tile is a pair of readings of the same 10 pixels. */
  ghost predicate WellFormed(tile: Tile) {
    |tile.edges| == 4 && forall k :: 0 <= k < 4 ==> Reversal(tile.edges[k].cw, tile.edges[k].ccw)
  }

  /** A tile built from an image is well formed. */
  lemma EdgesWellFormed(id: nat, image: Image)
    requires IsImage(image)
    ensures WellFormed(Tile(id, image, Edges(image)))
  {
    forall k | 0 <= k < 4
      ensures Reversal(Edges(image)[k].cw, Edges(image)[k].ccw)
    {
      EdgesRead(image, k);
    }
  }

  // ---- Parsing ----

  /** The number in a `Tile <n>:` header; `None` where the `unwrap` panics. */
  function TileId(line: string): (r: Option<nat>)
    ensures r.Some? ==> StartsWith(line, "Tile ") && |line| >= 6 && line[|line| - 1] == ':'
  {
    if StartsWith(line, "Tile ") && |line| >= 6 && line[|line| - 1] == ':' then ParseUnsigned(line[5..|line| - 1])
    else None
  }

  /** The 10 rows after a header, read 10 characters each; longer rows are cut. */
  function ReadImage(rows: seq<string>): (image: Image)
    requires |rows| == 10 && forall y :: 0 <= y < 10 ==> |rows[y]| >= 10
    ensures IsImage(image)
  {
    seq(10, y requires 0 <= y < 10 => seq(10, x requires 0 <= x < 10 => rows[y][x] == '#'))
  }

  /**
   * `parse`: a header line, 10 image rows and one separator line per tile, until the lines run out.
   * `None` where the Rust code panics: a bad header, fewer than 10 rows, or a row shorter than 10.
   */
  function ParseTiles(lines: seq<string>): (r: Option<seq<Tile>>)
    ensures r.Some? ==> forall k :: 0 <= k < |r.value| ==>
      IsImage(r.value[k].image) && r.value[k].edges == Edges(r.value[k].image)
    decreases |lines|
  {
    if lines == [] then Some([])
    else if TileId(lines[0]).None? || |lines| < 11 then None
    else if exists y :: 1 <= y <= 10 && |lines[y]| < 10 then None
    else
      var image := ReadImage(lines[1..11]);
      match ParseTiles(if |lines| >= 12 then lines[12..] else [])
      case None => None
      case Some(rest) => Some([Tile(TileId(lines[0]).value, image, Edges(image))] + rest)
  }

  // ---- Orientations ----

  /** Turned `rotation` quarter turns, after a flip when `flipped`. */
  datatype Orientation = Orientation(rotation: nat, flipped: bool)

  /** `ALL_ORIENTATIONS`, in the order the searches try them. */
  const AllOrientations: seq<Orientation> := [
    Orientation(0, true), Orientation(3, true), Orientation(0, false), Orientation(1, false),
    Orientation(2, false), Orientation(3, false), Orientation(1, true), Orientation(2, true)]

  /** The table holds each of the eight rotations and flips of the square exactly once. */
  lemma AllOrientationsComplete()
    ensures |AllOrientations| == 8
    ensures forall i, j :: 0 <= i < j < 8 ==> AllOrientations[i] != AllOrientations[j]
    ensures forall i :: 0 <= i < 8 ==> AllOrientations[i].rotation < 4
    ensures forall r: nat, f: bool :: r < 4 ==> Orientation(r, f) in AllOrientations
  {
    forall r: nat, f: bool | r < 4
      ensures Orientation(r, f) in AllOrientations
    {
      if f {
        assert AllOrientations[if r == 0 then 0 else if r == 3 then 1 else 5 + r] == Orientation(r, f);
      } else {
        assert AllOrientations[2 + r] == Orientation(r, f);
      }
    }
  }

  /** The edge index `get_top_edge` reads. */
  function TopIndex(o: Orientation): nat
    requires o.rotation < 4
  {
    if !o.flipped then o.rotation else (2 + 4 - o.rotation) % 4
  }

  /** The edge index `get_right_edge` reads. */
  function RightIndex(o: Orientation): nat
    requires o.rotation < 4
  {
    if !o.flipped then (1 + o.rotation) % 4 else (1 + 4 - o.rotation) % 4
  }

  /** The edge index `get_bottom_edge` reads. */
  function BottomIndex(o: Orientation): nat
    requires o.rotation < 4
  {
    if !o.flipped then (2 + o.rotation) % 4 else (4 - o.rotation) % 4
  }

  /** The edge index `get_left_edge` reads. */
  function LeftIndex(o: Orientation): nat
    requires o.rotation < 4
  {
    if !o.flipped then (3 + o.rotation) % 4 else 3 - o.rotation
  }

  /** The edge index shown on side `side` (0 top, 1 right, 2 bottom, 3 left). */
  function SideIndex(o: Orientation, side: nat): nat
    requires o.rotation < 4 && side < 4
  {
    match side
    case 0 => TopIndex(o)
    case 1 => RightIndex(o)
    case 2 => BottomIndex(o)
    case _ => LeftIndex(o)
  }

  /** The side on which edge `k` shows. */
  function SideOf(o: Orientation, k: nat): nat
    requires o.rotation < 4 && k < 4
  {
    if o.flipped then (6 - k - o.rotation) % 4 else (k - o.rotation) % 4
  }

  /**
   * The accessors are a symmetry of the square: unflipped, side `s` shows edge `s + rotation`;
   * flipped, the order of the sides is reversed and side `s` shows edge `6 - s - rotation` (modulo 4).
   * So the four sides show the four edges, each once, and edge `k` shows on side `SideOf(o, k)`.
   */
  lemma SidesPermute(o: Orientation)
    requires o.rotation < 4
    ensures forall s :: 0 <= s < 4 ==> SideIndex(o, s) < 4
    ensures forall s :: 0 <= s < 4 ==> SideIndex(o, s) == Turned(o, s)
    ensures forall s, t :: 0 <= s < t < 4 ==> SideIndex(o, s) != SideIndex(o, t)
    ensures forall k :: 0 <= k < 4 ==> SideOf(o, k) < 4 && SideIndex(o, SideOf(o, k)) == k
  {
    forall s | 0 <= s < 4
      ensures SideIndex(o, s) == Turned(o, s)
    {
      SideFormula(o, s);
    }
    forall k | 0 <= k < 4
      ensures SideOf(o, k) < 4 && Turned(o, SideOf(o, k)) == k
    {
      TurnedInverse(o, k);
    }
    forall s, t | 0 <= s < t < 4
      ensures SideIndex(o, s) != SideIndex(o, t)
    {
      TurnedInverse(o, s);
      TurnedInverse(o, t);
    }
  }

  /** `SideOf` undoes `Turned`, and the other way round. */
  lemma TurnedInverse(o: Orientation, k: nat)
    requires o.rotation < 4 && k < 4
    ensures SideOf(o, k) < 4 && Turned(o, SideOf(o, k)) == k
    ensures Turned(o, k) < 4 && SideOf(o, Turned(o, k)) == k
  {
    var r := o.rotation;
    if o.flipped {
      var s := (6 - k - r) % 4;
      Mod4(6 - k - r);
      Mod4(6 - s - r);
    } else {
      var s, t := (k - r) % 4, (k + r) % 4;
      Mod4(k - r);
      Mod4(s + r);
      Mod4(k + r);
      Mod4(t - r);
    }
  }

  /** Remainders modulo 4 of small numbers, without division. */
  lemma Mod4(x: int)
    requires -4 <= x < 8
    ensures x % 4 == if x < 0 then x + 4 else if x < 4 then x else x - 4
  {
  }

  /** Side `s` after the turn and flip of `o`. */
  function Turned(o: Orientation, s: nat): nat {
    if o.flipped then (6 - s - o.rotation) % 4 else (s + o.rotation) % 4
  }

  lemma SideFormula(o: Orientation, s: nat)
    requires o.rotation < 4 && s < 4
    ensures SideIndex(o, s) == Turned(o, s)
  {
  }

  /** Reading `cw` or `ccw` of an edge: `ccw` exactly when the flip and the `counter` request differ. */
  function Reading(e: Edge, flipped: bool, counter: bool): bv16 {
    if flipped != counter then e.ccw else e.cw
  }

  /** `get_top_edge`. */
  function TopEdge(o: Orientation, tile: Tile, counter: bool): bv16
    requires o.rotation < 4 && |tile.edges| == 4
  {
    Reading(tile.edges[TopIndex(o)], o.flipped, counter)
  }

  /** `get_right_edge`. */
  function RightEdge(o: Orientation, tile: Tile, counter: bool): bv16
    requires o.rotation < 4 && |tile.edges| == 4
  {
    Reading(tile.edges[RightIndex(o)], o.flipped, counter)
  }

  /** `get_bottom_edge`. */
  function BottomEdge(o: Orientation, tile: Tile, counter: bool): bv16
    requires o.rotation < 4 && |tile.edges| == 4
  {
    Reading(tile.edges[BottomIndex(o)], o.flipped, counter)
  }

  /** `get_left_edge`. */
  function LeftEdge(o: Orientation, tile: Tile, counter: bool): bv16
    requires o.rotation < 4 && |tile.edges| == 4
  {
    Reading(tile.edges[LeftIndex(o)], o.flipped, counter)
  }

  /** The reading on side `side`. */
  function SideEdge(o: Orientation, tile: Tile, side: nat, counter: bool): (r: bv16)
    requires o.rotation < 4 && |tile.edges| == 4 && side < 4
    ensures r == Reading(tile.edges[SideIndex(o, side)], o.flipped, counter)
  {
    match side
    case 0 => TopEdge(o, tile, counter)
    case 1 => RightEdge(o, tile, counter)
    case 2 => BottomEdge(o, tile, counter)
    case _ => LeftEdge(o, tile, counter)
  }

  /**
   * Toggling `counter` reads the same edge the other way round: on a well-formed tile the two
   * readings of every side are 10-bit reversals of each other.
   */
  lemma CounterReverses(o: Orientation, tile: Tile, side: nat)
    requires o.rotation < 4 && side < 4 && WellFormed(tile)
    ensures Reversal(SideEdge(o, tile, side, false), SideEdge(o, tile, side, true))
  {
    SidesPermute(o);
    var e := tile.edges[SideIndex(o, side)];
    assert Reversal(e.cw, e.ccw);
    if o.flipped {
      ReversalSymmetric(e.cw, e.ccw);
    }
  }
}
