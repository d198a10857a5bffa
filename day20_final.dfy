/**
 * Day 20, part 2, first half: the tiles of the first full assembly, each turned to its orientation,
 * lose their one-pixel border, and their 8 by 8 interiors are laid side by side into one square
 * picture of `8 * width` pixels a side.
 */
module Day20Final {
  import opened Arith
  import opened Day20
  import opened Day20Images
  import opened Day20Assembly

  // ---- Width ----

  /** The largest `r` with `r * r <= n`: the integer part of the square root the puzzle width is read as. */
  function ISqrt(n: nat): (r: nat)
    ensures r * r <= n < (r + 1) * (r + 1)
    decreases n
  {
    if n == 0 then 0
    else
      var r := ISqrt(n - 1);
      if (r + 1) * (r + 1) <= n then r + 1 else r
  }

  /** A square number of tiles gives back its side. */
  lemma ISqrtSquare(w: nat)
    ensures ISqrt(w * w) == w
  {
    var r := ISqrt(w * w);
    if r < w {
      SquareMonotone(r + 1, w);
      assert false;
    } else if r > w {
      SquareMonotone(w + 1, r);
      SquareMonotone(w, w + 1);
      assert false;
    }
  }

  /** Squaring keeps the order of naturals. */
  lemma SquareMonotone(a: nat, b: nat)
    requires a <= b
    ensures a * a <= b * b && (a < b ==> a * a < b * b)
  {
    MulMonotone(a, b, a);
    MulMonotone(a, b, b);
  }

  // ---- Placed tile pictures ----

  /** Every placement carries a 10 by 10 tile picture. */
  predicate Pictured(placed: seq<Placed>) {
    forall p :: p in placed ==> IsImage(p.tile.image)
  }

  /** The tile's picture as placed: flipped upside down first when the orientation says so, then turned. */
  function Oriented(p: Placed): (r: Image)
    requires IsImage(p.tile.image)
    ensures IsImage(r)
  {
    RotateTileN(if p.o.flipped then FlipTile(p.tile.image) else p.tile.image, p.o.rotation)
  }

  /** The placement at grid position `(tx, ty)`, `tile_states[ty * width + tx]`. */
  function At(placed: seq<Placed>, w: nat, tx: nat, ty: nat): (p: Placed)
    requires |placed| >= w * w && tx < w && ty < w
    ensures p in placed
  {
    RowMajorBound(tx, ty, w, w);
    placed[ty * w + tx]
  }

  /** Block `(tx, ty)` of the picture, `fw = 8 * w` pixels wide, holds the interior of the tile placed at `(tx, ty)`. */
  predicate Copied(img: seq<bool>, fw: nat, placed: seq<Placed>, w: nat, tx: nat, ty: nat)
    requires fw == 8 * w && |img| >= fw * fw && |placed| >= w * w && Pictured(placed) && tx < w && ty < w
  {
    forall x, y :: tx * 8 <= x < tx * 8 + 8 && ty * 8 <= y < ty * 8 + 8 ==>
      Pixel(img, fw, x, y) == Oriented(At(placed, w, tx, ty))[y - ty * 8 + 1][x - tx * 8 + 1]
  }

  /** The pixels of `a` and `b` agree outside the `n` pixels of row `y` that start at column `x0`. */
  predicate SameOutsideRow(a: seq<bool>, b: seq<bool>, fw: nat, x0: nat, y0: nat, n: nat)
    requires |a| >= fw * fw && |b| >= fw * fw
  {
    forall x, y :: 0 <= x < fw && 0 <= y < fw && !(x0 <= x < x0 + n && y == y0) ==>
      Pixel(a, fw, x, y) == Pixel(b, fw, x, y)
  }

  /** The pixels of `a` and `b` agree outside the 8 by 8 block whose top left pixel is `(x0, y0)`. */
  predicate SameOutside(a: seq<bool>, b: seq<bool>, fw: nat, x0: nat, y0: nat)
    requires |a| >= fw * fw && |b| >= fw * fw
  {
    forall x, y :: 0 <= x < fw && 0 <= y < fw && !(x0 <= x < x0 + 8 && y0 <= y < y0 + 8) ==>
      Pixel(a, fw, x, y) == Pixel(b, fw, x, y)
  }

  /** Writing block `(tx, ty)` leaves every other block as it was. */
  lemma OtherBlock(a: seq<bool>, b: seq<bool>, fw: nat, placed: seq<Placed>, w: nat, tx: nat, ty: nat, cx: nat, cy: nat)
    requires fw == 8 * w && |a| >= fw * fw && |b| >= fw * fw && |placed| >= w * w && Pictured(placed)
    requires tx < w && ty < w && cx < w && cy < w && (cx, cy) != (tx, ty)
    requires SameOutside(a, b, fw, tx * 8, ty * 8) && Copied(a, fw, placed, w, cx, cy)
    ensures Copied(b, fw, placed, w, cx, cy)
  {
    forall x, y | cx * 8 <= x < cx * 8 + 8 && cy * 8 <= y < cy * 8 + 8
      ensures Pixel(b, fw, x, y) == Oriented(At(placed, w, cx, cy))[y - cy * 8 + 1][x - cx * 8 + 1]
    {
      assert !(tx * 8 <= x < tx * 8 + 8 && ty * 8 <= y < ty * 8 + 8);
    }
  }

  /** The innermost loop: pixels `1..9` of a tile row written to the 8 pixels of row `y` from column `x0`. */
  method CopyRow(a: array<bool>, fw: nat, x0: nat, y: nat, row: seq<bool>)
    requires a.Length == fw * fw && x0 + 8 <= fw && y < fw && |row| == 10
    modifies a
    ensures forall x :: x0 <= x < x0 + 8 ==> Pixel(a[..], fw, x, y) == row[x - x0 + 1]
    ensures SameOutsideRow(old(a[..]), a[..], fw, x0, y, 8)
  {
    for ix := 0 to 8
      invariant forall x :: x0 <= x < x0 + ix ==> Pixel(a[..], fw, x, y) == row[x - x0 + 1]
      invariant SameOutsideRow(old(a[..]), a[..], fw, x0, y, ix)
    {
      SetPixel(a, fw, x0 + ix, y, row[ix + 1]);
    }
  }

  /** The two inner loops: the interior of `t` written into the block whose top left pixel is `(x0, y0)`. */
  method CopyTile(a: array<bool>, fw: nat, x0: nat, y0: nat, t: Image)
    requires a.Length == fw * fw && x0 + 8 <= fw && y0 + 8 <= fw && IsImage(t)
    modifies a
    ensures forall x, y :: x0 <= x < x0 + 8 && y0 <= y < y0 + 8 ==> Pixel(a[..], fw, x, y) == t[y - y0 + 1][x - x0 + 1]
    ensures SameOutside(old(a[..]), a[..], fw, x0, y0)
  {
    for iy := 0 to 8
      invariant forall x, y :: x0 <= x < x0 + 8 && y0 <= y < y0 + iy ==> Pixel(a[..], fw, x, y) == t[y - y0 + 1][x - x0 + 1]
      invariant forall x, y :: 0 <= x < fw && 0 <= y < fw && !(x0 <= x < x0 + 8 && y0 <= y < y0 + iy) ==>
        Pixel(old(a[..]), fw, x, y) == Pixel(a[..], fw, x, y)
    {
      CopyRow(a, fw, x0, y0 + iy, t[iy + 1]);
    }
  }

  /** One grid position: the placed tile flipped and turned as its orientation says, then its interior copied. */
  method PlaceTile(a: array<bool>, fw: nat, placed: seq<Placed>, w: nat, x: nat, y: nat)
    requires fw == 8 * w && a.Length == fw * fw && |placed| >= w * w && Pictured(placed) && x < w && y < w
    modifies a
    ensures Copied(a[..], fw, placed, w, x, y)
    ensures SameOutside(old(a[..]), a[..], fw, x * 8, y * 8)
  {
    RowMajorBound(x, y, w, w);
    var p := placed[y * w + x];
    assert p == At(placed, w, x, y) && p in placed;
    var image := p.tile.image;
    if p.o.flipped {
      image := FlipTileImage(image);
    }
    image := RotateTileImage(image, p.o.rotation);
    CopyTile(a, fw, x * 8, y * 8, image);
  }

  /**
   * The final picture: for every grid position, the placed tile is flipped and turned as its
   * orientation says and its interior copied into the matching block.
   */
  method FinalImage(placed: seq<Placed>, w: nat) returns (img: seq<bool>, fw: nat)
    requires |placed| >= w * w && Pictured(placed)
    ensures fw == 8 * w && |img| == fw * fw
    ensures forall tx, ty :: 0 <= tx < w && 0 <= ty < w ==> Copied(img, fw, placed, w, tx, ty)
  {
    fw := w * 8;
    var a := new bool[fw * fw](_ => false);
    for y := 0 to w
      invariant forall tx, ty :: 0 <= tx < w && 0 <= ty < y ==> Copied(a[..], fw, placed, w, tx, ty)
    {
      for x := 0 to w
        invariant forall tx, ty :: 0 <= tx < w && 0 <= ty < y ==> Copied(a[..], fw, placed, w, tx, ty)
        invariant forall tx :: 0 <= tx < x ==> Copied(a[..], fw, placed, w, tx, y)
      {
        ghost var before := a[..];
        PlaceTile(a, fw, placed, w, x, y);
        forall tx, ty | 0 <= tx < w && 0 <= ty < w && (ty < y || (ty == y && tx < x))
          ensures Copied(a[..], fw, placed, w, tx, ty)
        {
          OtherBlock(before, a[..], fw, placed, w, x, y, tx, ty);
        }
      }
    }
    img := a[..];
  }

  /** So the picture is the placed tiles' interiors and nothing else: each pixel is read off its block. */
  lemma FinalPixel(img: seq<bool>, fw: nat, placed: seq<Placed>, w: nat, x: nat, y: nat)
    requires fw == 8 * w && |img| == fw * fw && |placed| >= w * w && Pictured(placed)
    requires forall tx, ty :: 0 <= tx < w && 0 <= ty < w ==> Copied(img, fw, placed, w, tx, ty)
    requires x < fw && y < fw
    ensures Pixel(img, fw, x, y) == Oriented(At(placed, w, x / 8, y / 8))[y % 8 + 1][x % 8 + 1]
  {
    var tx, ix, ty, iy := x / 8, x % 8, y / 8, y % 8;
    assert x == tx * 8 + ix && y == ty * 8 + iy && tx < w && ty < w;
    assert Copied(img, fw, placed, w, tx, ty);
  }
}
