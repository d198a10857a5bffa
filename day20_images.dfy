/**
 * Day 20, turning pictures: a tile image flipped upside down or turned a quarter turn, and the
 * same for the assembled picture, held flat in row-major order with a given width.
 */
module Day20Images {
  import opened Arith
  import opened Day20

  // ---- Tile images ----

  /** The tile turned upside down: row `y` is row `9 - y`. */
  function FlipTile(image: Image): (r: Image)
    requires IsImage(image)
    ensures IsImage(r) && forall y, x :: 0 <= y < 10 && 0 <= x < 10 ==> r[y][x] == image[9 - y][x]
  {
    seq(10, y requires 0 <= y < 10 => image[9 - y])
  }

  /** The tile turned a quarter turn: pixel `(x, y)` comes from row `x`, column `9 - y`. */
  function RotateTile(image: Image): (r: Image)
    requires IsImage(image)
    ensures IsImage(r) && forall y, x :: 0 <= y < 10 && 0 <= x < 10 ==> r[y][x] == image[x][9 - y]
  {
    seq(10, y requires 0 <= y < 10 => seq(10, x requires 0 <= x < 10 => image[x][9 - y]))
  }

  /** The tile turned `n` quarter turns. */
  function RotateTileN(image: Image, n: nat): (r: Image)
    requires IsImage(image)
    ensures IsImage(r)
  {
    if n == 0 then image else RotateTile(RotateTileN(image, n - 1))
  }

  /** `flip_tile_image`: the rows copied in reverse order into a fresh image. */
  method FlipTileImage(image: Image) returns (r: Image)
    requires IsImage(image)
    ensures r == FlipTile(image)
  {
    var rows := new seq<bool>[10](_ => []);
    for y := 0 to 10
      invariant forall k :: 0 <= k < y ==> rows[k] == image[9 - k]
    {
      rows[y] := image[9 - y];
    }
    r := rows[..];
  }

  /** `rotate_tile_image`: `rotations` quarter turns, each filling a fresh image pixel by pixel. */
  method RotateTileImage(image: Image, rotations: nat) returns (r: Image)
    requires IsImage(image)
    ensures r == RotateTileN(image, rotations)
  {
    r := image;
    for turn := 0 to rotations
      invariant r == RotateTileN(image, turn)
    {
      var rows := new seq<bool>[10](_ => []);
      for y := 0 to 10
        invariant forall k :: 0 <= k < y ==> rows[k] == RotateTile(r)[k]
      {
        var row := [];
        for x := 0 to 10
          invariant row == RotateTile(r)[y][..x]
        {
          row := row + [r[x][9 - y]];
        }
        rows[y] := row;
      }
      r := rows[..];
    }
  }

  /** Flipping a tile twice gives it back. */
  lemma FlipTileTwice(image: Image)
    requires IsImage(image)
    ensures FlipTile(FlipTile(image)) == image
  {
    var r := FlipTile(FlipTile(image));
    forall y | 0 <= y < 10
      ensures r[y] == image[y]
    {
      assert r[y] == image[9 - (9 - y)];
    }
  }

  /** Four quarter turns give a tile back. */
  lemma RotateTileFour(image: Image)
    requires IsImage(image)
    ensures RotateTileN(image, 4) == image
  {
    var r1 := RotateTileN(image, 1);
    var r2 := RotateTileN(image, 2);
    var r3 := RotateTileN(image, 3);
    var r4 := RotateTileN(image, 4);
    assert RotateTileN(image, 0) == image;
    assert r1 == RotateTile(image);
    forall y, x | 0 <= y < 10 && 0 <= x < 10
      ensures r4[y][x] == image[y][x]
    {
      assert r4[y][x] == r3[x][9 - y];
      assert r3[x][9 - y] == r2[9 - y][9 - x];
      assert r2[9 - y][9 - x] == r1[9 - x][y];
      assert r1[9 - x][y] == image[y][x];
    }
    forall y | 0 <= y < 10
      ensures r4[y] == image[y]
    {
    }
  }

  // ---- Flat pictures ----

  /** Pixel `(x, y)` of a flat picture of width `w`, at index `y * w + x`. */
  function Pixel(image: seq<bool>, w: nat, x: nat, y: nat): bool
    requires |image| >= w * w && x < w && y < w
  {
    RowMajorBound(x, y, w, w);
    image[y * w + x]
  }

  /** Two flat pictures of the same length agree when their `w * w` pixels agree and so does the rest. */
  lemma FlatEqual(a: seq<bool>, b: seq<bool>, w: nat)
    requires |a| == |b| >= w * w
    requires forall x, y :: 0 <= x < w && 0 <= y < w ==> Pixel(a, w, x, y) == Pixel(b, w, x, y)
    requires forall i :: w * w <= i < |a| ==> a[i] == b[i]
    ensures a == b
  {
    forall i | 0 <= i < w * w
      ensures a[i] == b[i]
    {
      Unflatten(i, w, w);
      assert Pixel(a, w, i % w, i / w) == Pixel(b, w, i % w, i / w);
    }
  }

  /** `flip_image`'s result: upside down, the rest of a longer vector left `false`. */
  function Flipped(image: seq<bool>, w: nat): (r: seq<bool>)
    requires |image| >= w * w
    ensures |r| == |image|
    ensures forall x, y :: 0 <= x < w && 0 <= y < w ==> Pixel(r, w, x, y) == Pixel(image, w, x, w - 1 - y)
    ensures forall i :: w * w <= i < |r| ==> !r[i]
  {
    var r := seq(|image|, i requires 0 <= i < |image| =>
      if i < w * w then (Unflatten(i, w, w); Pixel(image, w, i % w, w - 1 - i / w)) else false);
    forall x, y | 0 <= x < w && 0 <= y < w
      ensures Pixel(r, w, x, y) == Pixel(image, w, x, w - 1 - y)
    {
      RowMajorBound(x, y, w, w);
      RowMajor(x, y, w);
    }
    r
  }

  /** `rotate_image`'s single quarter turn: pixel `(x, y)` comes from row `x`, column `w - 1 - y`. */
  function Rotated(image: seq<bool>, w: nat): (r: seq<bool>)
    requires |image| >= w * w
    ensures |r| == |image|
    ensures forall x, y :: 0 <= x < w && 0 <= y < w ==> Pixel(r, w, x, y) == Pixel(image, w, w - 1 - y, x)
    ensures forall i :: w * w <= i < |r| ==> !r[i]
  {
    var r := seq(|image|, i requires 0 <= i < |image| =>
      if i < w * w then (Unflatten(i, w, w); Pixel(image, w, w - 1 - i / w, i % w)) else false);
    forall x, y | 0 <= x < w && 0 <= y < w
      ensures Pixel(r, w, x, y) == Pixel(image, w, w - 1 - y, x)
    {
      RowMajorBound(x, y, w, w);
      RowMajor(x, y, w);
    }
    r
  }

  /** `rotate_image`: `n` quarter turns; no turn at all leaves the picture as it is. */
  function RotatedN(image: seq<bool>, w: nat, n: nat): (r: seq<bool>)
    requires |image| >= w * w
    ensures |r| == |image|
  {
    if n == 0 then image else Rotated(RotatedN(image, w, n - 1), w)
  }

  /** `flip_image`: a fresh vector of the same length, filled row by row. */
  method FlipImage(image: seq<bool>, w: nat) returns (r: seq<bool>)
    requires |image| >= w * w
    ensures r == Flipped(image, w)
  {
    var a := new bool[|image|](_ => false);
    for y := 0 to w
      invariant forall i :: w * w <= i < a.Length ==> !a[i]
      invariant forall x', y' :: 0 <= x' < w && 0 <= y' < y ==> Pixel(a[..], w, x', y') == Pixel(image, w, x', w - 1 - y')
    {
      for x := 0 to w
        invariant forall i :: w * w <= i < a.Length ==> !a[i]
        invariant forall x', y' :: 0 <= x' < w && 0 <= y' < y ==> Pixel(a[..], w, x', y') == Pixel(image, w, x', w - 1 - y')
        invariant forall x' :: 0 <= x' < x ==> Pixel(a[..], w, x', y) == Pixel(image, w, x', w - 1 - y)
      {
        SetPixel(a, w, x, y, Pixel(image, w, x, w - 1 - y));
      }
    }
    FlatEqual(a[..], Flipped(image, w), w);
    r := a[..];
  }

  /** `rotate_image`: the picture copied, then turned `rotations` times into fresh vectors. */
  method RotateImage(image: seq<bool>, w: nat, rotations: nat) returns (r: seq<bool>)
    requires |image| >= w * w
    ensures r == RotatedN(image, w, rotations)
  {
    r := image;
    for turn := 0 to rotations
      invariant r == RotatedN(image, w, turn)
    {
      var a := new bool[|image|](_ => false);
      for y := 0 to w
        invariant forall i :: w * w <= i < a.Length ==> !a[i]
        invariant forall x', y' :: 0 <= x' < w && 0 <= y' < y ==> Pixel(a[..], w, x', y') == Pixel(r, w, w - 1 - y', x')
      {
        for x := 0 to w
          invariant forall i :: w * w <= i < a.Length ==> !a[i]
          invariant forall x', y' :: 0 <= x' < w && 0 <= y' < y ==> Pixel(a[..], w, x', y') == Pixel(r, w, w - 1 - y', x')
          invariant forall x' :: 0 <= x' < x ==> Pixel(a[..], w, x', y) == Pixel(r, w, w - 1 - y, x')
        {
          SetPixel(a, w, x, y, Pixel(r, w, w - 1 - y, x));
        }
      }
      FlatEqual(a[..], Rotated(r, w), w);
      r := a[..];
    }
  }

  /** Writes pixel `(x, y)` and no other element. */
  method SetPixel(a: array<bool>, w: nat, x: nat, y: nat, value: bool)
    requires a.Length >= w * w && x < w && y < w
    modifies a
    ensures Pixel(a[..], w, x, y) == value
    ensures forall x', y' :: 0 <= x' < w && 0 <= y' < w && (x', y') != (x, y) ==>
      Pixel(a[..], w, x', y') == Pixel(old(a[..]), w, x', y')
    ensures forall i :: w * w <= i < a.Length ==> a[i] == old(a[i])
  {
    RowMajorBound(x, y, w, w);
    a[y * w + x] := value;
    forall x', y' | 0 <= x' < w && 0 <= y' < w && (x', y') != (x, y)
      ensures Pixel(a[..], w, x', y') == Pixel(old(a[..]), w, x', y')
    {
      RowMajorBound(x', y', w, w);
      RowMajor(x, y, w);
      RowMajor(x', y', w);
    }
  }

  /** Flipping a square picture twice gives it back. */
  lemma FlipTwice(image: seq<bool>, w: nat)
    requires |image| == w * w
    ensures Flipped(Flipped(image, w), w) == image
  {
    FlatEqual(Flipped(Flipped(image, w), w), image, w);
  }

  /** Two quarter turns are a half turn: pixel `(x, y)` comes from `(w - 1 - x, w - 1 - y)`. */
  lemma HalfTurn(image: seq<bool>, w: nat, x: nat, y: nat)
    requires |image| >= w * w && x < w && y < w
    ensures Pixel(Rotated(Rotated(image, w), w), w, x, y) == Pixel(image, w, w - 1 - x, w - 1 - y)
  {
    var r1 := Rotated(image, w);
    assert Pixel(Rotated(r1, w), w, x, y) == Pixel(r1, w, w - 1 - y, x);
  }

  lemma TurnStep(image: seq<bool>, w: nat, n: nat)
    requires |image| >= w * w
    ensures RotatedN(image, w, n + 1) == Rotated(RotatedN(image, w, n), w)
    ensures n == 0 ==> RotatedN(image, w, n) == image
  {
  }

  /** Four quarter turns give a square picture back. */
  lemma RotateFour(image: seq<bool>, w: nat)
    requires |image| == w * w
    ensures RotatedN(image, w, 4) == image
  {
    var r2 := RotatedN(image, w, 2);
    var r4 := RotatedN(image, w, 4);
    var r1 := RotatedN(image, w, 1);
    var r3 := RotatedN(image, w, 3);
    TurnStep(image, w, 0);
    TurnStep(image, w, 1);
    TurnStep(image, w, 2);
    TurnStep(image, w, 3);
    forall x, y | 0 <= x < w && 0 <= y < w
      ensures Pixel(r4, w, x, y) == Pixel(image, w, x, y)
    {
      var x', y' := w - 1 - x, w - 1 - y;
      HalfTurn(r2, w, x, y);
      assert Pixel(r4, w, x, y) == Pixel(r2, w, x', y');
      HalfTurn(image, w, x', y');
      assert w - 1 - x' == x && w - 1 - y' == y;
    }
    FlatEqual(r4, image, w);
  }
}
