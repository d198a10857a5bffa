/** Day 11 (seating system): the seat automaton with adjacent neighbours and with lines of sight. */
module Day11 {
  import opened Wrappers
  import opened Text
  import Arith

  datatype Tile = Floor | Empty | Taken | OutOfBounds

  /** `Tiles`: the cells row by row, `width` per row. */
  datatype Tiles = Tiles(tiles: seq<Tile>, width: nat, height: nat)

  /** The grid holds exactly `width * height` cells. */
  predicate Sized(t: Tiles) {
    |t.tiles| == t.height * t.width
  }

  /** A sized grid with no `OutOfBounds` cell (the parser never produces one). */
  ghost predicate WellFormed(t: Tiles) {
    Sized(t) && forall i :: 0 <= i < |t.tiles| ==> t.tiles[i] != OutOfBounds
  }

  predicate InBounds(t: Tiles, x: int, y: int) {
    0 <= x < t.width && 0 <= y < t.height
  }

  predicate IsSeat(tile: Tile) {
    tile == Empty || tile == Taken
  }

  /** The row-major index `y * width + x` of a cell. */
  function Index(t: Tiles, x: int, y: int): int {
    y * t.width + x
  }

  /** The tile at `(x, y)`; `OutOfBounds` outside the grid. */
  function At(t: Tiles, x: int, y: int): (r: Tile)
    requires Sized(t)
    ensures !InBounds(t, x, y) ==> r == OutOfBounds
    ensures WellFormed(t) ==> (r == OutOfBounds <==> !InBounds(t, x, y))
  {
    if InBounds(t, x, y) then
      Arith.RowMajorBound(x, y, t.width, t.height);
      t.tiles[Index(t, x, y)]
    else OutOfBounds
  }

  /** A cell inside the grid sits at its row-major index, and that index names no other cell. */
  lemma AtIndex(t: Tiles, x: int, y: int)
    requires Sized(t) && InBounds(t, x, y)
    ensures 0 <= Index(t, x, y) < |t.tiles| && At(t, x, y) == t.tiles[Index(t, x, y)]
    ensures Index(t, x, y) % t.width == x && Index(t, x, y) / t.width == y
  {
    Arith.RowMajorBound(x, y, t.width, t.height);
    Arith.RowMajor(x, y, t.width);
  }

  /** The eight directions in the order of the `(-1..=1) x (-1..=1)` iteration, `(0, 0)` skipped. */
  const Directions: seq<(int, int)> := [(-1, -1), (-1, 0), (-1, 1), (0, -1), (0, 1), (1, -1), (1, 0), (1, 1)]

  /** A unit step in one of the eight directions. */
  predicate IsDirection(dx: int, dy: int) {
    -1 <= dx <= 1 && -1 <= dy <= 1 && (dx != 0 || dy != 0)
  }

  lemma DirectionsDistinct()
    ensures |Directions| == 8
    ensures forall k :: 0 <= k < 8 ==> IsDirection(Directions[k].0, Directions[k].1)
    ensures forall k, l :: 0 <= k < l < 8 ==> Directions[k] != Directions[l]
  {
  }

  /** `get_neighbours`: the eight surrounding tiles, `OutOfBounds` for the ones outside the grid. */
  function Neighbours(t: Tiles, x: int, y: int): (r: seq<Tile>)
    requires Sized(t)
    ensures |r| == 8
    ensures forall k :: 0 <= k < 8 ==> r[k] == At(t, x + Directions[k].0, y + Directions[k].1)
  {
    seq(8, k requires 0 <= k < 8 => At(t, x + Directions[k].0, y + Directions[k].1))
  }

  /** The next state of one cell: a free seat is taken when no seen seat is taken, a taken one freed at `limit` taken seats. */
  function Update(tile: Tile, seen: seq<Tile>, limit: nat): (r: Tile)
    ensures tile == Empty ==> (r == Taken <==> Count(seen, Taken) == 0) && IsSeat(r)
    ensures tile == Taken ==> (r == Empty <==> Count(seen, Taken) >= limit) && IsSeat(r)
    ensures !IsSeat(tile) ==> r == tile
  {
    match tile
    case Empty => if Taken in seen then Empty else Taken
    case Taken => if Count(seen, Taken) >= limit then Empty else Taken
    case _ => tile
  }

  /** A cell that `Update` leaves as it is. */
  predicate Calm(tile: Tile, seen: seq<Tile>, limit: nat) {
    (tile == Empty ==> Taken in seen) && (tile == Taken ==> Count(seen, Taken) < limit)
  }

  // ---- Parsing ----

  /** One character of the input; `None` where the Rust code reaches `unreachable!`. */
  function ParseTile(c: char): (r: Option<Tile>)
    ensures r.Some? <==> c in ".L#"
    ensures r.Some? ==> IsSeat(r.value) == (c != '.') && r.value != OutOfBounds
  {
    match c
    case '.' => Some(Floor)
    case 'L' => Some(Empty)
    case '#' => Some(Taken)
    case _ => None
  }

  /** The tiles of one line. */
  function ParseRow(line: string): (r: Option<seq<Tile>>)
    ensures r.Some? <==> forall k :: 0 <= k < |line| ==> line[k] in ".L#"
    ensures r.Some? ==> |r.value| == |line| && forall k :: 0 <= k < |line| ==> Some(r.value[k]) == ParseTile(line[k])
  {
    if line == [] then Some([])
    else
      match (ParseRow(line[..|line| - 1]), ParseTile(line[|line| - 1]))
      case (Some(front), Some(tile)) => Some(front + [tile])
      case _ => None
  }

  function Flatten(rows: seq<seq<Tile>>): seq<Tile> {
    if rows == [] then [] else Flatten(rows[..|rows| - 1]) + rows[|rows| - 1]
  }

  /** Rows of one width flatten to `width * height` cells. */
  lemma {:induction false} FlattenLength(rows: seq<seq<Tile>>, width: nat)
    requires forall y :: 0 <= y < |rows| ==> |rows[y]| == width
    ensures |Flatten(rows)| == |rows| * width
  {
    if rows != [] {
      FlattenLength(rows[..|rows| - 1], width);
    }
  }

  /** Cell `x` of row `y` sits at `y * width + x` of the flattened rows. */
  lemma {:induction false} FlattenAt(rows: seq<seq<Tile>>, width: nat, x: nat, y: nat)
    requires forall y :: 0 <= y < |rows| ==> |rows[y]| == width
    requires x < width && y < |rows|
    ensures 0 <= y * width + x < |Flatten(rows)| && Flatten(rows)[y * width + x] == rows[y][x]
  {
    var n := |rows| - 1;
    var front := Flatten(rows[..n]);
    FlattenLength(rows[..n], width);
    FlattenLength(rows, width);
    assert Flatten(rows) == front + rows[n];
    if y < n {
      FlattenAt(rows[..n], width, x, y);
      assert rows[..n][y] == rows[y];
    } else {
      assert y * width + x == |front| + x;
    }
  }

  /**
   * `parse`: one row per line, `width` from the first line. `None` for no lines (the first line is
   * indexed) and for a character other than `.`, `L` and `#`.
   */
  function Parse(lines: seq<string>): (r: Option<Tiles>)
    ensures r.Some? <==> |lines| > 0 && forall y :: 0 <= y < |lines| ==> ParseRow(lines[y]).Some?
    ensures r.Some? ==> r.value.width == |lines[0]| && r.value.height == |lines|
    ensures r.Some? && (forall y :: 0 <= y < |lines| ==> |lines[y]| == |lines[0]|) ==>
      WellFormed(r.value) && forall x, y :: InBounds(r.value, x, y) ==> Some(At(r.value, x, y)) == ParseTile(lines[y][x])
  {
    if |lines| == 0 then None
    else
      match ParseRows(lines)
      case None => None
      case Some(rows) =>
        var t := Tiles(Flatten(rows), |lines[0]|, |lines|);
        if forall y :: 0 <= y < |lines| ==> |lines[y]| == |lines[0]| then
          ParseRowsCells(lines, rows, t);
          Some(t)
        else Some(t)
  }

  /** Every line parsed. */
  function ParseRows(lines: seq<string>): (r: Option<seq<seq<Tile>>>)
    ensures r.Some? <==> forall y :: 0 <= y < |lines| ==> ParseRow(lines[y]).Some?
    ensures r.Some? ==> |r.value| == |lines| && forall y :: 0 <= y < |lines| ==> Some(r.value[y]) == ParseRow(lines[y])
  {
    if lines == [] then Some([])
    else
      match (ParseRows(lines[..|lines| - 1]), ParseRow(lines[|lines| - 1]))
      case (Some(front), Some(row)) => Some(front + [row])
      case _ => None
  }

  /** Lines of one width give a well-formed grid whose cells are the parsed characters. */
  lemma ParseRowsCells(lines: seq<string>, rows: seq<seq<Tile>>, t: Tiles)
    requires |lines| > 0 && |rows| == |lines| && forall y :: 0 <= y < |lines| ==> Some(rows[y]) == ParseRow(lines[y])
    requires forall y :: 0 <= y < |lines| ==> |lines[y]| == |lines[0]|
    requires t == Tiles(Flatten(rows), |lines[0]|, |lines|)
    ensures WellFormed(t) && forall x, y :: InBounds(t, x, y) ==> Some(At(t, x, y)) == ParseTile(lines[y][x])
  {
    assert forall y :: 0 <= y < |rows| ==> |rows[y]| == t.width;
    FlattenLength(rows, t.width);
    forall x, y | InBounds(t, x, y)
      ensures Some(At(t, x, y)) == ParseTile(lines[y][x])
    {
      ParsedCell(lines[y], rows, t, x, y);
    }
    forall i | 0 <= i < |t.tiles|
      ensures t.tiles[i] != OutOfBounds
    {
      ParsedIndex(lines, rows, t, i);
    }
  }

  /** No cell of the flattened rows is `OutOfBounds`. */
  lemma ParsedIndex(lines: seq<string>, rows: seq<seq<Tile>>, t: Tiles, i: nat)
    requires |rows| == |lines| && forall y :: 0 <= y < |lines| ==> Some(rows[y]) == ParseRow(lines[y])
    requires forall y :: 0 <= y < |rows| ==> |rows[y]| == t.width
    requires t.tiles == Flatten(rows) && t.height == |rows| && Sized(t) && i < |t.tiles|
    ensures t.tiles[i] != OutOfBounds
  {
    Arith.Unflatten(i, t.width, t.height);
    var x, y := i % t.width, i / t.width;
    AtIndex(t, x, y);
    ParsedCell(lines[y], rows, t, x, y);
  }

  /** The cell at `(x, y)` of the flattened rows is the tile its character parses to. */
  lemma ParsedCell(line: string, rows: seq<seq<Tile>>, t: Tiles, x: int, y: int)
    requires forall y :: 0 <= y < |rows| ==> |rows[y]| == t.width
    requires t.tiles == Flatten(rows) && t.height == |rows| && Sized(t) && InBounds(t, x, y)
    requires Some(rows[y]) == ParseRow(line)
    ensures x < |line| && Some(At(t, x, y)) == ParseTile(line[x]) && At(t, x, y) != OutOfBounds
  {
    FlattenAt(rows, t.width, x, y);
    AtIndex(t, x, y);
  }

  // ---- Part 1: adjacent neighbours ----

  /** The neighbours of the cell at row-major index `i`. */
  function Around(t: Tiles, i: nat): (r: seq<Tile>)
    requires Sized(t) && i < |t.tiles|
    ensures |r| == 8
  {
    Arith.Unflatten(i, t.width, t.height);
    Neighbours(t, i % t.width, i / t.width)
  }

  /** The grid after one `tick`: every cell updated from its eight neighbours with threshold 4. */
  function TickSpec(t: Tiles): (r: Tiles)
    requires Sized(t)
    ensures r.width == t.width && r.height == t.height && Sized(r)
    ensures forall i :: 0 <= i < |t.tiles| ==> (r.tiles[i] == Floor <==> t.tiles[i] == Floor)
    ensures forall i :: 0 <= i < |t.tiles| ==> (IsSeat(r.tiles[i]) <==> IsSeat(t.tiles[i]))
    ensures WellFormed(t) ==> WellFormed(r)
  {
    Tiles(seq(|t.tiles|, i requires 0 <= i < |t.tiles| => Update(t.tiles[i], Around(t, i), 4)), t.width, t.height)
  }

  /** A grid that `tick` maps to itself. */
  predicate Settled(t: Tiles)
    requires Sized(t)
  {
    TickSpec(t) == t
  }

  /** The grid is a fixed point of `tick` exactly when every cell is calm among its neighbours. */
  lemma SettledMeans(t: Tiles)
    requires Sized(t)
    ensures Settled(t) <==> forall i :: 0 <= i < |t.tiles| ==> Calm(t.tiles[i], Around(t, i), 4)
  {
    if forall i :: 0 <= i < |t.tiles| ==> Calm(t.tiles[i], Around(t, i), 4) {
      assert TickSpec(t).tiles == t.tiles;
    } else {
      var i :| 0 <= i < |t.tiles| && !Calm(t.tiles[i], Around(t, i), 4);
      assert TickSpec(t).tiles[i] != t.tiles[i];
    }
  }

  /** The cell at `(x, y)` of the next grid, by its coordinates. */
  lemma TickAt(t: Tiles, x: int, y: int)
    requires Sized(t) && InBounds(t, x, y)
    ensures 0 <= Index(t, x, y) < |t.tiles|
    ensures TickSpec(t).tiles[Index(t, x, y)] == Update(t.tiles[Index(t, x, y)], Neighbours(t, x, y), 4)
  {
    AtIndex(t, x, y);
  }

  /** `tick`: a fresh grid filled cell by cell in row-major order. */
  method Tick(t: Tiles) returns (r: Tiles)
    requires Sized(t)
    ensures r == TickSpec(t)
  {
    var next := new Tile[|t.tiles|](_ => Floor);
    ghost var row := 0;
    for y := 0 to t.height
      invariant row == y * t.width && row <= |t.tiles|
      invariant forall i :: 0 <= i < row ==> next[i] == TickSpec(t).tiles[i]
    {
      RowEnd(y, t.width, t.height, row);
      TickRow(t, next, y, row);
      row := row + t.width;
    }
    r := Tiles(next[..], t.width, t.height);
  }

  /** The inner loop of `tick`: the cells of row `y`, which starts at index `row`. */
  method TickRow(t: Tiles, next: array<Tile>, y: nat, ghost row: nat)
    requires Sized(t) && next.Length == |t.tiles| && y < t.height
    requires row == y * t.width && row + t.width <= |t.tiles|
    requires forall i :: 0 <= i < row ==> next[i] == TickSpec(t).tiles[i]
    modifies next
    ensures forall i :: 0 <= i < row + t.width ==> next[i] == TickSpec(t).tiles[i]
  {
    ghost var spec := TickSpec(t).tiles;
    for x := 0 to t.width
      invariant forall i :: 0 <= i < row + x ==> next[i] == spec[i]
    {
      TickCell(t, next, x, y);
    }
  }

  /** The body of the inner loop of `tick`: cell `(x, y)` of the next grid. */
  method TickCell(t: Tiles, next: array<Tile>, x: nat, y: nat)
    requires Sized(t) && next.Length == |t.tiles| && InBounds(t, x, y)
    modifies next
    ensures 0 <= Index(t, x, y) < |t.tiles|
    ensures next[..] == old(next[..])[Index(t, x, y) := TickSpec(t).tiles[Index(t, x, y)]]
  {
    var idx := y * t.width + x;
    TickAt(t, x, y);
    next[idx] := Update(t.tiles[idx], Neighbours(t, x, y), 4);
  }

  /** The row after row `y` starts `w` cells later, still inside the grid. */
  lemma RowEnd(y: nat, w: nat, h: nat, row: nat)
    requires y < h && row == y * w
    ensures row + w == (y + 1) * w <= h * w
  {
    Arith.MulMonotone(y + 1, h, w);
  }

  // ---- Part 2: lines of sight ----

  /** The coordinate `j` steps of `d` away from `p`. */
  function Along(p: int, d: int, j: int): int {
    p + j * d
  }

  /** What is left of a ray inside the grid: it shrinks with every step. */
  function Budget(t: Tiles, px: int, py: int, dx: int, dy: int): int {
    (if dx > 0 then t.width - px else if dx < 0 then px + 1 else 0) +
    (if dy > 0 then t.height - py else if dy < 0 then py + 1 else 0)
  }

  /**
   * The ray of the `get_first_seat_in_direction` loop from `(px, py)` on: the first cell that is a
   * seat, `None` once the ray leaves the grid.
   */
  function SeatFrom(t: Tiles, px: int, py: int, dx: int, dy: int): (r: Option<(nat, nat)>)
    requires Sized(t) && IsDirection(dx, dy)
    ensures r.Some? ==> InBounds(t, r.value.0, r.value.1) && IsSeat(At(t, r.value.0, r.value.1))
    decreases if InBounds(t, px, py) then Budget(t, px, py, dx, dy) else 0
  {
    if !InBounds(t, px, py) then None
    else if IsSeat(At(t, px, py)) then Some((px, py))
    else SeatFrom(t, px + dx, py + dy, dx, dy)
  }

  /** The cells of the ray before step `j` are inside the grid and not seats. */
  ghost predicate ClearUpTo(t: Tiles, px: int, py: int, dx: int, dy: int, j: nat)
    requires Sized(t)
  {
    forall i :: 0 <= i < j ==> InBounds(t, Along(px, dx, i), Along(py, dy, i)) && !IsSeat(At(t, Along(px, dx, i), Along(py, dy, i)))
  }

  /** What the ray finds: the seat after some steps over non-seats, or nothing if it leaves the grid first. */
  lemma {:induction false} SeatFromRay(t: Tiles, px: int, py: int, dx: int, dy: int)
    requires Sized(t) && IsDirection(dx, dy)
    ensures SeatFrom(t, px, py, dx, dy).Some? ==> exists j: nat :: (ClearUpTo(t, px, py, dx, dy, j) &&
      SeatFrom(t, px, py, dx, dy).value == (Along(px, dx, j), Along(py, dy, j)))
    ensures SeatFrom(t, px, py, dx, dy).None? ==> exists j: nat :: (ClearUpTo(t, px, py, dx, dy, j) &&
      !InBounds(t, Along(px, dx, j), Along(py, dy, j)))
    decreases if InBounds(t, px, py) then Budget(t, px, py, dx, dy) else 0
  {
    if !InBounds(t, px, py) {
      assert ClearUpTo(t, px, py, dx, dy, 0) && Along(px, dx, 0) == px && Along(py, dy, 0) == py;
    } else if IsSeat(At(t, px, py)) {
      assert ClearUpTo(t, px, py, dx, dy, 0) && Along(px, dx, 0) == px && Along(py, dy, 0) == py;
    } else {
      SeatFromRay(t, px + dx, py + dy, dx, dy);
      var j: nat :| ClearUpTo(t, px + dx, py + dy, dx, dy, j) &&
        (SeatFrom(t, px, py, dx, dy).Some? ==> SeatFrom(t, px, py, dx, dy).value == (Along(px + dx, dx, j), Along(py + dy, dy, j))) &&
        (SeatFrom(t, px, py, dx, dy).None? ==> !InBounds(t, Along(px + dx, dx, j), Along(py + dy, dy, j)));
      ShiftRay(t, px, py, dx, dy, j);
    }
  }

  /** A ray clear from the next cell on, after a first cell that is no seat, is clear one step further from this one. */
  lemma ShiftRay(t: Tiles, px: int, py: int, dx: int, dy: int, j: nat)
    requires Sized(t) && InBounds(t, px, py) && !IsSeat(At(t, px, py))
    requires ClearUpTo(t, px + dx, py + dy, dx, dy, j)
    ensures ClearUpTo(t, px, py, dx, dy, j + 1)
    ensures Along(px + dx, dx, j) == Along(px, dx, j + 1) && Along(py + dy, dy, j) == Along(py, dy, j + 1)
  {
    forall i | 0 <= i < j + 1
      ensures InBounds(t, Along(px, dx, i), Along(py, dy, i)) && !IsSeat(At(t, Along(px, dx, i), Along(py, dy, i)))
    {
      if i > 0 {
        assert Along(px, dx, i) == Along(px + dx, dx, i - 1) && Along(py, dy, i) == Along(py + dy, dy, i - 1);
      }
    }
  }

  /** `get_first_seat_in_direction`: step from the cell next to `(x, y)` until a seat or the edge. */
  method FirstSeat(t: Tiles, x: nat, y: nat, dx: int, dy: int) returns (r: Option<(nat, nat)>)
    requires Sized(t) && IsDirection(dx, dy)
    ensures r == SeatFrom(t, x + dx, y + dy, dx, dy)
  {
    var px, py := x + dx, y + dy;
    while px >= 0 && py >= 0 && px < t.width && py < t.height
      invariant SeatFrom(t, px, py, dx, dy) == SeatFrom(t, x + dx, y + dy, dx, dy)
      decreases Budget(t, px, py, dx, dy)
    {
      AtIndex(t, px, py);
      match t.tiles[py * t.width + px]
      case Taken =>
        return Some((px, py));
      case Empty =>
        return Some((px, py));
      case _ =>
      px := px + dx;
      py := py + dy;
    }
    return None;
  }

  /** The seats seen from `(x, y)` along the first `k` directions, as row-major indices. */
  function SightAlong(t: Tiles, x: int, y: int, k: nat): (r: seq<nat>)
    requires Sized(t) && k <= 8
    ensures |r| <= k
    ensures forall j :: 0 <= j < |r| ==> r[j] < |t.tiles| && IsSeat(t.tiles[r[j]])
  {
    if k == 0 then []
    else
      var rest := SightAlong(t, x, y, k - 1);
      var (dx, dy) := Directions[k - 1];
      match SeatFrom(t, x + dx, y + dy, dx, dy)
      case None => rest
      case Some((a, b)) =>
        AtIndex(t, a, b);
        rest + [Index(t, a, b)]
  }

  /**
   * `get_line_of_sight_map`: for every cell in row-major order, the indices of the first seat in
   * each of the eight directions that has one.
   */
  function LineOfSightMap(t: Tiles): (r: seq<seq<nat>>)
    requires Sized(t)
    ensures |r| == |t.tiles| && SightsFit(t, r)
    ensures forall i :: 0 <= i < |r| ==> |r[i]| <= 8
  {
    seq(|t.tiles|, i requires 0 <= i < |t.tiles| =>
      Arith.Unflatten(i, t.width, t.height);
      SightAlong(t, i % t.width, i / t.width, 8))
  }

  /** Each cell has a list of seats, and every listed seat is a cell of the grid. */
  ghost predicate SightsFit(t: Tiles, los: seq<seq<nat>>) {
    |los| >= |t.tiles| && forall i, k :: 0 <= i < |t.tiles| && 0 <= k < |los[i]| ==> los[i][k] < |t.tiles|
  }

  /** The tiles at the listed indices. */
  function Seen(t: Tiles, idxs: seq<nat>): (r: seq<Tile>)
    requires forall k :: 0 <= k < |idxs| ==> idxs[k] < |t.tiles|
    ensures |r| == |idxs| && forall k :: 0 <= k < |idxs| ==> r[k] == t.tiles[idxs[k]]
  {
    seq(|idxs|, k requires 0 <= k < |idxs| => t.tiles[idxs[k]])
  }

  /** The grid after one `tick_with_line_of_sight`: every cell updated from the seats it sees with threshold 5. */
  function TickSeenSpec(t: Tiles, los: seq<seq<nat>>): (r: Tiles)
    requires Sized(t) && SightsFit(t, los)
    ensures r.width == t.width && r.height == t.height && Sized(r)
    ensures forall i :: 0 <= i < |t.tiles| ==> (r.tiles[i] == Floor <==> t.tiles[i] == Floor)
    ensures forall i :: 0 <= i < |t.tiles| ==> (IsSeat(r.tiles[i]) <==> IsSeat(t.tiles[i]))
    ensures WellFormed(t) ==> WellFormed(r)
  {
    Tiles(seq(|t.tiles|, i requires 0 <= i < |t.tiles| => Update(t.tiles[i], Seen(t, los[i]), 5)), t.width, t.height)
  }

  predicate SettledSeen(t: Tiles, los: seq<seq<nat>>)
    requires Sized(t) && SightsFit(t, los)
  {
    TickSeenSpec(t, los) == t
  }

  /** The grid is a fixed point of `tick_with_line_of_sight` exactly when every cell is calm among the seats it sees. */
  lemma SettledSeenMeans(t: Tiles, los: seq<seq<nat>>)
    requires Sized(t) && SightsFit(t, los)
    ensures SettledSeen(t, los) <==> forall i :: 0 <= i < |t.tiles| ==> Calm(t.tiles[i], Seen(t, los[i]), 5)
  {
    if forall i :: 0 <= i < |t.tiles| ==> Calm(t.tiles[i], Seen(t, los[i]), 5) {
      assert TickSeenSpec(t, los).tiles == t.tiles;
    } else {
      var i :| 0 <= i < |t.tiles| && !Calm(t.tiles[i], Seen(t, los[i]), 5);
      assert TickSeenSpec(t, los).tiles[i] != t.tiles[i];
    }
  }

  /** `tick_with_line_of_sight`: a fresh grid filled cell by cell in row-major order. */
  method TickWithLineOfSight(t: Tiles, los: seq<seq<nat>>) returns (r: Tiles)
    requires Sized(t) && SightsFit(t, los)
    ensures r == TickSeenSpec(t, los)
  {
    var next := new Tile[|t.tiles|](_ => Floor);
    ghost var row := 0;
    for y := 0 to t.height
      invariant row == y * t.width && row <= |t.tiles|
      invariant forall i :: 0 <= i < row ==> next[i] == TickSeenSpec(t, los).tiles[i]
    {
      RowEnd(y, t.width, t.height, row);
      TickSeenRow(t, los, next, y, row);
      row := row + t.width;
    }
    r := Tiles(next[..], t.width, t.height);
  }

  /** The inner loop of `tick_with_line_of_sight`: the cells of row `y`, which starts at index `row`. */
  method TickSeenRow(t: Tiles, los: seq<seq<nat>>, next: array<Tile>, y: nat, ghost row: nat)
    requires Sized(t) && SightsFit(t, los) && next.Length == |t.tiles| && y < t.height
    requires row == y * t.width && row + t.width <= |t.tiles|
    requires forall i :: 0 <= i < row ==> next[i] == TickSeenSpec(t, los).tiles[i]
    modifies next
    ensures forall i :: 0 <= i < row + t.width ==> next[i] == TickSeenSpec(t, los).tiles[i]
  {
    ghost var spec := TickSeenSpec(t, los).tiles;
    for x := 0 to t.width
      invariant forall i :: 0 <= i < row + x ==> next[i] == spec[i]
    {
      var idx := y * t.width + x;
      ghost var before := next[..];
      next[idx] := Update(t.tiles[idx], Seen(t, los[idx]), 5);
      assert next[..] == before[idx := spec[idx]];
    }
  }

  // ---- The loops of `main`: tick until nothing changes ----

  /** The grid after `k` ticks. */
  ghost function Iterate(t: Tiles, k: nat): (r: Tiles)
    requires Sized(t)
    ensures Sized(r) && |r.tiles| == |t.tiles|
  {
    if k == 0 then t else TickSpec(Iterate(t, k - 1))
  }

  /** None of the first `k` grids is settled. */
  ghost predicate Unsettled(t: Tiles, k: nat)
    requires Sized(t)
  {
    forall j :: 0 <= j < k ==> !Settled(Iterate(t, j))
  }

  /**
   * The first loop of `main`: tick until the grid no longer changes, then count the taken seats.
   * The Rust loop has no bound; `fuel` caps the ticks and `None` means it ran out.
   */
  method Settle(t: Tiles, fuel: nat) returns (r: Option<nat>)
    requires Sized(t)
    ensures r.Some? ==> exists k: nat :: (k < fuel && Unsettled(t, k) && Settled(Iterate(t, k)) &&
      r.value == Count(Iterate(t, k).tiles, Taken))
    ensures r.None? ==> Unsettled(t, fuel)
  {
    var tiles := t;
    var steps: nat := 0;
    while steps < fuel
      invariant Sized(tiles) && tiles == Iterate(t, steps) && Unsettled(t, steps)
    {
      var next := Tick(tiles);
      if next == tiles {
        return Some(Count(next.tiles, Taken));
      }
      tiles := next;
      steps := steps + 1;
    }
    return None;
  }

  /** The grid after `k` ticks with lines of sight. */
  ghost function IterateSeen(t: Tiles, los: seq<seq<nat>>, k: nat): (r: Tiles)
    requires Sized(t) && SightsFit(t, los)
    ensures Sized(r) && |r.tiles| == |t.tiles| && SightsFit(r, los)
  {
    if k == 0 then t else TickSeenSpec(IterateSeen(t, los, k - 1), los)
  }

  ghost predicate UnsettledSeen(t: Tiles, los: seq<seq<nat>>, k: nat)
    requires Sized(t) && SightsFit(t, los)
  {
    forall j :: 0 <= j < k ==> !SettledSeen(IterateSeen(t, los, j), los)
  }

  /**
   * The second loop of `main`: the line-of-sight map of the original grid, then ticks with it until
   * the grid no longer changes, and the count of taken seats; `fuel` caps the ticks.
   */
  method SettleWithLineOfSight(t: Tiles, fuel: nat) returns (r: Option<nat>)
    requires Sized(t)
    ensures r.Some? ==> exists k: nat :: (k < fuel && UnsettledSeen(t, LineOfSightMap(t), k) &&
      SettledSeen(IterateSeen(t, LineOfSightMap(t), k), LineOfSightMap(t)) &&
      r.value == Count(IterateSeen(t, LineOfSightMap(t), k).tiles, Taken))
    ensures r.None? ==> UnsettledSeen(t, LineOfSightMap(t), fuel)
  {
    var los := LineOfSightMap(t);
    var tiles := t;
    var steps: nat := 0;
    while steps < fuel
      invariant Sized(tiles) && SightsFit(tiles, los)
      invariant tiles == IterateSeen(t, los, steps) && UnsettledSeen(t, los, steps)
    {
      var next := TickWithLineOfSight(tiles, los);
      if next == tiles {
        return Some(Count(next.tiles, Taken));
      }
      tiles := next;
      steps := steps + 1;
    }
    return None;
  }
}
