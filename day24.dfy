/**
 * Day 24: hexagonal tiles addressed by offset coordinates, where the column shift of a diagonal
 * step depends on whether the row is even or odd. Each input line is a walk from the reference
 * tile; the tile it ends on is flipped. Then, day by day, a black tile stays black when one or two
 * of its six neighbours are black, and a white tile turns black when exactly two are.
 */
module Day24 {
  import opened Wrappers

  datatype Direction = East | SouthEast | SouthWest | West | NorthWest | NorthEast

  /** A tile; `isize` overflow is not modelled. */
  datatype Point = Point(x: int, y: int)

  /** `move_to`: `y % 2 == 0` means the same for Rust's truncating `%` and Dafny's, so it is written as is. */
  function MoveTo(p: Point, d: Direction): Point {
    match d
    case East => Point(p.x - 1, p.y)
    case SouthEast => Point(if p.y % 2 == 0 then p.x - 1 else p.x, p.y + 1)
    case SouthWest => Point(if p.y % 2 == 0 then p.x else p.x + 1, p.y + 1)
    case West => Point(p.x + 1, p.y)
    case NorthWest => Point(if p.y % 2 == 0 then p.x else p.x + 1, p.y - 1)
    case NorthEast => Point(if p.y % 2 == 0 then p.x - 1 else p.x, p.y - 1)
  }

  /** The step that undoes a step. */
  function Opposite(d: Direction): Direction {
    match d
    case East => West
    case West => East
    case SouthEast => NorthWest
    case NorthWest => SouthEast
    case SouthWest => NorthEast
    case NorthEast => SouthWest
  }

  /** East and West, North-West and South-East, North-East and South-West undo each other, on every row. */
  lemma MoveInverse(p: Point, d: Direction)
    ensures MoveTo(MoveTo(p, d), Opposite(d)) == p
    ensures Opposite(Opposite(d)) == d
  {
    var y := p.y;
    assert (y + 1) % 2 == 0 <==> y % 2 != 0;
    assert (y - 1) % 2 == 0 <==> y % 2 != 0;
  }

  /** The steps in the order `neighbours` lists them. */
  const Compass: seq<Direction> := [East, SouthEast, SouthWest, West, NorthWest, NorthEast]

  /** `neighbours`: the six tiles one step away, in the order of `Compass`. */
  function Neighbours(p: Point): (ns: seq<Point>)
    ensures |ns| == 6 && forall i :: 0 <= i < 6 ==> ns[i] == MoveTo(p, Compass[i])
  {
    [MoveTo(p, East), MoveTo(p, SouthEast), MoveTo(p, SouthWest), MoveTo(p, West), MoveTo(p, NorthWest), MoveTo(p, NorthEast)]
  }

  /** The six neighbours are six different tiles, none of them the tile itself. */
  lemma NeighboursDistinct(p: Point)
    ensures forall i, j :: 0 <= i < j < 6 ==> Neighbours(p)[i] != Neighbours(p)[j]
    ensures p !in Neighbours(p)
  {
  }

  /** Being a neighbour is symmetric: the step back is a step too. */
  lemma NeighbourSymmetric(p: Point, q: Point)
    ensures q in Neighbours(p) <==> p in Neighbours(q)
  {
    forall a: Point, b: Point | b in Neighbours(a)
      ensures a in Neighbours(b)
    {
      var i :| 0 <= i < 6 && Neighbours(a)[i] == b;
      MoveInverse(a, Compass[i]);
      var d := Opposite(Compass[i]);
      assert d in Compass;
    }
  }

  // ---- Parsing ----

  /**
   * The directions of one line: `e`, `w`, or `s`/`n` followed by `e`/`w`. `None` where the Rust code
   * panics: an unknown letter, or an `s` or `n` with nothing or something else after it.
   */
  function Directions(line: string): (r: Option<seq<Direction>>)
    decreases |line|
  {
    if line == [] then Some([])
    else if line[0] == 'e' || line[0] == 'w' then
      match Directions(line[1..])
      case None => None
      case Some(rest) => Some([if line[0] == 'e' then East else West] + rest)
    else if (line[0] == 's' || line[0] == 'n') && |line| >= 2 && (line[1] == 'e' || line[1] == 'w') then
      var d := if line[0] == 's' then (if line[1] == 'e' then SouthEast else SouthWest)
               else (if line[1] == 'e' then NorthEast else NorthWest);
      match Directions(line[2..])
      case None => None
      case Some(rest) => Some([d] + rest)
    else None
  }

  /** The letters of a step. */
  function Letters(d: Direction): string {
    match d
    case East => "e"
    case SouthEast => "se"
    case SouthWest => "sw"
    case West => "w"
    case NorthWest => "nw"
    case NorthEast => "ne"
  }

  /** The line a walk is written as. */
  function Spell(ds: seq<Direction>): string {
    if ds == [] then "" else Letters(ds[0]) + Spell(ds[1..])
  }

  /** Every walk is read back from its spelling. */
  lemma {:induction false} DirectionsSpell(ds: seq<Direction>)
    ensures Directions(Spell(ds)) == Some(ds)
  {
    if ds != [] {
      DirectionsSpell(ds[1..]);
      LettersFirst(ds[0], Spell(ds[1..]));
      assert [ds[0]] + ds[1..] == ds;
    }
  }

  /** The letters of one step read back as that step, followed by whatever the rest reads as. */
  lemma LettersFirst(d: Direction, rest: string)
    ensures Directions(Letters(d) + rest) ==
      (if Directions(rest).None? then None else Some([d] + Directions(rest).value))
  {
    var s := Letters(d) + rest;
    if d == East || d == West {
      assert s[0] == Letters(d)[0] && s[1..] == rest;
    } else {
      assert s[0] == Letters(d)[0] && s[1] == Letters(d)[1] && s[2..] == rest;
    }
  }

  /** A line that parses is the spelling of what it parses to. */
  lemma {:induction false} SpellDirections(line: string)
    requires Directions(line).Some?
    ensures Spell(Directions(line).value) == line
    decreases |line|
  {
    if line != [] {
      var ds := Directions(line).value;
      if line[0] == 'e' || line[0] == 'w' {
        SpellDirections(line[1..]);
        assert ds[1..] == Directions(line[1..]).value;
        assert line == [line[0]] + line[1..];
      } else {
        SpellDirections(line[2..]);
        assert ds[1..] == Directions(line[2..]).value;
        assert line == line[..2] + line[2..];
      }
    }
  }

  /** The fold of the steps from `from`. */
  function Walk(from: Point, ds: seq<Direction>): Point
    decreases |ds|
  {
    if ds == [] then from else Walk(MoveTo(from, ds[0]), ds[1..])
  }

  /** The walk back: the opposite steps in the reverse order. */
  function Back(ds: seq<Direction>): (r: seq<Direction>)
    ensures |r| == |ds|
  {
    if ds == [] then [] else Back(ds[1..]) + [Opposite(ds[0])]
  }

  /** A walk runs on from where its prefix ends. */
  lemma {:induction false} WalkAppend(from: Point, a: seq<Direction>, b: seq<Direction>)
    ensures Walk(from, a + b) == Walk(Walk(from, a), b)
    decreases |a|
  {
    if a == [] {
      assert a + b == b;
    } else {
      WalkAppend(MoveTo(from, a[0]), a[1..], b);
      assert (a + b)[0] == a[0] && (a + b)[1..] == a[1..] + b;
    }
  }

  /** Walking back retraces every walk to its start, from any start. */
  lemma {:induction false} WalkBack(from: Point, ds: seq<Direction>)
    ensures Walk(Walk(from, ds), Back(ds)) == from
    decreases |ds|
  {
    if ds != [] {
      var next := MoveTo(from, ds[0]);
      WalkBack(next, ds[1..]);
      WalkAppend(Walk(next, ds[1..]), Back(ds[1..]), [Opposite(ds[0])]);
      MoveInverse(from, ds[0]);
    }
  }

  /** `parse`: each line's walk folded from the reference tile; `None` where a line panics. */
  function ParsePoints(lines: seq<string>): (r: Option<seq<Point>>)
    ensures r.Some? ==> |r.value| == |lines| && forall k :: 0 <= k < |lines| ==>
      Directions(lines[k]).Some? && r.value[k] == Walk(Point(0, 0), Directions(lines[k]).value)
    ensures r.None? ==> exists k :: 0 <= k < |lines| && Directions(lines[k]).None?
    decreases |lines|
  {
    if lines == [] then Some([])
    else
      var first := Directions(lines[0]);
      if first.None? then None
      else
        match ParsePoints(lines[1..])
        case None => None
        case Some(rest) =>
          assert forall k :: 1 <= k < |lines| ==> lines[k] == lines[1..][k - 1];
          Some([Walk(Point(0, 0), first.value)] + rest)
  }

  // ---- The initial flips ----

  /** The flip loop of `main`: each listed tile flipped in turn, so the black ones are those listed an odd number of times. */
  method FlipAll(points: seq<Point>) returns (black: set<Point>)
    ensures black == Flipped(points)
  {
    black := {};
    for i := 0 to |points|
      invariant forall p :: p in black <==> multiset(points[..i])[p] % 2 == 1
    {
      assert points[..i + 1] == points[..i] + [points[i]];
      if points[i] in black {
        black := black - {points[i]};
      } else {
        black := black + {points[i]};
      }
    }
    assert points[..|points|] == points;
    assert black == Flipped(points);
  }

  // ---- One day ----

  /** The neighbours as a set. */
  function Around(p: Point): (r: set<Point>)
    ensures forall q :: q in r <==> q in Neighbours(p)
  {
    set i | 0 <= i < 6 :: Neighbours(p)[i]
  }

  /** The number of black tiles next to `q`. */
  function BlackAround(black: set<Point>, q: Point): nat {
    |black * Around(q)|
  }

  /** The rule of the day: black with one or two black neighbours, or white with exactly two. */
  predicate Alive(black: set<Point>, q: Point) {
    var k := BlackAround(black, q);
    if q in black then !(k == 0 || k > 2) else k == 2
  }

  /** The tiles the loop of `main` looks at: the black ones and every neighbour of a black one. */
  function Candidates(black: set<Point>): set<Point> {
    black + set b, i | b in black && 0 <= i < 6 :: Neighbours(b)[i]
  }

  /** The tiles listed an odd number of times. */
  function Flipped(points: seq<Point>): (r: set<Point>)
    ensures forall p :: p in r <==> multiset(points)[p] % 2 == 1
  {
    set p | p in points && multiset(points)[p] % 2 == 1
  }

  /** The black tiles of the next day. */
  function NextDay(black: set<Point>): set<Point> {
    set q | q in Candidates(black) && Alive(black, q)
  }

  /** The next day's black tiles are exactly the tiles the rule makes black: no tile far from every black one turns. */
  lemma NextDayMeans(black: set<Point>, q: Point)
    ensures q in NextDay(black) <==> Alive(black, q)
  {
    if Alive(black, q) && q !in black {
      assert BlackAround(black, q) == 2;
      var b :| b in black * Around(q);
      NeighbourSymmetric(q, b);
      var i :| 0 <= i < 6 && Neighbours(b)[i] == q;
    }
  }

  /** `number_of_black_neighbours.get(q).unwrap_or(0)`. */
  function Tally(counts: map<Point, nat>, q: Point): nat {
    if q in counts then counts[q] else 0
  }

  /** The inner loop over the six neighbours of `b`: one more for each. */
  method Bump(counts: map<Point, nat>, b: Point) returns (r: map<Point, nat>)
    ensures forall q :: Tally(r, q) == Tally(counts, q) + (if q in Around(b) then 1 else 0)
    ensures forall q :: q in r <==> q in counts || q in Around(b)
  {
    NeighboursDistinct(b);
    var ns := Neighbours(b);
    r := counts;
    for i := 0 to 6
      invariant forall q :: Tally(r, q) == Tally(counts, q) + (if q in ns[..i] then 1 else 0)
      invariant forall q :: q in r <==> q in counts || q in ns[..i]
    {
      assert forall j :: 0 <= j < i ==> ns[..i][j] != ns[i];
      assert ns[..i + 1] == ns[..i] + [ns[i]];
      r := r[ns[i] := Tally(r, ns[i]) + 1];
    }
    assert ns[..6] == ns;
  }

  /** Adding a black tile raises by one the count of each of its neighbours, and no other. */
  lemma CountStep(done: set<Point>, b: Point, q: Point)
    requires b !in done
    ensures |(done + {b}) * Around(q)| == |done * Around(q)| + (if q in Around(b) then 1 else 0)
  {
    NeighbourSymmetric(b, q);
    if b in Around(q) {
      assert (done + {b}) * Around(q) == done * Around(q) + {b};
    } else {
      assert (done + {b}) * Around(q) == done * Around(q);
    }
  }

  /** `counts` holds, for every tile with a neighbour in `done`, the number of its neighbours in `done`. */
  ghost predicate CountsOf(counts: map<Point, nat>, done: set<Point>) {
    forall q :: Tally(counts, q) == |done * Around(q)| && (q in counts <==> |done * Around(q)| > 0)
  }

  /** The counts after one more black tile `b` are those of the tiles done and `b`. */
  lemma Counted(done: set<Point>, b: Point, counts: map<Point, nat>, bumped: map<Point, nat>)
    requires b !in done && CountsOf(counts, done)
    requires forall q :: Tally(bumped, q) == Tally(counts, q) + (if q in Around(b) then 1 else 0)
    requires forall q :: q in bumped <==> q in counts || q in Around(b)
    ensures CountsOf(bumped, done + {b})
  {
    forall q
      ensures |(done + {b}) * Around(q)| == |done * Around(q)| + (if q in Around(b) then 1 else 0)
    {
      CountStep(done, b, q);
    }
  }

  /**
   * The counting loop of `main`: for each black tile, one more for each of its neighbours. Each
   * tile's count is its number of black neighbours, and the tiles counted are those with one.
   */
  method CountNeighbours(black: set<Point>) returns (counts: map<Point, nat>)
    ensures forall q :: Tally(counts, q) == BlackAround(black, q)
    ensures forall q :: q in counts <==> BlackAround(black, q) > 0
  {
    counts := map[];
    var done: set<Point> := {};
    var todo := black;
    while todo != {}
      invariant done + todo == black && done * todo == {}
      invariant CountsOf(counts, done)
      decreases |todo|
    {
      var b :| b in todo;
      var bumped := Bump(counts, b);
      Counted(done, b, counts, bumped);
      counts := bumped;
      done, todo := done + {b}, todo - {b};
    }
    assert done == black;
  }

  /** A tile is a candidate exactly when it is black or has a black neighbour. */
  lemma CandidateMeans(black: set<Point>, q: Point)
    ensures q in Candidates(black) <==> q in black || BlackAround(black, q) > 0
  {
    if q !in black && BlackAround(black, q) > 0 {
      var b :| b in black * Around(q);
      NeighbourSymmetric(q, b);
      var i :| 0 <= i < 6 && Neighbours(b)[i] == q;
    }
    if q in Candidates(black) && q !in black {
      var b, i :| b in black && 0 <= i < 6 && Neighbours(b)[i] == q;
      NeighbourSymmetric(b, q);
      assert b in black * Around(q);
    }
  }

  /** Visiting one more tile adds it to the kept ones exactly when the rule makes it black. */
  lemma KeepStep(black: set<Point>, tiles: set<Point>, todo: set<Point>, q: Point)
    requires q in todo && todo <= tiles
    ensures (set p | p in tiles - (todo - {q}) && Alive(black, p)) ==
      (set p | p in tiles - todo && Alive(black, p)) + (if Alive(black, q) then {q} else {})
  {
  }

  /** One loop over a set of tiles, inserting those the rule makes black. */
  method Keep(black: set<Point>, counts: map<Point, nat>, tiles: set<Point>, next: set<Point>) returns (r: set<Point>)
    requires forall q :: Tally(counts, q) == BlackAround(black, q)
    ensures r == next + set q | q in tiles && Alive(black, q)
  {
    r := next;
    var todo := tiles;
    while todo != {}
      invariant todo <= tiles
      invariant r == next + set q | q in tiles - todo && Alive(black, q)
      decreases |todo|
    {
      var q :| q in todo;
      var isBlack := q in black;
      var k := Tally(counts, q);
      KeepStep(black, tiles, todo, q);
      if (isBlack && !(k == 0 || k > 2)) || (!isBlack && k == 2) {
        r := r + {q};
      }
      todo := todo - {q};
    }
  }

  /** One day of `main`: the neighbour counts, then the black tiles and the counted tiles kept by the rule. */
  method Day(black: set<Point>) returns (next: set<Point>)
    ensures next == NextDay(black)
  {
    var counts := CountNeighbours(black);
    next := Keep(black, counts, black, {});
    next := Keep(black, counts, counts.Keys, next);
    forall q
      ensures q in black + counts.Keys <==> q in Candidates(black)
    {
      CandidateMeans(black, q);
    }
  }

  /** The black tiles after `n` days. */
  function After(black: set<Point>, n: nat): set<Point>
    decreases n
  {
    if n == 0 then black else After(NextDay(black), n - 1)
  }

  /** The day loop of `main`, run for `days` days. */
  method Days(black: set<Point>, days: nat) returns (r: set<Point>)
    ensures r == After(black, days)
  {
    r := black;
    for d := 0 to days
      invariant After(black, days) == After(r, days - d)
    {
      r := Day(r);
    }
  }

  /** Solutions 1 and 2: the number of black tiles after the flips, and after 100 days. */
  method Solve(points: seq<Point>) returns (first: nat, second: nat)
    ensures first == |Flipped(points)| && second == |After(Flipped(points), 100)|
  {
    var black := FlipAll(points);
    first := |black|;
    var last := Days(black, 100);
    second := |last|;
  }
}
