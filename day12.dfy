/** Day 12 (rain risk): the ferry's navigation by heading and by waypoint. */
module Day12 {
  import opened Wrappers
  import opened Text

  /** `Instruction`, one constructor per letter of the input. */
  datatype Instruction = N(v: int) | S(v: int) | E(v: int) | W(v: int) | L(v: int) | R(v: int) | F(v: int)

  /** `Direction`: the ship's heading. */
  datatype Heading = North | West | East | South

  /** A position or a waypoint offset: east, north. */
  type Point = (int, int)

  // ---- Parsing ----

  /**
   * One line of `parse`: the first character picks the instruction, the rest is its signed value.
   * `None` where the Rust code panics: an empty line (`split_at(1)`), a value `isize` cannot
   * hold or an unknown letter.
   */
  function ParseInstruction(line: string): (r: Option<Instruction>)
    ensures r.Some? <==> |line| >= 1 && line[0] in "NSEWLRF" && ParseSigned(line[1..]).Some?
    ensures r.Some? ==> Some(r.value.v) == ParseSigned(line[1..])
  {
    if |line| == 0 then None
    else
      match ParseSigned(line[1..])
      case None => None
      case Some(value) =>
        match line[0]
        case 'N' => Some(N(value))
        case 'S' => Some(S(value))
        case 'E' => Some(E(value))
        case 'W' => Some(W(value))
        case 'L' => Some(L(value))
        case 'R' => Some(R(value))
        case 'F' => Some(F(value))
        case _ => None
  }

  // ---- Turning ----

  /** One quarter turn of `Direction::left`. */
  function TurnLeft(d: Heading): Heading {
    match d
    case North => West
    case West => South
    case East => North
    case South => East
  }

  /** One quarter turn of `Direction::right`. */
  function TurnRight(d: Heading): Heading {
    match d
    case North => East
    case West => North
    case East => South
    case South => West
  }

  /** How many times the `while degrees >= 90` loops run: none for less than 90 degrees, negative ones included. */
  function Quarters(degrees: int): nat
    decreases degrees
  {
    if degrees < 90 then 0 else 1 + Quarters(degrees - 90)
  }

  /** The loops turn by whole quarters, dropping any remainder. */
  lemma {:induction false} QuartersDivide(degrees: int)
    ensures degrees >= 0 ==> Quarters(degrees) == degrees / 90
    ensures degrees < 0 ==> Quarters(degrees) == 0
    decreases degrees
  {
    if degrees >= 90 {
      QuartersDivide(degrees - 90);
    }
  }

  /** `n` quarter turns to the left. */
  function LeftTurns(d: Heading, n: nat): Heading
    decreases n
  {
    if n == 0 then d else LeftTurns(TurnLeft(d), n - 1)
  }

  /** `n` quarter turns to the right. */
  function RightTurns(d: Heading, n: nat): Heading
    decreases n
  {
    if n == 0 then d else RightTurns(TurnRight(d), n - 1)
  }

  /** `Direction::left`: quarter turns while at least 90 degrees remain. */
  method Left(d: Heading, degrees: int) returns (r: Heading)
    ensures r == LeftTurns(d, Quarters(degrees))
  {
    r := d;
    var rest := degrees;
    while rest >= 90
      invariant LeftTurns(r, Quarters(rest)) == LeftTurns(d, Quarters(degrees))
      decreases rest
    {
      r := TurnLeft(r);
      rest := rest - 90;
    }
  }

  /** `Direction::right`: quarter turns while at least 90 degrees remain. */
  method Right(d: Heading, degrees: int) returns (r: Heading)
    ensures r == RightTurns(d, Quarters(degrees))
  {
    r := d;
    var rest := degrees;
    while rest >= 90
      invariant RightTurns(r, Quarters(rest)) == RightTurns(d, Quarters(degrees))
      decreases rest
    {
      r := TurnRight(r);
      rest := rest - 90;
    }
  }

  /** A quarter turn right undoes a quarter turn left, and the other way round. */
  lemma QuarterUndo(d: Heading)
    ensures TurnRight(TurnLeft(d)) == d && TurnLeft(TurnRight(d)) == d
  {
  }

  /** Four quarter turns, either way, face the ship where it started. */
  lemma {:induction false} FullCircle(d: Heading, n: nat)
    ensures LeftTurns(d, n + 4) == LeftTurns(d, n) && RightTurns(d, n + 4) == RightTurns(d, n)
    decreases n
  {
    if n > 0 {
      FullCircle(TurnLeft(d), n - 1);
      FullCircle(TurnRight(d), n - 1);
    } else {
      assert LeftTurns(d, 4) == LeftTurns(TurnLeft(TurnLeft(d)), 2);
      assert RightTurns(d, 4) == RightTurns(TurnRight(TurnRight(d)), 2);
    }
  }

  /** Turning right undoes the same number of left turns, and the other way round. */
  lemma {:induction false} TurnsUndo(d: Heading, n: nat)
    ensures RightTurns(LeftTurns(d, n), n) == d && LeftTurns(RightTurns(d, n), n) == d
  {
    if n > 0 {
      TurnsUndo(d, n - 1);
      LeftLast(d, n - 1);
      RightLast(d, n - 1);
      QuarterUndo(LeftTurns(d, n - 1));
      QuarterUndo(RightTurns(d, n - 1));
    }
  }

  /** The last of `n + 1` left turns. */
  lemma {:induction false} LeftLast(d: Heading, n: nat)
    ensures LeftTurns(d, n + 1) == TurnLeft(LeftTurns(d, n))
    decreases n
  {
    if n > 0 {
      LeftLast(TurnLeft(d), n - 1);
    }
  }

  /** The last of `n + 1` right turns. */
  lemma {:induction false} RightLast(d: Heading, n: nat)
    ensures RightTurns(d, n + 1) == TurnRight(RightTurns(d, n))
    decreases n
  {
    if n > 0 {
      RightLast(TurnRight(d), n - 1);
    }
  }

  // ---- Rotating the waypoint ----

  /** One quarter turn of `rotate_waypoint_left`: `(x, y)` becomes `(-y, x)`. */
  function RotateLeft(w: Point): Point {
    (-w.1, w.0)
  }

  /** One quarter turn of `rotate_waypoint_right`: `(x, y)` becomes `(y, -x)`. */
  function RotateRight(w: Point): Point {
    (w.1, -w.0)
  }

  function LeftRotations(w: Point, n: nat): Point
    decreases n
  {
    if n == 0 then w else LeftRotations(RotateLeft(w), n - 1)
  }

  function RightRotations(w: Point, n: nat): Point
    decreases n
  {
    if n == 0 then w else RightRotations(RotateRight(w), n - 1)
  }

  /** `rotate_waypoint_left`: quarter turns about the ship while at least 90 degrees remain. */
  method RotateWaypointLeft(waypoint: Point, degrees: int) returns (r: Point)
    ensures r == LeftRotations(waypoint, Quarters(degrees))
  {
    r := waypoint;
    var rest := degrees;
    while rest >= 90
      invariant LeftRotations(r, Quarters(rest)) == LeftRotations(waypoint, Quarters(degrees))
      decreases rest
    {
      r := (-r.1, r.0);
      rest := rest - 90;
    }
  }

  /** `rotate_waypoint_right`: quarter turns about the ship while at least 90 degrees remain. */
  method RotateWaypointRight(waypoint: Point, degrees: int) returns (r: Point)
    ensures r == RightRotations(waypoint, Quarters(degrees))
  {
    r := waypoint;
    var rest := degrees;
    while rest >= 90
      invariant RightRotations(r, Quarters(rest)) == RightRotations(waypoint, Quarters(degrees))
      decreases rest
    {
      r := (r.1, -r.0);
      rest := rest - 90;
    }
  }

  function Abs(x: int): nat {
    if x < 0 then -x else x
  }

  /** The Manhattan distance from the origin, as both solutions print it. */
  function Manhattan(p: Point): nat {
    Abs(p.0) + Abs(p.1)
  }

  /** The unit step of a heading. */
  function Unit(d: Heading): Point {
    match d
    case North => (0, 1)
    case South => (0, -1)
    case East => (1, 0)
    case West => (-1, 0)
  }

  /** Rotating the waypoint keeps its distance from the ship. */
  lemma {:induction false} RotationKeepsDistance(w: Point, n: nat)
    ensures Manhattan(LeftRotations(w, n)) == Manhattan(w) && Manhattan(RightRotations(w, n)) == Manhattan(w)
    decreases n
  {
    if n > 0 {
      RotationKeepsDistance(RotateLeft(w), n - 1);
      RotationKeepsDistance(RotateRight(w), n - 1);
    }
  }

  /** Rotating a heading's unit step left is turning the heading left: the two kinds of turn agree. */
  lemma {:induction false} LeftRotationsAgree(d: Heading, n: nat)
    ensures LeftRotations(Unit(d), n) == Unit(LeftTurns(d, n))
    decreases n
  {
    if n > 0 {
      QuarterAgrees(d);
      LeftRotationsAgree(TurnLeft(d), n - 1);
    }
  }

  /** Rotating a heading's unit step right is turning the heading right. */
  lemma {:induction false} RightRotationsAgree(d: Heading, n: nat)
    ensures RightRotations(Unit(d), n) == Unit(RightTurns(d, n))
    decreases n
  {
    if n > 0 {
      QuarterAgrees(d);
      RightRotationsAgree(TurnRight(d), n - 1);
    }
  }

  /** A quarter rotation of a heading's unit step is the unit step of the turned heading. */
  lemma QuarterAgrees(d: Heading)
    ensures RotateLeft(Unit(d)) == Unit(TurnLeft(d)) && RotateRight(Unit(d)) == Unit(TurnRight(d))
  {
  }

  /** Four rotations either way give the waypoint back; a right rotation undoes a left one. */
  lemma RotationCycle(w: Point)
    ensures LeftRotations(w, 4) == w && RightRotations(w, 4) == w
    ensures RightRotations(LeftRotations(w, 1), 1) == w
  {
  }

  // ---- Part 1: navigating by heading ----

  /** The ship of the first loop of `main`. */
  datatype Ship = Ship(heading: Heading, position: Point)

  /** One iteration of the first loop of `main`. */
  function Sail(s: Ship, instr: Instruction): (r: Ship)
    ensures instr.F? ==>
      r.heading == s.heading && r.position == (s.position.0 + instr.v * Unit(s.heading).0, s.position.1 + instr.v * Unit(s.heading).1)
    ensures instr.L? ==> r == Ship(LeftTurns(s.heading, Quarters(instr.v)), s.position)
    ensures instr.R? ==> r == Ship(RightTurns(s.heading, Quarters(instr.v)), s.position)
  {
    var p := s.position;
    match instr
    case N(v) => Ship(s.heading, (p.0, p.1 + v))
    case S(v) => Ship(s.heading, (p.0, p.1 - v))
    case E(v) => Ship(s.heading, (p.0 + v, p.1))
    case W(v) => Ship(s.heading, (p.0 - v, p.1))
    case L(v) => Ship(LeftTurns(s.heading, Quarters(v)), p)
    case R(v) => Ship(RightTurns(s.heading, Quarters(v)), p)
    case F(v) =>
      match s.heading
      case North => Ship(s.heading, (p.0, p.1 + v))
      case West => Ship(s.heading, (p.0 - v, p.1))
      case East => Ship(s.heading, (p.0 + v, p.1))
      case South => Ship(s.heading, (p.0, p.1 - v))
  }

  /** The ship after the instructions, from heading east at the origin. */
  function Voyage(instrs: seq<Instruction>): Ship {
    if instrs == [] then Ship(East, (0, 0)) else Sail(Voyage(instrs[..|instrs| - 1]), instrs[|instrs| - 1])
  }

  /** How far the moving instructions (all but `L` and `R`) take the ship at most. */
  function Travel(instrs: seq<Instruction>): nat {
    if instrs == [] then 0
    else
      var last := instrs[|instrs| - 1];
      Travel(instrs[..|instrs| - 1]) + if last.L? || last.R? then 0 else Abs(last.v)
  }

  /** The ship ends no further from the origin than the sum of the distances it was told to move. */
  lemma {:induction false} VoyageBound(instrs: seq<Instruction>)
    ensures Manhattan(Voyage(instrs).position) <= Travel(instrs)
  {
    if instrs != [] {
      VoyageBound(instrs[..|instrs| - 1]);
    }
  }

  /** The first loop of `main`: solution 1 is the distance of the final position. */
  method Navigate(instrs: seq<Instruction>) returns (distance: nat)
    ensures distance == Manhattan(Voyage(instrs).position)
    ensures distance <= Travel(instrs)
  {
    var direction := East;
    var position := (0, 0);
    for i := 0 to |instrs|
      invariant Ship(direction, position) == Voyage(instrs[..i])
    {
      assert instrs[..i + 1][..i] == instrs[..i];
      assert Voyage(instrs[..i + 1]) == Sail(Ship(direction, position), instrs[i]);
      var newDir, newPos := direction, position;
      match instrs[i] {
        case N(v) => newPos := (position.0, position.1 + v);
        case S(v) => newPos := (position.0, position.1 - v);
        case E(v) => newPos := (position.0 + v, position.1);
        case W(v) => newPos := (position.0 - v, position.1);
        case L(v) => newDir := Left(direction, v);
        case R(v) => newDir := Right(direction, v);
        case F(v) =>
          match direction {
            case North => newPos := (position.0, position.1 + v);
            case West => newPos := (position.0 - v, position.1);
            case East => newPos := (position.0 + v, position.1);
            case South => newPos := (position.0, position.1 - v);
          }
      }
      direction := newDir;
      position := newPos;
    }
    assert instrs[..|instrs|] == instrs;
    VoyageBound(instrs);
    distance := Abs(position.0) + Abs(position.1);
  }

  // ---- Part 2: navigating by waypoint ----

  /** The ship and its waypoint in the second loop of `main`. */
  datatype Course = Course(position: Point, waypoint: Point)

  /** One iteration of the second loop of `main`. */
  function Steer(c: Course, instr: Instruction): (r: Course)
    ensures !instr.F? ==> r.position == c.position
    ensures instr.F? ==> r.waypoint == c.waypoint
    ensures instr.L? || instr.R? ==> Manhattan(r.waypoint) == Manhattan(c.waypoint)
  {
    var w := c.waypoint;
    match instr
    case N(v) => Course(c.position, (w.0, w.1 + v))
    case S(v) => Course(c.position, (w.0, w.1 - v))
    case E(v) => Course(c.position, (w.0 + v, w.1))
    case W(v) => Course(c.position, (w.0 - v, w.1))
    case L(v) =>
      RotationKeepsDistance(w, Quarters(v));
      Course(c.position, LeftRotations(w, Quarters(v)))
    case R(v) =>
      RotationKeepsDistance(w, Quarters(v));
      Course(c.position, RightRotations(w, Quarters(v)))
    case F(v) => Course((c.position.0 + w.0 * v, c.position.1 + w.1 * v), w)
  }

  /** The course after the instructions, from the origin with the waypoint 10 east and 1 north. */
  function Route(instrs: seq<Instruction>): Course {
    if instrs == [] then Course((0, 0), (10, 1)) else Steer(Route(instrs[..|instrs| - 1]), instrs[|instrs| - 1])
  }

  /** How far the `N`, `S`, `E` and `W` instructions move the waypoint at most. */
  function Shift(instrs: seq<Instruction>): nat {
    if instrs == [] then 0
    else
      var last := instrs[|instrs| - 1];
      Shift(instrs[..|instrs| - 1]) + if last.N? || last.S? || last.E? || last.W? then Abs(last.v) else 0
  }

  /** Rotations never move the waypoint away: it stays within 11 plus the shifts of the origin of the ship. */
  lemma {:induction false} WaypointBound(instrs: seq<Instruction>)
    ensures Manhattan(Route(instrs).waypoint) <= 11 + Shift(instrs)
  {
    if instrs != [] {
      WaypointBound(instrs[..|instrs| - 1]);
    }
  }

  /** The second loop of `main`: solution 2 is the distance of the final position. */
  method NavigateByWaypoint(instrs: seq<Instruction>) returns (distance: nat)
    ensures distance == Manhattan(Route(instrs).position)
  {
    var waypoint := (10, 1);
    var position := (0, 0);
    for i := 0 to |instrs|
      invariant Course(position, waypoint) == Route(instrs[..i])
    {
      assert instrs[..i + 1][..i] == instrs[..i];
      assert Route(instrs[..i + 1]) == Steer(Course(position, waypoint), instrs[i]);
      var newPos, newWaypoint := position, waypoint;
      match instrs[i] {
        case N(v) => newWaypoint := (waypoint.0, waypoint.1 + v);
        case S(v) => newWaypoint := (waypoint.0, waypoint.1 - v);
        case E(v) => newWaypoint := (waypoint.0 + v, waypoint.1);
        case W(v) => newWaypoint := (waypoint.0 - v, waypoint.1);
        case L(v) => newWaypoint := RotateWaypointLeft(waypoint, v);
        case R(v) => newWaypoint := RotateWaypointRight(waypoint, v);
        case F(v) => newPos := (position.0 + waypoint.0 * v, position.1 + waypoint.1 * v);
      }
      position := newPos;
      waypoint := newWaypoint;
    }
    assert instrs[..|instrs|] == instrs;
    distance := Abs(position.0) + Abs(position.1);
  }
}
