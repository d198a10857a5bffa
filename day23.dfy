/**
 * Day 23: cups labelled 1 to n (here 0 to n - 1) stand in a circle, stored as a successor table
 * `next[cup]`. Each move picks up the three cups after the current one, finds the destination
 * (the current label minus one, wrapping around, skipping picked-up cups), puts the three cups
 * back right after it, and moves on to the cup after the current one.
 */
module Day23 {
  import opened Wrappers
  import opened Text
  import opened Arith

  // ---- The circle ----

  /** Every link of the table names a cup. */
  predicate Links(next: seq<nat>) {
    forall c :: 0 <= c < |next| ==> next[c] < |next|
  }

  /** No cup appears twice. */
  predicate Distinct(ring: seq<nat>) {
    forall i, j :: 0 <= i < j < |ring| ==> ring[i] != ring[j]
  }

  /** The cup after position `i` of the circle, wrapping from the last position to the first. */
  function After(ring: seq<nat>, i: nat): nat
    requires i < |ring|
  {
    if i + 1 < |ring| then ring[i + 1] else ring[0]
  }

  /**
   * The table links the cups of `ring`, each cup once, in one cycle: `next` sends each cup of
   * `ring` to the one after it, and the last one back to the first.
   */
  predicate Circle(next: seq<nat>, ring: seq<nat>) {
    |ring| == |next| && Distinct(ring) &&
    (forall i :: 0 <= i < |ring| ==> ring[i] < |next|) &&
    (forall i :: 0 <= i < |ring| ==> next[ring[i]] == After(ring, i))
  }

  /** The cups of a circle: each of the labels below its length, each once. */
  predicate Cups(ring: seq<nat>) {
    Distinct(ring) && forall i :: 0 <= i < |ring| ==> ring[i] < |ring|
  }

  /** The values below `n`. */
  function Range(n: nat): (r: set<nat>)
    ensures forall x: nat :: x in r <==> x < n
    ensures |r| == n
  {
    if n == 0 then {} else
      var r := Range(n - 1);
      assert n - 1 !in r;
      r + {n - 1}
  }

  /** The values of a sequence without repeats are as many as its length. */
  lemma {:induction false} DistinctCard(ring: seq<nat>)
    requires Distinct(ring)
    ensures |set i | 0 <= i < |ring| :: ring[i]| == |ring|
  {
    if ring != [] {
      var init := ring[..|ring| - 1];
      DistinctCard(init);
      var last := ring[|ring| - 1];
      assert (set i | 0 <= i < |ring| :: ring[i]) == (set i | 0 <= i < |init| :: init[i]) + {last};
      assert last !in (set i | 0 <= i < |init| :: init[i]);
    }
  }

  /** `n` different cups below `n` are all the cups: the circle holds every cup. */
  lemma Pigeonhole(ring: seq<nat>, c: nat)
    requires Distinct(ring) && (forall i :: 0 <= i < |ring| ==> ring[i] < |ring|) && c < |ring|
    ensures c in ring
  {
    var values := set i | 0 <= i < |ring| :: ring[i];
    DistinctCard(ring);
    var all := Range(|ring|);
    assert values <= all;
    assert all == values + (all - values);
    assert |all - values| == 0;
    assert c in all;
  }

  // ---- The destination ----

  /** One label down, wrapping from the lowest to the highest. */
  function Below(c: nat, n: nat): (r: nat)
    requires c < n
    ensures r < n
  {
    if c > 0 then c - 1 else n - 1
  }

  /** The first of `d`, then labels further down, that is not picked up, looking at most `fuel` further. */
  function Dest(d: nat, picked: seq<nat>, n: nat, fuel: nat): (r: nat)
    requires d < n
    ensures r < n
    decreases fuel
  {
    if d !in picked || fuel == 0 then d else Dest(Below(d, n), picked, n, fuel - 1)
  }

  /** The destination of a move from cup `c`: one label down, stepping on past picked-up cups. */
  function Destination(c: nat, picked: seq<nat>, n: nat): (r: nat)
    requires c < n
    ensures r < n
  {
    Dest(Below(c, n), picked, n, 3)
  }

  /**
   * With at least four cups, three picked-up cups cannot cover the four labels below the current
   * one, so the destination is never a picked-up cup; with five or more it is not the current cup.
   */
  lemma DestinationFree(c: nat, picked: seq<nat>, n: nat)
    requires c < n && n >= 4 && |picked| == 3
    ensures Destination(c, picked, n) !in picked
    ensures n >= 5 ==> Destination(c, picked, n) != c
  {
    var d1 := Below(c, n);
    var d2 := Below(d1, n);
    var d3 := Below(d2, n);
    var d4 := Below(d3, n);
    assert d1 != d2 && d1 != d3 && d1 != d4 && d2 != d3 && d2 != d4 && d3 != d4;
    assert n >= 5 ==> c != d1 && c != d2 && c != d3 && c != d4;
  }

  // ---- One move, on the table ----

  /** A move as the Rust code makes it: the table after the three writes, and the next current cup. */
  function Turned(next: seq<nat>, c: nat): (r: (seq<nat>, nat))
    requires Links(next) && c < |next| && |next| >= 4
    ensures |r.0| == |next|
  {
    var n := |next|;
    var p0 := next[c];
    var p1 := next[p0];
    var p2 := next[p1];
    var next1 := next[c := next[p2]];
    var d := Destination(c, [p0, p1, p2], n);
    var previous := next1[d];
    var next3 := next1[d := p0][p2 := previous];
    (next3, next3[c])
  }

  /** A table that links a circle is a permutation: no two cups are sent to the same cup. */
  lemma CirclePermutation(next: seq<nat>, ring: seq<nat>, a: nat, b: nat)
    requires Circle(next, ring) && a < |next| && b < |next| && a != b
    ensures next[a] != next[b]
  {
    Pigeonhole(ring, a);
    Pigeonhole(ring, b);
    var i :| 0 <= i < |ring| && ring[i] == a;
    var j :| 0 <= j < |ring| && ring[j] == b;
    assert next[a] == After(ring, i) && next[b] == After(ring, j);
    if i + 1 < |ring| && j + 1 < |ring| {
      assert ring[i + 1] != ring[j + 1];
    }
  }

  // ---- One move, on the circle ----

  /** Where cup `d` sits among the cups after the picked-up ones, counted from one; zero when it is the current cup. */
  ghost function Slot(ring: seq<nat>, d: nat): (k: nat)
    requires |ring| >= 4
    ensures k <= |ring| - 4
    ensures k > 0 ==> ring[k + 3] == d
    ensures k == 0 ==> d !in ring[4..]
  {
    if d in ring[4..] then
      var j :| 0 <= j < |ring| - 4 && ring[4..][j] == d;
      j + 1
    else 0
  }

  /** The circle with the three cups after the first moved to right after the `k`-th cup that followed them. */
  function Rearranged(ring: seq<nat>, k: nat): (r: seq<nat>)
    requires |ring| >= 4 && k <= |ring| - 4
    ensures |r| == |ring|
  {
    ring[4..4 + k] + ring[1..4] + ring[4 + k..] + [ring[0]]
  }

  /**
   * The move as the puzzle tells it, on the circle read from the current cup: the three cups after
   * it go right after the destination, and the circle is read on from the cup now after the
   * current one.
   */
  ghost function Moved(ring: seq<nat>): (r: seq<nat>)
    requires |ring| >= 4 && Cups(ring)
    ensures |r| == |ring| && Cups(r)
  {
    var k := Slot(ring, Destination(ring[0], ring[1..4], |ring|));
    RearrangedDistinct(ring, k);
    Rearranged(ring, k)
  }

  /** The circle after `t` moves. */
  ghost function MovedN(ring: seq<nat>, t: nat): (r: seq<nat>)
    requires |ring| >= 4 && Cups(ring)
    ensures |r| == |ring| && Cups(r)
  {
    if t == 0 then ring else Moved(MovedN(ring, t - 1))
  }

  /** Where position `i` of the rearranged circle was before. */
  function Source(n: nat, k: nat, i: nat): (s: nat)
    requires 4 <= n && k <= n - 4 && i < n
    ensures s < n
  {
    if i < k then i + 4 else if i < k + 3 then i - k + 1 else if i < n - 1 then i + 1 else 0
  }

  /** Position by position, the rearranged circle takes its cups from the old one. */
  lemma RearrangedAt(ring: seq<nat>, k: nat, i: nat)
    requires |ring| >= 4 && k <= |ring| - 4 && i < |ring|
    ensures Rearranged(ring, k)[i] == ring[Source(|ring|, k, i)]
  {
  }

  /** Rearranging keeps every cup once and only the cups there were. */
  lemma RearrangedDistinct(ring: seq<nat>, k: nat)
    requires |ring| >= 4 && k <= |ring| - 4 && Distinct(ring)
    ensures Distinct(Rearranged(ring, k))
    ensures forall i :: 0 <= i < |ring| ==> Rearranged(ring, k)[i] in ring
  {
    var r := Rearranged(ring, k);
    forall i | 0 <= i < |ring|
      ensures r[i] == ring[Source(|ring|, k, i)]
    {
      RearrangedAt(ring, k, i);
    }
  }

  /** Every link of a circle names a cup: the circle holds every cup. */
  lemma CircleLinks(next: seq<nat>, ring: seq<nat>)
    requires Circle(next, ring)
    ensures Links(next)
  {
    forall c | 0 <= c < |next|
      ensures next[c] < |next|
    {
      Pigeonhole(ring, c);
    }
  }

  /** The three writes of a move, once the three cups after `c` and the destination are known. */
  lemma TurnedWrites(next: seq<nat>, c: nat, p0: nat, p1: nat, p2: nat, d: nat)
    requires Links(next) && c < |next| && |next| >= 4
    requires next[c] == p0 && next[p0] == p1 && next[p1] == p2
    requires d == Destination(c, [p0, p1, p2], |next|)
    ensures Turned(next, c).0 == next[c := next[p2]][d := p0][p2 := next[c := next[p2]][d]]
  {
  }

  /** Where the destination sits: `k` cups after the three picked up, or the current cup itself. */
  lemma SlotOf(ring: seq<nat>, d: nat) returns (k: nat)
    requires |ring| >= 4 && Distinct(ring) && d in ring
    requires d != ring[1] && d != ring[2] && d != ring[3]
    ensures k == Slot(ring, d)
    ensures k > 0 ==> d == ring[k + 3]
    ensures k == 0 ==> d == ring[0]
  {
    k := Slot(ring, d);
    if k == 0 {
      var j :| 0 <= j < |ring| && ring[j] == d;
      assert forall i :: 4 <= i < |ring| ==> ring[i] == ring[4..][i - 4];
      assert j == 0;
    }
  }

  /**
   * The parts of a move on a circle: the destination `d` is none of the three cups after the
   * current one, and it sits `k` cups after them, or is the current cup when there are only four.
   */
  lemma MoveParts(next: seq<nat>, ring: seq<nat>) returns (d: nat, k: nat)
    requires Circle(next, ring) && |ring| >= 4
    ensures Links(next)
    ensures d == Destination(ring[0], ring[1..4], |ring|) && k == Slot(ring, d)
    ensures k > 0 ==> d == ring[k + 3]
    ensures k == 0 ==> d == ring[0] && |ring| == 4
    ensures d != ring[1] && d != ring[2] && d != ring[3]
    ensures Turned(next, ring[0]).0 == next[ring[0] := next[ring[3]]][d := ring[1]][ring[3] := next[ring[0] := next[ring[3]]][d]]
  {
    var n := |ring|;
    CircleLinks(next, ring);
    var c := ring[0];
    var p := ring[1..4];
    assert next[c] == ring[1] && next[ring[1]] == ring[2] && next[ring[2]] == ring[3];
    assert p == [ring[1], ring[2], ring[3]];
    d := Destination(c, p, n);
    DestinationFree(c, p, n);
    TurnedWrites(next, c, ring[1], ring[2], ring[3], d);
    Pigeonhole(ring, d);
    k := SlotOf(ring, d);
    if k == 0 && n >= 5 {
      assert false;
    }
  }

  /**
   * The three writes of a move turn the circle read from the current cup into the moved one, and
   * the next current cup is the first cup of the new reading.
   */
  lemma TurnedCircle(next: seq<nat>, ring: seq<nat>)
    requires Circle(next, ring) && |ring| >= 4
    ensures Links(next) && ring[0] < |next| && Cups(ring)
    ensures Circle(Turned(next, ring[0]).0, Moved(ring))
    ensures Turned(next, ring[0]).1 == Moved(ring)[0]
  {
    var n := |ring|;
    var d, k := MoveParts(next, ring);
    RearrangedDistinct(ring, k);
    var r := Rearranged(ring, k);
    var next3 := Turned(next, ring[0]).0;
    assert r == Moved(ring);
    forall i | 0 <= i < n
      ensures next3[r[i]] == After(r, i)
    {
      MovedLink(next, ring, k, d, next3, i);
      RearrangedAt(ring, k, i);
      RearrangedAt(ring, k, if i + 1 < n then i + 1 else 0);
    }
    RearrangedAt(ring, k, 0);
  }

  /**
   * One link of the new circle, by the positions the cups come from: the cup moved to position `i`
   * is sent to the cup moved to the position after it.
   */
  lemma MovedLink(next: seq<nat>, ring: seq<nat>, k: nat, d: nat, next3: seq<nat>, i: nat)
    requires Circle(next, ring) && |ring| >= 4 && Links(next) && i < |ring| && k <= |ring| - 4
    requires k > 0 ==> d == ring[k + 3]
    requires k == 0 ==> d == ring[0] && |ring| == 4
    requires d != ring[1] && d != ring[2] && d != ring[3]
    requires next3 == next[ring[0] := next[ring[3]]][d := ring[1]][ring[3] := next[ring[0] := next[ring[3]]][d]]
    ensures next3[ring[Source(|ring|, k, i)]] == ring[Source(|ring|, k, if i + 1 < |ring| then i + 1 else 0)]
  {
    var n := |ring|;
    var s := Source(n, k, i);
    assert next[ring[3]] == After(ring, 3);
    if s == 3 {
      if k > 0 {
        assert next[ring[k + 3]] == After(ring, k + 3);
      }
    } else if k > 0 && s == k + 3 {
    } else if s == 0 {
    } else {
      assert ring[s] != ring[0] && ring[s] != ring[3] && ring[s] != d;
      assert next[ring[s]] == After(ring, s);
    }
  }

  // ---- Following the links ----

  /** The cup reached from `x` after following `m` links. */
  function Follow(cups: seq<nat>, x: nat, m: nat): (r: nat)
    requires Links(cups) && x < |cups|
    ensures r < |cups|
  {
    if m == 0 then x else cups[Follow(cups, x, m - 1)]
  }

  /** Following the links of a circle from its first cup reads the circle in order. */
  lemma {:induction false} FollowCircle(cups: seq<nat>, ring: seq<nat>, m: nat)
    requires Circle(cups, ring) && Links(cups) && m < |ring|
    ensures Follow(cups, ring[0], m) == ring[m]
  {
    if m > 0 {
      FollowCircle(cups, ring, m - 1);
      assert cups[ring[m - 1]] == After(ring, m - 1);
    }
  }

  /** A circle read from its `j`-th cup is the same circle. */
  lemma CircleRotate(cups: seq<nat>, ring: seq<nat>, j: nat)
    requires Circle(cups, ring) && j < |ring|
    ensures Circle(cups, ring[j..] + ring[..j])
  {
    var rot := ring[j..] + ring[..j];
    forall i | 0 <= i < |ring|
      ensures cups[rot[i]] == After(rot, i)
    {
      RotatedNext(cups, ring, j, i);
    }
    RotatedDistinct(ring, j);
  }

  /** One position of the circle read from position `j`: its cup is still followed by the next one. */
  lemma RotatedNext(cups: seq<nat>, ring: seq<nat>, j: nat, i: nat)
    requires Circle(cups, ring) && j < |ring| && i < |ring|
    ensures cups[(ring[j..] + ring[..j])[i]] == After(ring[j..] + ring[..j], i)
  {
    var n := |ring|;
    var rot := ring[j..] + ring[..j];
    var k := Shift(n, j, i);
    assert cups[ring[k]] == After(ring, k);
    RotatedAt(ring, j, i);
    var i' := if i + 1 < n then i + 1 else 0;
    RotatedAt(ring, j, i');
    assert After(rot, i) == rot[i'];
    assert Shift(n, j, i') == (if k + 1 < n then k + 1 else 0);
  }

  /** Reading from another position keeps the cups distinct. */
  lemma RotatedDistinct(ring: seq<nat>, j: nat)
    requires Distinct(ring) && j < |ring|
    ensures Distinct(ring[j..] + ring[..j])
  {
    var rot := ring[j..] + ring[..j];
    forall a, b | 0 <= a < b < |ring|
      ensures rot[a] != rot[b]
    {
      RotatedAt(ring, j, a);
      RotatedAt(ring, j, b);
    }
  }

  /** Position by position, the circle read from position `j` takes its cups from the old reading. */
  lemma RotatedAt(ring: seq<nat>, j: nat, i: nat)
    requires j < |ring| && i < |ring|
    ensures (ring[j..] + ring[..j])[i] == ring[Shift(|ring|, j, i)]
  {
    if i < |ring| - j {
      assert (ring[j..] + ring[..j])[i] == ring[j..][i];
    } else {
      assert (ring[j..] + ring[..j])[i] == ring[..j][i - (|ring| - j)];
    }
  }

  /** Position `i` of the circle read from position `j` is position `Shift(n, j, i)` of the old reading. */
  function Shift(n: nat, j: nat, i: nat): (r: nat)
    requires j < n && i < n
    ensures r < n
  {
    if i + j < n then i + j else i + j - n
  }

  /** Every cup of a circle is its first cup once it is read from there. */
  lemma CircleFrom(cups: seq<nat>, ring: seq<nat>, x: nat) returns (rot: seq<nat>)
    requires Circle(cups, ring) && x < |ring|
    ensures Circle(cups, rot) && |rot| == |ring| && rot[0] == x
  {
    Pigeonhole(ring, x);
    var j :| 0 <= j < |ring| && ring[j] == x;
    CircleRotate(cups, ring, j);
    rot := ring[j..] + ring[..j];
  }

  /** The items the iterator yields from `first`: each cup reached, as many as there are cups. */
  function Walked(cups: seq<nat>, first: nat): (r: seq<nat>)
    requires Links(cups) && (cups == [] || first < |cups|)
    ensures |r| == |cups|
  {
    seq(|cups|, m requires 0 <= m < |cups| => Follow(cups, first, m))
  }

  /** From the first cup of a circle, the iterator yields the circle. */
  lemma WalkedCircle(cups: seq<nat>, ring: seq<nat>)
    requires Circle(cups, ring) && Links(cups) && ring != []
    ensures Walked(cups, ring[0]) == ring
  {
    forall m | 0 <= m < |ring|
      ensures Walked(cups, ring[0])[m] == ring[m]
    {
      FollowCircle(cups, ring, m);
    }
  }

  /**
   * `CupIterator`: follows the links from `first`, yielding each cup reached, and stops once it has
   * yielded as many cups as the table holds.
   */
  class CupIterator {
    const cups: seq<nat>
    ghost const first: nat
    var current: nat
    var count: nat

    ghost predicate Valid()
      reads this
    {
      Links(cups) && count <= |cups| &&
      (cups != [] ==> first < |cups| && current == Follow(cups, first, count))
    }

    constructor(cups: seq<nat>, first: nat)
      requires Links(cups) && (cups == [] || first < |cups|)
      ensures Valid() && this.cups == cups && this.first == first && count == 0
    {
      this.cups := cups;
      this.first := first;
      current := first;
      count := 0;
    }

    /** The next cup, or `None` once every cup has been yielded. */
    method Next() returns (r: Option<nat>)
      requires Valid()
      modifies this
      ensures Valid()
      ensures old(count) == |cups| ==> r.None? && count == old(count)
      ensures old(count) < |cups| ==> r == Some(Walked(cups, first)[old(count)]) && count == old(count) + 1
    {
      if count == |cups| {
        return None;
      }
      var c := current;
      current := cups[c];
      count := count + 1;
      return Some(c);
    }
  }

  // ---- Moves on the table ----

  /** The three cups after `c`, read with a `CupIterator`; none of the `unwrap`s fails with four cups or more. */
  method PickUp(cups: seq<nat>, c: nat) returns (p0: nat, p1: nat, p2: nat)
    requires Links(cups) && c < |cups| && |cups| >= 4
    ensures p0 == cups[c] && p1 == cups[p0] && p2 == cups[p1]
  {
    var picking := new CupIterator(cups, cups[c]);
    var a := picking.Next();
    var b := picking.Next();
    var e := picking.Next();
    p0, p1, p2 := a.value, b.value, e.value;
  }

  /** The destination loop: one label down from `c`, and on down while the label is a picked-up cup. */
  method FindDestination(c: nat, picked: seq<nat>, n: nat) returns (d: nat)
    requires c < n && n >= 4 && |picked| == 3
    ensures d == Destination(c, picked, n) && d !in picked
  {
    DestinationFree(c, picked, n);
    d := if c > 0 then c - 1 else n - 1;
    ghost var fuel: nat := 3;
    while d in picked
      invariant d < n && Dest(d, picked, n, fuel) == Destination(c, picked, n)
      decreases fuel
    {
      d := if d > 0 then d - 1 else n - 1;
      fuel := fuel - 1;
    }
  }

  /** `take_turns`, one move: the three cups after `c`, the destination, the three writes and the next current cup. */
  method TakeTurn(next: array<nat>, c: nat) returns (c': nat)
    requires Links(next[..]) && c < next.Length && next.Length >= 4
    modifies next
    ensures (next[..], c') == Turned(old(next[..]), c)
  {
    ghost var before := next[..];
    var p0, p1, p2 := PickUp(next[..], c);
    next[c] := next[p2];
    ghost var next1 := next[..];
    assert next1 == before[c := before[p2]];
    var d := FindDestination(c, [p0, p1, p2], next.Length);
    TurnedWrites(before, c, p0, p1, p2, d);
    var previous := next[d];
    next[d] := p0;
    next[p2] := previous;
    assert next[..] == next1[d := p0][p2 := previous];
    c' := next[c];
  }

  /** `take_turns`: `turns` moves from the first cup of `ring`; the table then links the moved circle. */
  method TakeTurns(next: array<nat>, current: nat, turns: nat, ghost ring: seq<nat>)
    requires Circle(next[..], ring) && |ring| >= 4 && ring[0] == current
    modifies next
    ensures Cups(ring) && Circle(next[..], MovedN(ring, turns))
  {
    CircleLinks(next[..], ring);
    Pigeonhole(ring, 0);
    var c := current;
    for t := 0 to turns
      invariant Circle(next[..], MovedN(ring, t)) && c == MovedN(ring, t)[0]
    {
      ghost var r := MovedN(ring, t);
      TurnedCircle(next[..], r);
      c := TakeTurn(next, c);
    }
  }

  // ---- The answers ----

  /** The one-based labels of `vs`, each written in decimal, one after the other. */
  function Labels(vs: seq<nat>): (s: string)
    ensures AllDigits(s)
  {
    if vs == [] then [] else Labels(vs[..|vs| - 1]) + Decimal(vs[|vs| - 1] + 1)
  }

  /** The cups after the first, at most eight of them: `skip(1).take(8)`. */
  function Shown(w: seq<nat>): (r: seq<nat>)
    ensures |r| == (if |w| <= 1 then 0 else if |w| < 9 then |w| - 1 else 8)
    ensures forall i :: 0 <= i < |r| ==> r[i] == w[i + 1]
  {
    if |w| <= 1 then [] else w[1..if |w| < 9 then |w| else 9]
  }

  /** `cups_to_string`: the labels of the (at most eight) cups that follow cup 0, in circle order. */
  method CupsToString(cups: seq<nat>) returns (s: string)
    requires Links(cups)
    ensures s == Labels(Shown(Walked(cups, 0)))
  {
    s := [];
    var it := new CupIterator(cups, 0);
    var skipped := it.Next();
    if skipped.None? {
      return;
    }
    ghost var w := Walked(cups, 0);
    var taken := 0;
    while taken < 8
      invariant it.Valid() && it.cups == cups && it.first == 0 && it.count == taken + 1 <= |cups|
      invariant taken <= 8 && s == Labels(w[1..taken + 1])
      decreases 8 - taken
    {
      var v := it.Next();
      if v.None? {
        break;
      }
      assert w[1..taken + 2][..taken + 1 - 1] == w[1..taken + 1];
      s := s + Decimal(v.value + 1);
      taken := taken + 1;
    }
    assert w[1..taken + 1] == Shown(w);
  }

  /** With cup 0 anywhere in the circle, `cups_to_string` shows the cups that follow it, in order. */
  lemma CupsToStringRing(cups: seq<nat>, ring: seq<nat>)
    requires Circle(cups, ring) && ring != [] && Links(cups)
    ensures exists rot :: (Circle(cups, rot) && |rot| == |ring| && rot[0] == 0 &&
      Labels(Shown(Walked(cups, 0))) == Labels(Shown(rot)))
  {
    var rot := CircleFrom(cups, ring, 0);
    WalkedCircle(cups, rot);
  }

  // ---- Setting up and answering ----

  /** The puzzle's labels: one to n, each once. */
  predicate Permutation(labels: seq<nat>) {
    Distinct(labels) && forall i :: 0 <= i < |labels| ==> 1 <= labels[i] <= |labels|
  }

  /** The labels as cups, `*v - 1`. */
  function Lowered(labels: seq<nat>): (r: seq<nat>)
    requires Permutation(labels)
    ensures |r| == |labels| && Cups(r)
    ensures forall i :: 0 <= i < |r| ==> r[i] + 1 == labels[i]
  {
    seq(|labels|, i requires 0 <= i < |labels| => labels[i] - 1)
  }

  /** The labels as cups, followed by the cups from `|labels|` up to `n`, for part 2. */
  function Padded(labels: seq<nat>, n: nat): (r: seq<nat>)
    requires Permutation(labels) && |labels| <= n
    ensures |r| == n && Cups(r)
  {
    var low := Lowered(labels);
    var r := low + seq(n - |labels|, k requires 0 <= k < n - |labels| => |labels| + k);
    assert forall i :: 0 <= i < |labels| ==> r[i] == low[i];
    assert forall i :: |labels| <= i < n ==> r[i] == i;
    r
  }

  /** The first loop of `main`: each cup linked to the one after it in the puzzle's order, the last to the first. */
  method InitCups(labels: seq<nat>) returns (next: array<nat>)
    requires Permutation(labels)
    ensures fresh(next) && Circle(next[..], Lowered(labels))
  {
    var n := |labels|;
    ghost var low := Lowered(labels);
    next := new nat[n](_ => 0);
    for i := 0 to n
      invariant Linked(next[..], low, i)
    {
      var cup, nextCup := labels[i] - 1, labels[(i + 1) % n] - 1;
      Wrap(i, n);
      LinkStep(next[..], low, i, nextCup);
      next[cup] := nextCup;
    }
    LinkedCircle(next[..], low);
  }

  /**
   * The second loop of `main`: the puzzle's cups, then the cups from `|labels|` up to `n` in order,
   * linked into one circle.
   */
  method InitPadded(labels: seq<nat>, n: nat) returns (next: array<nat>)
    requires Permutation(labels) && |labels| <= n && (n > 0 ==> labels != [])
    ensures fresh(next) && Circle(next[..], Padded(labels, n))
  {
    ghost var ring := Padded(labels, n);
    var count := |labels|;
    next := new nat[n](_ => 0);
    for i := 0 to n
      invariant Linked(next[..], ring, i)
    {
      var cup := if i >= count then i else labels[i] - 1;
      var nextCup := if i + 1 >= n then labels[i + 1 - n] - 1
        else if i + 1 >= count then (i + 1) % n
        else labels[i + 1] - 1;
      Wrap(i, n);
      LinkStep(next[..], ring, i, nextCup);
      next[cup] := nextCup;
    }
    LinkedCircle(next[..], ring);
  }

  /** `(i + 1) % n` is the position after `i`, wrapping from the last to the first. */
  lemma Wrap(i: nat, n: nat)
    requires i < n
    ensures (i + 1) % n == if i + 1 < n then i + 1 else 0
  {
    if i + 1 < n {
      DivModUnique(i + 1, n, 0, i + 1);
    } else {
      DivModUnique(i + 1, n, 1, 0);
    }
  }

  /** The first `i` cups of `ring` are linked to the cups after them. */
  predicate Linked(next: seq<nat>, ring: seq<nat>, i: nat)
    requires Cups(ring) && |next| == |ring| && i <= |ring|
  {
    forall j :: 0 <= j < i ==> next[ring[j]] == After(ring, j)
  }

  /** Linking the `i`-th cup keeps the links made before it. */
  lemma LinkStep(next: seq<nat>, ring: seq<nat>, i: nat, v: nat)
    requires Cups(ring) && |next| == |ring| && i < |ring| && Linked(next, ring, i) && v == After(ring, i)
    ensures Linked(next[ring[i] := v], ring, i + 1)
  {
  }

  /** Once every cup is linked, the table links the circle. */
  lemma LinkedCircle(next: seq<nat>, ring: seq<nat>)
    requires Cups(ring) && |next| == |ring| && Linked(next, ring, |ring|)
    ensures Circle(next, ring)
  {
  }

  /** Where cup 0 sits in a circle. */
  ghost function ZeroAt(ring: seq<nat>): (j: nat)
    requires ring != [] && Cups(ring)
    ensures j < |ring| && ring[j] == 0
  {
    Pigeonhole(ring, 0);
    var j :| 0 <= j < |ring| && ring[j] == 0;
    j
  }

  /** The circle read from cup 0. */
  ghost function FromZero(ring: seq<nat>): (r: seq<nat>)
    requires ring != [] && Cups(ring)
    ensures |r| == |ring| && r[0] == 0
  {
    var j := ZeroAt(ring);
    assert (ring[j..] + ring[..j])[0] == ring[j];
    ring[j..] + ring[..j]
  }

  /** A table that links a circle links it read from cup 0, and the iterator from cup 0 yields that reading. */
  lemma WalkedFromZero(cups: seq<nat>, ring: seq<nat>)
    requires Circle(cups, ring) && ring != [] && Cups(ring)
    ensures Links(cups) && Walked(cups, 0) == FromZero(ring) && Circle(cups, FromZero(ring))
  {
    CircleLinks(cups, ring);
    CircleRotate(cups, ring, ZeroAt(ring));
    WalkedCircle(cups, FromZero(ring));
  }

  /**
   * Part 1: the cups in the puzzle's order, `turns` moves (100 in `main`), and the labels of the
   * eight cups after cup 1.
   */
  method Part1(labels: seq<nat>, turns: nat) returns (s: string)
    requires Permutation(labels) && |labels| >= 4
    ensures s == Labels(Shown(FromZero(MovedN(Lowered(labels), turns))))
  {
    var next := InitCups(labels);
    TakeTurns(next, labels[0] - 1, turns, Lowered(labels));
    WalkedFromZero(next[..], MovedN(Lowered(labels), turns));
    s := CupsToString(next[..]);
  }

  /**
   * Part 2: the cups padded to `n` (a million in `main`), `turns` moves (ten million), and the two
   * cups after cup 1, as one-based labels, with their product.
   */
  method Part2(labels: seq<nat>, n: nat, turns: nat) returns (star1: nat, star2: nat, product: int)
    requires Permutation(labels) && |labels| <= n && n >= 4 && labels != []
    ensures star1 == FromZero(MovedN(Padded(labels, n), turns))[1] + 1
    ensures star2 == FromZero(MovedN(Padded(labels, n), turns))[2] + 1
    ensures product == star1 * star2
  {
    var next := InitPadded(labels, n);
    ghost var ring := Padded(labels, n);
    assert ring[0] == labels[0] - 1;
    TakeTurns(next, labels[0] - 1, turns, ring);
    ghost var moved := MovedN(ring, turns);
    WalkedFromZero(next[..], moved);
    var s1, s2 := Stars(next[..]);
    assert s1 == Walked(next[..], 0)[1] && s2 == Walked(next[..], 0)[2];
    star1, star2 := s1 + 1, s2 + 1;
    product := star1 * star2;
  }

  /** `star_1` and `star_2`: the first and second cups after cup 0. */
  method Stars(cups: seq<nat>) returns (s1: nat, s2: nat)
    requires Links(cups) && cups != []
    ensures s1 == Follow(cups, 0, 1) && s2 == Follow(cups, 0, 2)
  {
    s1 := cups[0];
    s2 := cups[s1];
  }
}
