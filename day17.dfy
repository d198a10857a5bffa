/**
 * Day 17 (Conway cubes): the pocket dimension's active cubes, in three (`Point3`) and four
 * (`Point4`) dimensions. Both versions of the Rust code are the same algorithm at a different
 * dimension, so the model takes the dimension as the length of a point.
 */
module Day17 {
  import opened Wrappers

  /** A point with one coordinate per dimension: `Point3` has three, `Point4` four. */
  type Point = seq<int>

  predicate Distinct<T(==)>(s: seq<T>) {
    forall p, q :: 0 <= p < q < |s| ==> s[p] != s[q]
  }

  // ---- The points of a box, in the order of the nested `for` loops ----

  /** Every point of `inner` with one more coordinate `c`. */
  function Extend(inner: seq<Point>, c: int): (r: seq<Point>)
    ensures |r| == |inner|
    ensures forall k :: 0 <= k < |r| ==> r[k] == inner[k] + [c]
  {
    seq(|inner|, k requires 0 <= k < |inner| => inner[k] + [c])
  }

  /** The last coordinate running from `a` to `b`, and the points of `inner` inside each. */
  function Layers(inner: seq<Point>, a: int, b: int): seq<Point>
    decreases b - a
  {
    if a > b then [] else Extend(inner, a) + Layers(inner, a + 1, b)
  }

  /** `lo..=hi` in every coordinate. */
  ghost predicate InBox(lo: Point, hi: Point, p: Point)
    requires |lo| == |hi|
  {
    |p| == |lo| && forall i :: 0 <= i < |lo| ==> lo[i] <= p[i] <= hi[i]
  }

  /**
   * The points from `lo` to `hi`, the last coordinate outermost and the first innermost: the
   * order of the nested loops of `update3`/`update4` and of the `flat_map`s of `neighbours`.
   */
  function Box(lo: Point, hi: Point): seq<Point>
    requires |lo| == |hi|
    decreases |lo|
  {
    var d := |lo|;
    if d == 0 then [[]] else Layers(Box(lo[..d - 1], hi[..d - 1]), lo[d - 1], hi[d - 1])
  }

  lemma ExtendMember(inner: seq<Point>, a: int, m: nat)
    requires forall q :: q in inner ==> |q| == m
    ensures forall p :: p in Extend(inner, a) <==> |p| == m + 1 && p[..m] in inner && p[m] == a
  {
    forall p | p in Extend(inner, a)
      ensures |p| == m + 1 && p[..m] in inner && p[m] == a
    {
      var k :| 0 <= k < |inner| && Extend(inner, a)[k] == p;
      assert p[..m] == inner[k];
    }
    forall p | |p| == m + 1 && p[..m] in inner && p[m] == a
      ensures p in Extend(inner, a)
    {
      var k :| 0 <= k < |inner| && inner[k] == p[..m];
      assert Extend(inner, a)[k] == p;
    }
  }

  lemma {:induction false} LayersMember(inner: seq<Point>, a: int, b: int, m: nat)
    requires forall q :: q in inner ==> |q| == m
    ensures forall p :: p in Layers(inner, a, b) <==> |p| == m + 1 && p[..m] in inner && a <= p[m] <= b
    decreases b - a
  {
    if a <= b {
      LayersMember(inner, a + 1, b, m);
      ExtendMember(inner, a, m);
      assert forall p :: p in Layers(inner, a, b) <==> p in Extend(inner, a) || p in Layers(inner, a + 1, b);
    }
  }

  /** Membership of a box, split into the first `d - 1` coordinates and the last. */
  lemma InBoxLast(lo: Point, hi: Point, p: Point)
    requires |lo| == |hi| > 0 && |p| == |lo|
    ensures var d := |lo|;
      InBox(lo, hi, p) <==> InBox(lo[..d - 1], hi[..d - 1], p[..d - 1]) && lo[d - 1] <= p[d - 1] <= hi[d - 1]
  {
    var d := |lo|;
    assert forall i :: 0 <= i < d - 1 ==> p[..d - 1][i] == p[i] && lo[..d - 1][i] == lo[i] && hi[..d - 1][i] == hi[i];
  }

  /** A point is in the box exactly when each coordinate lies in its range. */
  lemma {:induction false} BoxMember(lo: Point, hi: Point)
    requires |lo| == |hi|
    ensures forall p :: p in Box(lo, hi) <==> InBox(lo, hi, p)
    decreases |lo|
  {
    var d := |lo|;
    if d > 0 {
      var lo', hi' := lo[..d - 1], hi[..d - 1];
      BoxMember(lo', hi');
      LayersMember(Box(lo', hi'), lo[d - 1], hi[d - 1], d - 1);
      forall p | |p| == d
        ensures p in Box(lo, hi) <==> InBox(lo, hi, p)
      {
        InBoxLast(lo, hi, p);
      }
    } else {
      forall p
        ensures p in Box(lo, hi) <==> InBox(lo, hi, p)
      {
        if |p| == 0 {
          assert p == [];
        }
      }
    }
  }

  lemma {:induction false} LayersDistinct(inner: seq<Point>, a: int, b: int, m: nat)
    requires Distinct(inner) && forall q :: q in inner ==> |q| == m
    ensures Distinct(Layers(inner, a, b))
    decreases b - a
  {
    if a <= b {
      LayersDistinct(inner, a + 1, b, m);
      LayersMember(inner, a + 1, b, m);
      var e, rest := Extend(inner, a), Layers(inner, a + 1, b);
      forall p, q | 0 <= p < q < |e + rest|
        ensures (e + rest)[p] != (e + rest)[q]
      {
        if q < |e| {
          assert e[p][..m] == inner[p] && e[q][..m] == inner[q];
        } else if p < |e| {
          assert rest[q - |e|] in rest;
          assert e[p][m] == a;
        }
      }
    }
  }

  /** No point of a box is visited twice. */
  lemma {:induction false} BoxDistinct(lo: Point, hi: Point)
    requires |lo| == |hi|
    ensures Distinct(Box(lo, hi))
    decreases |lo|
  {
    var d := |lo|;
    if d > 0 {
      BoxDistinct(lo[..d - 1], hi[..d - 1]);
      BoxMember(lo[..d - 1], hi[..d - 1]);
      LayersDistinct(Box(lo[..d - 1], hi[..d - 1]), lo[d - 1], hi[d - 1], d - 1);
    }
  }

  /** The number of integers in `a..=b`. */
  function Span(a: int, b: int): nat {
    if a > b then 0 else b - a + 1
  }

  /** The number of points in the box. */
  function Volume(lo: Point, hi: Point): nat
    requires |lo| == |hi|
    decreases |lo|
  {
    var d := |lo|;
    if d == 0 then 1 else Volume(lo[..d - 1], hi[..d - 1]) * Span(lo[d - 1], hi[d - 1])
  }

  lemma {:induction false} LayersSize(inner: seq<Point>, a: int, b: int)
    ensures |Layers(inner, a, b)| == Span(a, b) * |inner|
    decreases b - a
  {
    if a <= b {
      LayersSize(inner, a + 1, b);
      assert Span(a, b) * |inner| == |inner| + Span(a + 1, b) * |inner|;
    }
  }

  lemma {:induction false} BoxSize(lo: Point, hi: Point)
    requires |lo| == |hi|
    ensures |Box(lo, hi)| == Volume(lo, hi)
    decreases |lo|
  {
    var d := |lo|;
    if d > 0 {
      BoxSize(lo[..d - 1], hi[..d - 1]);
      LayersSize(Box(lo[..d - 1], hi[..d - 1]), lo[d - 1], hi[d - 1]);
    }
  }

  // ---- Neighbours ----

  /** `p` moved by `c` in every coordinate. */
  function Shift(p: Point, c: int): (r: Point)
    ensures |r| == |p| && forall i :: 0 <= i < |p| ==> r[i] == p[i] + c
  {
    seq(|p|, i requires 0 <= i < |p| => p[i] + c)
  }

  /** `.filter(move |p| *p != center)`. */
  function Without(s: seq<Point>, x: Point): (r: seq<Point>)
    ensures forall q :: q in r <==> q in s && q != x
    ensures Distinct(s) ==> Distinct(r)
    ensures Distinct(s) && x in s ==> |r| == |s| - 1
    ensures x !in s ==> r == s
  {
    if s == [] then []
    else
      var rest := Without(s[1..], x);
      assert Distinct(s) ==> s[0] !in s[1..] && Distinct(s[1..]);
      assert x in s && s[0] != x ==> x in s[1..];
      if s[0] == x then rest else [s[0]] + rest
  }

  /** The `neighbours` of a point: every point of the 3×…×3 box around it except the point itself. */
  function Neighbours(p: Point): seq<Point> {
    Without(Box(Shift(p, -1), Shift(p, 1)), p)
  }

  /** `q` is a neighbour of `p`: a different point, each coordinate at most 1 away. */
  ghost predicate Adjacent(p: Point, q: Point) {
    |q| == |p| && q != p && forall i :: 0 <= i < |p| ==> p[i] - 1 <= q[i] <= p[i] + 1
  }

  function Pow3(d: nat): nat {
    if d == 0 then 1 else 3 * Pow3(d - 1)
  }

  lemma {:induction false} AroundVolume(p: Point)
    ensures Volume(Shift(p, -1), Shift(p, 1)) == Pow3(|p|)
    decreases |p|
  {
    var d := |p|;
    if d > 0 {
      var q := p[..d - 1];
      assert Shift(p, -1)[..d - 1] == Shift(q, -1) && Shift(p, 1)[..d - 1] == Shift(q, 1);
      AroundVolume(q);
    }
  }

  /**
   * The neighbours of `p` are exactly the points adjacent to it, each listed once: 3^d - 1 of them
   * in `d` dimensions.
   */
  lemma NeighboursMeans(p: Point)
    ensures forall q :: q in Neighbours(p) <==> Adjacent(p, q)
    ensures Distinct(Neighbours(p))
    ensures |Neighbours(p)| == Pow3(|p|) - 1
  {
    var lo, hi := Shift(p, -1), Shift(p, 1);
    BoxMember(lo, hi);
    BoxDistinct(lo, hi);
    BoxSize(lo, hi);
    AroundVolume(p);
    assert InBox(lo, hi, p);
  }

  /** `Point3::neighbours` yields 26 points and `Point4::neighbours` 80. */
  lemma NeighbourCounts(p: Point)
    ensures |p| == 3 ==> |Neighbours(p)| == 26
    ensures |p| == 4 ==> |Neighbours(p)| == 80
  {
    NeighboursMeans(p);
    assert Pow3(4) == 81;
  }

  // ---- The bounding box ----

  /** The componentwise minimum, or maximum, of two points. */
  function Combine(s: Point, v: Point, takeMin: bool): (r: Point)
    requires |s| == |v|
    ensures |r| == |s|
    ensures forall i :: 0 <= i < |s| ==> r[i] == if takeMin == (v[i] <= s[i]) then v[i] else s[i]
  {
    seq(|s|, i requires 0 <= i < |s| => if takeMin == (v[i] <= s[i]) then v[i] else s[i])
  }

  /** The fold over the rest of the points, from the accumulator `s`. */
  function Fold(s: Point, rest: seq<Point>, takeMin: bool): (r: Point)
    requires forall k :: 0 <= k < |rest| ==> |rest[k]| == |s|
    ensures |r| == |s|
    decreases |rest|
  {
    if rest == [] then s else Fold(Combine(s, rest[0], takeMin), rest[1..], takeMin)
  }

  /** Coordinate `i` of `r` is the least (or greatest) coordinate `i` of the points, and one of them has it. */
  ghost predicate Extreme(ps: seq<Point>, r: Point, i: nat, takeMin: bool)
    requires i < |r| && forall k :: 0 <= k < |ps| ==> |ps[k]| == |r|
  {
    (forall k :: 0 <= k < |ps| ==> if takeMin then r[i] <= ps[k][i] else ps[k][i] <= r[i]) &&
    exists k :: 0 <= k < |ps| && ps[k][i] == r[i]
  }

  lemma {:induction false} FoldExtreme(s: Point, rest: seq<Point>, takeMin: bool, i: nat)
    requires i < |s| && forall k :: 0 <= k < |rest| ==> |rest[k]| == |s|
    ensures Extreme([s] + rest, Fold(s, rest, takeMin), i, takeMin)
    decreases |rest|
  {
    var ps := [s] + rest;
    if rest != [] {
      var s' := Combine(s, rest[0], takeMin);
      FoldExtreme(s', rest[1..], takeMin, i);
      var r := Fold(s, rest, takeMin);
      var ps' := [s'] + rest[1..];
      assert r == Fold(s', rest[1..], takeMin);
      assert Extreme(ps', r, i, takeMin);
      var j :| 0 <= j < |ps'| && ps'[j][i] == r[i];
      if j == 0 {
        if s'[i] == s[i] {
          assert ps[0][i] == r[i];
        } else {
          assert ps[1][i] == r[i];
        }
      } else {
        assert ps[j + 1][i] == r[i];
      }
      forall k | 0 <= k < |ps|
        ensures if takeMin then r[i] <= ps[k][i] else ps[k][i] <= r[i]
      {
        if k >= 2 {
          assert ps[k] == ps'[k - 1];
        } else {
          assert ps'[0] == s';
          assert ps[0] == s && ps[1] == rest[0];
        }
      }
    } else {
      assert ps[0][i] == Fold(s, rest, takeMin)[i];
    }
  }

  /**
   * `min_point3`/`min_point4` (with `takeMin`) and `max_point3`/`max_point4`: `None` for no points,
   * otherwise the point whose every coordinate is the least (greatest) of that coordinate.
   */
  function Bound(ps: seq<Point>, d: nat, takeMin: bool): (r: Option<Point>)
    requires forall k :: 0 <= k < |ps| ==> |ps[k]| == d
    ensures r.None? <==> ps == []
    ensures r.Some? ==> |r.value| == d && forall i :: 0 <= i < d ==> Extreme(ps, r.value, i, takeMin)
  {
    if ps == [] then None
    else
      var r := Fold(ps[0], ps[1..], takeMin);
      assert ps == [ps[0]] + ps[1..];
      assert forall i :: 0 <= i < d ==> Extreme(ps, r, i, takeMin) by {
        forall i | 0 <= i < d
          ensures Extreme(ps, r, i, takeMin)
        {
          FoldExtreme(ps[0], ps[1..], takeMin, i);
        }
      }
      Some(r)
  }

  // ---- Radiate ----

  /** How many entries of `active` have `n` as a neighbour. */
  ghost function AdjCount(active: seq<Point>, n: Point): nat {
    if active == [] then 0
    else AdjCount(active[..|active| - 1], n) + if Adjacent(active[|active| - 1], n) then 1 else 0
  }

  /** The count a map holds for `n`, 0 when it has no entry. */
  function Get(m: map<Point, nat>, n: Point): nat {
    if n in m then m[n] else 0
  }

  /**
   * `radiate3`/`radiate4`: for every point, the number of active points it neighbours; a point
   * has an entry exactly when that number is not 0.
   */
  method Radiate(active: seq<Point>) returns (m: map<Point, nat>)
    ensures forall n :: Get(m, n) == AdjCount(active, n)
    ensures forall n :: n in m ==> m[n] > 0
  {
    m := map[];
    for i := 0 to |active|
      invariant forall n :: Get(m, n) == AdjCount(active[..i], n)
      invariant forall n :: n in m ==> m[n] > 0
    {
      assert active[..i + 1][..i] == active[..i];
      NeighboursMeans(active[i]);
      m := RadiateFrom(m, active[i]);
    }
    assert active[..|active|] == active;
  }

  /** The inner loop: one more count for each neighbour of `p`. */
  method RadiateFrom(m0: map<Point, nat>, p: Point) returns (m: map<Point, nat>)
    requires forall n :: n in m0 ==> m0[n] > 0
    ensures forall n :: Get(m, n) == Get(m0, n) + if n in Neighbours(p) then 1 else 0
    ensures forall n :: n in m ==> m[n] > 0
  {
    var ns := Neighbours(p);
    NeighboursMeans(p);
    m := m0;
    for j := 0 to |ns|
      invariant forall n :: Get(m, n) == Get(m0, n) + if n in ns[..j] then 1 else 0
      invariant forall n :: n in m ==> m[n] > 0
    {
      var n := ns[j];
      assert n !in ns[..j];
      assert forall q :: q in ns[..j + 1] <==> q in ns[..j] || q == n;
      m := m[n := Get(m, n) + 1];
    }
    assert ns[..|ns|] == ns;
  }

  // ---- Update ----

  /** The rule: an active cube stays with 2 or 3 active neighbours, an inactive one turns on with exactly 3. */
  ghost predicate Alive(active: seq<Point>, p: Point) {
    var c := AdjCount(active, p);
    if p in active then c == 2 || c == 3 else c == 3
  }

  /** `radiated.keys()` in the map's own, unspecified, order. */
  method Keys(m: map<Point, nat>) returns (ks: seq<Point>)
    ensures forall q :: q in ks <==> q in m
  {
    ks := [];
    var rest := m.Keys;
    while rest != {}
      invariant forall q :: q in m <==> q in ks || q in rest
      invariant rest <= m.Keys
      decreases |rest|
    {
      var k :| k in rest;
      ks := ks + [k];
      rest := rest - {k};
    }
  }

  /**
   * `update3`/`update4`: the active points of the next cycle, each once, scanning the bounding box
   * of the radiated points. `None` where the Rust code panics: no active points, so nothing is
   * radiated and the bounding box is `unwrap`ped from `None`.
   */
  method Update(active: seq<Point>, d: nat) returns (r: Option<seq<Point>>)
    requires d == 3 || d == 4
    requires forall k :: 0 <= k < |active| ==> |active[k]| == d
    ensures r.None? <==> active == []
    ensures r.Some? ==> Distinct(r.value) && forall p :: p in r.value <==> |p| == d && Alive(active, p)
  {
    var radiated := Radiate(active);
    var ks := Keys(radiated);
    forall k | 0 <= k < |ks|
      ensures |ks[k]| == d
    {
      CountedAreNear(active, d, ks[k]);
    }
    var minPos := Bound(ks, d, true);
    var maxPos := Bound(ks, d, false);
    if minPos.None? || maxPos.None? {
      if active != [] {
        NeighbourCounts(active[0]);
        RadiatesSomewhere(active);
      }
      return None;
    }
    var box := Box(minPos.value, maxPos.value);
    BoxMember(minPos.value, maxPos.value);
    BoxDistinct(minPos.value, maxPos.value);
    var result := [];
    for k := 0 to |box|
      invariant forall p :: p in result <==> p in box[..k] && Alive(active, p)
      invariant Distinct(result) && forall p :: p in result ==> p in box[..k]
    {
      var p := box[k];
      var activeNeighbours := Get(radiated, p);
      assert p !in box[..k];
      assert forall q :: q in box[..k + 1] <==> q in box[..k] || q == p;
      if p in active {
        if activeNeighbours == 2 || activeNeighbours == 3 {
          result := result + [p];
        }
      } else if activeNeighbours == 3 {
        result := result + [p];
      }
    }
    assert box[..|box|] == box;
    forall p | |p| == d && Alive(active, p)
      ensures p in box
    {
      assert p in radiated;
      assert p in ks;
      forall i | 0 <= i < d
        ensures minPos.value[i] <= p[i] <= maxPos.value[i]
      {
        var k :| 0 <= k < |ks| && ks[k] == p;
        assert Extreme(ks, minPos.value, i, true) && Extreme(ks, maxPos.value, i, false);
      }
    }
    return Some(result);
  }

  /** A point some active point neighbours has the same dimension. */
  lemma {:induction false} CountedAreNear(active: seq<Point>, d: nat, n: Point)
    requires forall k :: 0 <= k < |active| ==> |active[k]| == d
    requires AdjCount(active, n) > 0
    ensures |n| == d
  {
    if !Adjacent(active[|active| - 1], n) {
      CountedAreNear(active[..|active| - 1], d, n);
    }
  }

  /** With an active point, some point is radiated to. */
  lemma RadiatesSomewhere(active: seq<Point>)
    requires active != [] && |Neighbours(active[0])| > 0
    ensures exists n :: AdjCount(active, n) > 0
  {
    NeighboursMeans(active[0]);
    var n := Neighbours(active[0])[0];
    assert n in Neighbours(active[0]);
    AdjCountPositive(active, 0, n);
  }

  lemma {:induction false} AdjCountPositive(active: seq<Point>, k: nat, n: Point)
    requires k < |active| && Adjacent(active[k], n)
    ensures AdjCount(active, n) > 0
  {
    if k < |active| - 1 {
      AdjCountPositive(active[..|active| - 1], k, n);
    }
  }
}
