/** Day 13 (shuttle search): the earliest bus, and the timestamp at which the buses depart one after another. */
module Day13 {
  import opened Wrappers
  import opened Text
  import Arith

  /** A bus of the second input line: its position in the list and its id. */
  datatype Bus = Bus(index: nat, id: int)

  // ---- Parsing ----

  /**
   * The second half of `parse`: the comma-separated fields numbered from 0, the `x` ones dropped.
   * `None` where the Rust code panics on a field that is no `isize`.
   */
  function ParseBuses(fields: seq<string>): (r: Option<seq<Bus>>)
    ensures r.Some? <==> forall k :: 0 <= k < |fields| ==> fields[k] == "x" || ParseSigned(fields[k]).Some?
    ensures r.Some? ==> forall j :: 0 <= j < |r.value| ==> ParsedAt(fields, r.value[j])
    ensures r.Some? ==> forall j, k :: 0 <= j < k < |r.value| ==> r.value[j].index < r.value[k].index
    ensures r.Some? ==> |r.value| == |fields| - Count(fields, "x")
  {
    if fields == [] then Some([])
    else
      var n := |fields| - 1;
      var front := ParseBuses(fields[..n]);
      assert forall k :: 0 <= k < n ==> fields[..n][k] == fields[k];
      assert fields[..n] + [fields[n]] == fields;
      if fields[n] == "x" then front
      else
        match (front, ParseSigned(fields[n]))
        case (Some(buses), Some(id)) =>
          assert forall j :: 0 <= j < |buses| ==> ParsedAt(fields[..n], buses[j]) && ParsedAt(fields, buses[j]);
          Some(buses + [Bus(n, id)])
        case _ => None
  }

  /** A bus parsed from the field at its index. */
  predicate ParsedAt(fields: seq<string>, bus: Bus) {
    bus.index < |fields| && fields[bus.index] != "x" && Some(bus.id) == ParseSigned(fields[bus.index])
  }

  /** `parse`: the earliest departure time on the first line, the buses on the second; `None` for a missing line or a bad number. */
  function Parse(lines: seq<string>): (r: Option<(int, seq<Bus>)>)
    ensures r.Some? ==> |lines| >= 2 && Some(r.value.0) == ParseSigned(lines[0])
    ensures r.Some? ==> Some(r.value.1) == ParseBuses(SplitOn(lines[1], ','))
  {
    if |lines| < 2 then None
    else
      match (ParseSigned(lines[0]), ParseBuses(SplitOn(lines[1], ',')))
      case (Some(time), Some(buses)) => Some((time, buses))
      case _ => None
  }

  // ---- Part 1: the earliest bus ----

  /**
   * `earliest_time_for_bus`, with Rust's truncating `%`: for a positive id and a time that is not
   * negative, the least wait after which the bus departs.
   */
  function EarliestTimeForBus(earliestTime: int, id: int): (w: int)
    requires id != 0
    ensures earliestTime >= 0 && id > 0 ==> 0 <= w < id && DepartsAfter(earliestTime, id, w)
    ensures earliestTime >= 0 && id > 0 ==> forall v :: 0 <= v < w ==> !DepartsAfter(earliestTime, id, v)
  {
    var w := Arith.TruncRem(id - Arith.TruncRem(earliestTime, id), id);
    if earliestTime >= 0 && id > 0 then
      WaitIsLeast(earliestTime, id);
      w
    else w
  }

  /** Bus `id` departs `v` minutes after `t`. */
  predicate DepartsAfter(t: int, id: int, v: int)
    requires id != 0
  {
    (t + v) % id == 0
  }

  /** The wait of `earliest_time_for_bus` in Euclidean terms. */
  lemma WaitIsLeast(t: nat, id: int)
    requires id > 0
    ensures Arith.TruncRem(id - Arith.TruncRem(t, id), id) == (id - t % id) % id
    ensures 0 <= (id - t % id) % id < id && DepartsAfter(t, id, (id - t % id) % id)
    ensures forall v :: 0 <= v < (id - t % id) % id ==> !DepartsAfter(t, id, v)
  {
    var q, m := t / id, t % id;
    assert t == q * id + m;
    if m == 0 {
      Arith.DivModUnique(id, id, 1, 0);
    } else {
      Arith.DivModUnique(id - m, id, 0, id - m);
      LaterDeparture(t, id, q, m);
      forall v | 0 <= v < id - m
        ensures !DepartsAfter(t, id, v)
      {
        NoEarlierDeparture(t, id, q, m, v);
      }
    }
  }

  /** With `t == q * id + m` and `0 < m`, the bus leaves `id - m` minutes after `t`. */
  lemma LaterDeparture(t: int, id: int, q: int, m: int)
    requires id > 0 && 0 < m < id && t == q * id + m
    ensures DepartsAfter(t, id, id - m)
  {
    assert t + (id - m) == (q + 1) * id;
    Arith.DivModUnique(t + (id - m), id, q + 1, 0);
  }

  /** ... and not before. */
  lemma NoEarlierDeparture(t: int, id: int, q: int, m: int, v: int)
    requires id > 0 && 0 < m < id && t == q * id + m && 0 <= v < id - m
    ensures !DepartsAfter(t, id, v)
  {
    Arith.DivModUnique(t + v, id, q, m + v);
  }

  /** `min_by_key` over the first `n` buses: the index of the first bus with the least wait. */
  function FirstLeastWait(earliestTime: int, buses: seq<Bus>, n: nat): (m: nat)
    requires 0 < n <= |buses| && forall j :: 0 <= j < |buses| ==> buses[j].id != 0
    ensures m < n
    ensures forall j :: 0 <= j < n ==> EarliestTimeForBus(earliestTime, buses[m].id) <= EarliestTimeForBus(earliestTime, buses[j].id)
    ensures forall j :: 0 <= j < m ==> EarliestTimeForBus(earliestTime, buses[m].id) < EarliestTimeForBus(earliestTime, buses[j].id)
  {
    if n == 1 then 0
    else
      var m := FirstLeastWait(earliestTime, buses, n - 1);
      if EarliestTimeForBus(earliestTime, buses[n - 1].id) < EarliestTimeForBus(earliestTime, buses[m].id) then n - 1 else m
  }

  /**
   * `min_by_key` picks bus `j`: no bus waits less, and every bus before it waits longer (the first
   * of several minimal keys is kept).
   */
  ghost predicate FirstLeast(earliestTime: int, buses: seq<Bus>, j: nat)
    requires j < |buses| && forall k :: 0 <= k < |buses| ==> buses[k].id != 0
  {
    (forall k :: 0 <= k < |buses| ==> EarliestTimeForBus(earliestTime, buses[j].id) <= EarliestTimeForBus(earliestTime, buses[k].id)) &&
    (forall k :: 0 <= k < j ==> EarliestTimeForBus(earliestTime, buses[j].id) < EarliestTimeForBus(earliestTime, buses[k].id))
  }

  /**
   * Solution 1 as the Rust code computes it: the chosen `(index, id)` tuple is destructured as
   * `(wait_time, earliest_bus)`, so the id is multiplied by the bus's position in the list.
   * `None` for no buses (`unwrap` of `min_by_key`) and for an id of 0 (division by zero).
   */
  function Solution1AsWritten(earliestTime: int, buses: seq<Bus>): (r: Option<int>)
    ensures r.Some? <==> |buses| > 0 && forall j :: 0 <= j < |buses| ==> buses[j].id != 0
    ensures r.Some? ==> exists j :: (0 <= j < |buses| && r.value == buses[j].id * buses[j].index &&
      FirstLeast(earliestTime, buses, j))
  {
    if |buses| == 0 || exists j :: 0 <= j < |buses| && buses[j].id == 0 then None
    else
      var bus := buses[FirstLeastWait(earliestTime, buses, |buses|)];
      Some(bus.id * bus.index)
  }

  /** Solution 1 as intended: the id of the bus with the least wait times that wait. */
  function Solution1(earliestTime: int, buses: seq<Bus>): (r: Option<int>)
    ensures r.Some? <==> |buses| > 0 && forall j :: 0 <= j < |buses| ==> buses[j].id != 0
    ensures r.Some? ==> exists j :: (0 <= j < |buses| &&
      r.value == buses[j].id * EarliestTimeForBus(earliestTime, buses[j].id) && FirstLeast(earliestTime, buses, j))
  {
    if |buses| == 0 || exists j :: 0 <= j < |buses| && buses[j].id == 0 then None
    else
      var bus := buses[FirstLeastWait(earliestTime, buses, |buses|)];
      Some(bus.id * EarliestTimeForBus(earliestTime, bus.id))
  }

  /** The example of the puzzle: earliest time 939, buses `7,13,x,x,59,x,31,19`. */
  const SampleBuses: seq<Bus> := [Bus(0, 7), Bus(1, 13), Bus(4, 59), Bus(6, 31), Bus(7, 19)]

  /** On the example, bus 59 waits 5 minutes at position 4: the Rust code prints 236 where 295 is meant. */
  lemma SampleSolution1()
    ensures Solution1AsWritten(939, SampleBuses) == Some(236)
    ensures Solution1(939, SampleBuses) == Some(295)
  {
    assert EarliestTimeForBus(939, 7) == 6;
    assert EarliestTimeForBus(939, 13) == 10;
    assert EarliestTimeForBus(939, 59) == 5;
    assert EarliestTimeForBus(939, 31) == 22;
    assert EarliestTimeForBus(939, 19) == 11;
    assert FirstLeastWait(939, SampleBuses, 5) == 2;
  }

  // ---- Part 2: the Chinese remainder sum ----

  /** `x` to the `k`. */
  function Pow(x: int, k: nat): int {
    if k == 0 then 1 else Pow(x, k - 1) * x
  }

  /** The `fold` of `inv_mod` after `k` steps: start at 1, multiply by `x`, take the truncated remainder. */
  function InvModSteps(x: int, p: int, k: nat): (r: int)
    requires k > 0 ==> p != 0
  {
    if k == 0 then 1 else Arith.TruncRem(InvModSteps(x, p, k - 1) * x, p)
  }

  /** `inv_mod`: `p - 2` steps of the fold, none when `p` is below 3. */
  function InvMod(x: int, p: int): int {
    InvModSteps(x, p, if p > 2 then p - 2 else 0)
  }

  /** For `x >= 0` the fold is `x` to the `k` modulo `p`: `inv_mod` raises `x` to `p - 2`. */
  lemma {:induction false} InvModIsPower(x: nat, p: int, k: nat)
    requires p > 0 && k > 0
    ensures InvModSteps(x, p, k) == Pow(x, k) % p
  {
    if k == 1 {
      assert InvModSteps(x, p, 0) == 1 && Pow(x, 0) == 1;
    } else {
      InvModIsPower(x, p, k - 1);
      PowNonNegative(x, k - 1);
      Arith.ModMul(Pow(x, k - 1), x, p);
      assert (Pow(x, k - 1) % p) * x >= 0;
    }
  }

  lemma {:induction false} PowNonNegative(x: nat, k: nat)
    ensures Pow(x, k) >= 0
  {
    if k > 0 {
      PowNonNegative(x, k - 1);
    }
  }

  /** The product of the ids, `prod`. */
  function Product(buses: seq<Bus>): int {
    if buses == [] then 1 else Product(buses[..|buses| - 1]) * buses[|buses| - 1].id
  }

  /** The product of the ids other than bus `i`'s. */
  function Others(buses: seq<Bus>, i: nat): int
    requires i < |buses|
  {
    var n := |buses| - 1;
    if i == n then Product(buses[..n]) else Others(buses[..n], i) * buses[n].id
  }

  /** Leaving one factor out: `prod == id_i * others_i`. */
  lemma {:induction false} ProductSplit(buses: seq<Bus>, i: nat)
    requires i < |buses|
    ensures Product(buses) == buses[i].id * Others(buses, i)
  {
    var n := |buses| - 1;
    if i < n {
      ProductSplit(buses[..n], i);
      assert buses[..n][i] == buses[i];
    }
  }

  /** Every other id divides the product of the ids other than bus `j`'s. */
  lemma {:induction false} OthersSplit(buses: seq<Bus>, i: nat, j: nat) returns (c: int)
    requires i < |buses| && j < |buses| && i != j
    ensures Others(buses, j) == buses[i].id * c
  {
    var n := |buses| - 1;
    if j == n {
      ProductSplit(buses[..n], i);
      assert buses[..n][i] == buses[i];
      c := Others(buses[..n], i);
    } else if i == n {
      c := Others(buses[..n], j);
    } else {
      var c' := OthersSplit(buses[..n], i, j);
      assert buses[..n][i] == buses[i];
      c := c' * buses[n].id;
    }
  }

  /** The term of bus `j` in the sum: `-a * (prod / b) * inv_mod(prod / b, b)`. */
  function Term(prod: int, bus: Bus): int
    requires bus.id != 0
  {
    var m := Arith.TruncDiv(prod, bus.id);
    -(bus.index as int) * m * InvMod(m, bus.id)
  }

  /** The sum of the terms of the first `n` buses. */
  function SumTerms(prod: int, buses: seq<Bus>, n: nat): int
    requires n <= |buses| && forall j :: 0 <= j < |buses| ==> buses[j].id != 0
  {
    if n == 0 then 0 else SumTerms(prod, buses, n - 1) + Term(prod, buses[n - 1])
  }

  /**
   * Solution 2: the sum of the terms, reduced with `rem_euclid` by the product. `None` where the
   * Rust code divides by zero: an id of 0.
   */
  function Solution2(buses: seq<Bus>): (r: Option<int>)
    ensures r.Some? <==> forall j :: 0 <= j < |buses| ==> buses[j].id != 0
    ensures r.Some? ==> 0 <= r.value < Arith.Abs(Product(buses))
  {
    if exists j :: 0 <= j < |buses| && buses[j].id == 0 then None
    else
      ProductNonZero(buses);
      Some(SumTerms(Product(buses), buses, |buses|) % Product(buses))
  }

  lemma {:induction false} ProductNonZero(buses: seq<Bus>)
    requires forall j :: 0 <= j < |buses| ==> buses[j].id != 0
    ensures Product(buses) != 0
  {
    if buses != [] {
      ProductNonZero(buses[..|buses| - 1]);
    }
  }

  /** For positive ids, `prod / b` is the product of the other ids. */
  lemma QuotientIsOthers(buses: seq<Bus>, i: nat)
    requires i < |buses| && buses[i].id > 0 && Product(buses) >= 0
    ensures Arith.TruncDiv(Product(buses), buses[i].id) == Others(buses, i)
  {
    ProductSplit(buses, i);
    Arith.ExactQuotient(Product(buses), buses[i].id, Others(buses, i));
  }

  /** Each term but bus `i`'s is a multiple of bus `i`'s id. */
  lemma {:induction false} SumTermsSplit(buses: seq<Bus>, i: nat, n: nat) returns (k: int)
    requires n <= |buses| && i < |buses|
    requires forall j :: 0 <= j < |buses| ==> buses[j].id > 0
    ensures SumTerms(Product(buses), buses, n) == (if i < n then Term(Product(buses), buses[i]) else 0) + buses[i].id * k
  {
    if n == 0 {
      k := 0;
    } else {
      var k' := SumTermsSplit(buses, i, n - 1);
      if n - 1 == i {
        k := k';
      } else {
        var t := TermMultiple(buses, i, n - 1);
        k := k' + t;
        Arith.Distribute(buses[i].id, k', t);
      }
    }
  }

  /** The term of bus `j` is a multiple of every other id. */
  lemma TermMultiple(buses: seq<Bus>, i: nat, j: nat) returns (t: int)
    requires i < |buses| && j < |buses| && i != j
    requires forall k :: 0 <= k < |buses| ==> buses[k].id > 0
    ensures Term(Product(buses), buses[j]) == buses[i].id * t
  {
    ProductPositive(buses);
    QuotientIsOthers(buses, j);
    var c := OthersSplit(buses, i, j);
    var m := Others(buses, j);
    var inv := InvMod(m, buses[j].id);
    var a := -(buses[j].index as int);
    assert Term(Product(buses), buses[j]) == a * m * inv;
    t := a * c * inv;
    Rearrange(a, buses[i].id, c, inv);
  }

  lemma Rearrange(a: int, b: int, c: int, d: int)
    ensures a * (b * c) * d == b * (a * c * d)
  {
  }

  lemma {:induction false} ProductPositive(buses: seq<Bus>)
    requires forall j :: 0 <= j < |buses| ==> buses[j].id > 0
    ensures Product(buses) > 0
  {
    if buses != [] {
      ProductPositive(buses[..|buses| - 1]);
    }
  }

  /**
   * The timestamp of solution 2 does what the puzzle asks of it: for positive ids, and provided
   * `inv_mod` finds an inverse of each `prod / b` modulo `b` (which Fermat's little theorem gives
   * for distinct prime ids), bus `i` departs `index` minutes after it.
   */
  lemma Solution2Departs(buses: seq<Bus>, i: nat)
    requires i < |buses| && forall j :: 0 <= j < |buses| ==> buses[j].id > 0
    requires forall j :: 0 <= j < |buses| ==> (Others(buses, j) * InvMod(Others(buses, j), buses[j].id)) % buses[j].id == 1
    ensures Solution2(buses).Some? && (Solution2(buses).value + buses[i].index) % buses[i].id == 0
  {
    ProductPositive(buses);
    var p, b, a := Product(buses), buses[i].id, buses[i].index as int;
    var s := SumTerms(p, buses, |buses|);
    var k := SumTermsSplit(buses, i, |buses|);
    QuotientIsOthers(buses, i);
    var m := Others(buses, i);
    var inv := InvMod(m, b);
    assert Term(p, buses[i]) == -a * m * inv;
    var e := (m * inv) / b;
    ProductSplit(buses, i);
    var r, q := s % p, s / p;
    Arith.Split(s, p);
    Recombine(s, p, q, r, a, b, m, inv, e, k);
    Arith.MultipleMod(r + a, b, k - a * e - q * m);
    assert Solution2(buses) == Some(r);
  }

  /** The arithmetic of the last step: the terms of all other buses and the product vanish modulo `b`. */
  lemma Recombine(s: int, p: int, q: int, r: int, a: int, b: int, m: int, inv: int, e: int, k: int)
    requires b > 0 && e == (m * inv) / b && (m * inv) % b == 1
    requires s == -a * m * inv + b * k && p == b * m && s == q * p + r
    ensures r + a == b * (k - a * e - q * m)
  {
    assert m * inv == e * b + 1;
    assert -a * m * inv == -a * (m * inv);
    assert -a * (e * b + 1) == -a - b * (a * e);
    assert q * p == b * (q * m);
  }
}
