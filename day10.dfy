/** Day 10 (adapter array): the joltage gaps of the sorted adapter chain and the number of arrangements. */
module Day10 {
  import opened Wrappers

  ghost predicate Sorted(s: seq<nat>) {
    forall p, q :: 0 <= p < q < |s| ==> s[p] <= s[q]
  }

  /** `sort_unstable`, as an insertion sort in place: the result is sorted and a permutation of the input. */
  method Sort(a: array<nat>)
    modifies a
    ensures Sorted(a[..]) && multiset(a[..]) == multiset(old(a[..]))
  {
    for i := 0 to a.Length
      invariant SortedBelow(a, i) && multiset(a[..]) == multiset(old(a[..]))
    {
      Insert(a, i);
    }
    assert a[..] == a[..a.Length];
  }

  ghost predicate SortedBelow(a: array<nat>, n: nat)
    reads a
  {
    forall p, q :: 0 <= p < q < n && q < a.Length ==> a[p] <= a[q]
  }

  /** One pass of the insertion sort: sink `a[i]` into the sorted prefix before it. */
  method Insert(a: array<nat>, i: nat)
    requires i < a.Length && SortedBelow(a, i)
    modifies a
    ensures SortedBelow(a, i + 1) && multiset(a[..]) == multiset(old(a[..]))
  {
    var j := i;
    while j > 0 && a[j - 1] > a[j]
      invariant 0 <= j <= i && multiset(a[..]) == multiset(old(a[..]))
      invariant forall p, q :: 0 <= p < q <= i && q != j ==> a[p] <= a[q]
      invariant 0 < j < i ==> a[j - 1] <= a[j + 1]
    {
      Swap(a, j);
      j := j - 1;
    }
  }

  /** Exchange two neighbours. */
  method Swap(a: array<nat>, j: nat)
    requires 0 < j < a.Length
    modifies a
    ensures a[j - 1] == old(a[j]) && a[j] == old(a[j - 1])
    ensures forall k :: 0 <= k < a.Length && k != j && k != j - 1 ==> a[k] == old(a[k])
    ensures multiset(a[..]) == multiset(old(a[..]))
  {
    a[j - 1], a[j] := a[j], a[j - 1];
  }

  // ---- Part 1: the joltage gaps ----

  /** The gap from the previous adapter, or from the outlet's 0 for the first one. */
  function Gap(numbers: seq<nat>, k: nat): int
    requires k < |numbers|
  {
    numbers[k] as int - if k == 0 then 0 else numbers[k - 1]
  }

  /** Every gap of the first `n` adapters is 1, 2 or 3. */
  ghost predicate GapsFit(numbers: seq<nat>, n: nat)
    requires n <= |numbers|
  {
    forall k :: 0 <= k < n ==> 1 <= Gap(numbers, k) <= 3
  }

  /** How many of the first `n` gaps are `d`. */
  function GapCount(numbers: seq<nat>, n: nat, d: int): nat
    requires n <= |numbers|
  {
    if n == 0 then 0 else GapCount(numbers, n - 1, d) + if Gap(numbers, n - 1) == d then 1 else 0
  }

  lemma {:induction false} GapCountsSum(numbers: seq<nat>, n: nat)
    requires n <= |numbers| && GapsFit(numbers, n)
    ensures GapCount(numbers, n, 1) + GapCount(numbers, n, 2) + GapCount(numbers, n, 3) == n
  {
    if n > 0 {
      GapCountsSum(numbers, n - 1);
    }
  }

  /**
   * The `number_of_jumps` loop: counts of the gaps 1, 2 and 3, starting from `[0, 0, 1]` for the
   * device's own gap of 3. `None` where the Rust code panics: a gap of 0 or a negative one
   * underflows the `usize` subtraction, one above 3 indexes past the array.
   */
  method CountJumps(numbers: seq<nat>) returns (r: Option<seq<nat>>)
    ensures r.Some? <==> GapsFit(numbers, |numbers|)
    ensures r.Some? ==> (|r.value| == 3 && r.value[0] == GapCount(numbers, |numbers|, 1) &&
      r.value[1] == GapCount(numbers, |numbers|, 2) && r.value[2] == GapCount(numbers, |numbers|, 3) + 1)
    ensures r.Some? ==> r.value[0] + r.value[1] + r.value[2] == |numbers| + 1
  {
    var jumps := new nat[3](d => if d == 2 then 1 else 0);
    var jolts := 0;
    for i := 0 to |numbers|
      invariant jolts == if i == 0 then 0 else numbers[i - 1]
      invariant GapsFit(numbers, i)
      invariant jumps[0] == GapCount(numbers, i, 1) && jumps[1] == GapCount(numbers, i, 2)
      invariant jumps[2] == GapCount(numbers, i, 3) + 1
    {
      var rating := numbers[i];
      if rating <= jolts || rating - jolts > 3 {
        assert !(1 <= Gap(numbers, i) <= 3);
        return None;
      }
      jumps[rating - jolts - 1] := jumps[rating - jolts - 1] + 1;
      jolts := rating;
    }
    GapCountsSum(numbers, |numbers|);
    return Some(jumps[..]);
  }

  // ---- Part 2: the number of arrangements ----

  /**
   * The ways to reach adapter `k` of the chain: 1 for the outlet, otherwise the sum of the ways
   * to reach each of the (at most three) adapters right before it that are within 3 jolts.
   */
  ghost function Ways(chain: seq<nat>, k: nat): nat
    requires k < |chain|
    decreases k, 1
  {
    if k == 0 then 1 else Partial(chain, k, k)
  }

  /** The share of `Ways(chain, k)` that comes from the predecessors below `n`. */
  ghost function Partial(chain: seq<nat>, k: nat, n: nat): nat
    requires n <= k < |chain|
    decreases k, 0, n
  {
    if n == 0 then 0
    else Partial(chain, k, n - 1) + if k - (n - 1) <= 3 && chain[k] as int - chain[n - 1] <= 3 then Ways(chain, n - 1) else 0
  }

  /** When no two neighbours of the chain are more than 3 jolts apart, every adapter can be reached. */
  lemma {:induction false} WaysPositive(chain: seq<nat>, k: nat)
    requires k < |chain| && Sorted(chain)
    requires forall p :: 0 < p < |chain| ==> chain[p] - chain[p - 1] <= 3
    ensures Ways(chain, k) >= 1
  {
    if k > 0 {
      WaysPositive(chain, k - 1);
      assert Partial(chain, k, k) >= Ways(chain, k - 1);
    }
  }

  /** What the push loop holds for adapter `k` once the adapters below `n` have pushed their ways. */
  ghost function Pushed(chain: seq<nat>, k: nat, n: nat): nat
    requires k < |chain|
  {
    (if k == 0 then 1 else 0) + Partial(chain, k, if n < k then n else k)
  }

  /** Adapter `i` pushing its ways to adapter `k` further on. */
  lemma PushStep(chain: seq<nat>, k: nat, i: nat)
    requires i < k < |chain|
    ensures Pushed(chain, k, i + 1) ==
      Pushed(chain, k, i) + if k - i <= 3 && chain[k] as int - chain[i] <= 3 then Ways(chain, i) else 0
  {
  }

  /**
   * `ways_to_get_there`: the outlet's 0 is put in front of the sorted adapters, and each adapter
   * pushes its count forward to the next (at most three) adapters within 3 jolts, stopping at the
   * first one that is further. Every entry is the number of ways to reach that adapter.
   */
  method CountArrangements(numbers: seq<nat>) returns (r: seq<nat>)
    requires Sorted(numbers)
    ensures |r| == |numbers| + 1
    ensures forall k :: 0 <= k < |r| ==> r[k] == Ways([0] + numbers, k)
  {
    var chain := [0] + numbers;
    assert Sorted(chain);
    var ways := new nat[|chain|](_ => 0);
    ways[0] := 1;
    for i := 0 to |chain|
      invariant forall k :: 0 <= k < |chain| ==> ways[k] == Pushed(chain, k, i)
    {
      PushFrom(chain, ways, i);
    }
    r := ways[..];
  }

  /** The inner loop for adapter `i`: push its ways to the following adapters within reach. */
  method PushFrom(chain: seq<nat>, ways: array<nat>, i: nat)
    requires Sorted(chain) && i < |chain| == ways.Length
    requires forall k :: 0 <= k < |chain| ==> ways[k] == Pushed(chain, k, i)
    modifies ways
    ensures forall k :: 0 <= k < |chain| ==> ways[k] == Pushed(chain, k, i + 1)
  {
    var here := ways[i];
    assert here == Ways(chain, i);
    var j := 1;
    while j <= 3
      invariant 1 <= j <= 4
      invariant forall k :: 0 <= k < |chain| ==> ways[k] == Pushed(chain, k, if i < k < i + j then i + 1 else i)
    {
      if i + j >= |chain| || chain[i + j] - chain[i] > 3 {
        break;
      }
      PushStep(chain, i + j, i);
      ways[i + j] := ways[i + j] + here;
      j := j + 1;
    }
    forall k | i + j <= k < |chain|
      ensures Pushed(chain, k, i + 1) == Pushed(chain, k, i)
    {
      assert k - i > 3 || chain[k] - chain[i] > 3;
    }
  }
}
