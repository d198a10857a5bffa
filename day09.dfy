/** Day 9 (encoding error): the first number that is no sum of two of its predecessors, and the range summing to it. */
module Day9 {
  import opened Wrappers
  import Day5

  /** Some two of the `preamble` numbers before position `i`, possibly the same one twice, sum to `numbers[i]`. */
  ghost predicate IsValid(numbers: seq<nat>, preamble: nat, i: nat)
    requires preamble <= i < |numbers|
  {
    exists a, b :: i - preamble <= a <= b < i && numbers[a] + numbers[b] == numbers[i]
  }

  /** The nested `a`/`b` loops of `part1` for one position, stopping at the first pair that fits. */
  method HasPairSum(numbers: seq<nat>, preamble: nat, i: nat) returns (found: bool)
    requires preamble <= i < |numbers|
    ensures found <==> IsValid(numbers, preamble, i)
  {
    found := false;
    for a := i - preamble to i
      invariant !found
      invariant forall x, y :: i - preamble <= x < a && x <= y < i ==> numbers[x] + numbers[y] != numbers[i]
    {
      for b := a to i
        invariant !found
        invariant forall y :: a <= y < b ==> numbers[a] + numbers[y] != numbers[i]
      {
        if numbers[a] + numbers[b] == numbers[i] {
          found := true;
          break;
        }
      }
      if found {
        break;
      }
    }
  }

  /**
   * `part1`: the number at the first position from `preamble` on that is not valid; `None` where
   * the Rust code reaches `unreachable!` because every number is valid.
   */
  method Part1(numbers: seq<nat>, preamble: nat) returns (r: Option<nat>)
    ensures r.None? <==> forall j :: preamble <= j < |numbers| ==> IsValid(numbers, preamble, j)
    ensures r.Some? ==> exists j :: (preamble <= j < |numbers| && r.value == numbers[j] &&
      !IsValid(numbers, preamble, j) && forall j' :: preamble <= j' < j ==> IsValid(numbers, preamble, j'))
  {
    var i := preamble;
    while i < |numbers|
      invariant preamble <= i
      invariant forall j :: preamble <= j < i && j < |numbers| ==> IsValid(numbers, preamble, j)
    {
      var found := HasPairSum(numbers, preamble, i);
      if !found {
        return Some(numbers[i]);
      }
      i := i + 1;
    }
    return None;
  }

  function Sum(s: seq<nat>): nat {
    if s == [] then 0 else Sum(s[..|s| - 1]) + s[|s| - 1]
  }

  /** The sum of `numbers[start ..= end]`. */
  function RangeSum(numbers: seq<nat>, start: nat, end: nat): nat
    requires start <= end < |numbers|
  {
    Sum(numbers[start..end + 1])
  }

  /** Scanning from `start`, the running sum passes `target` without meeting it. */
  ghost predicate Overshoots(numbers: seq<nat>, start: nat, target: nat)
    requires start < |numbers|
  {
    exists e :: (start < e < |numbers| && RangeSum(numbers, start, e) > target &&
      forall e' :: start < e' < e ==> RangeSum(numbers, start, e') < target)
  }

  /** Scanning from `start`, the running sum stays below `target` up to the last number. */
  ghost predicate RunsOut(numbers: seq<nat>, start: nat, target: nat)
    requires start < |numbers|
  {
    forall e :: start < e < |numbers| ==> RangeSum(numbers, start, e) < target
  }

  /** Every scan from a start before `start` overshoots. */
  ghost predicate OvershootBefore(numbers: seq<nat>, start: nat, target: nat)
    requires start <= |numbers|
  {
    forall s :: 0 <= s < start ==> Overshoots(numbers, s, target)
  }

  /** How the scan from one start ends. */
  datatype Scan = Hit(end: nat) | Over | RanOut

  /**
   * The inner `loop` of part 2: starting from `numbers[start]`, add the next number until the
   * running sum equals `target` (`Hit`) or exceeds it (`Over`). `RanOut` where the Rust code
   * indexes past the end of the numbers and panics.
   */
  method ScanFrom(numbers: seq<nat>, start: nat, target: nat) returns (r: Scan)
    requires start < |numbers|
    ensures r.Hit? ==> start < r.end < |numbers| && RangeSum(numbers, start, r.end) == target
    ensures r.Hit? ==> forall e :: start < e < r.end ==> RangeSum(numbers, start, e) < target
    ensures r.Over? <==> Overshoots(numbers, start, target)
    ensures r.RanOut? ==> RunsOut(numbers, start, target)
  {
    var acc := numbers[start];
    var end := start + 1;
    assert numbers[start..start + 1] == [numbers[start]] && [numbers[start]][..0] == [];
    while true
      invariant start < end <= |numbers| && acc == Sum(numbers[start..end])
      invariant forall e :: start < e < end && e < |numbers| ==> RangeSum(numbers, start, e) < target
      decreases |numbers| - end
    {
      if end >= |numbers| {
        return RanOut;
      }
      assert numbers[start..end + 1][..end - start] == numbers[start..end];
      acc := acc + numbers[end];
      if acc == target {
        r := Hit(end);
        NoOvershoot(numbers, start, target, end);
        return;
      }
      if acc > target {
        assert RangeSum(numbers, start, end) > target;
        return Over;
      }
      end := end + 1;
    }
  }

  /** A scan that meets `target` at `end` never overshoots. */
  lemma NoOvershoot(numbers: seq<nat>, start: nat, target: nat, end: nat)
    requires start < end < |numbers| && RangeSum(numbers, start, end) == target
    requires forall e :: start < e < end ==> RangeSum(numbers, start, e) < target
    ensures !Overshoots(numbers, start, target)
  {
  }

  /** The outcome of the part-2 search. */
  datatype Search = Found(start: nat, end: nat) | Panic | Empty

  /**
   * The part-2 search of `main`: the scan from each start in turn, stopping at the first hit.
   * Every start before the hit overshoots; `Panic` at the first scan that runs out of numbers,
   * which the last start always does; `Empty` for no numbers.
   */
  method FindRange(numbers: seq<nat>, target: nat) returns (r: Search)
    ensures r.Empty? <==> |numbers| == 0
    ensures r.Found? ==> r.start < r.end < |numbers| && RangeSum(numbers, r.start, r.end) == target
    ensures r.Found? ==> forall e :: r.start < e < r.end ==> RangeSum(numbers, r.start, e) < target
    ensures r.Found? ==> OvershootBefore(numbers, r.start, target)
    ensures r.Panic? ==> exists s :: 0 <= s < |numbers| && RunsOut(numbers, s, target) && OvershootBefore(numbers, s, target)
  {
    if |numbers| == 0 {
      return Empty;
    }
    var start := 0;
    while true
      invariant start < |numbers|
      invariant OvershootBefore(numbers, start, target)
      decreases |numbers| - start
    {
      var scan := ScanFrom(numbers, start, target);
      match scan
      case Hit(end) =>
        return Found(start, end);
      case RanOut =>
        return Panic;
      case Over =>
        start := start + 1;
    }
  }

  /** Solution 2: the least plus the greatest number of the range. */
  function Weakness(range: seq<nat>): (w: nat)
    requires |range| > 0
    ensures exists lo, hi :: (lo in range && hi in range && w == lo + hi &&
      forall k :: 0 <= k < |range| ==> lo <= range[k] <= hi)
  {
    Day5.Min(range) + Day5.Max(range)
  }
}
