/**
 * Day 1 (expense report): find `count` entries, at strictly increasing
 * positions, that sum to 2020, and return their product.
 */
module Day1 {
  import opened Wrappers

  /** `solve_n(input, count, sum)`: the first combination found by a depth-first search in index order. */
  function SolveN(input: seq<int>, count: int, sum: int): (r: Option<int>)
    ensures r.Some? ==> 1 <= count <= |input|
    decreases |input|, 1
  {
    if count == 1 then
      if sum in input then Some(sum) else None
    else
      SolveFrom(input, 0, count, sum)
  }

  /** The `for i in 0..input.len()` loop of `solve_n`, resumed at index `i`. */
  function SolveFrom(input: seq<int>, i: nat, count: int, sum: int): (r: Option<int>)
    requires i <= |input|
    ensures r.Some? ==> 2 <= count <= |input| - i
    decreases |input|, 0, |input| - i
  {
    if i == |input| then None
    else
      match SolveN(input[i + 1..], count - 1, sum - input[i])
      case Some(b) => Some(input[i] * b)
      case None => SolveFrom(input, i + 1, count, sum)
  }

  /** `solve`: the puzzle asks for the combination summing to 2020. */
  function Solve(input: seq<int>, count: int): Option<int> {
    SolveN(input, count, 2020)
  }

  // ---- Specification: a combination of entries ----

  ghost predicate Increasing(idx: seq<nat>) {
    forall a, b :: 0 <= a < b < |idx| ==> idx[a] < idx[b]
  }

  ghost predicate InRange(idx: seq<nat>, n: nat) {
    forall k :: 0 <= k < |idx| ==> idx[k] < n
  }

  function SumAt(input: seq<int>, idx: seq<nat>): int
    requires InRange(idx, |input|)
  {
    if idx == [] then 0 else input[idx[0]] + SumAt(input, idx[1..])
  }

  function ProductAt(input: seq<int>, idx: seq<nat>): int
    requires InRange(idx, |input|)
  {
    if idx == [] then 1 else input[idx[0]] * ProductAt(input, idx[1..])
  }

  /** `idx` picks `count` entries at strictly increasing positions whose sum is `sum`. */
  ghost predicate IsCombination(input: seq<int>, idx: seq<nat>, count: int, sum: int) {
    |idx| == count && Increasing(idx) && InRange(idx, |input|) && SumAt(input, idx) == sum
  }

  function Shift(idx: seq<nat>, k: nat): (r: seq<nat>)
    ensures |r| == |idx| && forall j :: 0 <= j < |idx| ==> r[j] == idx[j] + k
  {
    seq(|idx|, j requires 0 <= j < |idx| => idx[j] + k)
  }

  function Unshift(idx: seq<nat>, k: nat): (r: seq<nat>)
    requires forall j :: 0 <= j < |idx| ==> idx[j] >= k
    ensures |r| == |idx| && forall j :: 0 <= j < |idx| ==> r[j] == idx[j] - k
  {
    seq(|idx|, j requires 0 <= j < |idx| => idx[j] - k)
  }

  lemma {:induction false} ShiftSumProduct(input: seq<int>, i: nat, idx: seq<nat>)
    requires i < |input| && InRange(idx, |input| - i - 1)
    ensures InRange(Shift(idx, i + 1), |input|)
    ensures SumAt(input, Shift(idx, i + 1)) == SumAt(input[i + 1..], idx)
    ensures ProductAt(input, Shift(idx, i + 1)) == ProductAt(input[i + 1..], idx)
  {
    if idx != [] {
      ShiftSumProduct(input, i, idx[1..]);
      assert Shift(idx, i + 1)[1..] == Shift(idx[1..], i + 1);
    }
  }

  /** Every `Some(r)` is the product of a combination of `count` entries summing to `sum`. */
  lemma {:induction false} SolveNSound(input: seq<int>, count: int, sum: int, r: int)
    requires SolveN(input, count, sum) == Some(r)
    ensures exists idx :: IsCombination(input, idx, count, sum) && ProductAt(input, idx) == r
    decreases |input|, 1
  {
    if count == 1 {
      var j :| 0 <= j < |input| && input[j] == sum;
      var idx: seq<nat> := [j];
      assert idx[1..] == [] && InRange(idx, |input|);
      assert SumAt(input, idx) == input[j] + SumAt(input, []) == sum;
      assert ProductAt(input, idx) == input[j] * ProductAt(input, []) == sum;
      assert r == sum;
      assert IsCombination(input, idx, count, sum);
    } else {
      SolveFromSound(input, 0, count, sum, r);
    }
  }

  lemma {:induction false} SolveFromSound(input: seq<int>, i: nat, count: int, sum: int, r: int)
    requires i <= |input| && SolveFrom(input, i, count, sum) == Some(r)
    ensures exists idx :: IsCombination(input, idx, count, sum) && ProductAt(input, idx) == r
    decreases |input|, 0, |input| - i
  {
    var sub := SolveN(input[i + 1..], count - 1, sum - input[i]);
    if sub.Some? {
      SolveNSound(input[i + 1..], count - 1, sum - input[i], sub.value);
      var idx' :| IsCombination(input[i + 1..], idx', count - 1, sum - input[i])
                  && ProductAt(input[i + 1..], idx') == sub.value;
      ShiftSumProduct(input, i, idx');
      var idx := [i] + Shift(idx', i + 1);
      assert idx[1..] == Shift(idx', i + 1);
      assert IsCombination(input, idx, count, sum) && ProductAt(input, idx) == r;
    } else {
      SolveFromSound(input, i + 1, count, sum, r);
    }
  }

  /** `None` is returned only when no combination of `count >= 1` entries sums to `sum`. */
  lemma {:induction false} SolveNComplete(input: seq<int>, count: int, sum: int, idx: seq<nat>)
    requires count >= 1 && IsCombination(input, idx, count, sum)
    ensures SolveN(input, count, sum).Some?
    decreases |input|
  {
    if count == 1 {
      assert |idx| == 1 && SumAt(input, idx[1..]) == 0;
      assert input[idx[0]] == SumAt(input, idx) == sum;
    } else {
      var j := idx[0];
      var rest := Unshift(idx[1..], j + 1);
      assert Shift(rest, j + 1) == idx[1..];
      ShiftSumProduct(input, j, rest);
      assert IsCombination(input[j + 1..], rest, count - 1, sum - input[j]);
      SolveNComplete(input[j + 1..], count - 1, sum - input[j], rest);
      SolveFromReaches(input, 0, count, sum, j);
    }
  }

  lemma {:induction false} SolveFromReaches(input: seq<int>, i: nat, count: int, sum: int, j: nat)
    requires i <= j < |input| && SolveN(input[j + 1..], count - 1, sum - input[j]).Some?
    ensures SolveFrom(input, i, count, sum).Some?
    decreases j - i
  {
    if SolveN(input[i + 1..], count - 1, sum - input[i]).None? {
      SolveFromReaches(input, i + 1, count, sum, j);
    }
  }

  // ---- Which combination is found ----

  /** Lexicographic order on index tuples: `a` comes before `b`. */
  ghost predicate LexLess(a: seq<nat>, b: seq<nat>)
    decreases |a|
  {
    a != [] && b != [] && (a[0] < b[0] || (a[0] == b[0] && LexLess(a[1..], b[1..])))
  }

  /** `idx` is a combination and no combination comes before it. */
  ghost predicate LeastCombination(input: seq<int>, idx: seq<nat>, count: int, sum: int) {
    IsCombination(input, idx, count, sum) &&
    forall other :: IsCombination(input, other, count, sum) ==> !LexLess(other, idx)
  }

  /** No combination starts before index `i`. */
  ghost predicate NoneBefore(input: seq<int>, i: nat, count: int, sum: int) {
    forall other :: IsCombination(input, other, count, sum) && other != [] ==> other[0] >= i
  }

  /** The position of the first occurrence of `x`. */
  function FirstIndex(s: seq<int>, x: int): (j: nat)
    requires x in s
    ensures j < |s| && s[j] == x && forall k :: 0 <= k < j ==> s[k] != x
  {
    if s[0] == x then 0 else 1 + FirstIndex(s[1..], x)
  }

  /** Shifting both tuples by the same amount keeps their order. */
  lemma {:induction false} ShiftLex(a: seq<nat>, b: seq<nat>, k: nat)
    requires LexLess(Shift(a, k), Shift(b, k))
    ensures LexLess(a, b)
    decreases |a|
  {
    if Shift(a, k)[0] == Shift(b, k)[0] && LexLess(Shift(a, k)[1..], Shift(b, k)[1..]) {
      assert Shift(a, k)[1..] == Shift(a[1..], k);
      assert Shift(b, k)[1..] == Shift(b[1..], k);
      ShiftLex(a[1..], b[1..], k);
    }
  }

  /** A combination of two or more entries is its first index followed by a combination of the rest. */
  lemma Tail(input: seq<int>, idx: seq<nat>, count: int, sum: int)
    requires count >= 2 && IsCombination(input, idx, count, sum)
    ensures idx[0] < |input| && forall j :: 1 <= j < |idx| ==> idx[j] >= idx[0] + 1
    ensures var rest := Unshift(idx[1..], idx[0] + 1);
      idx == [idx[0]] + Shift(rest, idx[0] + 1) &&
      IsCombination(input[idx[0] + 1..], rest, count - 1, sum - input[idx[0]]) &&
      ProductAt(input, idx) == input[idx[0]] * ProductAt(input[idx[0] + 1..], rest)
  {
    var j := idx[0];
    var rest := Unshift(idx[1..], j + 1);
    assert Shift(rest, j + 1) == idx[1..];
    ShiftSumProduct(input, j, rest);
  }

  /** The combination `solve_n` builds from index `i` and a combination of the entries after it. */
  lemma Cons(input: seq<int>, i: nat, rest: seq<nat>, count: int, sum: int)
    requires i < |input| && IsCombination(input[i + 1..], rest, count - 1, sum - input[i])
    ensures var idx := [i] + Shift(rest, i + 1);
      idx[1..] == Shift(rest, i + 1) &&
      IsCombination(input, idx, count, sum) && ProductAt(input, idx) == input[i] * ProductAt(input[i + 1..], rest)
  {
    ShiftSumProduct(input, i, rest);
    var idx := [i] + Shift(rest, i + 1);
    assert idx[1..] == Shift(rest, i + 1);
  }

  /**
   * `solve_n` returns the product of the lexicographically least combination: the search tries
   * the first index in increasing order and recurses on the entries after it.
   */
  lemma {:induction false} SolveNLeast(input: seq<int>, count: int, sum: int, r: int)
    requires SolveN(input, count, sum) == Some(r)
    ensures exists idx :: LeastCombination(input, idx, count, sum) && ProductAt(input, idx) == r
    decreases |input|, 1
  {
    if count == 1 {
      var j := FirstIndex(input, sum);
      var idx: seq<nat> := [j];
      assert idx[1..] == [] && InRange(idx, |input|);
      assert SumAt(input, idx) == input[j] + SumAt(input, []) == sum;
      assert ProductAt(input, idx) == input[j] * ProductAt(input, []) == r;
      forall other | IsCombination(input, other, count, sum)
        ensures !LexLess(other, idx)
      {
        assert SumAt(input, other) == input[other[0]] + SumAt(input, other[1..]);
        assert other[1..] == [];
      }
      assert LeastCombination(input, idx, count, sum);
    } else {
      SolveFromLeast(input, 0, count, sum, r);
    }
  }

  lemma {:induction false} SolveFromLeast(input: seq<int>, i: nat, count: int, sum: int, r: int)
    requires i <= |input| && SolveFrom(input, i, count, sum) == Some(r) && NoneBefore(input, i, count, sum)
    ensures exists idx :: LeastCombination(input, idx, count, sum) && ProductAt(input, idx) == r
    decreases |input|, 0, |input| - i
  {
    var sub := SolveN(input[i + 1..], count - 1, sum - input[i]);
    if sub.Some? {
      SolveNLeast(input[i + 1..], count - 1, sum - input[i], sub.value);
      var rest :| LeastCombination(input[i + 1..], rest, count - 1, sum - input[i])
                  && ProductAt(input[i + 1..], rest) == sub.value;
      Cons(input, i, rest, count, sum);
      FoundLeast(input, i, rest, count, sum);
    } else {
      SkipIndex(input, i, count, sum);
      SolveFromLeast(input, i + 1, count, sum, r);
    }
  }

  /** With no combination starting earlier, index `i` and the least combination after it come first. */
  lemma FoundLeast(input: seq<int>, i: nat, rest: seq<nat>, count: int, sum: int)
    requires count >= 2 && i < |input| && NoneBefore(input, i, count, sum)
    requires LeastCombination(input[i + 1..], rest, count - 1, sum - input[i])
    ensures LeastCombination(input, [i] + Shift(rest, i + 1), count, sum)
  {
    Cons(input, i, rest, count, sum);
    var idx := [i] + Shift(rest, i + 1);
    forall other | IsCombination(input, other, count, sum)
      ensures !LexLess(other, idx)
    {
      if LexLess(other, idx) {
        Tail(input, other, count, sum);
        var rest' := Unshift(other[1..], other[0] + 1);
        assert other[1..] == Shift(rest', i + 1);
        ShiftLex(rest', rest, i + 1);
        assert false;
      }
    }
  }

  /** When the search after index `i` fails, no combination starts at `i` either. */
  lemma SkipIndex(input: seq<int>, i: nat, count: int, sum: int)
    requires count >= 2 && i < |input| && NoneBefore(input, i, count, sum)
    requires SolveN(input[i + 1..], count - 1, sum - input[i]).None?
    ensures NoneBefore(input, i + 1, count, sum)
  {
    forall other | IsCombination(input, other, count, sum) && other != []
      ensures other[0] >= i + 1
    {
      if other[0] == i {
        Tail(input, other, count, sum);
        SolveNComplete(input[i + 1..], count - 1, sum - input[i], Unshift(other[1..], i + 1));
      }
    }
  }

  /** `solve_n(input, 1, s)` is `Some(s)` exactly when `s` is an entry. */
  lemma SingleEntry(input: seq<int>, s: int)
    ensures SolveN(input, 1, s) == (if s in input then Some(s) else None)
  {
  }

  // ---- The examples of the test module ----

  const Example: seq<int> := [1721, 979, 366, 299, 675, 1456]

  lemma ExamplePairs()
    ensures Solve(Example, 2) == Some(514579)
  {
    assert 299 in Example[1..];
    assert SolveN(Example[1..], 1, 2020 - 1721) == Some(299);
  }

  lemma ExampleTriples()
    ensures Solve(Example, 3) == Some(241861950)
  {
    var tail := Example[1..];
    assert SolveFrom(tail, 5, 2, 299) == None;
    assert SolveFrom(tail, 4, 2, 299) == None;
    assert SolveFrom(tail, 3, 2, 299) == None;
    assert SolveFrom(tail, 2, 2, 299) == None;
    assert SolveFrom(tail, 1, 2, 299) == None;
    assert SolveFrom(tail, 0, 2, 299) == None;
    assert SolveN(tail, 2, 299) == None;
    var tail2 := Example[2..];
    assert 675 in tail2[1..];
    assert SolveN(tail2[1..], 1, 1041 - 366) == Some(675);
    assert SolveN(tail2, 2, 1041) == Some(366 * 675);
  }
}
