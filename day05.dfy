/** Day 5 (binary boarding): seat ids from binary space partitioning, and the one missing seat. */
module Day5 {
  import opened Wrappers

  function Pow2(n: nat): (p: nat)
    ensures p >= 1
  {
    if n == 0 then 1 else 2 * Pow2(n - 1)
  }

  /**
   * `binary_space_id` over the characters the iterator yields, decoded lazily: `lower` keeps the
   * lower half of `min ..= max` and `upper` the upper half. `None` where the Rust code panics:
   * the characters run out before the range is a single value (`unwrap`), or a character it
   * consumes is neither letter (`unreachable!`). Characters past that point are never looked at.
   */
  function BinarySpaceId(min: nat, max: nat, s: string, lower: char, upper: char): (r: Option<nat>)
    requires min <= max
    ensures r.Some? ==> min <= r.value <= max
    decreases |s|
  {
    if max == min then Some(max)
    else if s == [] then None
    else if s[0] == lower then BinarySpaceId(min, min + (max - min) / 2, s[1..], lower, upper)
    else if s[0] == upper then BinarySpaceId(min + (max - min) / 2 + 1, max, s[1..], lower, upper)
    else None
  }

  /** Every character is one of the two letters. */
  predicate Decodes(s: string, lower: char, upper: char) {
    forall i :: 0 <= i < |s| ==> s[i] == lower || s[i] == upper
  }

  /** The letters read as a binary number, most significant first, `upper` standing for 1. */
  function Binary(s: string, upper: char): (v: nat)
    ensures v < Pow2(|s|)
  {
    if s == [] then 0 else (if s[0] == upper then Pow2(|s| - 1) else 0) + Binary(s[1..], upper)
  }

  /**
   * On a range of `2^n` values starting at `lo`, the partition reads the first `n` letters as a
   * binary number; it fails iff fewer than `n` letters remain or one of them is not a letter.
   */
  lemma BinarySpaceIdIsBinary(lo: nat, n: nat, s: string, lower: char, upper: char)
    requires lower != upper
    ensures BinarySpaceId(lo, lo + Pow2(n) - 1, s, lower, upper) ==
      if |s| >= n && Decodes(s[..n], lower, upper) then Some(lo + Binary(s[..n], upper)) else None
  {
    SpaceIsPrefix(lo, n, s, lower, upper);
    PrefixIsBinary(lo, n, s, lower, upper);
  }

  /** `lo` plus the first `n` letters read one by one, `upper` adding `2^k` when `k` letters follow it. */
  function PrefixValue(lo: nat, n: nat, s: string, lower: char, upper: char): Option<nat>
    decreases n
  {
    if n == 0 then Some(lo)
    else if s == [] then None
    else if s[0] == lower then PrefixValue(lo, n - 1, s[1..], lower, upper)
    else if s[0] == upper then PrefixValue(lo + Pow2(n - 1), n - 1, s[1..], lower, upper)
    else None
  }

  /** The partition of `2^n` values consumes the letters as `PrefixValue` reads them. */
  lemma {:induction false} SpaceIsPrefix(lo: nat, n: nat, s: string, lower: char, upper: char)
    requires lower != upper
    ensures BinarySpaceId(lo, lo + Pow2(n) - 1, s, lower, upper) == PrefixValue(lo, n, s, lower, upper)
    decreases n
  {
    if n > 0 && s != [] {
      var half := Pow2(n - 1);
      SpaceStep(lo, n, s, lower, upper);
      if s[0] == lower {
        SpaceIsPrefix(lo, n - 1, s[1..], lower, upper);
      } else if s[0] == upper {
        SpaceIsPrefix(lo + half, n - 1, s[1..], lower, upper);
      }
    } else if n > 0 {
      assert Pow2(n) >= 2;
    }
  }

  /** One letter halves a range of `2^n` values: the lower half for `lower`, the upper for `upper`. */
  lemma SpaceStep(lo: nat, n: nat, s: string, lower: char, upper: char)
    requires 0 < n && s != [] && lower != upper
    ensures var half := Pow2(n - 1);
      BinarySpaceId(lo, lo + Pow2(n) - 1, s, lower, upper) ==
        if s[0] == lower then BinarySpaceId(lo, lo + half - 1, s[1..], lower, upper)
        else if s[0] == upper then BinarySpaceId(lo + half, lo + half + Pow2(n - 1) - 1, s[1..], lower, upper)
        else None
  {
    var half := Pow2(n - 1);
    assert (Pow2(n) - 1) / 2 == half - 1;
  }

  /** Read one by one, the first `n` letters are a binary number, provided there are `n` and all are letters. */
  lemma {:induction false} PrefixIsBinary(lo: nat, n: nat, s: string, lower: char, upper: char)
    requires lower != upper
    ensures PrefixValue(lo, n, s, lower, upper) ==
      if |s| >= n && Decodes(s[..n], lower, upper) then Some(lo + Binary(s[..n], upper)) else None
    decreases n
  {
    if n == 0 {
      assert s[..0] == [];
    } else if s != [] {
      PrefixIsBinary(if s[0] == upper then lo + Pow2(n - 1) else lo, n - 1, s[1..], lower, upper);
      if |s| >= n {
        assert s[..n][0] == s[0] && s[..n][1..] == s[1..][..n - 1];
        assert forall i :: 1 <= i < n ==> s[..n][i] == s[1..][..n - 1][i - 1];
      }
    }
  }

  /**
   * `boarding_pass_to_id`: the first seven letters (F lower, B upper) pick the row in 0 ..= 127,
   * the next three (L lower, R upper) the column in 0 ..= 7; the id is `row * 8 + column`.
   */
  function BoardingPassToId(pass: string): (r: Option<nat>)
    ensures r.Some? ==> r.value < 1024
  {
    var split := if |pass| < 7 then |pass| else 7;
    match BinarySpaceId(0, 127, pass[..split], 'F', 'B')
    case None => None
    case Some(row) =>
      match BinarySpaceId(0, 7, pass[split..], 'L', 'R')
      case None => None
      case Some(column) => Some(row * 8 + column)
  }

  /** A well-formed pass is the binary number of its ten letters, B and R standing for 1. */
  lemma BoardingPassIsBinary(pass: string)
    requires |pass| == 10 && Decodes(pass[..7], 'F', 'B') && Decodes(pass[7..], 'L', 'R')
    ensures BoardingPassToId(pass) == Some(Binary(pass[..7], 'B') * 8 + Binary(pass[7..], 'R'))
  {
    assert Pow2(7) == 128 && Pow2(3) == 8;
    BinarySpaceIdIsBinary(0, 7, pass[..7], 'F', 'B');
    BinarySpaceIdIsBinary(0, 3, pass[7..], 'L', 'R');
    assert pass[..7][..7] == pass[..7] && pass[7..][..3] == pass[7..];
  }

  /** The least and the greatest id, as `iter().min()` and `iter().max()` give them. */
  function Min(ids: seq<nat>): (m: nat)
    requires |ids| > 0
    ensures m in ids && forall i :: 0 <= i < |ids| ==> m <= ids[i]
  {
    if |ids| == 1 then ids[0]
    else
      var rest := Min(ids[1..]);
      assert forall i :: 1 <= i < |ids| ==> ids[i] == ids[1..][i - 1];
      if ids[0] <= rest then ids[0] else rest
  }

  function Max(ids: seq<nat>): (m: nat)
    requires |ids| > 0
    ensures m in ids && forall i :: 0 <= i < |ids| ==> ids[i] <= m
  {
    if |ids| == 1 then ids[0]
    else
      var rest := Max(ids[1..]);
      assert forall i :: 1 <= i < |ids| ==> ids[i] == ids[1..][i - 1];
      if ids[0] >= rest then ids[0] else rest
  }

  /** `v` is the only id between the least and the greatest one that nobody holds. */
  ghost predicate IsOnlyGap(ids: seq<nat>, v: nat)
    requires |ids| > 0
  {
    Min(ids) <= v <= Max(ids) && v !in ids &&
    forall w: nat :: Min(ids) <= w <= Max(ids) && w !in ids ==> w == v
  }

  /**
   * The missing-seat scan of `main`: mark every id in a table covering `min ..= max`, then take
   * the first unmarked entry and assert that there is no second one. `None` where the Rust code
   * panics: no ids, no gap, or more than one gap.
   */
  method FindMissingSeat(ids: seq<nat>) returns (r: Option<nat>)
    ensures r.Some? <==> |ids| > 0 && exists v :: IsOnlyGap(ids, v)
    ensures r.Some? ==> IsOnlyGap(ids, r.value)
  {
    if |ids| == 0 {
      return None;
    }
    var min, max := Min(ids), Max(ids);
    var entryExists := MarkTaken(ids, min, max);
    var gap := SingleGap(entryExists);
    if gap.None? {
      if forall j :: 0 <= j < entryExists.Length ==> entryExists[j] {
        forall w: nat | min <= w <= max
          ensures w in ids
        {
          assert entryExists[w - min];
        }
      } else {
        var j1, j2 :| 0 <= j1 < j2 < entryExists.Length && !entryExists[j1] && !entryExists[j2];
        assert !IsOnlyGap(ids, min + j1) && !IsOnlyGap(ids, min + j2);
        forall v: nat | IsOnlyGap(ids, v)
          ensures false
        {
        }
      }
      return None;
    }
    r := Some(gap.value + min);
    forall w: nat | min <= w <= max && w !in ids
      ensures w == r.value
    {
      assert !entryExists[w - min];
    }
    assert IsOnlyGap(ids, r.value);
  }

  /** The table of `main`: entry `k` is set exactly when `min + k` is an id. */
  method MarkTaken(ids: seq<nat>, min: nat, max: nat) returns (entryExists: array<bool>)
    requires min <= max && forall i :: 0 <= i < |ids| ==> min <= ids[i] <= max
    ensures entryExists.Length == max - min + 1
    ensures forall k :: 0 <= k < entryExists.Length ==> (entryExists[k] <==> min + k in ids)
  {
    entryExists := new bool[max - min + 1](_ => false);
    for i := 0 to |ids|
      invariant forall k :: 0 <= k < entryExists.Length ==> (entryExists[k] <==> exists j :: 0 <= j < i && ids[j] == min + k)
    {
      var slot := ids[i] - min;
      entryExists[slot] := true;
    }
  }

  /**
   * The first unset entry, provided it is the only one (`enumerate().filter(..)` taken twice);
   * `None` when no entry or more than one is unset.
   */
  method SingleGap(e: array<bool>) returns (r: Option<nat>)
    ensures r.Some? ==> r.value < e.Length && !e[r.value] && forall j :: 0 <= j < e.Length && j != r.value ==> e[j]
    ensures r.None? ==>
      ((forall j :: 0 <= j < e.Length ==> e[j]) || exists j1, j2 :: 0 <= j1 < j2 < e.Length && !e[j1] && !e[j2])
  {
    var first: Option<nat> := None;
    var k := 0;
    while k < e.Length
      invariant 0 <= k <= e.Length
      invariant first.None? ==> forall j :: 0 <= j < k ==> e[j]
      invariant first.Some? ==> first.value < k && !e[first.value]
      invariant first.Some? ==> forall j :: 0 <= j < k && j != first.value ==> e[j]
    {
      if !e[k] {
        if first.Some? {
          return None;
        }
        first := Some(k);
      }
      k := k + 1;
    }
    return first;
  }
}
