/** Small facts about Euclidean division that the day modules share. */
module Arith {

  /** Division and remainder are determined by `n == q * w + r` with `0 <= r < w`. */
  lemma DivModUnique(n: int, w: int, q: int, r: int)
    requires w > 0 && n == q * w + r && 0 <= r < w
    ensures n / w == q && n % w == r
  {
    var q0, r0 := n / w, n % w;
    assert n == q0 * w + r0;
    assert (q - q0) * w == r0 - r by {
      assert (q - q0) * w == q * w - q0 * w;
    }
    if q > q0 {
      MulMonotone(1, q - q0, w);
    } else if q < q0 {
      MulMonotone(1, q0 - q, w);
    }
  }

  lemma MulMonotone(a: int, b: int, w: int)
    requires 0 <= a <= b && w >= 0
    ensures a * w <= b * w
  {
    assert b * w == a * w + (b - a) * w;
  }

  /** Adding to a remainder: `(a mod w + d) mod w == (a + d) mod w`. */
  lemma ModAdd(a: int, d: int, w: int)
    requires w > 0
    ensures (a % w + d) % w == (a + d) % w
  {
    var b := a % w + d;
    var qa, qb := a / w, b / w;
    assert a == qa * w + a % w;
    assert b == qb * w + b % w;
    assert a + d == (qa + qb) * w + b % w by {
      assert (qa + qb) * w == qa * w + qb * w;
    }
    DivModUnique(a + d, w, qa + qb, b % w);
  }

  /** Multiples of `w` vanish: `(q * w + b) mod w == b mod w`. */
  lemma ModMultiple(q: int, w: int, b: int)
    requires w > 0
    ensures (q * w + b) % w == b % w
  {
    var qb := b / w;
    assert b == qb * w + b % w;
    assert q * w + b == (q + qb) * w + b % w by {
      assert (q + qb) * w == q * w + qb * w;
    }
    DivModUnique(q * w + b, w, q + qb, b % w);
  }

  /** A product's remainder depends only on the factors' remainders. */
  lemma ModMul(a: int, b: int, w: int)
    requires w > 0
    ensures (a * b) % w == ((a % w) * b) % w
  {
    var qa := a / w;
    assert a == qa * w + a % w;
    assert a * b == (qa * b) * w + (a % w) * b by {
      assert a * b == (qa * w + a % w) * b;
      assert (qa * w + a % w) * b == qa * w * b + (a % w) * b;
    }
    ModMultiple(qa * b, w, (a % w) * b);
  }

  /** Index arithmetic of a row-major grid: cell `(x, y)` of width `w` sits at `y * w + x`. */
  lemma RowMajor(x: int, y: int, w: int)
    requires 0 <= x < w
    ensures (y * w + x) / w == y && (y * w + x) % w == x
  {
    DivModUnique(y * w + x, w, y, x);
  }

  /** A cell of a `w` by `h` grid has a row-major index below `w * h`. */
  lemma RowMajorBound(x: int, y: int, w: int, h: int)
    requires 0 <= x < w && 0 <= y < h
    ensures 0 <= y * w + x < h * w
  {
    MulMonotone(y, h - 1, w);
    assert (h - 1) * w + w == h * w;
    assert 0 <= y * w by { MulMonotone(0, y, w); }
  }

  /** The row and column of a row-major index inside a `w` by `h` grid (which cannot have width 0). */
  lemma Unflatten(i: int, w: int, h: int)
    requires 0 <= i < h * w && 0 <= w && 0 <= h
    ensures w > 0 && 0 <= i % w < w && 0 <= i / w < h && (i / w) * w + i % w == i
  {
    assert w > 0;
    if i / w >= h {
      MulMonotone(h, i / w, w);
    }
  }

  /** The remainder of Rust's `%` on signed integers: it takes the sign of `a`. */
  function TruncRem(a: int, b: int): (r: int)
    requires b != 0
    ensures a >= 0 ==> r == a % b
    ensures a < 0 ==> r == -((-a) % b)
  {
    if a >= 0 then a % b else -((-a) % b)
  }

  /** The quotient of Rust's `/` on signed integers: it rounds toward zero. */
  function TruncDiv(a: int, b: int): (q: int)
    requires b != 0
    ensures q * b + TruncRem(a, b) == a
  {
    var r := TruncRem(a, b);
    TruncExact(a, b);
    (a - r) / b
  }

  /** `a` minus its truncated remainder is a multiple of `b`. */
  lemma TruncExact(a: int, b: int)
    requires b != 0
    ensures (a - TruncRem(a, b)) / b * b == a - TruncRem(a, b)
  {
    if a >= 0 {
      assert a - a % b == (a / b) * b;
      DivModUnique(a - a % b, Abs(b), (a / b) * Sign(b), 0);
    } else {
      var c := -a;
      assert c - c % b == (c / b) * b;
      assert a - TruncRem(a, b) == -((c / b) * b) == (-(c / b)) * b;
      DivModUnique(a - TruncRem(a, b), Abs(b), (-(c / b)) * Sign(b), 0);
    }
    DivByAbs(a - TruncRem(a, b), b);
  }

  function Abs(x: int): nat {
    if x < 0 then -x else x
  }

  function Sign(x: int): int {
    if x < 0 then -1 else 1
  }

  /** Exact division by `b` through `|b|`. */
  lemma DivByAbs(n: int, b: int)
    requires b != 0 && n % Abs(b) == 0
    ensures n / b * b == n
  {
    var q := n / Abs(b);
    assert n == q * Abs(b);
    if b > 0 {
      DivModUnique(n, b, q, 0);
    } else {
      assert n == (-q) * b;
      assert n / b * b + n % b == n;
    }
  }

  /** For a non-negative dividend and a positive divisor, Rust's `/` and `%` are Euclidean. */
  lemma TruncDivPositive(a: int, b: int)
    requires a >= 0 && b > 0
    ensures TruncDiv(a, b) == a / b && TruncRem(a, b) == a % b
  {
    DivModUnique(a, b, TruncDiv(a, b), a % b);
  }

  /** A multiple of `b` leaves no remainder. */
  lemma MultipleMod(x: int, b: int, c: int)
    requires b > 0 && x == b * c
    ensures x % b == 0
  {
    DivModUnique(x, b, c, 0);
  }

  lemma Distribute(b: int, x: int, y: int)
    ensures b * (x + y) == b * x + b * y
  {
  }

  /** Euclidean division splits a number into quotient and remainder. */
  lemma Split(n: int, w: int)
    requires w != 0
    ensures n == (n / w) * w + n % w && 0 <= n % w < Abs(w)
  {
  }

  /** Dividing an exact multiple. */
  lemma ExactQuotient(p: int, b: int, m: int)
    requires b > 0 && p >= 0 && p == b * m
    ensures TruncDiv(p, b) == m
  {
    DivModUnique(p, b, m, 0);
    TruncDivPositive(p, b);
  }

  /** A subset has no more elements than the set containing it. */
  lemma SubsetCard<T>(a: set<T>, b: set<T>)
    requires a <= b
    ensures |a| <= |b|
  {
    assert b == a + (b - a);
  }
}
