/**
 * Day 25: the card and the door each transform the subject number 7 a secret number of times
 * (their loop sizes) to get their public keys; each then transforms the other's public key by its
 * own loop size, and both arrive at the same encryption key.
 */
module Day25 {
  import opened Wrappers
  import opened Arith

  /** The divisor of every transformation step. */
  const Modulus: nat := 20201227

  /** The number `handshake` computes: `n` times, multiply by the subject number and reduce. */
  function Transformed(s: nat, n: nat): (r: nat)
    ensures r < Modulus || (n == 0 && r == 1)
  {
    if n == 0 then 1 else Transformed(s, n - 1) * s % Modulus
  }

  /** The plain power, the reference the transformation is measured against. */
  function Pow(b: nat, n: nat): nat {
    if n == 0 then 1 else Pow(b, n - 1) * b
  }

  /** Transforming `n` times is the `n`-th power reduced once at the end. */
  lemma {:induction false} TransformedPow(s: nat, n: nat)
    ensures Transformed(s, n) == Pow(s, n) % Modulus
  {
    if n > 0 {
      TransformedPow(s, n - 1);
      ModMul(Pow(s, n - 1), s, Modulus);
    }
  }

  /** Exponents add. */
  lemma {:induction false} PowAdd(b: nat, x: nat, y: nat)
    ensures Pow(b, x + y) == Pow(b, x) * Pow(b, y)
  {
    if y > 0 {
      PowAdd(b, x, y - 1);
      assert Pow(b, x + y) == Pow(b, x + y - 1) * b;
    }
  }

  /** A power of a power multiplies the exponents. */
  lemma {:induction false} PowMul(b: nat, x: nat, y: nat)
    ensures Pow(Pow(b, x), y) == Pow(b, x * y)
  {
    if y > 0 {
      PowMul(b, x, y - 1);
      PowAdd(b, x * (y - 1), x);
      Distribute(x, y - 1, 1);
    }
  }

  /** Reducing the base first does not change the reduced power. */
  lemma {:induction false} PowMod(a: nat, n: nat)
    ensures Pow(a % Modulus, n) % Modulus == Pow(a, n) % Modulus
  {
    if n > 0 {
      PowMod(a, n - 1);
      var x, y, c := Pow(a % Modulus, n - 1), Pow(a, n - 1), a % Modulus;
      calc {
        Pow(a % Modulus, n) % Modulus;
        (x * c) % Modulus;
        { ModMul(x, c, Modulus); }
        ((x % Modulus) * c) % Modulus;
        ((y % Modulus) * c) % Modulus;
        { ModMul(y, c, Modulus); }
        (y * c) % Modulus;
        (c * y) % Modulus;
        { ModMul(a, y, Modulus); }
        (a * y) % Modulus;
        Pow(a, n) % Modulus;
      }
    }
  }

  /** Transforming a transformed number composes the loop sizes by multiplication. */
  lemma Compose(s: nat, a: nat, b: nat)
    ensures Transformed(Transformed(s, a), b) == Transformed(s, a * b)
  {
    var p, ab := Pow(s, a), a * b;
    calc {
      Transformed(Transformed(s, a), b);
      { TransformedPow(s, a); }
      Transformed(p % Modulus, b);
      { TransformedPow(p % Modulus, b); }
      Pow(p % Modulus, b) % Modulus;
      { PowMod(p, b); }
      Pow(p, b) % Modulus;
      { PowMul(s, a, b); }
      Pow(s, ab) % Modulus;
      { TransformedPow(s, ab); }
      Transformed(s, ab);
    }
  }

  /** Each side transforms the other's public key by its own loop size and gets the same key. */
  lemma KeyAgreement(s: nat, a: nat, b: nat)
    ensures Transformed(Transformed(s, a), b) == Transformed(Transformed(s, b), a)
  {
    Compose(s, a, b);
    Compose(s, b, a);
    assert a * b == b * a;
  }

  /**
   * The key does not depend on which loop sizes produce the public keys: the card's loop size `c`
   * against any two loop sizes `d1`, `d2` of the door.
   */
  lemma SameKey(c: nat, d1: nat, d2: nat)
    requires Transformed(7, d1) == Transformed(7, d2)
    ensures Transformed(Transformed(7, c), d1) == Transformed(Transformed(7, c), d2)
    ensures Transformed(Transformed(7, c), d1) == Transformed(Transformed(7, d2), c)
  {
    KeyAgreement(7, c, d1);
    KeyAgreement(7, c, d2);
  }

  /** `handshake`: the loop of `loop_size` multiply-and-reduce steps. */
  method Handshake(s: nat, loopSize: nat) returns (r: nat)
    ensures r == Transformed(s, loopSize)
  {
    r := 1;
    for i := 0 to loopSize
      invariant r == Transformed(s, i)
    {
      r := r * s % Modulus;
    }
  }

  /**
   * `find_loop_size`: the least loop size that turns `s` into `key`. The Rust loop runs forever when
   * there is none, so one is required to exist.
   */
  method FindLoopSize(s: nat, key: nat) returns (n: nat)
    requires exists m: nat :: Transformed(s, m) == key
    ensures Transformed(s, n) == key
    ensures forall m: nat :: m < n ==> Transformed(s, m) != key
  {
    ghost var bound: nat :| Transformed(s, bound) == key;
    n := 0;
    var result := 1;
    while true
      invariant result == Transformed(s, n) && n <= bound
      invariant forall m: nat :: m < n ==> Transformed(s, m) != key
      decreases bound - n
    {
      if key == result {
        return;
      }
      n := n + 1;
      result := result * s % Modulus;
    }
  }

  /**
   * `main`: the loop sizes recovered from the two public keys, the encryption key from the card's
   * public key and the door's loop size, and the `assert_eq!` against the door's public key and the
   * card's loop size. `None` where that assertion would panic, which the key agreement rules out;
   * the key is the same whichever loop sizes produce the public keys.
   */
  method Solve(card: nat, door: nat) returns (r: Option<nat>)
    requires exists m: nat :: Transformed(7, m) == card
    requires exists m: nat :: Transformed(7, m) == door
    ensures r.Some?
    ensures forall c: nat, d: nat :: Transformed(7, c) == card && Transformed(7, d) == door ==>
      r.value == Transformed(card, d) && r.value == Transformed(door, c)
  {
    var cardLoop := FindLoopSize(7, card);
    var doorLoop := FindLoopSize(7, door);
    var key := Handshake(card, doorLoop);
    var check := Handshake(door, cardLoop);
    forall c, d | Transformed(7, c) == card && Transformed(7, d) == door
      ensures key == Transformed(card, d) && key == Transformed(door, c)
    {
      SameKey(c, doorLoop, d);
    }
    if check != key {
      return None;
    }
    return Some(key);
  }
}
