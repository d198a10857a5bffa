/** Character classes and decimal numbers, as the Rust standard library defines them. */
module Text {
  import opened Wrappers

  /** `char::is_ascii_digit`: '0' ..= '9'. */
  predicate IsDigit(c: char) {
    '0' <= c <= '9'
  }

  predicate AllDigits(s: string) {
    forall i :: 0 <= i < |s| ==> IsDigit(s[i])
  }

  function DigitValue(c: char): (d: nat)
    requires IsDigit(c)
    ensures d < 10
  {
    c as int - '0' as int
  }

  /** The value `str::parse::<usize>` gives a string of ASCII digits (integers are unbounded here). */
  function Value(s: string): nat
    requires AllDigits(s)
  {
    if s == [] then 0 else Value(s[..|s| - 1]) * 10 + DigitValue(s[|s| - 1])
  }

  function Pow10(n: nat): (p: nat)
    ensures p >= 1
  {
    if n == 0 then 1 else 10 * Pow10(n - 1)
  }

  /** A run of `n` digits is below `10^n`. */
  lemma {:induction false} ValueBound(s: string)
    requires AllDigits(s)
    ensures Value(s) < Pow10(|s|)
  {
    if s != [] {
      ValueBound(s[..|s| - 1]);
    }
  }

  /** The digit character of a value below ten. */
  function DigitChar(d: nat): (c: char)
    requires d < 10
    ensures IsDigit(c) && DigitValue(c) == d
  {
    ('0' as int + d) as char
  }

  /** `usize::to_string`: the decimal digits, most significant first, without leading zeros. */
  function Decimal(n: nat): (s: string)
    ensures s != [] && AllDigits(s)
  {
    if n < 10 then [DigitChar(n)] else Decimal(n / 10) + [DigitChar(n % 10)]
  }

  /** Reading the decimal digits back gives the number, and only zero starts with '0'. */
  lemma {:induction false} DecimalValue(n: nat)
    ensures Value(Decimal(n)) == n
    ensures Decimal(n)[0] == '0' <==> n == 0
  {
    if n >= 10 {
      DecimalValue(n / 10);
      var s := Decimal(n);
      assert s[..|s| - 1] == Decimal(n / 10);
    }
  }

  /** `char::is_whitespace`: the Unicode White_Space property. */
  predicate IsWhitespace(c: char) {
    ('\U{9}' <= c <= '\U{D}') || c == ' ' || c == '\U{85}' || c == '\U{A0}' || c == '\U{1680}'
    || ('\U{2000}' <= c <= '\U{200A}') || c == '\U{2028}' || c == '\U{2029}' || c == '\U{202F}'
    || c == '\U{205F}' || c == '\U{3000}'
  }

  /** The end of the run of whitespace that starts at `i`. */
  function SpaceEnd(s: string, i: nat): (r: nat)
    requires i <= |s|
    ensures i <= r <= |s| && (r == |s| || !IsWhitespace(s[r]))
    ensures forall k :: i <= k < r ==> IsWhitespace(s[k])
    decreases |s| - i
  {
    if i < |s| && IsWhitespace(s[i]) then SpaceEnd(s, i + 1) else i
  }

  /** The start of the run of whitespace that ends at `j`, going back no further than `i`. */
  function SpaceStart(s: string, i: nat, j: nat): (r: nat)
    requires i <= j <= |s|
    ensures i <= r <= j && (r == i || !IsWhitespace(s[r - 1]))
    ensures forall k :: r <= k < j ==> IsWhitespace(s[k])
    decreases j
  {
    if j > i && IsWhitespace(s[j - 1]) then SpaceStart(s, i, j - 1) else j
  }

  /** `str::trim`: the text between the leading and the trailing whitespace. */
  function Trim(s: string): (r: string)
    ensures |r| <= |s|
    ensures exists i, j ::
              0 <= i <= j <= |s| && r == s[i..j] &&
              (forall k :: 0 <= k < i ==> IsWhitespace(s[k])) && (forall k :: j <= k < |s| ==> IsWhitespace(s[k]))
    ensures r == [] || (!IsWhitespace(r[0]) && !IsWhitespace(r[|r| - 1]))
  {
    var i := SpaceEnd(s, 0);
    s[i..SpaceStart(s, i, |s|)]
  }

  /** `char::is_ascii_whitespace`: space, tab, line feed, form feed, carriage return. */
  predicate IsAsciiWhitespace(c: char) {
    c == ' ' || c == '\t' || c == '\n' || c == '\U{C}' || c == '\r'
  }

  /** Number of occurrences of `c` in `s`. */
  function Count<T(==)>(s: seq<T>, c: T): (n: nat)
    ensures n == multiset(s)[c]
  {
    if s == [] then 0
    else
      assert s == s[..|s| - 1] + [s[|s| - 1]];
      Count(s[..|s| - 1], c) + (if s[|s| - 1] == c then 1 else 0)
  }

  /** The largest `usize` on a 64-bit target. */
  const UsizeMax: nat := 0xFFFF_FFFF_FFFF_FFFF

  /** The text `str::parse::<usize>` accepts: an optional leading '+' and at least one ASCII digit. */
  predicate UnsignedSyntax(s: string) {
    (s != [] && AllDigits(s)) || (|s| > 1 && s[0] == '+' && AllDigits(s[1..]))
  }

  /** The digits of an accepted text, without its sign. */
  function Digits(s: string): (d: string)
    requires UnsignedSyntax(s)
    ensures d != [] && AllDigits(d)
  {
    if s[0] == '+' then s[1..] else s
  }

  /** `str::parse::<usize>`: `None` on bad syntax and on a value that overflows 64 bits. */
  function ParseUnsigned(s: string): (r: Option<nat>)
    ensures r.Some? <==> UnsignedSyntax(s) && Value(Digits(s)) <= UsizeMax
    ensures r.Some? ==> r.value == Value(Digits(s)) && r.value <= UsizeMax
  {
    if s != [] && AllDigits(s) then
      if Value(s) <= UsizeMax then Some(Value(s)) else None
    else if |s| > 1 && s[0] == '+' && AllDigits(s[1..]) then
      if Value(s[1..]) <= UsizeMax then Some(Value(s[1..])) else None
    else None
  }

  /** The largest `isize` on a 64-bit target. */
  const IsizeMax: int := 0x7FFF_FFFF_FFFF_FFFF

  /** The text `str::parse::<isize>` accepts with a minus sign: '-' and at least one ASCII digit. */
  predicate NegativeSyntax(s: string) {
    |s| > 1 && s[0] == '-' && AllDigits(s[1..])
  }

  /** `str::parse::<isize>`: an optional sign and ASCII digits; `None` on bad syntax and outside 64 bits. */
  function ParseSigned(s: string): (r: Option<int>)
    ensures r.Some? ==> -IsizeMax - 1 <= r.value <= IsizeMax
    ensures r.Some? ==> UnsignedSyntax(s) || NegativeSyntax(s)
    ensures UnsignedSyntax(s) ==> (r.Some? <==> Value(Digits(s)) <= IsizeMax) && (r.Some? ==> r.value == Value(Digits(s)))
    ensures NegativeSyntax(s) ==> (r.Some? <==> Value(s[1..]) <= IsizeMax + 1) && (r.Some? ==> r.value == -(Value(s[1..]) as int))
  {
    if UnsignedSyntax(s) then
      if Value(Digits(s)) <= IsizeMax then Some(Value(Digits(s))) else None
    else if NegativeSyntax(s) then
      if Value(s[1..]) <= IsizeMax + 1 then Some(-(Value(s[1..]) as int)) else None
    else None
  }

  /** `str::split` on one character: the pieces between occurrences of `c`, empty ones included. */
  function SplitOn(s: string, c: char): (r: seq<string>)
    ensures |r| >= 1
    ensures forall k :: 0 <= k < |r| ==> c !in r[k]
    ensures forall k :: 0 <= k < |r| ==> |r[k]| <= |s|
    ensures c in s ==> forall k :: 0 <= k < |r| ==> |r[k]| < |s|
  {
    if s == [] then [""]
    else
      var rest := SplitOn(s[1..], c);
      assert s == [s[0]] + s[1..];
      if s[0] == c then [""] + rest else [[s[0]] + rest[0]] + rest[1..]
  }

  /** One piece more than there are separators. */
  lemma {:induction false} SplitOnCount(s: string, c: char)
    ensures |SplitOn(s, c)| == 1 + Count(s, c)
  {
    if s != [] {
      SplitOnCount(s[1..], c);
      assert s == [s[0]] + s[1..];
      assert multiset(s)[c] == multiset([s[0]])[c] + multiset(s[1..])[c];
    }
  }

  /** The pieces joined back together with `c` between neighbours. */
  function JoinWith(pieces: seq<string>, c: char): string
    requires |pieces| >= 1
  {
    if |pieces| == 1 then pieces[0] else pieces[0] + [c] + JoinWith(pieces[1..], c)
  }

  /** Splitting loses nothing: joining the pieces with the separator gives the text back. */
  lemma {:induction false} SplitOnJoin(s: string, c: char)
    ensures JoinWith(SplitOn(s, c), c) == s
  {
    if s != [] {
      SplitOnJoin(s[1..], c);
      JoinStep(s, c, SplitOn(s[1..], c), SplitOn(s, c));
    }
  }

  /** A text without the separator is one piece. */
  lemma {:induction false} SplitOnNone(s: string, c: char)
    requires c !in s
    ensures SplitOn(s, c) == [s]
  {
    if s != [] {
      assert c !in s[1..];
      SplitOnNone(s[1..], c);
      assert s == [s[0]] + s[1..];
    }
  }

  /** The first separator ends the first piece; the rest is split on its own. */
  lemma {:induction false} SplitOnFirst(x: string, y: string, c: char)
    requires c !in x
    ensures SplitOn(x + [c] + y, c) == [x] + SplitOn(y, c)
  {
    var s := x + [c] + y;
    if x == [] {
      assert s[1..] == y;
    } else {
      assert s[1..] == x[1..] + [c] + y;
      assert c !in x[1..];
      SplitOnFirst(x[1..], y, c);
      assert x == [x[0]] + x[1..];
    }
  }

  /** Three pieces without the separator, joined by it, split back into the three. */
  lemma SplitOnThree(x: string, y: string, z: string, c: char)
    requires c !in x && c !in y && c !in z
    ensures SplitOn(x + [c] + y + [c] + z, c) == [x, y, z]
  {
    var tail := y + [c] + z;
    assert x + [c] + y + [c] + z == x + [c] + tail;
    SplitOnFirst(y, z, c);
    SplitOnNone(z, c);
    var pieces := SplitOn(tail, c);
    assert pieces == [y, z];
    SplitOnFirst(x, tail, c);
  }

  /** Three pieces joined: the separator between neighbours. */
  lemma JoinThree(x: string, y: string, z: string, c: char)
    ensures JoinWith([x, y, z], c) == x + [c] + y + [c] + z
  {
    assert [x, y, z][1..] == [y, z];
    assert [y, z][1..] == [z];
    assert JoinWith([y, z], c) == y + [c] + z;
    assert JoinWith([x, y, z], c) == x + [c] + (y + [c] + z);
  }

  /** One more character in front: a new empty first piece at a separator, else a longer first piece. */
  lemma JoinStep(s: string, c: char, rest: seq<string>, r: seq<string>)
    requires s != [] && |rest| >= 1 && JoinWith(rest, c) == s[1..]
    requires r == if s[0] == c then [""] + rest else [[s[0]] + rest[0]] + rest[1..]
    ensures JoinWith(r, c) == s
  {
    assert s == [s[0]] + s[1..];
    if s[0] == c {
      assert r[1..] == rest;
    } else {
      JoinPrepend([s[0]], rest, c);
    }
  }

  lemma JoinPrepend(a: string, pieces: seq<string>, c: char)
    requires |pieces| >= 1
    ensures JoinWith([a + pieces[0]] + pieces[1..], c) == a + JoinWith(pieces, c)
  {
    var q := [a + pieces[0]] + pieces[1..];
    assert q[1..] == pieces[1..];
  }

  /** `p` occurs in `s` starting at index `i`. */
  predicate OccursAt(s: string, p: string, i: int) {
    0 <= i <= |s| - |p| && s[i..i + |p|] == p
  }

  predicate StartsWith(s: string, p: string) {
    |p| <= |s| && s[..|p|] == p
  }

  predicate EndsWith(s: string, p: string) {
    |p| <= |s| && s[|s| - |p|..] == p
  }

  /** Whether `p` occurs in `s` at some position, searched from the front. */
  function Contains(s: string, p: string): (b: bool)
    ensures b <==> exists i :: OccursAt(s, p, i)
    decreases |s|
  {
    if StartsWith(s, p) then
      assert OccursAt(s, p, 0);
      true
    else if |s| <= |p| then
      assert forall i :: OccursAt(s, p, i) ==> i == 0;
      false
    else
      var b := Contains(s[1..], p);
      assert forall i :: OccursAt(s[1..], p, i) <==> OccursAt(s, p, i + 1);
      assert forall i :: OccursAt(s, p, i) ==> OccursAt(s[1..], p, i - 1);
      b
  }
}
