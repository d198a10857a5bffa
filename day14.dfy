/**
 * Day 14 (docking data): the port computer's bitmask system. A mask of 36 characters rewrites
 * either the values written to memory (decoder version 1) or the addresses they are written to,
 * with `X` bits floating over both values (decoder version 2).
 */
module Day14 {
  import opened Wrappers
  import Text

  /** The width of a `usize`. */
  const Width: nat := 64

  /** A `usize` value: the numbers a `usize` can hold. */
  type Usize = n: nat | n <= Text.UsizeMax

  /** A bit position inside a `usize`. */
  type BitIndex = i: nat | i < Width

  /** A `usize` seen as its bits, bit 0 first. */
  type Word = w: seq<bool> | |w| == Width witness seq(Width, _ => false)

  // ---- Numbers and their bits ----

  function Pow2(n: nat): (p: nat)
    ensures p >= 1
  {
    if n == 0 then 1 else 2 * Pow2(n - 1)
  }

  lemma {:induction false} Pow2Add(a: nat, b: nat)
    ensures Pow2(a + b) == Pow2(a) * Pow2(b)
  {
    if a > 0 {
      Pow2Add(a - 1, b);
      assert Pow2(a + b) == 2 * Pow2(a - 1 + b);
    }
  }

  /** `usize` holds exactly the numbers below 2^64. */
  lemma Pow2Width()
    ensures Pow2(Width) == Text.UsizeMax + 1
  {
    assert Pow2(2) == 4;
    assert Pow2(4) == 16;
    Pow2Add(4, 4);
    assert Pow2(8) == 0x100;
    Pow2Add(8, 8);
    assert Pow2(16) == 0x1_0000;
    Pow2Add(16, 16);
    assert Pow2(32) == 0x1_0000_0000;
    Pow2Add(32, 32);
    assert Pow2(64) == 0x1_0000_0000_0000_0000;
  }

  /** The low `k` bits of `n`, bit 0 first. */
  function ToBits(n: nat, k: nat): (w: seq<bool>)
    ensures |w| == k
  {
    if k == 0 then [] else [n % 2 == 1] + ToBits(n / 2, k - 1)
  }

  /** The number whose bits, bit 0 first, are `w`. */
  function FromBits(w: seq<bool>): (n: nat)
    ensures n < Pow2(|w|)
  {
    if w == [] then 0 else (if w[0] then 1 else 0) + 2 * FromBits(w[1..])
  }

  lemma {:induction false} FromToBits(n: nat, k: nat)
    requires n < Pow2(k)
    ensures FromBits(ToBits(n, k)) == n
  {
    if k > 0 {
      FromToBits(n / 2, k - 1);
      assert ToBits(n, k)[1..] == ToBits(n / 2, k - 1);
    }
  }

  lemma {:induction false} ToFromBits(w: seq<bool>)
    ensures ToBits(FromBits(w), |w|) == w
  {
    if w != [] {
      ToFromBits(w[1..]);
      var n := FromBits(w);
      assert n % 2 == 1 <==> w[0];
      assert n / 2 == FromBits(w[1..]);
    }
  }

  function ToWord(n: Usize): (w: Word)
  {
    ToBits(n, Width)
  }

  function FromWord(w: Word): (n: Usize)
    ensures ToWord(n) == w
  {
    Pow2Width();
    ToFromBits(w);
    FromBits(w)
  }

  /** A number and its bits determine each other. */
  lemma WordRoundTrip(n: Usize)
    ensures FromWord(ToWord(n)) == n
  {
    Pow2Width();
    FromToBits(n, Width);
  }

  /** Two different words are two different numbers. */
  lemma FromWordInjective(v: Word, w: Word)
    requires FromWord(v) == FromWord(w)
    ensures v == w
  {
  }

  /** `x & y`, bit by bit. */
  function And(x: Word, y: Word): (r: Word)
    ensures forall j :: 0 <= j < Width ==> r[j] == (x[j] && y[j])
  {
    seq(Width, j requires 0 <= j < Width => x[j] && y[j])
  }

  /** `x | y`, bit by bit. */
  function Or(x: Word, y: Word): (r: Word)
    ensures forall j :: 0 <= j < Width ==> r[j] == (x[j] || y[j])
  {
    seq(Width, j requires 0 <= j < Width => x[j] || y[j])
  }

  // ---- The mask ----

  /** A compiled mask: the part-1 `and`/`or` masks, the floating bits and the mask clearing them. */
  datatype Mask = Mask(andMask: Word, orMask: Word, floatingBits: seq<BitIndex>, floatingBitMask: Word)

  /** What the `mask = ([X01]{36})` pattern captures. */
  predicate MaskSyntax(s: string) {
    |s| == 36 && forall k :: 0 <= k < |s| ==> s[k] in "X01"
  }

  /** The character that governs bit `i < 36`: the mask is written from bit 35 down to bit 0. */
  function Governs(s: string, i: nat): char
    requires MaskSyntax(s) && i < 36
  {
    s[35 - i]
  }

  /** No element occurs twice. */
  predicate Distinct<T(==)>(s: seq<T>) {
    forall p, q :: 0 <= p < q < |s| ==> s[p] != s[q]
  }

  predicate StrictlyIncreasing(bits: seq<nat>) {
    forall p, q :: 0 <= p < q < |bits| ==> bits[p] < bits[q]
  }

  /** The floating bits below `n`, in increasing order. */
  function FloatingBitsBelow(s: string, n: nat): (r: seq<BitIndex>)
    requires MaskSyntax(s) && n <= 36
    ensures StrictlyIncreasing(r)
    ensures forall k :: 0 <= k < |r| ==> r[k] < n
    ensures forall i: nat :: i < n ==> (i in r <==> Governs(s, i) == 'X')
  {
    if n == 0 then []
    else FloatingBitsBelow(s, n - 1) + if Governs(s, n - 1) == 'X' then [n - 1] else []
  }

  /**
   * The mask a 36-character string compiles to: bits 36 and up pass values and addresses through
   * unchanged; below that, `0` clears the bit of a value, `1` sets it, and `X` makes it float.
   */
  function MaskOf(s: string): Mask
    requires MaskSyntax(s)
  {
    Mask(
      seq(Width, j requires 0 <= j < Width => !(j < 36 && Governs(s, j) == '0')),
      seq(Width, j requires 0 <= j < Width => j < 36 && Governs(s, j) == '1'),
      FloatingBitsBelow(s, 36),
      seq(Width, j requires 0 <= j < Width => !(j < 36 && Governs(s, j) == 'X')))
  }

  /**
   * Every bit below 36 is governed by exactly one of the three mask characters: it floats (it is
   * listed and cleared in the floating mask), or it is cleared by the `and` mask, or it is set by the
   * `or` mask. No bit from 36 up is touched by any of them.
   */
  lemma MaskCases(s: string, i: BitIndex)
    requires MaskSyntax(s)
    ensures var m := MaskOf(s);
      (i in m.floatingBits <==> !m.floatingBitMask[i]) &&
      (i < 36 ==> (if !m.floatingBitMask[i] then 1 else 0) + (if !m.andMask[i] then 1 else 0) + (if m.orMask[i] then 1 else 0) == 1) &&
      (i >= 36 ==> m.floatingBitMask[i] && m.andMask[i] && !m.orMask[i])
  {
    if i < 36 {
      assert Governs(s, i) in "X01";
    }
  }

  /**
   * The mask-building loop of `parse`: start from all-ones `and` and floating masks and an empty
   * `or` mask, and for each character, from bit 0 upward, clear, set or record its bit.
   */
  method BuildMask(s: string) returns (m: Mask)
    requires MaskSyntax(s)
    ensures m == MaskOf(s)
  {
    var andMask: Word := seq(Width, _ => true);
    var orMask: Word := seq(Width, _ => false);
    var floatingBits: seq<BitIndex> := [];
    var floatingBitMask: Word := seq(Width, _ => true);
    for i := 0 to 36
      invariant floatingBits == FloatingBitsBelow(s, i)
      invariant forall j :: 0 <= j < Width ==> andMask[j] == !(j < i && Governs(s, j) == '0')
      invariant forall j :: 0 <= j < Width ==> orMask[j] == (j < i && Governs(s, j) == '1')
      invariant forall j :: 0 <= j < Width ==> floatingBitMask[j] == !(j < i && Governs(s, j) == 'X')
    {
      andMask, orMask, floatingBits, floatingBitMask := GovernBit(s, i, andMask, orMask, floatingBits, floatingBitMask);
    }
    m := Mask(andMask, orMask, floatingBits, floatingBitMask);
    MaskOfBitwise(s, m);
  }

  /** One pass of the mask-building loop: the character governing bit `i` clears, sets or records it. */
  method GovernBit(s: string, i: nat, andMask: Word, orMask: Word, floatingBits: seq<BitIndex>, floatingBitMask: Word)
    returns (andMask': Word, orMask': Word, floatingBits': seq<BitIndex>, floatingBitMask': Word)
    requires MaskSyntax(s) && i < 36
    requires floatingBits == FloatingBitsBelow(s, i)
    requires forall j :: 0 <= j < Width ==> andMask[j] == !(j < i && Governs(s, j) == '0')
    requires forall j :: 0 <= j < Width ==> orMask[j] == (j < i && Governs(s, j) == '1')
    requires forall j :: 0 <= j < Width ==> floatingBitMask[j] == !(j < i && Governs(s, j) == 'X')
    ensures floatingBits' == FloatingBitsBelow(s, i + 1)
    ensures forall j :: 0 <= j < Width ==> andMask'[j] == !(j < i + 1 && Governs(s, j) == '0')
    ensures forall j :: 0 <= j < Width ==> orMask'[j] == (j < i + 1 && Governs(s, j) == '1')
    ensures forall j :: 0 <= j < Width ==> floatingBitMask'[j] == !(j < i + 1 && Governs(s, j) == 'X')
  {
    andMask', orMask', floatingBits', floatingBitMask' := andMask, orMask, floatingBits, floatingBitMask;
    var c := s[35 - i];
    assert c == Governs(s, i) && c in "X01";
    if c == 'X' {
      floatingBits' := floatingBits + [i];
      floatingBitMask' := floatingBitMask[i := false];
    } else if c == '0' {
      andMask' := andMask[i := false];
    } else {
      orMask' := orMask[i := true];
    }
  }

  /** A mask whose every bit agrees with `MaskOf(s)` is `MaskOf(s)`. */
  lemma MaskOfBitwise(s: string, m: Mask)
    requires MaskSyntax(s) && m.floatingBits == FloatingBitsBelow(s, 36)
    requires forall j :: 0 <= j < Width ==> m.andMask[j] == !(j < 36 && Governs(s, j) == '0')
    requires forall j :: 0 <= j < Width ==> m.orMask[j] == (j < 36 && Governs(s, j) == '1')
    requires forall j :: 0 <= j < Width ==> m.floatingBitMask[j] == !(j < 36 && Governs(s, j) == 'X')
    ensures m == MaskOf(s)
  {
    var r := MaskOf(s);
    assert m.andMask == r.andMask;
    assert m.orMask == r.orMask;
    assert m.floatingBitMask == r.floatingBitMask;
  }

  // ---- Parsing ----

  datatype Operation = UpdateMask(mask: Mask) | Assignment(address: Usize, value: Usize)

  /** A `mem[address] = value` line: both numbers are decimal digits that fit a `usize`. */
  function ParseAssignment(line: string): (r: Option<Operation>)
    ensures r.Some? ==> r.value.Assignment?
  {
    AssignmentOf(Text.SplitOn(line, ' '))
  }

  /** The pieces of a line split at its spaces: `mem[address]`, `=` and `value`. */
  function AssignmentOf(parts: seq<string>): (r: Option<Operation>)
    ensures r.Some? ==> r.value.Assignment?
  {
    if |parts| == 3 && |parts[0]| >= 5 && parts[0][..4] == "mem[" && parts[0][|parts[0]| - 1] == ']' && parts[1] == "=" then
      var address := parts[0][4..|parts[0]| - 1];
      var value := parts[2];
      if address != [] && Text.AllDigits(address) && value != [] && Text.AllDigits(value) then
        match (Text.ParseUnsigned(address), Text.ParseUnsigned(value))
        case (Some(a), Some(v)) => Some(Assignment(a, v))
        case _ => None
      else None
    else None
  }

  /** `mem[address]` is five characters or more, and the address sits between the brackets. */
  lemma Bracketed(address: string)
    requires address != []
    ensures var p := "mem[" + address + "]";
      |p| >= 5 && p[..4] == "mem[" && p[|p| - 1] == ']' && p[4..|p| - 1] == address
  {
  }

  /** A piece that starts `mem[` and ends `]` is the text between them, bracketed. */
  lemma Unbracket(p: string)
    requires |p| >= 5 && p[..4] == "mem[" && p[|p| - 1] == ']'
    ensures p == "mem[" + p[4..|p| - 1] + "]"
  {
    assert p == p[..4] + p[4..|p| - 1] + [p[|p| - 1]];
  }

  /** `line` reads `mem[address] = value` with two runs of decimal digits. */
  predicate AssignmentSyntax(line: string, address: string, value: string) {
    line == "mem[" + address + "]" + " " + "=" + " " + value &&
    address != [] && Text.AllDigits(address) && value != [] && Text.AllDigits(value)
  }

  /** The digits hold no space, so `mem[a] = v` splits into `mem[a]`, `=` and `v`. */
  lemma SplitAssignment(address: string, value: string)
    requires Text.AllDigits(address) && Text.AllDigits(value)
    ensures Text.SplitOn("mem[" + address + "]" + " " + "=" + " " + value, ' ') == ["mem[" + address + "]", "=", value]
  {
    var first := "mem[" + address + "]";
    NoSpace(address);
    NoSpace(value);
    Text.SplitOnThree(first, "=", value, ' ');
  }

  /** Digits and the brackets around them are not spaces. */
  lemma NoSpace(digits: string)
    requires Text.AllDigits(digits)
    ensures ' ' !in digits && ' ' !in "mem[" + digits + "]"
  {
    var first := "mem[" + digits + "]";
    forall k | 0 <= k < |digits| ensures digits[k] != ' ' {
      assert Text.IsDigit(digits[k]);
    }
    forall k | 0 <= k < |first| ensures first[k] != ' ' {
      if 4 <= k < |first| - 1 {
        assert first[k] == digits[k - 4];
      }
    }
  }

  /** `mem[a] = v` parses to the two numbers when both fit a `usize`, and fails otherwise. */
  lemma ParseAssignmentComplete(line: string, address: string, value: string)
    requires AssignmentSyntax(line, address, value)
    ensures ParseAssignment(line) ==
      if Text.Value(address) <= Text.UsizeMax && Text.Value(value) <= Text.UsizeMax
      then Some(Assignment(Text.Value(address), Text.Value(value)))
      else None
  {
    SplitAssignment(address, value);
    AssignmentOfComplete(address, value);
  }

  /** The three pieces of `mem[a] = v` give the two numbers when both fit a `usize`. */
  lemma AssignmentOfComplete(address: string, value: string)
    requires address != [] && Text.AllDigits(address) && value != [] && Text.AllDigits(value)
    ensures AssignmentOf(["mem[" + address + "]", "=", value]) ==
      if Text.Value(address) <= Text.UsizeMax && Text.Value(value) <= Text.UsizeMax
      then Some(Assignment(Text.Value(address), Text.Value(value)))
      else None
  {
    Bracketed(address);
  }

  /** Whatever `ParseAssignment` accepts is a `mem[a] = v` line, and the numbers are its two runs of digits. */
  lemma ParseAssignmentSound(line: string)
    requires ParseAssignment(line).Some?
    ensures exists address, value :: (AssignmentSyntax(line, address, value) &&
      ParseAssignment(line).value.address == Text.Value(address) &&
      ParseAssignment(line).value.value == Text.Value(value))
  {
    var parts := Text.SplitOn(line, ' ');
    Text.SplitOnJoin(line, ' ');
    AssignmentOfSound(parts);
    assert AssignmentSyntax(line, parts[0][4..|parts[0]| - 1], parts[2]);
  }

  /** The pieces `AssignmentOf` accepts, joined with spaces, read `mem[a] = v` for its two numbers. */
  lemma AssignmentOfSound(parts: seq<string>)
    requires AssignmentOf(parts).Some?
    ensures |parts| == 3 && |parts[0]| >= 5
    ensures var address := parts[0][4..|parts[0]| - 1];
      AssignmentSyntax(Text.JoinWith(parts, ' '), address, parts[2]) &&
      AssignmentOf(parts).value.address == Text.Value(address) &&
      AssignmentOf(parts).value.value == Text.Value(parts[2])
  {
    var address := parts[0][4..|parts[0]| - 1];
    assert parts == [parts[0], "=", parts[2]];
    Text.JoinThree(parts[0], "=", parts[2], ' ');
    Unbracket(parts[0]);
  }

  /** A `mask = ...` line with 36 mask characters. */
  predicate MaskLine(line: string) {
    |line| == 43 && line[..7] == "mask = " && MaskSyntax(line[7..])
  }

  /** `parse` on a `mask = ...` line: the mask its 36 characters describe. */
  lemma ParseMaskLine(line: string)
    requires MaskLine(line)
    ensures ParseLine(line) == Some(UpdateMask(MaskOf(line[7..])))
  {
  }

  /** `parse` on `mem[a] = v`: the assignment when both numbers fit a `usize`, else `None` (a panic). */
  lemma ParseAssignmentLine(line: string, address: string, value: string)
    requires AssignmentSyntax(line, address, value)
    ensures ParseLine(line) ==
      if Text.Value(address) <= Text.UsizeMax && Text.Value(value) <= Text.UsizeMax
      then Some(Assignment(Text.Value(address), Text.Value(value)))
      else None
  {
    NotMaskLine(line, address, value);
    ParseAssignmentComplete(line, address, value);
  }

  /** `parse` accepts nothing else: a line of neither form is `None`, where the Rust code panics. */
  lemma ParseLineSound(line: string)
    requires ParseLine(line).Some?
    ensures MaskLine(line) || exists address, value :: AssignmentSyntax(line, address, value)
  {
    if !MaskLine(line) {
      ParseAssignmentSound(line);
    }
  }

  /** A `mem[...]` line is not a mask line: the second character differs. */
  lemma NotMaskLine(line: string, address: string, value: string)
    requires AssignmentSyntax(line, address, value)
    ensures !MaskLine(line)
  {
    assert line[1] == 'e';
  }


  /**
   * One line of the program; `None` where the Rust code panics (a line of neither form, or a
   * number too large for `usize`).
   */
  function ParseLine(line: string): (r: Option<Operation>)
    ensures r.Some? && r.value.UpdateMask? ==> MaskLine(line) && r.value.mask == MaskOf(line[7..])
  {
    if MaskLine(line) then Some(UpdateMask(MaskOf(line[7..])))
    else ParseAssignment(line)
  }

  /** `parse`: every line, in order; `None` if any line panics. */
  function Parse(lines: seq<string>): (r: Option<seq<Operation>>)
    ensures r.Some? <==> forall k :: 0 <= k < |lines| ==> ParseLine(lines[k]).Some?
    ensures r.Some? ==> |r.value| == |lines| && forall k :: 0 <= k < |lines| ==> ParseLine(lines[k]) == Some(r.value[k])
  {
    if forall k :: 0 <= k < |lines| ==> ParseLine(lines[k]).Some? then
      Some(seq(|lines|, k requires 0 <= k < |lines| => ParseLine(lines[k]).value))
    else None
  }

  // ---- The sum of the memory ----

  /** `values.values().sum()`: the sum of the values in memory. */
  ghost function MemorySum(m: map<Usize, Usize>): nat
    decreases |m|
  {
    if m == map[] then 0
    else
      var k :| k in m;
      assert |m - {k}| < |m| by { assert (m - {k}).Keys == m.Keys - {k}; }
      m[k] + MemorySum(m - {k})
  }

  /** The sum does not depend on the order in which the keys are visited. */
  lemma {:induction false} MemorySumRemove(m: map<Usize, Usize>, k: Usize)
    requires k in m
    ensures MemorySum(m) == m[k] + MemorySum(m - {k})
    decreases |m|
  {
    var j :| j in m && MemorySum(m) == m[j] + MemorySum(m - {j});
    if j != k {
      assert (m - {j}).Keys == m.Keys - {j};
      assert (m - {k}).Keys == m.Keys - {k};
      MemorySumRemove(m - {j}, k);
      MemorySumRemove(m - {k}, j);
      assert m - {j} - {k} == m - {k} - {j};
    }
  }

  /** Writing `v` to `k` replaces what `k` held before: the sum counts each address once, at its last value. */
  lemma MemorySumWrite(m: map<Usize, Usize>, k: Usize, v: Usize)
    ensures MemorySum(m[k := v]) == MemorySum(m) - (if k in m then m[k] else 0) + v
  {
    MemorySumRemove(m[k := v], k);
    assert m[k := v] - {k} == m - {k};
    if k in m {
      MemorySumRemove(m, k);
    } else {
      assert m - {k} == m;
    }
  }

  // ---- Decoder version 1 ----

  /** The value part 1 writes: `value & and_mask | or_mask`. */
  function MaskValue(m: Mask, value: Usize): Usize {
    FromWord(Or(And(ToWord(value), m.andMask), m.orMask))
  }

  /** Part 1 writes a value with the mask's `1` bits set, its `0` bits cleared and every other bit kept. */
  lemma MaskValueBits(s: string, value: Usize, j: BitIndex)
    requires MaskSyntax(s)
    ensures ToWord(MaskValue(MaskOf(s), value))[j] ==
      if j < 36 && Governs(s, j) == '1' then true
      else if j < 36 && Governs(s, j) == '0' then false
      else ToWord(value)[j]
  {
  }

  /** The state of the part-1 loop: the last mask seen, if any, and the memory. */
  datatype Machine = Machine(mask: Option<Mask>, values: map<Usize, Usize>)

  /** One operation of part 1; `None` where the Rust code panics, an assignment before any mask. */
  function Step1(st: Machine, op: Operation): (r: Option<Machine>)
    ensures r.None? <==> op.Assignment? && st.mask.None?
    ensures op.UpdateMask? ==> r == Some(Machine(Some(op.mask), st.values))
    ensures op.Assignment? && r.Some? ==> (r.value.mask == st.mask &&
      r.value.values.Keys == st.values.Keys + {op.address} &&
      r.value.values[op.address] == MaskValue(st.mask.value, op.value) &&
      forall a :: a in st.values && a != op.address ==> r.value.values[a] == st.values[a])
  {
    match op
    case UpdateMask(m) => Some(st.(mask := Some(m)))
    case Assignment(address, value) =>
      if st.mask.None? then None
      else Some(st.(values := st.values[address := MaskValue(st.mask.value, value)]))
  }

  /** The part-1 loop over the first `n` operations, from no mask and an empty memory. */
  function Run1(ops: seq<Operation>, n: nat): Option<Machine>
    requires n <= |ops|
  {
    if n == 0 then Some(Machine(None, map[]))
    else match Run1(ops, n - 1)
      case None => None
      case Some(st) => Step1(st, ops[n - 1])
  }

  /** An operation after which no assignment before `n` touches `address`. */
  ghost predicate NoWriteTo(ops: seq<Operation>, from: nat, n: nat, address: Usize)
    requires from <= n <= |ops|
  {
    forall k :: from <= k < n ==> !(ops[k].Assignment? && ops[k].address == address)
  }

  /**
   * A later write overwrites an earlier one: once operation `w` writes `address`, the memory holds
   * its masked value at that address until another assignment to it, whatever came before.
   */
  lemma {:induction false} LastWriteWins(ops: seq<Operation>, w: nat, n: nat)
    requires w < n <= |ops| && ops[w].Assignment? && NoWriteTo(ops, w + 1, n, ops[w].address)
    requires Run1(ops, w).Some? && Run1(ops, w).value.mask.Some?
    ensures Run1(ops, n).Some? && ops[w].address in Run1(ops, n).value.values
    ensures Run1(ops, n).value.values[ops[w].address] == MaskValue(Run1(ops, w).value.mask.value, ops[w].value)
  {
    if n > w + 1 {
      LastWriteWins(ops, w, n - 1);
      MaskStays(ops, w, n - 1);
    }
  }

  /** Once some mask is set, the part-1 loop never panics again. */
  lemma {:induction false} MaskStays(ops: seq<Operation>, w: nat, n: nat)
    requires w <= n <= |ops|
    requires Run1(ops, w).Some? && Run1(ops, w).value.mask.Some?
    ensures Run1(ops, n).Some? && Run1(ops, n).value.mask.Some?
  {
    if n > w {
      MaskStays(ops, w, n - 1);
    }
  }

  /**
   * Part 1 of `main`: run the program, keeping the last mask and writing masked values; the
   * solution is the sum of the memory. `None` where an assignment comes before any mask.
   */
  method Part1(ops: seq<Operation>) returns (r: Option<map<Usize, Usize>>)
    ensures r.None? <==> Run1(ops, |ops|).None?
    ensures r.Some? ==> r.value == Run1(ops, |ops|).value.values
  {
    var mask: Option<Mask> := None;
    var values: map<Usize, Usize> := map[];
    for i := 0 to |ops|
      invariant Run1(ops, i) == Some(Machine(mask, values))
    {
      match ops[i] {
        case UpdateMask(m) =>
          mask := Some(m);
        case Assignment(address, value) =>
          if mask.None? {
            MaskStaysNone(ops, i + 1, |ops|);
            return None;
          }
          values := values[address := MaskValue(mask.value, value)];
      }
    }
    return Some(values);
  }

  /** Once the part-1 loop panics it stays panicked. */
  lemma {:induction false} MaskStaysNone(ops: seq<Operation>, w: nat, n: nat)
    requires w <= n <= |ops| && Run1(ops, w).None?
    ensures Run1(ops, n).None?
  {
    if n > w {
      MaskStaysNone(ops, w, n - 1);
    }
  }

  // ---- Decoder version 2 ----

  /** `(address & floating_bit_mask) | or_mask`: the floating bits cleared, the `1` bits set. */
  function MaskedAddress(m: Mask, address: Usize): Word {
    Or(And(ToWord(address), m.floatingBitMask), m.orMask)
  }

  /** The masked address: bits under `X` cleared, bits under `1` set, every other bit from the address. */
  lemma MaskedAddressBits(s: string, address: Usize, j: BitIndex)
    requires MaskSyntax(s)
    ensures MaskedAddress(MaskOf(s), address)[j] ==
      if j < 36 && Governs(s, j) == 'X' then false
      else if j < 36 && Governs(s, j) == '1' then true
      else ToWord(address)[j]
  {
  }

  /**
   * `build_addresses`: the start address with `floating_bits[0]` set, then with it cleared, each
   * expanded over the remaining floating bits, the set one first.
   */
  function Addresses(bits: seq<BitIndex>, start: Word): (r: seq<Word>)
    requires |bits| > 0
    decreases |bits|
  {
    var orAddress := start[bits[0] := true];
    var andAddress := start[bits[0] := false];
    if |bits| > 1 then Addresses(bits[1..], orAddress) + Addresses(bits[1..], andAddress)
    else [orAddress, andAddress]
  }

  /** `w` equals `start` everywhere except possibly at the given bits. */
  ghost predicate AgreesOutside(w: Word, start: Word, bits: seq<BitIndex>) {
    forall j :: 0 <= j < Width && j !in bits ==> w[j] == start[j]
  }

  /** `k` floating bits expand to 2^k addresses. */
  lemma {:induction false} AddressesCount(bits: seq<BitIndex>, start: Word)
    requires |bits| > 0
    ensures |Addresses(bits, start)| == Pow2(|bits|)
    decreases |bits|
  {
    if |bits| > 1 {
      AddressesCount(bits[1..], start[bits[0] := true]);
      AddressesCount(bits[1..], start[bits[0] := false]);
    }
  }

  /** Every address built keeps the start address outside the floating bits. */
  lemma {:induction false} AddressesAgree(bits: seq<BitIndex>, start: Word)
    requires |bits| > 0
    ensures forall w :: w in Addresses(bits, start) ==> AgreesOutside(w, start, bits)
    decreases |bits|
  {
    if |bits| > 1 {
      AddressesAgree(bits[1..], start[bits[0] := true]);
      AddressesAgree(bits[1..], start[bits[0] := false]);
    }
  }

  /** The first floating bit is set in the first half of the addresses and cleared in the second. */
  lemma AddressesHalves(bits: seq<BitIndex>, start: Word, p: nat)
    requires |bits| > 1 && StrictlyIncreasing(bits)
    requires p < |Addresses(bits, start)|
    ensures Addresses(bits, start)[p][bits[0]] == (p < |Addresses(bits[1..], start[bits[0] := true])|)
  {
    var o := Addresses(bits[1..], start[bits[0] := true]);
    var a := Addresses(bits[1..], start[bits[0] := false]);
    assert bits[0] !in bits[1..];
    AddressesAgree(bits[1..], start[bits[0] := true]);
    AddressesAgree(bits[1..], start[bits[0] := false]);
    if p < |o| {
      assert o[p] in o;
    } else {
      assert a[p - |o|] in a;
    }
  }

  /** Every combination of the floating bits is built. */
  lemma {:induction false} AddressesCover(bits: seq<BitIndex>, start: Word, w: Word)
    requires |bits| > 0 && AgreesOutside(w, start, bits)
    ensures w in Addresses(bits, start)
    decreases |bits|
  {
    var b := bits[0];
    var next := start[b := w[b]];
    assert AgreesOutside(w, next, bits[1..]);
    if |bits| > 1 {
      AddressesCover(bits[1..], next, w);
    } else {
      assert w == next;
    }
    if w[b] {
      assert next == start[b := true];
    } else {
      assert next == start[b := false];
    }
  }

  /** With strictly increasing floating bits, no address is built twice. */
  lemma {:induction false} AddressesDistinct(bits: seq<BitIndex>, start: Word)
    requires |bits| > 0 && StrictlyIncreasing(bits)
    ensures Distinct(Addresses(bits, start))
    decreases |bits|
  {
    if |bits| > 1 {
      var o := Addresses(bits[1..], start[bits[0] := true]);
      var a := Addresses(bits[1..], start[bits[0] := false]);
      AddressesDistinct(bits[1..], start[bits[0] := true]);
      AddressesDistinct(bits[1..], start[bits[0] := false]);
      var r := Addresses(bits, start);
      assert r == o + a;
      forall p, q | 0 <= p < q < |r|
        ensures r[p] != r[q]
      {
        if q < |o| {
          assert r[p] == o[p] && r[q] == o[q];
        } else if |o| <= p {
          assert r[p] == a[p - |o|] && r[q] == a[q - |o|];
        } else {
          AddressesHalves(bits, start, p);
          AddressesHalves(bits, start, q);
          assert r[p][bits[0]] && !r[q][bits[0]];
        }
      }
    } else {
      assert Addresses(bits, start)[0][bits[0]] && !Addresses(bits, start)[1][bits[0]];
    }
  }

  /**
   * `build_addresses` pushing onto `addresses`; `None` where the Rust code panics on
   * `floating_bits[0]` because the mask has no `X`.
   */
  method BuildAddresses(bits: seq<BitIndex>, start: Word, addresses: seq<Word>) returns (r: Option<seq<Word>>)
    ensures r.None? <==> |bits| == 0
    ensures r.Some? ==> r.value == addresses + Addresses(bits, start)
    decreases |bits|
  {
    if |bits| == 0 {
      return None;
    }
    var orAddress := start[bits[0] := true];
    var andAddress := start[bits[0] := false];
    var acc := addresses;
    if |bits| > 1 {
      var rest := bits[1..];
      ghost var first, second := Addresses(rest, orAddress), Addresses(rest, andAddress);
      var built := BuildAddresses(rest, orAddress, acc);
      acc := built.value;
      built := BuildAddresses(rest, andAddress, acc);
      acc := built.value;
      assert acc == addresses + (first + second);
    } else {
      acc := acc + [orAddress];
      acc := acc + [andAddress];
    }
    return Some(acc);
  }

  /** The numbers part 2 writes to: the addresses built from the masked address. */
  function Decoded(m: Mask, address: Usize): (r: seq<Usize>)
    requires |m.floatingBits| > 0
    ensures |r| == |Addresses(m.floatingBits, MaskedAddress(m, address))|
  {
    var ws := Addresses(m.floatingBits, MaskedAddress(m, address));
    seq(|ws|, k requires 0 <= k < |ws| => FromWord(ws[k]))
  }

  /**
   * What decoder version 2 writes to: for a mask with `k` floating bits, 2^k distinct addresses,
   * exactly those whose bits under `1` are set, whose bits under `0` (and from 36 up) are the
   * address's own, and whose bits under `X` take every combination.
   */
  lemma DecodedMeans(s: string, address: Usize)
    requires MaskSyntax(s) && |MaskOf(s).floatingBits| > 0
    ensures var r := Decoded(MaskOf(s), address);
      |r| == Pow2(|MaskOf(s).floatingBits|) &&
      Distinct(r) &&
      forall n: Usize :: n in r <==> Fits(s, address, n)
  {
    var m := MaskOf(s);
    var start := MaskedAddress(m, address);
    var ws := Addresses(m.floatingBits, start);
    var r := Decoded(m, address);
    AddressesCount(m.floatingBits, start);
    AddressesDistinct(m.floatingBits, start);
    AddressesAgree(m.floatingBits, start);
    forall p, q | 0 <= p < q < |r|
      ensures r[p] != r[q]
    {
      if r[p] == r[q] {
        FromWordInjective(ws[p], ws[q]);
      }
    }
    forall n: Usize
      ensures n in r <==> Fits(s, address, n)
    {
      if n in r {
        DecodedFits(s, address, n);
      }
      if Fits(s, address, n) {
        FitsDecoded(s, address, n);
      }
    }
  }

  /** The floating bits of a mask are exactly the bits under an `X`. */
  lemma FloatingBitsAreX(s: string, j: BitIndex)
    requires MaskSyntax(s)
    ensures j in MaskOf(s).floatingBits <==> j < 36 && Governs(s, j) == 'X'
  {
    var bits := MaskOf(s).floatingBits;
    if j in bits {
      var k :| 0 <= k < |bits| && bits[k] == j;
    }
  }

  /** The masked address agrees with every address `n` that fits, away from the floating bits. */
  lemma MaskedAgrees(s: string, address: Usize, n: Usize)
    requires MaskSyntax(s)
    ensures AgreesOutside(ToWord(n), MaskedAddress(MaskOf(s), address), MaskOf(s).floatingBits) <==> Fits(s, address, n)
  {
    var m := MaskOf(s);
    var start := MaskedAddress(m, address);
    forall j: BitIndex
      ensures j in m.floatingBits <==> j < 36 && Governs(s, j) == 'X'
      ensures start[j] == if j < 36 && Governs(s, j) == 'X' then false
        else if j < 36 && Governs(s, j) == '1' then true
        else ToWord(address)[j]
    {
      MaskedAddressBits(s, address, j);
      FloatingBitsAreX(s, j);
    }
  }

  lemma DecodedFits(s: string, address: Usize, n: Usize)
    requires MaskSyntax(s) && |MaskOf(s).floatingBits| > 0
    requires n in Decoded(MaskOf(s), address)
    ensures Fits(s, address, n)
  {
    var m := MaskOf(s);
    var start := MaskedAddress(m, address);
    var ws := Addresses(m.floatingBits, start);
    var r := Decoded(m, address);
    var k :| 0 <= k < |r| && r[k] == n;
    assert ws[k] in ws;
    AddressesAgree(m.floatingBits, start);
    assert ToWord(n) == ws[k];
    MaskedAgrees(s, address, n);
  }

  lemma FitsDecoded(s: string, address: Usize, n: Usize)
    requires MaskSyntax(s) && |MaskOf(s).floatingBits| > 0
    requires Fits(s, address, n)
    ensures n in Decoded(MaskOf(s), address)
  {
    var m := MaskOf(s);
    var start := MaskedAddress(m, address);
    var ws := Addresses(m.floatingBits, start);
    var r := Decoded(m, address);
    MaskedAgrees(s, address, n);
    AddressesCover(m.floatingBits, start, ToWord(n));
    var k :| 0 <= k < |ws| && ws[k] == ToWord(n);
    WordRoundTrip(n);
    assert r[k] == n;
  }

  /** `n` is one of the addresses the mask `s` decodes `address` to. */
  ghost predicate Fits(s: string, address: Usize, n: Usize)
    requires MaskSyntax(s)
  {
    forall j: BitIndex :: !(j < 36 && Governs(s, j) == 'X') ==>
      ToWord(n)[j] == ((j < 36 && Governs(s, j) == '1') || ToWord(address)[j])
  }

  /** The memory `values` after `value` is written to each of `addresses`. */
  function Written(values: map<Usize, Usize>, addresses: seq<Usize>, value: Usize): (r: map<Usize, Usize>)
    ensures r.Keys == values.Keys + set k | 0 <= k < |addresses| :: addresses[k]
    ensures forall a :: a in r ==> r[a] == if a in addresses then value else values[a]
  {
    map a | a in values.Keys + set k | 0 <= k < |addresses| :: addresses[k] :: if a in addresses then value else values[a]
  }

  /** `for addr in addresses { values.insert(addr, value) }`: every address written, nothing else changed. */
  method WriteAll(values: map<Usize, Usize>, addresses: seq<Usize>, value: Usize) returns (r: map<Usize, Usize>)
    ensures r.Keys == values.Keys + set k | 0 <= k < |addresses| :: addresses[k]
    ensures forall a :: a in r ==> r[a] == if a in addresses then value else values[a]
    ensures r == Written(values, addresses, value)
  {
    r := values;
    for i := 0 to |addresses|
      invariant r.Keys == values.Keys + set k | 0 <= k < i :: addresses[k]
      invariant forall a :: a in r ==> r[a] == if a in addresses[..i] then value else values[a]
    {
      assert addresses[..i + 1] == addresses[..i] + [addresses[i]];
      r := r[addresses[i] := value];
    }
    assert addresses[..|addresses|] == addresses;
    var w := Written(values, addresses, value);
    assert r.Keys == w.Keys;
    assert forall a :: a in r ==> r[a] == w[a];
  }

  /** One operation of part 2; `None` where the Rust code panics: no mask yet, or a mask without `X`. */
  function Step2(st: Machine, op: Operation): (r: Option<Machine>)
    ensures r.None? <==> op.Assignment? && (st.mask.None? || |st.mask.value.floatingBits| == 0)
    ensures op.UpdateMask? ==> r == Some(Machine(Some(op.mask), st.values))
  {
    match op
    case UpdateMask(m) => Some(st.(mask := Some(m)))
    case Assignment(address, value) =>
      if st.mask.None? || |st.mask.value.floatingBits| == 0 then None
      else
        Some(st.(values := Written(st.values, Decoded(st.mask.value, address), value)))
  }

  /** `build_addresses` from the masked address, each word read back as a `usize`; `None` where it panics. */
  method DecodeAddresses(m: Mask, address: Usize) returns (r: Option<seq<Usize>>)
    ensures r.None? <==> |m.floatingBits| == 0
    ensures r.Some? ==> r.value == Decoded(m, address)
  {
    var built := BuildAddresses(m.floatingBits, MaskedAddress(m, address), []);
    if built.None? {
      return None;
    }
    var ws := built.value;
    r := Some(seq(|ws|, k requires 0 <= k < |ws| => FromWord(ws[k])));
  }

  /** The part-2 loop over the first `n` operations. */
  function Run2(ops: seq<Operation>, n: nat): Option<Machine>
    requires n <= |ops|
  {
    if n == 0 then Some(Machine(None, map[]))
    else match Run2(ops, n - 1)
      case None => None
      case Some(st) => Step2(st, ops[n - 1])
  }

  lemma {:induction false} Run2StaysNone(ops: seq<Operation>, w: nat, n: nat)
    requires w <= n <= |ops| && Run2(ops, w).None?
    ensures Run2(ops, n).None?
  {
    if n > w {
      Run2StaysNone(ops, w, n - 1);
    }
  }

  /** Part 2 of `main`: each assignment writes its value to every decoded address. */
  method Part2(ops: seq<Operation>) returns (r: Option<map<Usize, Usize>>)
    ensures r.None? <==> Run2(ops, |ops|).None?
    ensures r.Some? ==> r.value == Run2(ops, |ops|).value.values
  {
    var mask: Option<Mask> := None;
    var values: map<Usize, Usize> := map[];
    for i := 0 to |ops|
      invariant Run2(ops, i) == Some(Machine(mask, values))
    {
      match ops[i] {
        case UpdateMask(m) =>
          mask := Some(m);
        case Assignment(address, value) =>
          if mask.None? {
            Run2StaysNone(ops, i + 1, |ops|);
            return None;
          }
          var addresses := DecodeAddresses(mask.value, address);
          if addresses.None? {
            Run2StaysNone(ops, i + 1, |ops|);
            return None;
          }
          values := WriteAll(values, addresses.value, value);
      }
    }
    return Some(values);
  }
}
