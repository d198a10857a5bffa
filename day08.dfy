/** Day 8 (handheld halting): the boot code interpreter, its loop detection and the one-instruction repair. */
module Day8 {
  import Arith

  /** `Op`: an instruction and its signed argument. */
  datatype Op = Acc(arg: int) | Jmp(arg: int) | Nop(arg: int)

  /** `RunResult`, plus `Panic` for a cursor that leaves the program anywhere but just past its end. */
  datatype RunResult = Cycle(acc: int) | Completion(acc: int) | Panic

  /** A snapshot of the machine's `State`. */
  datatype Machine = Machine(cursor: int, accumulator: int)

  /** `flip_corruption`: Jmp and Nop trade places, keeping their argument; Acc is left alone. */
  function Flip(op: Op): (r: Op)
    ensures r.arg == op.arg && (r.Acc? <==> op.Acc?)
    ensures op.Jmp? <==> r.Nop?
  {
    match op
    case Jmp(v) => Nop(v)
    case Nop(v) => Jmp(v)
    case Acc(_) => op
  }

  /** The effect of `execute` on a snapshot. */
  function Step(op: Op, m: Machine): Machine {
    match op
    case Acc(v) => Machine(m.cursor + 1, m.accumulator + v)
    case Jmp(v) => Machine(m.cursor + v, m.accumulator)
    case Nop(_) => Machine(m.cursor + 1, m.accumulator)
  }

  /** Flipping twice restores the instruction, so the repair loop can undo each trial. */
  lemma FlipInvolution(op: Op)
    ensures Flip(Flip(op)) == op
  {
  }

  /** A repaired instruction has the same effect on the accumulator as the original one. */
  lemma FlipKeepsAccumulator(op: Op, m: Machine)
    ensures Step(Flip(op), m).accumulator == Step(op, m).accumulator
    ensures op.Acc? ==> Step(Flip(op), m) == Step(op, m)
  {
  }

  /** `State`: the cursor and the accumulator, updated in place by `execute`. */
  class State {
    var cursor: int
    var accumulator: int

    /** `State::default()`. */
    constructor ()
      ensures cursor == 0 && accumulator == 0
    {
      cursor, accumulator := 0, 0;
    }

    function Snapshot(): Machine
      reads this
    {
      Machine(cursor, accumulator)
    }

    /** `Op::execute`: one case per instruction. */
    method Execute(op: Op)
      modifies this
      ensures op.Acc? ==> accumulator == old(accumulator) + op.arg && cursor == old(cursor) + 1
      ensures op.Jmp? ==> accumulator == old(accumulator) && cursor == old(cursor) + op.arg
      ensures op.Nop? ==> accumulator == old(accumulator) && cursor == old(cursor) + 1
      ensures Snapshot() == Step(op, old(Snapshot()))
    {
      match op
      case Acc(v) =>
        accumulator := accumulator + v;
        cursor := cursor + 1;
      case Jmp(v) =>
        cursor := cursor + v;
      case Nop(_) =>
        cursor := cursor + 1;
    }
  }

  // ---- Specification: the walk of the program from the default state ----

  /** The machine after `k` instructions, from cursor 0 and accumulator 0; it stays put once the cursor is outside the program. */
  function Walk(ops: seq<Op>, k: nat): Machine {
    if k == 0 then Machine(0, 0)
    else
      var m := Walk(ops, k - 1);
      if 0 <= m.cursor < |ops| then Step(ops[m.cursor], m) else m
  }

  /** The cursors of the first `k` instructions executed. */
  ghost function Visited(ops: seq<Op>, k: nat): set<int> {
    if k == 0 then {} else Visited(ops, k - 1) + {Walk(ops, k - 1).cursor}
  }

  /** Each of the first `k` instructions lies inside the program and had not been executed before. */
  ghost predicate Fresh(ops: seq<Op>, k: nat) {
    k == 0 || (Fresh(ops, k - 1) && 0 <= Walk(ops, k - 1).cursor < |ops| && Walk(ops, k - 1).cursor !in Visited(ops, k - 1))
  }

  /** The walk stops after `k` instructions: all of them fresh, the next one outside the program or seen before. */
  ghost predicate Halts(ops: seq<Op>, k: nat) {
    Fresh(ops, k) && !Fresh(ops, k + 1)
  }

  /** What `run` reports when the walk stops at `m` after `k` instructions. */
  function Verdict(ops: seq<Op>, m: Machine, k: nat): RunResult {
    if 0 <= m.cursor < |ops| then Cycle(m.accumulator)
    else if m.cursor == |ops| && k > 0 then Completion(m.accumulator)
    else Panic
  }

  lemma {:induction false} FreshPrefix(ops: seq<Op>, j: nat, k: nat)
    requires j <= k && Fresh(ops, k)
    ensures Fresh(ops, j)
    decreases k
  {
    if j < k {
      FreshPrefix(ops, j, k - 1);
    }
  }

  /** The fresh cursors are `k` distinct positions inside the program, so at most `|ops|` instructions run. */
  lemma {:induction false} FreshBound(ops: seq<Op>, k: nat)
    requires Fresh(ops, k)
    ensures |Visited(ops, k)| == k && Visited(ops, k) <= Positions(|ops|)
    ensures k <= |ops|
  {
    if k > 0 {
      FreshBound(ops, k - 1);
      var c := Walk(ops, k - 1).cursor;
      assert Visited(ops, k) == Visited(ops, k - 1) + {c};
      assert c !in Visited(ops, k - 1) && c in Positions(|ops|);
    }
    Arith.SubsetCard(Visited(ops, k), Positions(|ops|));
  }

  /** The positions `0 .. n`. */
  ghost function Positions(n: nat): (r: set<int>)
    ensures forall c :: c in r <==> 0 <= c < n
    ensures |r| == n
  {
    if n == 0 then {} else Positions(n - 1) + {n - 1}
  }

  /** Every program stops: some `k <= |ops|` has fresh instructions up to it and none after. */
  lemma HaltsExists(ops: seq<Op>)
    ensures exists k: nat :: k <= |ops| && Halts(ops, k)
  {
    var k: nat := 0;
    while Fresh(ops, k + 1)
      invariant Fresh(ops, k)
      decreases |ops| - k
    {
      FreshBound(ops, k + 1);
      k := k + 1;
    }
    FreshBound(ops, k);
    assert Halts(ops, k);
  }

  /** The walk stops only once. */
  lemma HaltsUnique(ops: seq<Op>, k: nat, k': nat)
    requires Halts(ops, k) && Halts(ops, k')
    ensures k == k'
  {
    if k < k' {
      FreshPrefix(ops, k + 1, k');
    } else if k' < k {
      FreshPrefix(ops, k' + 1, k);
    }
  }

  /** The result of `run` on a program. */
  ghost function Outcome(ops: seq<Op>): RunResult {
    HaltsExists(ops);
    var k': nat :| k' <= |ops| && Halts(ops, k');
    Verdict(ops, Walk(ops, k'), k')
  }

  /** Executing a fresh instruction inside the program: one more step of the walk, one more visited cursor. */
  lemma Advance(ops: seq<Op>, k: nat)
    requires Fresh(ops, k) && 0 <= Walk(ops, k).cursor < |ops| && Walk(ops, k).cursor !in Visited(ops, k)
    ensures Fresh(ops, k + 1) && k + 1 <= |ops|
    ensures Visited(ops, k + 1) == Visited(ops, k) + {Walk(ops, k).cursor}
    ensures Walk(ops, k + 1) == Step(ops[Walk(ops, k).cursor], Walk(ops, k))
  {
    FreshBound(ops, k + 1);
  }

  /** The outcome is the verdict at the one place where the walk stops. */
  lemma OutcomeIs(ops: seq<Op>, k: nat)
    requires Halts(ops, k)
    ensures Outcome(ops) == Verdict(ops, Walk(ops, k), k)
  {
    HaltsExists(ops);
    var k': nat :| k' <= |ops| && Halts(ops, k') && Outcome(ops) == Verdict(ops, Walk(ops, k'), k');
    HaltsUnique(ops, k, k');
  }

  /**
   * `run`: execute from the default state, marking each executed instruction. `Cycle` at the first
   * instruction about to run a second time, `Completion` as soon as the cursor is exactly one past
   * the end; a cursor anywhere else outside the program is an index panic. At most `|ops|`
   * instructions run.
   */
  method Run(ops: seq<Op>) returns (r: RunResult)
    ensures exists k: nat :: k <= |ops| && Halts(ops, k) && r == Verdict(ops, Walk(ops, k), k)
    ensures r == Outcome(ops)
  {
    var state := new State();
    var executed := new bool[|ops|](_ => false);
    ghost var k: nat := 0;
    while true
      invariant state.Snapshot() == Walk(ops, k) && Fresh(ops, k) && k <= |ops|
      invariant k > 0 ==> state.cursor != |ops|
      invariant forall c :: 0 <= c < |ops| ==> (executed[c] <==> c in Visited(ops, k))
      decreases |ops| - k
    {
      if !(0 <= state.cursor < |ops|) {
        r := Panic;
        assert Halts(ops, k) && r == Verdict(ops, Walk(ops, k), k);
        break;
      }
      if executed[state.cursor] {
        r := Cycle(state.accumulator);
        assert Halts(ops, k) && r == Verdict(ops, Walk(ops, k), k);
        break;
      }
      var c := state.cursor;
      Advance(ops, k);
      executed[c] := true;
      state.Execute(ops[c]);
      k := k + 1;
      if state.cursor == |ops| {
        r := Completion(state.accumulator);
        assert Halts(ops, k) && r == Verdict(ops, Walk(ops, k), k);
        break;
      }
    }
    OutcomeIs(ops, k);
  }

  /** The outcome of `run` on each trial: the program with instruction `i` flipped. */
  ghost function Trials(ops: seq<Op>): seq<RunResult> {
    seq(|ops|, i requires 0 <= i < |ops| => Outcome(ops[i := Flip(ops[i])]))
  }

  /** Instruction `i` is a Jmp or Nop whose trial panics. */
  predicate PanicsAt(ops: seq<Op>, trials: seq<RunResult>, i: nat)
    requires i < |ops| == |trials|
  {
    !ops[i].Acc? && trials[i].Panic?
  }

  /** Instruction `i` is a Jmp or Nop whose trial completes with accumulator `acc`. */
  predicate CompletesAt(ops: seq<Op>, trials: seq<RunResult>, i: nat, acc: int)
    requires i < |ops| == |trials|
  {
    !ops[i].Acc? && trials[i] == Completion(acc)
  }

  /** What the repair loop has printed, and whether a trial has panicked and ended the process. */
  datatype Repaired = Repaired(found: seq<(nat, int)>, panicked: bool)

  /**
   * The repair loop over the first `n` instructions, given the outcome of each trial: `(i, acc)`
   * for each Jmp or Nop whose flip completes with `acc`, up to the first flip that panics, which
   * ends the process.
   */
  function Repairs(ops: seq<Op>, trials: seq<RunResult>, n: nat): Repaired
    requires n <= |ops| == |trials|
  {
    if n == 0 then Repaired([], false)
    else
      var prev := Repairs(ops, trials, n - 1);
      var i := n - 1;
      if prev.panicked || ops[i].Acc? then prev
      else if trials[i].Panic? then Repaired(prev.found, true)
      else if trials[i].Completion? then Repaired(prev.found + [(i, trials[i].acc)], false)
      else prev
  }

  /** The repair loop panics exactly when some Jmp or Nop among the first `n` panics once flipped. */
  lemma {:induction false} RepairsPanicked(ops: seq<Op>, trials: seq<RunResult>, n: nat)
    requires n <= |ops| == |trials|
    ensures Repairs(ops, trials, n).panicked <==> exists i :: 0 <= i < n && PanicsAt(ops, trials, i)
  {
    if n > 0 {
      var i := n - 1;
      RepairsPanicked(ops, trials, i);
      if Repairs(ops, trials, i).panicked {
        var w :| 0 <= w < i && PanicsAt(ops, trials, w);
        assert 0 <= w < n && PanicsAt(ops, trials, w);
      } else if !PanicsAt(ops, trials, i) {
        assert forall w :: 0 <= w < n && PanicsAt(ops, trials, w) ==> w < i;
      }
    }
  }

  /**
   * The repair loop reports `(i, acc)` exactly when flipping `i` completes with `acc` and no earlier
   * flip panicked, in increasing order of `i`.
   */
  lemma {:induction false} RepairsFound(ops: seq<Op>, trials: seq<RunResult>, n: nat)
    requires n <= |ops| == |trials|
    ensures forall p :: p in Repairs(ops, trials, n).found <==>
      p.0 < n && CompletesAt(ops, trials, p.0, p.1) && forall j :: 0 <= j < p.0 ==> !PanicsAt(ops, trials, j)
    ensures forall a, b :: 0 <= a < b < |Repairs(ops, trials, n).found| ==>
      Repairs(ops, trials, n).found[a].0 < Repairs(ops, trials, n).found[b].0
  {
    if n > 0 {
      var i := n - 1;
      RepairsFound(ops, trials, i);
      RepairsPanicked(ops, trials, i);
      var prev := Repairs(ops, trials, i);
      if !prev.panicked && !ops[i].Acc? && trials[i].Completion? {
        assert Repairs(ops, trials, n).found == prev.found + [(i, trials[i].acc)];
        assert forall j :: 0 <= j < i ==> !PanicsAt(ops, trials, j);
      }
    }
  }

  /** After the first trial that panics, no later instruction changes what the repair loop reports. */
  lemma {:induction false} RepairsStop(ops: seq<Op>, trials: seq<RunResult>, i: nat, n: nat)
    requires i < n <= |ops| == |trials| && PanicsAt(ops, trials, i)
    ensures Repairs(ops, trials, n) == Repairs(ops, trials, i + 1) && Repairs(ops, trials, n).panicked
    decreases n
  {
    if n > i + 1 {
      RepairsStop(ops, trials, i, n - 1);
    }
  }

  /**
   * `nop +5, nop +1`: flipping the first instruction jumps out of the program and panics, so the
   * loop ends there and never reports the second flip, which would complete.
   */
  lemma RepairPanicExample()
    ensures CompletesAt([Nop(5), Nop(1)], Trials([Nop(5), Nop(1)]), 1, 0)
    ensures Repairs([Nop(5), Nop(1)], Trials([Nop(5), Nop(1)]), 2) == Repaired([], true)
  {
    var ops := [Nop(5), Nop(1)];
    var first, second := [Jmp(5), Nop(1)], [Nop(5), Jmp(1)];
    assert ops[0 := Flip(ops[0])] == first && ops[1 := Flip(ops[1])] == second;
    assert Walk(first, 1) == Machine(5, 0);
    assert Halts(first, 1);
    OutcomeIs(first, 1);
    assert Walk(second, 2) == Machine(2, 0);
    assert Visited(second, 1) == {0};
    assert Halts(second, 2);
    OutcomeIs(second, 2);
  }

  /**
   * The repair loop of `main`: flip each Jmp or Nop in place, run, and flip it back. Every trial
   * that returns leaves the program as it found it, and the completions are reported in program
   * order. A trial whose run panics ends the loop, and with it the process.
   */
  method Repair(ops: array<Op>) returns (r: Repaired)
    modifies ops
    ensures ops[..] == old(ops[..])
    ensures r == Repairs(ops[..], Trials(ops[..]), ops.Length)
  {
    var found: seq<(nat, int)> := [];
    ghost var program := ops[..];
    ghost var trials := Trials(program);
    for i := 0 to ops.Length
      invariant ops[..] == program
      invariant Repairs(program, trials, i) == Repaired(found, false)
    {
      if ops[i].Acc? {
        continue;
      }
      var result := Trial(ops, i);
      assert result == trials[i];
      if result.Panic? {
        RepairsStop(program, trials, i, ops.Length);
        return Repaired(found, true);
      }
      if result.Completion? {
        found := found + [(i, result.acc)];
      }
    }
    return Repaired(found, false);
  }

  /** One trial: flip instruction `i` in place, run the program, flip it back. */
  method Trial(ops: array<Op>, i: nat) returns (result: RunResult)
    requires i < ops.Length
    modifies ops
    ensures ops[..] == old(ops[..])
    ensures result == Outcome(ops[..][i := Flip(ops[i])])
  {
    ghost var original := ops[..];
    ops[i] := Flip(ops[i]);
    assert ops[..] == original[i := Flip(original[i])];
    result := Run(ops[..]);
    ops[i] := Flip(ops[i]);
    FlipInvolution(original[i]);
    assert ops[..] == original;
  }
}
