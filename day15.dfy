/**
 * Day 15 (rambunctious recitation): the elves' memory game. After the starting numbers, each turn
 * speaks how many turns ago the previous number was spoken before, or 0 if it was new.
 */
module Day15 {
  import opened Wrappers

  /** The number spoken on turn `t` (counting from 0) of the game that starts with `start`. */
  function Spoken(start: seq<nat>, t: nat): (r: nat)
    requires |start| > 0
    ensures t < |start| ==> r == start[t]
    ensures t >= |start| ==> r < t
    decreases t, 1
  {
    if t < |start| then start[t]
    else match LastBefore(start, Spoken(start, t - 1), t - 1)
      case None => 0
      case Some(u) => t - 1 - u
  }

  /** The last turn before `t` on which `x` was spoken, if any. */
  function LastBefore(start: seq<nat>, x: nat, t: nat): (r: Option<nat>)
    requires |start| > 0
    ensures r.Some? ==> r.value < t && Spoken(start, r.value) == x
    decreases t, 0
  {
    if t == 0 then None
    else if Spoken(start, t - 1) == x then Some(t - 1)
    else LastBefore(start, x, t - 1)
  }

  /** `LastBefore` is the last such turn: `x` is not spoken after it and before `t`, nor at all when it is `None`. */
  lemma {:induction false} LastBeforeIsLast(start: seq<nat>, x: nat, t: nat, v: nat)
    requires |start| > 0 && v < t && Spoken(start, v) == x
    ensures LastBefore(start, x, t).Some? && v <= LastBefore(start, x, t).value
  {
    if v < t - 1 && Spoken(start, t - 1) != x {
      LastBeforeIsLast(start, x, t - 1, v);
    }
  }

  /** `x` is not spoken on any turn before `t`. */
  ghost predicate NeverBefore(start: seq<nat>, x: nat, t: nat)
    requires |start| > 0
  {
    forall v :: 0 <= v < t ==> Spoken(start, v) != x
  }

  /** Turn `u` is the last turn before `t` that speaks `x`. */
  ghost predicate LastAt(start: seq<nat>, x: nat, u: nat, t: nat)
    requires |start| > 0
  {
    u < t && Spoken(start, u) == x && forall v :: u < v < t ==> Spoken(start, v) != x
  }

  /** Turn `u` is the last turn before `t - 1` that speaks the number spoken on turn `t - 1`. */
  ghost predicate Recalls(start: seq<nat>, t: nat, u: nat)
    requires |start| > 0 && t > 0
  {
    LastAt(start, Spoken(start, t - 1), u, t - 1)
  }

  /**
   * The rule of the game: after the starting numbers, turn `t` speaks 0 when the previous number
   * was never spoken before turn `t - 1`, and otherwise the distance from turn `t - 1` back to
   * the last turn `u` on which it was spoken.
   */
  lemma SpokenRule(start: seq<nat>, t: nat)
    requires |start| > 0 && t >= |start|
    ensures (Spoken(start, t) == 0 && NeverBefore(start, Spoken(start, t - 1), t - 1)) ||
      exists u :: Recalls(start, t, u) && Spoken(start, t) == t - 1 - u
  {
    var prev := Spoken(start, t - 1);
    match LastBefore(start, prev, t - 1)
    case None =>
      forall v | 0 <= v < t - 1
        ensures Spoken(start, v) != prev
      {
        if Spoken(start, v) == prev {
          LastBeforeIsLast(start, prev, t - 1, v);
        }
      }
    case Some(u) =>
      forall v | u < v < t - 1
        ensures Spoken(start, v) != prev
      {
        if Spoken(start, v) == prev {
          LastBeforeIsLast(start, prev, t - 1, v);
        }
      }
      assert Recalls(start, t, u);
  }

  /** Some starting number spoken before the last turn is too large to index the turn table. */
  ghost predicate IndexesPastTable(untilTurn: nat, start: seq<nat>) {
    exists k :: 0 <= k < |start| && k + 1 < untilTurn && start[k] >= untilTurn
  }

  /**
   * `count`: the number spoken on turn `until_turn` (the last of the `until_turn` turns), with a
   * table of `until_turn` entries holding the last turn each number was spoken. `None` where the
   * Rust code panics: no turns or no starting numbers (`unwrap` of no last number), or a starting
   * number not below `until_turn` that has to be looked up in the table.
   */
  method Count(untilTurn: nat, start: seq<nat>) returns (r: Option<nat>)
    ensures r.None? <==> untilTurn == 0 || |start| == 0 || IndexesPastTable(untilTurn, start)
    ensures r.Some? ==> |start| > 0 && untilTurn > 0 && r.value == Spoken(start, untilTurn - 1)
  {
    var lastSpokenInTurn := new Option<nat>[untilTurn](_ => None);
    var lastNumberSpoken: Option<nat> := None;
    for turn := 0 to untilTurn
      invariant turn == 0 <==> lastNumberSpoken.None?
      invariant turn > 0 ==> |start| > 0
      invariant |start| > 0 && turn > 0 ==> lastNumberSpoken == Some(Spoken(start, turn - 1))
      invariant |start| > 0 ==> forall x :: 0 <= x < untilTurn ==>
        lastSpokenInTurn[x] == LastBefore(start, x, if turn == 0 then 0 else turn - 1)
      invariant forall k :: 0 <= k < |start| && k + 1 < turn ==> start[k] < untilTurn
    {
      var number;
      if turn < |start| {
        number := start[turn];
      } else {
        if lastNumberSpoken.None? {
          return None;
        }
        var last := lastNumberSpoken.value;
        if last >= untilTurn {
          return None;
        }
        number := match lastSpokenInTurn[last] case Some(n) => turn - n - 1 case None => 0;
      }
      if lastNumberSpoken.Some? {
        var last := lastNumberSpoken.value;
        if last >= untilTurn {
          return None;
        }
        lastSpokenInTurn[last] := Some(turn - 1);
      }
      lastNumberSpoken := Some(number);
    }
    if lastNumberSpoken.None? {
      return None;
    }
    return Some(lastNumberSpoken.value);
  }

  /** The example game `0,3,6`: its turns 4 to 10 (counting from 1) speak 0, 3, 3, 1, 0, 4, 0. */
  lemma SampleGame()
    ensures Spoken([0, 3, 6], 3) == 0 && Spoken([0, 3, 6], 4) == 3 && Spoken([0, 3, 6], 5) == 3
    ensures Spoken([0, 3, 6], 6) == 1 && Spoken([0, 3, 6], 7) == 0 && Spoken([0, 3, 6], 8) == 4
    ensures Spoken([0, 3, 6], 9) == 0
  {
    var s := [0, 3, 6];
    assert LastBefore(s, 6, 2) == None;
    assert Spoken(s, 3) == 0;
    assert LastBefore(s, 0, 3) == Some(0);
    assert Spoken(s, 4) == 3;
    assert LastBefore(s, 3, 4) == Some(1);
    assert Spoken(s, 5) == 3;
    assert LastBefore(s, 3, 5) == Some(4);
    assert Spoken(s, 6) == 1;
    assert LastBefore(s, 1, 6) == None;
    assert Spoken(s, 7) == 0;
    assert LastBefore(s, 0, 7) == Some(3);
    assert Spoken(s, 8) == 4;
    assert LastBefore(s, 4, 8) == None;
  }
}
