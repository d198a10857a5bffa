/**
 * Day 16 (ticket translation): validate nearby tickets against the field rules, then work out
 * which field each rule describes by repeatedly fixing fields with a single candidate rule.
 */
module Day16 {
  import opened Wrappers
  import Text
  import Arith

  /** An inclusive range `lo..=hi`; it is empty when `lo > hi`. */
  datatype Range = Range(lo: nat, hi: nat)

  datatype Rule = Rule(field: string, a: Range, b: Range)

  type Ticket = seq<nat>

  /** `Rule::contains`: the value lies in either range. */
  predicate Contains(rule: Rule, value: nat) {
    (rule.a.lo <= value <= rule.a.hi) || (rule.b.lo <= value <= rule.b.hi)
  }

  /** `rules.iter().any(|rule| rule.contains(value))`. */
  function AnyContains(rules: seq<Rule>, value: nat): (b: bool)
    ensures b <==> exists k :: 0 <= k < |rules| && Contains(rules[k], value)
  {
    if rules == [] then false
    else Contains(rules[0], value) || AnyContains(rules[1..], value)
  }

  // ---- Part 1: the error rate ----

  /** The sum of the values that no rule contains. */
  function InvalidSum(rules: seq<Rule>, values: seq<nat>): nat {
    if values == [] then 0
    else
      var last := values[|values| - 1];
      InvalidSum(rules, values[..|values| - 1]) + (if AnyContains(rules, last) then 0 else last)
  }

  lemma {:induction false} InvalidSumAppend(rules: seq<Rule>, a: seq<nat>, b: seq<nat>)
    ensures InvalidSum(rules, a + b) == InvalidSum(rules, a) + InvalidSum(rules, b)
  {
    if b != [] {
      InvalidSumAppend(rules, a, b[..|b| - 1]);
      assert (a + b)[..|a + b| - 1] == a + b[..|b| - 1];
    } else {
      assert a + b == a;
    }
  }

  /** The sum is zero exactly when every value is contained by a rule or is itself 0. */
  lemma {:induction false} InvalidSumZero(rules: seq<Rule>, values: seq<nat>)
    ensures InvalidSum(rules, values) == 0 <==> forall k :: 0 <= k < |values| ==> AnyContains(rules, values[k]) || values[k] == 0
  {
    if values != [] {
      InvalidSumZero(rules, values[..|values| - 1]);
      assert forall k :: 0 <= k < |values| - 1 ==> values[..|values| - 1][k] == values[k];
    }
  }

  /** `.iter().flatten()`: every value of every ticket, ticket by ticket. */
  function Flatten(tickets: seq<Ticket>): seq<nat> {
    if tickets == [] then [] else Flatten(tickets[..|tickets| - 1]) + tickets[|tickets| - 1]
  }

  /** The error rate of the nearby tickets: the sum of their values contained by no rule. */
  function ErrorRate(rules: seq<Rule>, nearby: seq<Ticket>): nat {
    InvalidSum(rules, Flatten(nearby))
  }

  /** The error rate is the sum of each ticket's own invalid values. */
  lemma {:induction false} ErrorRateSplits(rules: seq<Rule>, nearby: seq<Ticket>, more: Ticket)
    ensures ErrorRate(rules, nearby + [more]) == ErrorRate(rules, nearby) + InvalidSum(rules, more)
  {
    assert (nearby + [more])[..|nearby|] == nearby;
    InvalidSumAppend(rules, Flatten(nearby), more);
  }

  // ---- Part 2: the valid tickets ----

  /** Every value of the ticket is contained by some rule. */
  predicate Valid(rules: seq<Rule>, ticket: Ticket) {
    forall k :: 0 <= k < |ticket| ==> AnyContains(rules, ticket[k])
  }

  /** The tickets kept for part 2, in order. */
  function Kept(rules: seq<Rule>, nearby: seq<Ticket>): (r: seq<Ticket>)
    ensures |r| <= |nearby|
    ensures forall k :: 0 <= k < |r| ==> Valid(rules, r[k]) && r[k] in nearby
    ensures forall k :: 0 <= k < |nearby| && Valid(rules, nearby[k]) ==> nearby[k] in r
  {
    if nearby == [] then []
    else Kept(rules, nearby[..|nearby| - 1]) + if Valid(rules, nearby[|nearby| - 1]) then [nearby[|nearby| - 1]] else []
  }

  /** The kept tickets add nothing to the error rate. */
  lemma {:induction false} KeptAreClean(rules: seq<Rule>, nearby: seq<Ticket>)
    ensures ErrorRate(rules, Kept(rules, nearby)) == 0
  {
    if nearby != [] {
      var last := nearby[|nearby| - 1];
      var before := Kept(rules, nearby[..|nearby| - 1]);
      KeptAreClean(rules, nearby[..|nearby| - 1]);
      if Valid(rules, last) {
        ErrorRateSplits(rules, before, last);
        InvalidSumZero(rules, last);
      } else {
        assert Kept(rules, nearby) == before;
      }
    }
  }

  /** Every kept ticket has at least `n` fields. */
  ghost predicate Wide(tickets: seq<Ticket>, n: nat) {
    forall k :: 0 <= k < |tickets| ==> |tickets[k]| >= n
  }

  /** Rule `r` holds for field `f` of every kept ticket. */
  ghost predicate Fits(rules: seq<Rule>, valid: seq<Ticket>, r: nat, f: nat)
    requires r < |rules| && Wide(valid, f + 1)
  {
    forall k :: 0 <= k < |valid| ==> Contains(rules[r], valid[k][f])
  }

  /** Whether rule `rule` holds for field `f` of every kept ticket: the `.all(...)` of `rules_per_field`. */
  function AllFit(rule: Rule, valid: seq<Ticket>, f: nat): (b: bool)
    requires Wide(valid, f + 1)
    ensures b <==> forall k :: 0 <= k < |valid| ==> Contains(rule, valid[k][f])
  {
    if valid == [] then true else Contains(rule, valid[0][f]) && AllFit(rule, valid[1..], f)
  }

  predicate StrictlyIncreasing(s: seq<nat>) {
    forall p, q :: 0 <= p < q < |s| ==> s[p] < s[q]
  }

  /** The candidate rules for field `f` among the first `n` rules, in increasing index. */
  function CandidatesBelow(rules: seq<Rule>, valid: seq<Ticket>, f: nat, n: nat): (r: seq<nat>)
    requires n <= |rules| && Wide(valid, f + 1)
    ensures StrictlyIncreasing(r)
    ensures forall k :: 0 <= k < |r| ==> r[k] < n
    ensures forall i :: 0 <= i < n ==> (i in r <==> Fits(rules, valid, i, f))
  {
    if n == 0 then []
    else CandidatesBelow(rules, valid, f, n - 1) + if AllFit(rules[n - 1], valid, f) then [n - 1] else []
  }

  /** `rules_per_field`: for each field, the rules every kept ticket satisfies there. */
  function RulesPerField(rules: seq<Rule>, valid: seq<Ticket>, numFields: nat): (r: seq<seq<nat>>)
    requires Wide(valid, numFields)
    ensures |r| == numFields
    ensures forall f :: 0 <= f < numFields ==> StrictlyIncreasing(r[f])
    ensures forall f, i :: 0 <= f < numFields && 0 <= i < |rules| ==> (i in r[f] <==> Fits(rules, valid, i, f))
    ensures forall f :: 0 <= f < numFields ==> forall k :: 0 <= k < |r[f]| ==> r[f][k] < |rules|
  {
    seq(numFields, f requires 0 <= f < numFields => CandidatesBelow(rules, valid, f, |rules|))
  }

  // ---- Part 2: assigning rules to fields ----

  /** The candidates that no field has taken yet, in order. */
  function Unassigned(candidates: seq<nat>, taken: map<nat, nat>): (r: seq<nat>)
    ensures forall i :: i in r <==> i in candidates && i !in taken
    ensures |r| <= |candidates|
    ensures StrictlyIncreasing(candidates) ==> StrictlyIncreasing(r)
  {
    if candidates == [] then []
    else
      var last := candidates[|candidates| - 1];
      var before := Unassigned(candidates[..|candidates| - 1], taken);
      assert StrictlyIncreasing(candidates) ==> forall k :: 0 <= k < |before| ==> before[k] < last by {
        if StrictlyIncreasing(candidates) {
          forall k | 0 <= k < |before|
            ensures before[k] < last
          {
            assert before[k] in candidates[..|candidates| - 1];
          }
        }
      }
      before + (if last in taken then [] else [last])
  }

  /** Every candidate other than `i` is taken. */
  ghost predicate Sole(candidates: seq<nat>, taken: map<nat, nat>, i: nat) {
    forall j :: j in candidates && j != i ==> j in taken
  }

  /**
   * The body of the `for` loop for one field: the rule it gets, when exactly one of its candidates
   * is still unassigned.
   */
  function SoleCandidate(candidates: seq<nat>, taken: map<nat, nat>): (r: Option<nat>)
    requires StrictlyIncreasing(candidates)
    ensures r.Some? ==> r.value in candidates && r.value !in taken && Sole(candidates, taken, r.value)
    ensures r.None? ==> forall i :: i in candidates && i !in taken ==> !Sole(candidates, taken, i)
  {
    var free := Unassigned(candidates, taken);
    if |free| == 1 then
      assert free[0] in free;
      Some(free[0])
    else
      assert forall i :: i in candidates && i !in taken ==> !Sole(candidates, taken, i) by {
        forall i | i in candidates && i !in taken
          ensures !Sole(candidates, taken, i)
        {
          assert i in free && free[0] < free[1];
          assert free[0] in free && free[1] in free;
        }
      }
      None
  }

  /** Every candidate rule is an index below `numRules`. */
  ghost predicate Indexed(rulesPerField: seq<seq<nat>>, numRules: nat) {
    forall f, k :: 0 <= f < |rulesPerField| && 0 <= k < |rulesPerField[f]| ==> rulesPerField[f][k] < numRules
  }

  ghost predicate Candidates(rulesPerField: seq<seq<nat>>) {
    forall f :: 0 <= f < |rulesPerField| ==> StrictlyIncreasing(rulesPerField[f])
  }

  /**
   * What the elimination keeps: every assigned rule went to a field that lists it, once a field
   * has a rule all its candidates are assigned, no two rules share a field, and only rule indices
   * are keys.
   */
  ghost predicate Settled(rulesPerField: seq<seq<nat>>, numRules: nat, m: map<nat, nat>) {
    Listed(rulesPerField, numRules, m) && Closed(rulesPerField, m) && Injective(m)
  }

  ghost predicate Listed(rulesPerField: seq<seq<nat>>, numRules: nat, m: map<nat, nat>) {
    forall r :: r in m ==> r < numRules && m[r] < |rulesPerField| && r in rulesPerField[m[r]]
  }

  ghost predicate Closed(rulesPerField: seq<seq<nat>>, m: map<nat, nat>) {
    forall r, i :: r in m && m[r] < |rulesPerField| && i in rulesPerField[m[r]] ==> i in m
  }

  ghost predicate Injective(m: map<nat, nat>) {
    forall r, r' :: r in m && r' in m && r != r' ==> m[r] != m[r']
  }

  /** One pass of the `for` loop over the first `n` fields. */
  function Pass(rulesPerField: seq<seq<nat>>, m: map<nat, nat>, n: nat): (r: map<nat, nat>)
    requires n <= |rulesPerField| && Candidates(rulesPerField)
    ensures m.Keys <= r.Keys && forall i :: i in m ==> r[i] == m[i]
    ensures forall i :: i in r && i !in m ==> exists f :: 0 <= f < n && i in rulesPerField[f]
  {
    if n == 0 then m else Consider(rulesPerField, Pass(rulesPerField, m, n - 1), n - 1)
  }

  /** Field `f` takes its sole unassigned candidate, if it has one. */
  function Consider(rulesPerField: seq<seq<nat>>, m: map<nat, nat>, f: nat): (r: map<nat, nat>)
    requires f < |rulesPerField| && Candidates(rulesPerField)
    ensures m.Keys <= r.Keys && forall i :: i in m ==> r[i] == m[i]
    ensures forall i :: i in r && i !in m ==> i in rulesPerField[f]
  {
    match SoleCandidate(rulesPerField[f], m)
    case None => m
    case Some(rule) => m[rule := f]
  }

  /** Giving field `f` its sole unassigned candidate keeps the assignment settled. */
  lemma AssignSettled(rulesPerField: seq<seq<nat>>, numRules: nat, m: map<nat, nat>, f: nat, rule: nat)
    requires f < |rulesPerField| && Candidates(rulesPerField) && Indexed(rulesPerField, numRules)
    requires Settled(rulesPerField, numRules, m) && SoleCandidate(rulesPerField[f], m) == Some(rule)
    ensures Settled(rulesPerField, numRules, m[rule := f])
  {
    var after := m[rule := f];
    assert rule < numRules by {
      var k :| 0 <= k < |rulesPerField[f]| && rulesPerField[f][k] == rule;
    }
    assert Listed(rulesPerField, numRules, after);
    assert Closed(rulesPerField, after);
    forall r | r in m
      ensures m[r] != f
    {
      assert rule in rulesPerField[f] && rule !in m;
    }
    assert Injective(after);
  }

  /** The numbers below `n`. */
  ghost function Below(n: nat): (r: set<nat>)
    ensures forall i: nat :: i in r <==> i < n
    ensures |r| == n
  {
    if n == 0 then {} else assert n - 1 !in Below(n - 1); Below(n - 1) + {n - 1}
  }

  /** Only rule indices are keys. */
  ghost predicate RuleKeys(m: map<nat, nat>, numRules: nat) {
    forall r :: r in m ==> r < numRules
  }

  /** The map keys are rule indices, so there are at most `numRules` of them, and all of them when there are that many. */
  lemma KeysBound(m: map<nat, nat>, numRules: nat)
    requires RuleKeys(m, numRules)
    ensures |m| <= numRules
    ensures |m| == numRules ==> forall i :: 0 <= i < numRules ==> i in m
  {
    var all := Below(numRules);
    assert m.Keys <= all;
    assert all == m.Keys + (all - m.Keys);
    if |m| == numRules {
      assert |all - m.Keys| == 0;
    }
  }

  /** How the elimination ends. */
  datatype Elimination = Assigned(m: map<nat, nat>) | Diverges

  /** A pass assigns only candidate rules, so the keys stay rule indices. */
  lemma PassKeys(rulesPerField: seq<seq<nat>>, numRules: nat, m: map<nat, nat>, n: nat)
    requires n <= |rulesPerField| && Candidates(rulesPerField) && Indexed(rulesPerField, numRules)
    requires RuleKeys(m, numRules)
    ensures RuleKeys(Pass(rulesPerField, m, n), numRules)
  {
    var after := Pass(rulesPerField, m, n);
    forall i | i in after && i !in m
      ensures i < numRules
    {
      var f :| 0 <= f < n && i in rulesPerField[f];
      var k :| 0 <= k < |rulesPerField[f]| && rulesPerField[f][k] == i;
    }
  }

  /**
   * The `while` loop from assignment `m`: passes until every rule is assigned, or `Diverges` at the
   * first pass that assigns nothing.
   */
  function Settle(rulesPerField: seq<seq<nat>>, numRules: nat, m: map<nat, nat>): Elimination
    requires Candidates(rulesPerField) && Indexed(rulesPerField, numRules)
    requires RuleKeys(m, numRules)
    decreases numRules - |m|
  {
    KeysBound(m, numRules);
    if |m| == numRules then Assigned(m)
    else
      var next := Pass(rulesPerField, m, |rulesPerField|);
      if next == m then Diverges
      else
        PassKeys(rulesPerField, numRules, m, |rulesPerField|);
        Grows(m, next);
        KeysBound(next, numRules);
        Settle(rulesPerField, numRules, next)
  }

  /**
   * The `while` loop: passes over the fields until every rule has a field. `Diverges` where the
   * Rust loop never ends, because a whole pass assigns nothing.
   */
  method Eliminate(rulesPerField: seq<seq<nat>>, numRules: nat) returns (r: Elimination)
    requires Candidates(rulesPerField) && Indexed(rulesPerField, numRules)
    ensures r == Settle(rulesPerField, numRules, map[])
    ensures r.Assigned? ==> Settled(rulesPerField, numRules, r.m) && forall i :: 0 <= i < numRules ==> i in r.m
    ensures r.Diverges? ==> exists m :: (Settled(rulesPerField, numRules, m) && |m| < numRules &&
      Pass(rulesPerField, m, |rulesPerField|) == m)
  {
    var ruleToField: map<nat, nat> := map[];
    while |ruleToField| != numRules
      invariant Settled(rulesPerField, numRules, ruleToField)
      invariant Settle(rulesPerField, numRules, ruleToField) == Settle(rulesPerField, numRules, map[])
      decreases numRules - |ruleToField|
    {
      KeysBound(ruleToField, numRules);
      var next := RunPass(rulesPerField, numRules, ruleToField);
      if next == ruleToField {
        return Diverges;
      }
      Grows(ruleToField, next);
      KeysBound(next, numRules);
      ruleToField := next;
    }
    KeysBound(ruleToField, numRules);
    return Assigned(ruleToField);
  }

  /** A map that extends `m` and differs from it has more keys. */
  lemma Grows(m: map<nat, nat>, next: map<nat, nat>)
    requires m.Keys <= next.Keys && (forall i :: i in m ==> next[i] == m[i]) && next != m
    ensures |m| < |next|
  {
    if m.Keys == next.Keys {
      assert false;
    }
    assert next.Keys == m.Keys + (next.Keys - m.Keys);
  }

  /** One pass of the `for` loop, inserting into `rule_to_field` field by field. */
  method RunPass(rulesPerField: seq<seq<nat>>, numRules: nat, ruleToField: map<nat, nat>) returns (r: map<nat, nat>)
    requires Candidates(rulesPerField) && Indexed(rulesPerField, numRules)
    requires Settled(rulesPerField, numRules, ruleToField)
    ensures r == Pass(rulesPerField, ruleToField, |rulesPerField|)
    ensures Settled(rulesPerField, numRules, r)
  {
    r := ruleToField;
    for fieldIdx := 0 to |rulesPerField|
      invariant r == Pass(rulesPerField, ruleToField, fieldIdx)
      invariant Settled(rulesPerField, numRules, r)
    {
      r := ConsiderField(rulesPerField, numRules, r, fieldIdx);
    }
  }

  /** The loop body for one field: `rule_to_field.insert(rule_idx, field_idx)` for a sole candidate. */
  method ConsiderField(rulesPerField: seq<seq<nat>>, numRules: nat, ruleToField: map<nat, nat>, fieldIdx: nat)
    returns (r: map<nat, nat>)
    requires fieldIdx < |rulesPerField| && Candidates(rulesPerField) && Indexed(rulesPerField, numRules)
    requires Settled(rulesPerField, numRules, ruleToField)
    ensures r == Consider(rulesPerField, ruleToField, fieldIdx)
    ensures Settled(rulesPerField, numRules, r)
  {
    r := ruleToField;
    var rule := SoleCandidate(rulesPerField[fieldIdx], r);
    if rule.Some? {
      AssignSettled(rulesPerField, numRules, r, fieldIdx, rule.value);
      r := r[rule.value := fieldIdx];
    }
  }

  // ---- Part 2: the product ----

  /** The departure rules among the first `n` rules, with their values on my ticket multiplied. */
  function DepartureProduct(rules: seq<Rule>, myTicket: Ticket, ruleToField: map<nat, nat>, n: nat): (r: Option<nat>)
    requires n <= |rules|
    ensures r.None? <==> exists i :: 0 <= i < n && IsDeparture(rules[i]) && !Readable(myTicket, ruleToField, i)
  {
    if n == 0 then Some(1)
    else
      var before := DepartureProduct(rules, myTicket, ruleToField, n - 1);
      if !IsDeparture(rules[n - 1]) then before
      else if !Readable(myTicket, ruleToField, n - 1) || before.None? then None
      else Some(before.value * myTicket[ruleToField[n - 1]])
  }

  predicate IsDeparture(rule: Rule) {
    Text.StartsWith(rule.field, "departure")
  }

  /** `my_ticket[rule_to_field[&i]]` does not panic. */
  predicate Readable(myTicket: Ticket, ruleToField: map<nat, nat>, i: nat) {
    i in ruleToField && ruleToField[i] < |myTicket|
  }

  /** Every departure value divides the product. */
  lemma {:induction false} DepartureDivides(rules: seq<Rule>, myTicket: Ticket, ruleToField: map<nat, nat>, n: nat, i: nat)
    requires i < n <= |rules| && IsDeparture(rules[i]) && DepartureProduct(rules, myTicket, ruleToField, n).Some?
    ensures Readable(myTicket, ruleToField, i)
    ensures var v := myTicket[ruleToField[i]]; var p := DepartureProduct(rules, myTicket, ruleToField, n).value;
      if v == 0 then p == 0 else p % v == 0
  {
    var p := DepartureProduct(rules, myTicket, ruleToField, n).value;
    var v := myTicket[ruleToField[i]];
    if i < n - 1 {
      DepartureDivides(rules, myTicket, ruleToField, n - 1, i);
      if IsDeparture(rules[n - 1]) {
        var q := DepartureProduct(rules, myTicket, ruleToField, n - 1).value;
        var x := myTicket[ruleToField[n - 1]];
        assert p == q * x;
        if v != 0 {
          Arith.ModMul(q, x, v);
        }
      }
    } else {
      var q := DepartureProduct(rules, myTicket, ruleToField, n - 1).value;
      assert p == q * v;
      if v != 0 {
        Arith.MultipleMod(p, v, q);
      }
    }
  }

  /**
   * An assignment of every rule to its own field that every kept ticket agrees with: the rule
   * holds for that field's value on each of them.
   */
  ghost predicate Consistent(rules: seq<Rule>, valid: seq<Ticket>, numFields: nat, m: map<nat, nat>)
    requires Wide(valid, numFields)
  {
    (forall i :: i in m <==> 0 <= i < |rules|) &&
    (forall r :: r in m ==> m[r] < numFields && Fits(rules, valid, r, m[r])) &&
    (forall r, r' :: r in m && r' in m && r != r' ==> m[r] != m[r'])
  }

  /** How part 2 ends. */
  datatype Outcome = Solution(product: nat) | Panic | Loops

  /**
   * Part 2 of `main`: keep the valid tickets, list each field's candidate rules, assign the rules,
   * and multiply my ticket's departure values. `Panic` where the Rust code panics (no valid
   * ticket, or a departure field outside my ticket); `Loops` where the elimination never ends.
   */
  method Part2(rules: seq<Rule>, myTicket: Ticket, nearby: seq<Ticket>) returns (r: Outcome)
    requires forall k :: 0 <= k < |nearby| ==> |nearby[k]| == |nearby[0]|
    ensures Kept(rules, nearby) == [] ==> r == Panic
    ensures Kept(rules, nearby) != [] ==> var valid := Kept(rules, nearby);
      Wide(valid, |valid[0]|) &&
      var e := Settle(RulesPerField(rules, valid, |valid[0]|), |rules|, map[]);
      (r.Loops? <==> e.Diverges?) &&
      (e.Assigned? ==> (Consistent(rules, valid, |valid[0]|, e.m) &&
        (r.Solution? <==> DepartureProduct(rules, myTicket, e.m, |rules|).Some?) &&
        (r.Solution? ==> DepartureProduct(rules, myTicket, e.m, |rules|) == Some(r.product))))
  {
    var valid := Kept(rules, nearby);
    if valid == [] {
      return Panic;
    }
    var numFields := |valid[0]|;
    assert Wide(valid, numFields) by {
      forall k | 0 <= k < |valid|
        ensures |valid[k]| >= numFields
      {
        assert valid[k] in nearby && valid[0] in nearby;
      }
    }
    var rulesPerField := RulesPerField(rules, valid, numFields);
    var elimination := Eliminate(rulesPerField, |rules|);
    if elimination.Diverges? {
      return Loops;
    }
    var m := elimination.m;
    assert Consistent(rules, valid, numFields, m);
    var product := DepartureProduct(rules, myTicket, m, |rules|);
    if product.None? {
      return Panic;
    }
    return Solution(product.value);
  }
}
