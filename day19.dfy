/**
 * Day 19 (monster messages): grammar rules read from text, and a backtracking matcher that
 * returns every way a rule can consume a prefix of a message, as the remainders left over.
 */
module Day19 {
  import opened Wrappers
  import opened Text

  datatype Rule = Sequence(ids: seq<nat>) | Or(alts: seq<Rule>) | Char(c: char)

  // ---- Parsing rules ----

  /** The end of the word that starts at `i`: the next ASCII whitespace, or the end. */
  function WordEnd(s: string, i: nat): (r: nat)
    requires i <= |s|
    ensures i <= r <= |s| && (r == |s| || IsAsciiWhitespace(s[r]))
    ensures forall k :: i <= k < r ==> !IsAsciiWhitespace(s[k])
    decreases |s| - i
  {
    if i < |s| && !IsAsciiWhitespace(s[i]) then WordEnd(s, i + 1) else i
  }

  /** `str::split_ascii_whitespace`: the non-empty runs between ASCII whitespace. */
  function Fields(s: string): (r: seq<string>)
    ensures forall k :: 0 <= k < |r| ==> r[k] != [] && forall i :: 0 <= i < |r[k]| ==> !IsAsciiWhitespace(r[k][i])
    decreases |s|
  {
    if s == [] then []
    else if IsAsciiWhitespace(s[0]) then Fields(s[1..])
    else
      var e := WordEnd(s, 0);
      [s[..e]] + Fields(s[e..])
  }

  /**
   * `parse_rule_atom`: trimmed text with a '|' is the `Or` of its parts; text starting with '"' is
   * the `Char` after the quote; anything else is a `Sequence` of rule numbers. `None` where the
   * Rust code panics: a lone quote, or a word that is not a `usize`.
   */
  function ParseAtom(line: string): (r: Option<Rule>)
    decreases |line|
  {
    var t := Trim(line);
    if '|' in t then
      var parts := SplitOn(t, '|');
      if forall k :: 0 <= k < |parts| ==> ParseAtom(parts[k]).Some? then
        Some(Or(seq(|parts|, k requires 0 <= k < |parts| && ParseAtom(parts[k]).Some? => ParseAtom(parts[k]).value)))
      else None
    else if StartsWith(t, "\"") then
      if |t| >= 2 then Some(Char(t[1])) else None
    else
      var words := Fields(t);
      if forall k :: 0 <= k < |words| ==> ParseUnsigned(words[k]).Some? then
        Some(Sequence(seq(|words|, k requires 0 <= k < |words| && ParseUnsigned(words[k]).Some? => ParseUnsigned(words[k]).value)))
      else None
  }

  /** Trimmed text with a '|' is an `Or` with one alternative per part, each the atom of its part. */
  lemma AtomOr(line: string)
    requires '|' in Trim(line)
    ensures var parts := SplitOn(Trim(line), '|');
      (ParseAtom(line).Some? <==> forall k :: 0 <= k < |parts| ==> ParseAtom(parts[k]).Some?) &&
      (ParseAtom(line).Some? ==>
        ParseAtom(line).value.Or? && |ParseAtom(line).value.alts| == |parts| &&
        forall k :: 0 <= k < |parts| ==> ParseAtom(parts[k]) == Some(ParseAtom(line).value.alts[k]))
  {
  }

  /** Trimmed text that starts with '"' and has no '|' is the `Char` after the quote; a lone quote panics. */
  lemma AtomChar(line: string)
    requires '|' !in Trim(line) && StartsWith(Trim(line), "\"")
    ensures ParseAtom(line).Some? <==> |Trim(line)| >= 2
    ensures ParseAtom(line).Some? ==> ParseAtom(line).value == Char(Trim(line)[1])
  {
  }

  /** Any other text is a `Sequence` of the numbers of its words; a word that is not a `usize` panics. */
  lemma AtomSequence(line: string)
    requires '|' !in Trim(line) && !StartsWith(Trim(line), "\"")
    ensures var words := Fields(Trim(line));
      (ParseAtom(line).Some? <==> forall k :: 0 <= k < |words| ==> ParseUnsigned(words[k]).Some?) &&
      (ParseAtom(line).Some? ==>
        ParseAtom(line).value.Sequence? && |ParseAtom(line).value.ids| == |words| &&
        forall k :: 0 <= k < |words| ==> ParseUnsigned(words[k]) == Some(ParseAtom(line).value.ids[k]))
  {
  }

  /** `parse_rule`: the number before the first ':' and the atom after it; `None` where that panics. */
  function ParseRule(line: string): Option<(nat, Rule)> {
    var parts := SplitOn(line, ':');
    if |parts| < 2 then None
    else match (ParseUnsigned(parts[0]), ParseAtom(parts[1]))
      case (Some(n), Some(rule)) => Some((n, rule))
      case _ => None
  }

  /** A rule line is a `usize` before its first ':' and an atom after it, and nothing else. */
  lemma ParseRuleMeans(line: string)
    ensures var parts := SplitOn(line, ':');
      ParseRule(line).Some? <==> (|parts| >= 2 && ParseUnsigned(parts[0]).Some? && ParseAtom(parts[1]).Some?)
    ensures var parts := SplitOn(line, ':');
      ParseRule(line).Some? ==> ParseRule(line).value == (ParseUnsigned(parts[0]).value, ParseAtom(parts[1]).value)
  {
  }

  /** The rules in order, each inserted in turn so that a later number replaces an earlier one. */
  function Insert(pairs: seq<(nat, Rule)>): (m: map<nat, Rule>)
    ensures forall n :: n in m <==> exists k :: 0 <= k < |pairs| && pairs[k].0 == n
  {
    if pairs == [] then map[]
    else
      var m := Insert(pairs[..|pairs| - 1]);
      assert forall k :: 0 <= k < |pairs| - 1 ==> pairs[..|pairs| - 1][k] == pairs[k];
      m[pairs[|pairs| - 1].0 := pairs[|pairs| - 1].1]
  }

  /** The rule a number names is the one of the last pair with that number. */
  lemma {:induction false} LastRuleWins(pairs: seq<(nat, Rule)>, k: nat)
    requires k < |pairs|
    requires forall j :: k < j < |pairs| ==> pairs[j].0 != pairs[k].0
    ensures Insert(pairs)[pairs[k].0] == pairs[k].1
  {
    if k < |pairs| - 1 {
      var init := pairs[..|pairs| - 1];
      assert init[k] == pairs[k];
      LastRuleWins(init, k);
    }
  }

  /**
   * What `f` makes of each line, in order, or `None` when it fails on one of them: the iterator of
   * results collected so that the first failure ends the collection.
   */
  function Gather<T>(f: string -> Option<T>, lines: seq<string>): Option<seq<T>>
    decreases |lines|
  {
    if lines == [] then Some([])
    else
      match (Gather(f, lines[..|lines| - 1]), f(lines[|lines| - 1]))
      case (Some(xs), Some(x)) => Some(xs + [x])
      case _ => None
  }

  /** The lines gather exactly when `f` succeeds on every one, and then the `j`-th result is that of line `j`. */
  lemma {:induction false} GatherMeans<T>(f: string -> Option<T>, lines: seq<string>)
    ensures Gather(f, lines).Some? <==> forall j :: 0 <= j < |lines| ==> f(lines[j]).Some?
    ensures Gather(f, lines).Some? ==>
      (|Gather(f, lines).value| == |lines| && forall j :: 0 <= j < |lines| ==> Some(Gather(f, lines).value[j]) == f(lines[j]))
    decreases |lines|
  {
    if lines != [] {
      var init := lines[..|lines| - 1];
      GatherMeans(f, init);
      assert forall j :: 0 <= j < |init| ==> init[j] == lines[j];
    }
  }

  /** One more line, on which `f` gives `v`, extends the gathered results by its own. */
  lemma GatherStep<T>(f: string -> Option<T>, lines: seq<string>, i: nat, xs: seq<T>, v: Option<T>)
    requires i < |lines| && Gather(f, lines[..i]) == Some(xs) && v == f(lines[i])
    ensures v.None? ==> Gather(f, lines[..i + 1]).None?
    ensures v.Some? ==> Gather(f, lines[..i + 1]) == Some(xs + [v.value])
  {
    assert lines[..i + 1][..i] == lines[..i] && lines[..i + 1][i] == lines[i];
  }

  /** A line `f` fails on makes every longer run of lines fail. */
  lemma FailStays<T>(f: string -> Option<T>, lines: seq<string>, i: nat, k: nat, v: Option<T>)
    requires i < k <= |lines| && v == f(lines[i]) && v.None?
    ensures Gather(f, lines[..k]).None?
  {
    GatherMeans(f, lines[..k]);
    assert lines[..k][i] == lines[i];
  }

  /** The index of the first empty line, or the number of lines when there is none. */
  function FirstEmpty(lines: seq<string>): (k: nat)
    ensures k <= |lines| && (k < |lines| ==> lines[k] == [])
    ensures forall j :: 0 <= j < k ==> lines[j] != []
  {
    if lines == [] then 0 else if lines[0] == [] then 0 else 1 + FirstEmpty(lines[1..])
  }

  /**
   * `parse`: the rules up to the first empty line, and the lines after it as messages. `None` where
   * the Rust code panics: a rule line that `parse_rule` cannot read.
   */
  method Parse(lines: seq<string>) returns (r: Option<(map<nat, Rule>, seq<string>)>)
    ensures var k := FirstEmpty(lines);
      match Gather(ParseRule, lines[..k])
      case None => r.None?
      case Some(ps) => r == Some((Insert(ps), if k < |lines| then lines[k + 1..] else []))
  {
    var rules := map[];
    ghost var ps := [];
    ghost var k := FirstEmpty(lines);
    var i := 0;
    while i < |lines|
      invariant i <= k
      invariant Gather(ParseRule, lines[..i]) == Some(ps)
      invariant rules == Insert(ps)
    {
      var line := lines[i];
      if line == [] {
        break;
      }
      assert i < k;
      var parsed := ParseRule(line);
      GatherStep(ParseRule, lines, i, ps, parsed);
      if parsed.None? {
        FailStays(ParseRule, lines, i, k, parsed);
        return None;
      }
      InsertStep(ps, parsed.value);
      ps := ps + [parsed.value];
      rules := rules[parsed.value.0 := parsed.value.1];
      i := i + 1;
    }
    return Some((rules, if i < |lines| then lines[i + 1..] else []));
  }

  /** Inserting one more pair updates the map at its number. */
  lemma InsertStep(ps: seq<(nat, Rule)>, p: (nat, Rule))
    ensures Insert(ps + [p]) == Insert(ps)[p.0 := p.1]
  {
    assert (ps + [p])[..|ps|] == ps;
  }

  // ---- Matching ----

  /** What `matches` gives: `Some` of the remainders, `None`, a panic, or a run out of fuel. */
  datatype Outcome = Found(rests: seq<seq<char>>) | NoMatch | Panic | Exhausted

  /** A panic or a run out of fuel, which ends the whole match. */
  predicate Stuck(r: Outcome) {
    r.Panic? || r.Exhausted?
  }

  /**
   * The outcome of one item of a `filter_map` followed by those of the rest: the first failure
   * wins; otherwise the remainders of every `Some`, in order, or `None` when there is no `Some`.
   */
  function Join(a: Outcome, b: Outcome): (r: Outcome)
    ensures r.Found? <==> !Stuck(a) && !Stuck(b) && (a.Found? || b.Found?)
  {
    if Stuck(a) then a
    else if Stuck(b) then b
    else if a.NoMatch? then b
    else if b.NoMatch? then a
    else Found(a.rests + b.rests)
  }

  lemma JoinAssociative(a: Outcome, b: Outcome, c: Outcome)
    ensures Join(Join(a, b), c) == Join(a, Join(b, c))
  {
    if a.Found? && b.Found? && c.Found? {
      assert a.rests + b.rests + c.rests == a.rests + (b.rests + c.rests);
    }
  }

  /**
   * `matches`: every remainder after `rule` consumes a prefix of `chars`. A `Sequence` is where the
   * Rust recursion follows rule numbers; each one costs a unit of `fuel`, and `Exhausted` stands
   * for a recursion that would not end.
   */
  function Match(chars: seq<char>, rule: Rule, rules: map<nat, Rule>, fuel: nat): (r: Outcome)
    ensures r.Found? ==> |r.rests| > 0
    decreases fuel, 0, rule
  {
    match rule
    case Char(c) => if chars != [] && chars[0] == c then Found([chars[1..]]) else NoMatch
    case Or(alts) => OrFrom(chars, rule, 0, rules, fuel)
    case Sequence(ids) => if fuel == 0 then Exhausted else SequenceFrom([chars], rule, 0, rules, fuel - 1)
  }

  /** The `filter_map` over the alternatives of `rule` from the `k`-th on. */
  function OrFrom(chars: seq<char>, rule: Rule, k: nat, rules: map<nat, Rule>, fuel: nat): (r: Outcome)
    requires rule.Or? && k <= |rule.alts|
    ensures r.Found? ==> |r.rests| > 0
    decreases fuel, 0, rule, |rule.alts| - k
  {
    if k == |rule.alts| then NoMatch
    else Join(Match(chars, rule.alts[k], rules, fuel), OrFrom(chars, rule, k + 1, rules, fuel))
  }

  /** The `filter_map` of one `Sequence` step: `sub` matched against each remainder from the `i`-th on. */
  function StepFrom(results: seq<seq<char>>, i: nat, sub: Rule, rules: map<nat, Rule>, fuel: nat): (r: Outcome)
    requires i <= |results|
    ensures r.Found? ==> |r.rests| > 0
    decreases fuel, 1, |results| - i
  {
    if i == |results| then NoMatch
    else Join(Match(results[i], sub, rules, fuel), StepFrom(results, i + 1, sub, rules, fuel))
  }

  /**
   * The `for` loop of a `Sequence` from its `j`-th rule number on: each step matches that rule against
   * every remainder so far; the sequence fails as soon as a step has no `Some`, and looking up a
   * missing number panics.
   */
  function SequenceFrom(results: seq<seq<char>>, rule: Rule, j: nat, rules: map<nat, Rule>, fuel: nat): (r: Outcome)
    requires rule.Sequence? && j <= |rule.ids|
    ensures r.Found? && results != [] ==> |r.rests| > 0
    decreases fuel, 2, |rule.ids| - j
  {
    if j == |rule.ids| then Found(results)
    else if results == [] then NoMatch
    else if rule.ids[j] !in rules then Panic
    else match StepFrom(results, 0, rules[rule.ids[j]], rules, fuel)
      case Found(next) => SequenceFrom(next, rule, j + 1, rules, fuel)
      case other => other
  }

  /** `matches`, with the loops of `Or` and `Sequence` written out. */
  method MatchRule(chars: seq<char>, rule: Rule, rules: map<nat, Rule>, fuel: nat) returns (r: Outcome)
    ensures r == Match(chars, rule, rules, fuel)
    decreases fuel, 0, rule
  {
    match rule {
      case Char(c) =>
        if chars != [] && chars[0] == c {
          return Found([chars[1..]]);
        }
        return NoMatch;
      case Or(alts) =>
        var found := NoMatch;
        for k := 0 to |alts|
          invariant !Stuck(found)
          invariant OrFrom(chars, rule, 0, rules, fuel) == Join(found, OrFrom(chars, rule, k, rules, fuel))
        {
          var m := MatchRule(chars, alts[k], rules, fuel);
          JoinAssociative(found, m, OrFrom(chars, rule, k + 1, rules, fuel));
          if Stuck(m) {
            return m;
          }
          found := Join(found, m);
        }
        return found;
      case Sequence(ids) =>
        if fuel == 0 {
          return Exhausted;
        }
        var results := [chars];
        for j := 0 to |ids|
          invariant SequenceFrom([chars], rule, 0, rules, fuel - 1) == SequenceFrom(results, rule, j, rules, fuel - 1)
        {
          if results == [] {
            return NoMatch;
          }
          if ids[j] !in rules {
            return Panic;
          }
          var step := MatchEach(results, rules[ids[j]], rules, fuel - 1);
          if !step.Found? {
            return step;
          }
          results := step.rests;
        }
        return Found(results);
    }
  }

  /** One step of a `Sequence`: `sub` matched against each remainder in turn. */
  method MatchEach(results: seq<seq<char>>, sub: Rule, rules: map<nat, Rule>, fuel: nat) returns (r: Outcome)
    ensures r == StepFrom(results, 0, sub, rules, fuel)
    decreases fuel, 1
  {
    var found := NoMatch;
    for i := 0 to |results|
      invariant !Stuck(found)
      invariant StepFrom(results, 0, sub, rules, fuel) == Join(found, StepFrom(results, i, sub, rules, fuel))
    {
      var m := MatchRule(results[i], sub, rules, fuel);
      JoinAssociative(found, m, StepFrom(results, i + 1, sub, rules, fuel));
      if Stuck(m) {
        return m;
      }
      found := Join(found, m);
    }
    return found;
  }

  // ---- What a match means ----

  /** `x` is what is left of `s` after a prefix. */
  predicate IsSuffix(x: seq<char>, s: seq<char>) {
    |x| <= |s| && s[|s| - |x|..] == x
  }

  /** The prefix of `s` that leaves `x`. */
  function Consumed(s: seq<char>, x: seq<char>): seq<char>
    requires |x| <= |s|
  {
    s[..|s| - |x|]
  }

  /**
   * The grammar: `rule` generates `w` with at most `fuel` nested rule numbers. A `Char` generates
   * itself, an `Or` what any alternative generates, a `Sequence` the concatenations of what its
   * rules generate.
   */
  ghost predicate Derives(rules: map<nat, Rule>, rule: Rule, w: seq<char>, fuel: nat)
    decreases fuel, 0, rule
  {
    match rule
    case Char(c) => w == [c]
    case Or(alts) => exists k :: 0 <= k < |alts| && Derives(rules, alts[k], w, fuel)
    case Sequence(ids) => fuel > 0 && DerivesFrom(rules, rule, 0, w, fuel - 1)
  }

  /** The rules of a `Sequence` from the `j`-th on generate `w`, one piece each. */
  ghost predicate DerivesFrom(rules: map<nat, Rule>, rule: Rule, j: nat, w: seq<char>, fuel: nat)
    requires rule.Sequence? && j <= |rule.ids|
    decreases fuel, 1, |rule.ids| - j
  {
    if j == |rule.ids| then w == []
    else
      rule.ids[j] in rules &&
      exists i :: 0 <= i <= |w| && Derives(rules, rules[rule.ids[j]], w[..i], fuel) && DerivesFrom(rules, rule, j + 1, w[i..], fuel)
  }

  /** Every remainder `x` is a suffix of `chars`, and `rule` generates the prefix it consumed. */
  ghost predicate Sound(chars: seq<char>, x: seq<char>, rule: Rule, rules: map<nat, Rule>, fuel: nat) {
    IsSuffix(x, chars) && Derives(rules, rule, Consumed(chars, x), fuel)
  }

  /** `x` is left over from one of the remainders `results` after `sub` generated a piece of it. */
  ghost predicate StepSound(results: seq<seq<char>>, x: seq<char>, sub: Rule, rules: map<nat, Rule>, fuel: nat) {
    exists y :: y in results && Sound(y, x, sub, rules, fuel)
  }

  /** `x` is left over from one of the remainders after the rules of a `Sequence` from the `j`-th on. */
  ghost predicate SequenceSound(results: seq<seq<char>>, x: seq<char>, rule: Rule, j: nat, rules: map<nat, Rule>, fuel: nat)
    requires rule.Sequence? && j <= |rule.ids|
  {
    exists y :: y in results && IsSuffix(x, y) && DerivesFrom(rules, rule, j, Consumed(y, x), fuel)
  }

  /** Every remainder `matches` returns is a suffix of the input left after a prefix the rule generates. */
  lemma MatchSound(chars: seq<char>, rule: Rule, rules: map<nat, Rule>, fuel: nat)
    ensures Match(chars, rule, rules, fuel).Found? ==>
      forall x :: x in Match(chars, rule, rules, fuel).rests ==> Sound(chars, x, rule, rules, fuel)
    decreases fuel, 0, rule
  {
    match rule
    case Char(c) =>
      if chars != [] && chars[0] == c {
        assert Consumed(chars, chars[1..]) == [c];
      }
    case Or(alts) =>
      OrSound(chars, rule, 0, rules, fuel);
    case Sequence(ids) =>
      if fuel > 0 {
        SequenceMatchSound(chars, rule, rules, fuel);
      }
  }

  /** The `Sequence` case of `MatchSound`. */
  lemma SequenceMatchSound(chars: seq<char>, rule: Rule, rules: map<nat, Rule>, fuel: nat)
    requires rule.Sequence? && fuel > 0
    ensures Match(chars, rule, rules, fuel).Found? ==>
      forall x :: x in Match(chars, rule, rules, fuel).rests ==> Sound(chars, x, rule, rules, fuel)
    decreases fuel - 1, 3
  {
    var m := Match(chars, rule, rules, fuel);
    assert m == SequenceFrom([chars], rule, 0, rules, fuel - 1);
    SequenceSoundFrom([chars], rule, 0, rules, fuel - 1);
    forall x | m.Found? && x in m.rests
      ensures Sound(chars, x, rule, rules, fuel)
    {
      SingleSound(chars, x, rule, rules, fuel);
    }
  }

  /** A remainder left after all the rules of a `Sequence`, starting from `chars` alone, is sound for the `Sequence`. */
  lemma SingleSound(chars: seq<char>, x: seq<char>, rule: Rule, rules: map<nat, Rule>, fuel: nat)
    requires rule.Sequence? && fuel > 0 && SequenceSound([chars], x, rule, 0, rules, fuel - 1)
    ensures Sound(chars, x, rule, rules, fuel)
  {
    var y :| y in [chars] && IsSuffix(x, y) && DerivesFrom(rules, rule, 0, Consumed(y, x), fuel - 1);
    assert y == [chars][0];
  }

  lemma OrSound(chars: seq<char>, rule: Rule, k: nat, rules: map<nat, Rule>, fuel: nat)
    requires rule.Or? && k <= |rule.alts|
    ensures OrFrom(chars, rule, k, rules, fuel).Found? ==>
      forall x :: x in OrFrom(chars, rule, k, rules, fuel).rests ==> Sound(chars, x, rule, rules, fuel)
    decreases fuel, 0, rule, |rule.alts| - k
  {
    if k < |rule.alts| {
      var a := Match(chars, rule.alts[k], rules, fuel);
      MatchSound(chars, rule.alts[k], rules, fuel);
      OrSound(chars, rule, k + 1, rules, fuel);
      forall x | a.Found? && x in a.rests
        ensures Derives(rules, rule, Consumed(chars, x), fuel)
      {
        assert Derives(rules, rule.alts[k], Consumed(chars, x), fuel);
      }
    }
  }

  lemma StepSoundFrom(results: seq<seq<char>>, i: nat, sub: Rule, rules: map<nat, Rule>, fuel: nat)
    requires i <= |results|
    ensures StepFrom(results, i, sub, rules, fuel).Found? ==>
      forall x :: x in StepFrom(results, i, sub, rules, fuel).rests ==> StepSound(results, x, sub, rules, fuel)
    decreases fuel, 1, |results| - i
  {
    if i < |results| {
      var a := Match(results[i], sub, rules, fuel);
      MatchSound(results[i], sub, rules, fuel);
      StepSoundFrom(results, i + 1, sub, rules, fuel);
      forall x | a.Found? && x in a.rests
        ensures StepSound(results, x, sub, rules, fuel)
      {
        assert results[i] in results;
      }
    }
  }

  /** The pieces of a sequence put together: what `sub` took from `y` to leave `z`, then what the rest took from `z`. */
  lemma Chain(rules: map<nat, Rule>, rule: Rule, j: nat, y: seq<char>, z: seq<char>, x: seq<char>, fuel: nat)
    requires rule.Sequence? && j < |rule.ids| && rule.ids[j] in rules
    requires Sound(y, z, rules[rule.ids[j]], rules, fuel)
    requires IsSuffix(x, z) && DerivesFrom(rules, rule, j + 1, Consumed(z, x), fuel)
    ensures IsSuffix(x, y) && DerivesFrom(rules, rule, j, Consumed(y, x), fuel)
  {
    var w := Consumed(y, x);
    var i := |y| - |z|;
    assert w[..i] == Consumed(y, z);
    assert w[i..] == Consumed(z, x);
  }

  /** One step of a sequence threaded onto the remainders before it. */
  lemma Thread(results: seq<seq<char>>, next: seq<seq<char>>, x: seq<char>, rule: Rule, j: nat, rules: map<nat, Rule>, fuel: nat)
    requires rule.Sequence? && j < |rule.ids| && rule.ids[j] in rules
    requires forall z :: z in next ==> StepSound(results, z, rules[rule.ids[j]], rules, fuel)
    requires SequenceSound(next, x, rule, j + 1, rules, fuel)
    ensures SequenceSound(results, x, rule, j, rules, fuel)
  {
    var z :| z in next && IsSuffix(x, z) && DerivesFrom(rules, rule, j + 1, Consumed(z, x), fuel);
    var y :| y in results && Sound(y, z, rules[rule.ids[j]], rules, fuel);
    Chain(rules, rule, j, y, z, x, fuel);
  }

  lemma SequenceSoundFrom(results: seq<seq<char>>, rule: Rule, j: nat, rules: map<nat, Rule>, fuel: nat)
    requires rule.Sequence? && j <= |rule.ids|
    ensures SequenceFrom(results, rule, j, rules, fuel).Found? ==>
      forall x :: x in SequenceFrom(results, rule, j, rules, fuel).rests ==> SequenceSound(results, x, rule, j, rules, fuel)
    decreases fuel, 2, |rule.ids| - j
  {
    if j == |rule.ids| {
      forall x | x in results
        ensures SequenceSound(results, x, rule, j, rules, fuel)
      {
        assert Consumed(x, x) == [];
      }
    } else if results != [] && rule.ids[j] in rules {
      var sub := rules[rule.ids[j]];
      var step := StepFrom(results, 0, sub, rules, fuel);
      StepSoundFrom(results, 0, sub, rules, fuel);
      if step.Found? {
        SequenceSoundFrom(step.rests, rule, j + 1, rules, fuel);
        forall x | SequenceFrom(results, rule, j, rules, fuel).Found? && x in SequenceFrom(results, rule, j, rules, fuel).rests
          ensures SequenceSound(results, x, rule, j, rules, fuel)
        {
          Thread(results, step.rests, x, rule, j, rules, fuel);
        }
      }
    }
  }

  /**
   * Conversely, a prefix that `rule` generates leaves its remainder among those `matches` returns,
   * unless the match panics or runs out of fuel.
   */
  lemma MatchComplete(chars: seq<char>, x: seq<char>, rule: Rule, rules: map<nat, Rule>, fuel: nat)
    requires Sound(chars, x, rule, rules, fuel)
    ensures var r := Match(chars, rule, rules, fuel); Stuck(r) || (r.Found? && x in r.rests)
    decreases fuel, 0, rule
  {
    match rule
    case Char(c) =>
      assert chars == Consumed(chars, x) + x;
    case Or(alts) =>
      var k :| 0 <= k < |alts| && Derives(rules, alts[k], Consumed(chars, x), fuel);
      OrComplete(chars, x, rule, 0, k, rules, fuel);
    case Sequence(ids) =>
      assert Consumed(chars, chars) == [];
      SequenceComplete([chars], chars, x, rule, 0, rules, fuel - 1);
  }

  lemma OrComplete(chars: seq<char>, x: seq<char>, rule: Rule, k: nat, m: nat, rules: map<nat, Rule>, fuel: nat)
    requires rule.Or? && k <= m < |rule.alts|
    requires IsSuffix(x, chars) && Derives(rules, rule.alts[m], Consumed(chars, x), fuel)
    ensures var r := OrFrom(chars, rule, k, rules, fuel); Stuck(r) || (r.Found? && x in r.rests)
    decreases fuel, 0, rule, |rule.alts| - k
  {
    if k == m {
      MatchComplete(chars, x, rule.alts[k], rules, fuel);
    } else {
      OrComplete(chars, x, rule, k + 1, m, rules, fuel);
    }
  }

  lemma StepComplete(results: seq<seq<char>>, i: nat, m: nat, z: seq<char>, sub: Rule, rules: map<nat, Rule>, fuel: nat)
    requires i <= m < |results| && Sound(results[m], z, sub, rules, fuel)
    ensures var r := StepFrom(results, i, sub, rules, fuel); Stuck(r) || (r.Found? && z in r.rests)
    decreases fuel, 1, |results| - i
  {
    if i == m {
      MatchComplete(results[i], z, sub, rules, fuel);
    } else {
      StepComplete(results, i + 1, m, z, sub, rules, fuel);
    }
  }

  lemma SequenceComplete(results: seq<seq<char>>, y: seq<char>, x: seq<char>, rule: Rule, j: nat, rules: map<nat, Rule>, fuel: nat)
    requires rule.Sequence? && j <= |rule.ids|
    requires y in results && IsSuffix(x, y) && DerivesFrom(rules, rule, j, Consumed(y, x), fuel)
    ensures var r := SequenceFrom(results, rule, j, rules, fuel); Stuck(r) || (r.Found? && x in r.rests)
    decreases fuel, 2, |rule.ids| - j
  {
    if j == |rule.ids| {
      assert y == Consumed(y, x) + x;
    } else {
      var w := Consumed(y, x);
      var i :| 0 <= i <= |w| && Derives(rules, rules[rule.ids[j]], w[..i], fuel) && DerivesFrom(rules, rule, j + 1, w[i..], fuel);
      var z := y[i..];
      assert Consumed(y, z) == w[..i] && Consumed(z, x) == w[i..];
      var m :| 0 <= m < |results| && results[m] == y;
      StepComplete(results, 0, m, z, rules[rule.ids[j]], rules, fuel);
      var step := StepFrom(results, 0, rules[rule.ids[j]], rules, fuel);
      if step.Found? {
        SequenceComplete(step.rests, z, x, rule, j + 1, rules, fuel);
      }
    }
  }

  /** `Char(c)` matches exactly an input that starts with `c`, leaving the rest. */
  lemma CharMatch(chars: seq<char>, c: char, rules: map<nat, Rule>, fuel: nat)
    ensures Match(chars, Char(c), rules, fuel).Found? <==> chars != [] && chars[0] == c
    ensures Match(chars, Char(c), rules, fuel).Found? ==> Match(chars, Char(c), rules, fuel).rests == [chars[1..]]
  {
  }

  /** Without a panic or a run out of fuel, an `Or` matches exactly when one of its alternatives does. */
  lemma {:induction false} OrMatch(chars: seq<char>, rule: Rule, k: nat, rules: map<nat, Rule>, fuel: nat)
    requires rule.Or? && k <= |rule.alts|
    requires forall i :: k <= i < |rule.alts| ==> !Stuck(Match(chars, rule.alts[i], rules, fuel))
    ensures OrFrom(chars, rule, k, rules, fuel).Found? <==> exists i :: k <= i < |rule.alts| && Match(chars, rule.alts[i], rules, fuel).Found?
    ensures !Stuck(OrFrom(chars, rule, k, rules, fuel))
    decreases |rule.alts| - k
  {
    if k < |rule.alts| {
      OrMatch(chars, rule, k + 1, rules, fuel);
    }
  }

  /**
   * The acceptance test: `Some(true)` when rule 0 leaves an empty remainder, `Some(false)` when it
   * leaves none; `None` when there is no rule 0 or the match panics or runs out of fuel.
   */
  function Accepted(message: seq<char>, rules: map<nat, Rule>, fuel: nat): Option<bool> {
    if 0 !in rules then None
    else match Match(message, rules[0], rules, fuel)
      case Found(rests) => Some([] in rests)
      case NoMatch => Some(false)
      case _ => None
  }

  /** A message is accepted exactly when rule 0 generates all of it (when the test gives an answer). */
  lemma AcceptedMeans(message: seq<char>, rules: map<nat, Rule>, fuel: nat)
    requires Accepted(message, rules, fuel).Some?
    ensures Accepted(message, rules, fuel) == Some(true) <==> Derives(rules, rules[0], message, fuel)
  {
    MatchSound(message, rules[0], rules, fuel);
    var empty: seq<char> := [];
    assert Consumed(message, empty) == message;
    if Derives(rules, rules[0], message, fuel) {
      MatchComplete(message, empty, rules[0], rules, fuel);
    }
    if Accepted(message, rules, fuel) == Some(true) {
      assert Sound(message, empty, rules[0], rules, fuel);
    }
  }
}
