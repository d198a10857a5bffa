/** Day 7 (handy haversacks): the bag graph, the bags that can hold shiny gold, and the bags inside it. */
module Day7 {
  import opened Wrappers

  /** `BagRule`: bag `bag` holds `count` bags of kind `contains`. */
  datatype BagRule = BagRule(bag: nat, count: nat, contains: nat)

  /** `RawBagRule`: one parsed input line, the bag's name and the names and counts it holds. */
  datatype RawBagRule = RawBagRule(bag: string, contains: seq<(string, nat)>)

  const MyBag := "shiny gold"

  /** `push_back` of every element of `more`, one at a time, onto the queue. */
  method PushBack(queue: seq<nat>, more: seq<nat>) returns (r: seq<nat>)
    ensures r == queue + more
  {
    r := queue;
    for j := 0 to |more|
      invariant r == queue + more[..j]
    {
      assert more[..j + 1] == more[..j] + [more[j]];
      r := r + [more[j]];
    }
    assert more[..|more|] == more;
  }

  /** Every name in the list has an id. */
  ghost predicate Known(ids: map<string, nat>, contains: seq<(string, nat)>) {
    forall j :: 0 <= j < |contains| ==> contains[j].0 in ids
  }

  /** The rules one raw rule contributes, in order. */
  ghost function RuleEdges(ids: map<string, nat>, bag: string, contains: seq<(string, nat)>): seq<BagRule>
    requires bag in ids && Known(ids, contains)
  {
    if contains == [] then []
    else
      var last := contains[|contains| - 1];
      RuleEdges(ids, bag, contains[..|contains| - 1]) + [BagRule(ids[bag], last.1, ids[last.0])]
  }

  /** The rules all raw rules contribute, in input order. */
  ghost function Edges(ids: map<string, nat>, raw: seq<RawBagRule>): seq<BagRule>
    requires forall i :: 0 <= i < |raw| ==> raw[i].bag in ids && Known(ids, raw[i].contains)
  {
    if raw == [] then []
    else Edges(ids, raw[..|raw| - 1]) + RuleEdges(ids, raw[|raw| - 1].bag, raw[|raw| - 1].contains)
  }

  /** The end of a rule on the given side: its container (`outgoing`) or its content. */
  function End(rule: BagRule, outgoing: bool): nat {
    if outgoing then rule.bag else rule.contains
  }

  /**
   * The ids, in increasing order, of the first `n` rules whose given end is bag `b`: the list
   * `id_to_contains_rules[b]` (outgoing) or `id_to_contained_rules[b]` (incoming) once `n` rules
   * have been pushed.
   */
  function RuleIds(rules: seq<BagRule>, b: nat, n: nat, outgoing: bool): (ids: seq<nat>)
    requires n <= |rules|
    ensures forall k :: 0 <= k < |ids| ==> ids[k] < n && End(rules[ids[k]], outgoing) == b
  {
    if n == 0 then []
    else RuleIds(rules, b, n - 1, outgoing) + if End(rules[n - 1], outgoing) == b then [n - 1] else []
  }

  /** Every rule with that end is listed. */
  lemma {:induction false} RuleIdsComplete(rules: seq<BagRule>, b: nat, n: nat, outgoing: bool, x: nat)
    requires n <= |rules| && x < n && End(rules[x], outgoing) == b
    ensures x in RuleIds(rules, b, n, outgoing)
  {
    if x < n - 1 {
      RuleIdsComplete(rules, b, n - 1, outgoing, x);
    }
  }

  /** Pushing more rules does not change the lists of the earlier ones. */
  lemma {:induction false} RuleIdsPrefix(rules: seq<BagRule>, more: seq<BagRule>, b: nat, n: nat, outgoing: bool)
    requires n <= |rules|
    ensures RuleIds(rules + more, b, n, outgoing) == RuleIds(rules, b, n, outgoing)
  {
    if n > 0 {
      RuleIdsPrefix(rules, more, b, n - 1, outgoing);
      assert (rules + more)[n - 1] == rules[n - 1];
    }
  }

  class BagGraph {
    var bagToId: map<string, nat>
    var idToBag: seq<string>
    var idToContainsRules: seq<seq<nat>>
    var idToContainedRules: seq<seq<nat>>
    var rules: seq<BagRule>

    /**
     * Names and ids are in one-to-one correspondence, every rule joins two known bags, and each
     * bag's two rule lists hold exactly the ids of the rules leaving it and entering it.
     */
    ghost predicate Valid()
      reads this
    {
      |idToContainsRules| == |idToBag| && |idToContainedRules| == |idToBag| && |bagToId| == |idToBag|
      && (forall n :: n in bagToId ==> bagToId[n] < |idToBag| && idToBag[bagToId[n]] == n)
      && (forall i :: 0 <= i < |idToBag| ==> idToBag[i] in bagToId && bagToId[idToBag[i]] == i)
      && (forall r :: 0 <= r < |rules| ==> rules[r].bag < |idToBag| && rules[r].contains < |idToBag|)
      && (forall b :: 0 <= b < |idToBag| ==>
            idToContainsRules[b] == RuleIds(rules, b, |rules|, true) &&
            idToContainedRules[b] == RuleIds(rules, b, |rules|, false))
    }

    /** `BagGraph::default()`. */
    constructor ()
      ensures Valid() && bagToId == map[] && idToBag == [] && rules == []
      ensures idToContainsRules == [] && idToContainedRules == []
    {
      bagToId, idToBag, idToContainsRules, idToContainedRules, rules := map[], [], [], [], [];
    }

    /**
     * `allocate_bag_id`: the new id is the number of bags so far; the name is mapped to it and
     * every per-bag table grows by one entry.
     */
    method AllocateBagId(name: string) returns (id: nat)
      requires Valid() && name !in bagToId
      modifies this
      ensures Valid()
      ensures id == old(|bagToId|) && bagToId == old(bagToId)[name := id]
      ensures idToBag == old(idToBag) + [name] && rules == old(rules)
      ensures idToContainsRules == old(idToContainsRules) + [[]]
      ensures idToContainedRules == old(idToContainedRules) + [[]]
    {
      id := |bagToId|;
      bagToId := bagToId[name := id];
      idToBag := idToBag + [name];
      idToContainsRules := idToContainsRules + [[]];
      idToContainedRules := idToContainedRules + [[]];
      RuleIdsNone(rules, id, |rules|, true);
      RuleIdsNone(rules, id, |rules|, false);
    }

    /** A bag no rule touches has empty rule lists. */
    static lemma {:induction false} RuleIdsNone(rules: seq<BagRule>, b: nat, n: nat, outgoing: bool)
      requires n <= |rules| && forall r :: 0 <= r < n ==> End(rules[r], outgoing) != b
      ensures RuleIds(rules, b, n, outgoing) == []
    {
      if n > 0 {
        RuleIdsNone(rules, b, n - 1, outgoing);
      }
    }

    /** Records one rule and lists its id under its container and under its content. */
    method AddRule(bag: nat, count: nat, contained: nat)
      requires Valid() && bag < |idToBag| && contained < |idToBag|
      modifies this
      ensures Valid()
      ensures bagToId == old(bagToId) && idToBag == old(idToBag)
      ensures rules == old(rules) + [BagRule(bag, count, contained)]
    {
      var ruleId := |rules|;
      var rule := BagRule(bag, count, contained);
      forall b, outgoing | 0 <= b < |idToBag|
        ensures RuleIds(rules + [rule], b, ruleId + 1, outgoing) ==
          RuleIds(rules, b, ruleId, outgoing) + if End(rule, outgoing) == b then [ruleId] else []
      {
        RuleIdsPrefix(rules, [rule], b, ruleId, outgoing);
      }
      rules := rules + [rule];
      idToContainedRules := idToContainedRules[contained := idToContainedRules[contained] + [ruleId]];
      idToContainsRules := idToContainsRules[bag := idToContainsRules[bag] + [ruleId]];
      forall b | 0 <= b < |idToBag|
        ensures idToContainsRules[b] == RuleIds(rules, b, |rules|, true)
        ensures idToContainedRules[b] == RuleIds(rules, b, |rules|, false)
      {
        assert RuleIds(rules, b, ruleId + 1, true) ==
          RuleIds(old(rules), b, ruleId, true) + if End(rule, true) == b then [ruleId] else [];
        assert RuleIds(rules, b, ruleId + 1, false) ==
          RuleIds(old(rules), b, ruleId, false) + if End(rule, false) == b then [ruleId] else [];
      }
    }

    /**
     * "Insert all nodes": shiny gold first, so it receives id 0, then every rule's bag that has
     * no id yet, in input order.
     */
    method InsertNodes(raw: seq<RawBagRule>) returns (myBag: nat)
      requires Valid() && bagToId == map[] && rules == []
      modifies this
      ensures Valid() && rules == []
      ensures myBag == 0 && |idToBag| > 0 && idToBag[0] == MyBag
      ensures forall i :: 0 <= i < |raw| ==> raw[i].bag in bagToId
      ensures forall n :: n in bagToId ==> n == MyBag || exists i :: 0 <= i < |raw| && raw[i].bag == n
    {
      myBag := AllocateBagId(MyBag);
      for i := 0 to |raw|
        invariant Valid() && rules == [] && MyBag in bagToId && bagToId[MyBag] == 0 && |idToBag| > 0
        invariant forall j :: 0 <= j < i ==> raw[j].bag in bagToId
        invariant forall n :: n in bagToId ==> n == MyBag || exists j :: 0 <= j < i && raw[j].bag == n
      {
        if raw[i].bag !in bagToId {
          var _ := AllocateBagId(raw[i].bag);
        }
      }
    }

    /**
     * "Create all edges": one rule per (name, count) entry, listed under both bags. `false` where
     * the Rust code panics on a content name that is no rule's bag.
     */
    method AddEdges(raw: seq<RawBagRule>) returns (ok: bool)
      requires Valid() && rules == []
      requires forall i :: 0 <= i < |raw| ==> raw[i].bag in bagToId
      modifies this
      ensures Valid() && bagToId == old(bagToId) && idToBag == old(idToBag)
      ensures ok <==> forall i :: 0 <= i < |raw| ==> Known(bagToId, raw[i].contains)
      ensures ok ==> rules == Edges(bagToId, raw)
    {
      for i := 0 to |raw|
        invariant Valid() && bagToId == old(bagToId) && idToBag == old(idToBag)
        invariant forall j :: 0 <= j < i ==> Known(bagToId, raw[j].contains)
        invariant rules == Edges(bagToId, raw[..i])
      {
        assert raw[..i + 1][..i] == raw[..i];
        var ok := AddRawRule(raw[i].bag, raw[i].contains);
        if !ok {
          return false;
        }
      }
      assert raw[..|raw|] == raw;
      return true;
    }

    /** The inner loop of "create all edges": the rules of one raw rule, `false` at the first unknown name. */
    method AddRawRule(name: string, contains: seq<(string, nat)>) returns (ok: bool)
      requires Valid() && name in bagToId
      modifies this
      ensures Valid() && bagToId == old(bagToId) && idToBag == old(idToBag)
      ensures ok <==> Known(bagToId, contains)
      ensures ok ==> rules == old(rules) + RuleEdges(bagToId, name, contains)
    {
      var bag := bagToId[name];
      for k := 0 to |contains|
        invariant Valid() && bagToId == old(bagToId) && idToBag == old(idToBag)
        invariant forall j :: 0 <= j < k ==> contains[j].0 in bagToId
        invariant rules == old(rules) + RuleEdges(bagToId, name, contains[..k])
      {
        if contains[k].0 !in bagToId {
          return false;
        }
        AddRule(bag, contains[k].1, bagToId[contains[k].0]);
        assert contains[..k + 1][..k] == contains[..k];
      }
      assert contains[..|contains|] == contains;
      return true;
    }

    /** A chain of rules, each one's content being the next one's container. */
    ghost predicate Chain(path: seq<nat>)
      reads this
    {
      |path| >= 1 && (forall k :: 0 <= k < |path| ==> path[k] < |rules|)
      && forall k :: 0 <= k < |path| - 1 ==> rules[path[k]].contains == rules[path[k + 1]].bag
    }

    /** Bag `b` holds bag `t`, directly or through other bags. */
    ghost predicate Reaches(b: nat, t: nat)
      reads this
    {
      exists path :: Chain(path) && rules[path[0]].bag == b && rules[path[|path| - 1]].contains == t
    }

    /** Every queued rule's container holds `target`. */
    ghost predicate QueuedReach(queue: seq<nat>, target: nat)
      reads this
    {
      forall k :: 0 <= k < |queue| ==> queue[k] < |rules| && Reaches(rules[queue[k]].bag, target)
    }

    /** Once no rule leads from an unmarked bag into `t` or into a marked bag, every bag holding `t` is marked. */
    lemma {:induction false} ClosedMarksReaches(marked: seq<bool>, t: nat, path: seq<nat>)
      requires Valid() && |marked| == |idToBag| && Chain(path)
      requires forall r :: 0 <= r < |rules| && (rules[r].contains == t || marked[rules[r].contains]) ==> marked[rules[r].bag]
      requires rules[path[|path| - 1]].contains == t
      ensures marked[rules[path[0]].bag]
      decreases |path|
    {
      if |path| > 1 {
        var rest := path[1..];
        assert Chain(rest) by {
          forall k | 0 <= k < |rest| - 1
            ensures rules[rest[k]].contains == rules[rest[k + 1]].bag
          {
            assert rest[k] == path[k + 1] && rest[k + 1] == path[k + 2];
          }
        }
        ClosedMarksReaches(marked, t, rest);
        assert rules[path[0]].contains == rules[rest[0]].bag;
      }
    }

    /** Every marked bag holds `target`. */
    ghost predicate MarkedReach(marked: seq<bool>, target: nat)
      reads this
    {
      forall b :: 0 <= b < |marked| && marked[b] ==> Reaches(b, target)
    }

    /** Every rule into `target` or into a marked bag has its container marked or is still queued. */
    ghost predicate Closed(marked: seq<bool>, queue: seq<nat>, target: nat)
      reads this
    {
      forall r {:trigger marked[rules[r].bag]} :: (0 <= r < |rules| && rules[r].bag < |marked| && rules[r].contains < |marked| &&
        (rules[r].contains == target || marked[rules[r].contains])) ==> marked[rules[r].bag] || r in queue
    }

    /** Taking a rule from the queue and queueing the rules into its container keeps every queued rule useful. */
    lemma StepQueued(queue: seq<nat>, more: seq<nat>, target: nat)
      requires queue != [] && QueuedReach(queue, target)
      requires forall k :: 0 <= k < |more| ==> more[k] < |rules| && rules[more[k]].contains == rules[queue[0]].bag
      ensures QueuedReach(queue[1..] + more, target)
    {
      var bag := rules[queue[0]].bag;
      var next := queue[1..] + more;
      assert Reaches(bag, target);
      var path :| Chain(path) && rules[path[0]].bag == bag && rules[path[|path| - 1]].contains == target;
      forall k | 0 <= k < |next|
        ensures next[k] < |rules| && Reaches(rules[next[k]].bag, target)
      {
        if k < |queue| - 1 {
          assert next[k] == queue[k + 1];
        } else {
          var p := [next[k]] + path;
          assert next[k] == more[k - |queue| + 1];
          assert Chain(p) by {
            assert forall i :: 1 <= i < |p| ==> p[i] == path[i - 1];
          }
          assert rules[p[0]].bag == rules[next[k]].bag && rules[p[|p| - 1]].contains == target;
        }
      }
    }

    /** Marking the container of the rule taken from the queue keeps the marking closed. */
    lemma StepClosed(marked: seq<bool>, queue: seq<nat>, target: nat)
      requires Valid() && |marked| == |idToBag| && queue != [] && queue[0] < |rules|
      requires Closed(marked, queue, target)
      ensures Closed(marked[rules[queue[0]].bag := true], queue[1..] + idToContainedRules[rules[queue[0]].bag], target)
    {
      var bag := rules[queue[0]].bag;
      var more := idToContainedRules[bag];
      var next := queue[1..] + more;
      var marked' := marked[bag := true];
      forall r | 0 <= r < |rules| && (rules[r].contains == target || marked'[rules[r].contains])
        ensures marked'[rules[r].bag] || r in next
      {
        if rules[r].contains == bag {
          RuleIdsComplete(rules, bag, |rules|, false, r);
          var k :| 0 <= k < |more| && more[k] == r;
          assert next[|queue| - 1 + k] == r;
        } else if r != queue[0] && r in queue {
          var k :| 0 <= k < |queue| && queue[k] == r;
          assert next[k - 1] == r;
        }
      }
    }

    /**
     * The marking loop of `main`: start from the rules whose content is `target`, mark each
     * rule's container and queue the rules that have that container as content. Nothing stops
     * a rule from being queued again, so the loop ends only on an acyclic graph; `fuel` bounds
     * the number of rules taken from the queue and `None` means it ran out. On completion the
     * marked bags are exactly those that hold `target`.
     */
    method MarkContainers(target: nat, fuel: nat) returns (r: Option<seq<bool>>)
      requires Valid() && target < |idToBag|
      ensures r.Some? ==> |r.value| == |idToBag|
      ensures r.Some? ==> forall b :: 0 <= b < |idToBag| ==> (r.value[b] <==> Reaches(b, target))
    {
      var marked := new bool[|idToBag|](_ => false);
      var queue: seq<nat> := idToContainedRules[target];
      Start(marked[..], target);
      var steps := 0;
      while queue != []
        invariant steps <= fuel && Marking(marked[..], queue, target)
        decreases fuel - steps
      {
        if steps == fuel {
          return None;
        }
        steps := steps + 1;
        queue := MarkNext(marked, queue, target);
      }
      Finish(marked[..], target);
      return Some(marked[..]);
    }

    /** One turn of the loop: pop a rule, mark its container and push the rules into that container. */
    method MarkNext(marked: array<bool>, queue: seq<nat>, target: nat) returns (next: seq<nat>)
      requires Marking(marked[..], queue, target) && queue != []
      modifies marked
      ensures Marking(marked[..], next, target)
    {
      var bag := rules[queue[0]].bag;
      var more := idToContainedRules[bag];
      Step(marked[..], queue, target);
      ghost var before := marked[..];
      marked[bag] := true;
      assert marked[..] == before[bag := true];
      next := PushBack(queue[1..], more);
    }

    /** The loop invariant of the marking: queued rules and marked bags hold `target`, and the marking is closed up to the queue. */
    ghost predicate Marking(marked: seq<bool>, queue: seq<nat>, target: nat)
      reads this
    {
      Valid() && |marked| == |idToBag| &&
      QueuedReach(queue, target) && MarkedReach(marked, target) && Closed(marked, queue, target)
    }

    /** One iteration keeps the invariant. */
    lemma Step(marked: seq<bool>, queue: seq<nat>, target: nat)
      requires Marking(marked, queue, target) && queue != []
      ensures rules[queue[0]].bag < |marked|
      ensures Marking(marked[rules[queue[0]].bag := true], queue[1..] + idToContainedRules[rules[queue[0]].bag], target)
    {
      var bag := rules[queue[0]].bag;
      StepQueued(queue, idToContainedRules[bag], target);
      StepClosed(marked, queue, target);
      StepMarked(marked, queue, target);
    }

    /** At the start nothing is marked and the queue holds every rule into `target`. */
    lemma Start(marked: seq<bool>, target: nat)
      requires Valid() && target < |idToBag| && |marked| == |idToBag| && forall b :: 0 <= b < |marked| ==> !marked[b]
      ensures Marking(marked, idToContainedRules[target], target)
    {
      var queue := idToContainedRules[target];
      forall k | 0 <= k < |queue|
        ensures queue[k] < |rules| && Reaches(rules[queue[k]].bag, target)
      {
        assert Chain([queue[k]]);
      }
      forall r | 0 <= r < |rules| && rules[r].contains == target
        ensures r in queue
      {
        RuleIdsComplete(rules, target, |rules|, false, r);
      }
    }

    /** The container of the rule taken from the queue holds `target`. */
    lemma StepMarked(marked: seq<bool>, queue: seq<nat>, target: nat)
      requires queue != [] && QueuedReach(queue, target) && MarkedReach(marked, target)
      requires rules[queue[0]].bag < |marked|
      ensures MarkedReach(marked[rules[queue[0]].bag := true], target)
    {
      assert Reaches(rules[queue[0]].bag, target);
    }

    /** With an empty queue the marking is exactly the set of bags holding `target`. */
    lemma Finish(marked: seq<bool>, target: nat)
      requires Marking(marked, [], target)
      ensures forall b :: 0 <= b < |idToBag| ==> (marked[b] <==> Reaches(b, target))
    {
      forall b | 0 <= b < |marked| && Reaches(b, target)
        ensures marked[b]
      {
        var path :| Chain(path) && rules[path[0]].bag == b && rules[path[|path| - 1]].contains == target;
        ClosedMarksReaches(marked, target, path);
      }
    }

    /** A ranking that strictly decreases from every bag to each bag it holds: the graph has no cycle. */
    ghost predicate Ranked(rank: seq<nat>)
      reads this
    {
      |rank| == |idToBag| && forall r :: 0 <= r < |rules| && rules[r].bag < |rank| && rules[r].contains < |rank| ==>
        rank[rules[r].contains] < rank[rules[r].bag]
    }

    /** The number of bags inside bag `b`: over its rules, `count * (1 + bags inside the content)`. */
    ghost function BagCount(b: nat, rank: seq<nat>): nat
      reads this
      requires Valid() && Ranked(rank) && b < |idToBag|
      decreases rank[b], 1, 0
    {
      SumRules(b, |idToContainsRules[b]|, rank)
    }

    /** The first `k` rules of `b`, summed as the `for` loop of `compute_contained_bag_count` does. */
    ghost function SumRules(b: nat, k: nat, rank: seq<nat>): nat
      reads this
      requires Valid() && Ranked(rank) && b < |idToBag| && k <= |idToContainsRules[b]|
      decreases rank[b], 0, k
    {
      if k == 0 then 0
      else
        var rule := rules[idToContainsRules[b][k - 1]];
        SumRules(b, k - 1, rank) + (1 + BagCount(rule.contains, rank)) * rule.count
    }

    /** The `k`-th rule of `bag` holds a lower-ranked bag and adds its share to the sum. */
    lemma SumRulesStep(b: nat, k: nat, rank: seq<nat>)
      requires Valid() && Ranked(rank) && b < |idToBag| && k < |idToContainsRules[b]|
      ensures idToContainsRules[b][k] < |rules|
      ensures rules[idToContainsRules[b][k]].bag == b && rules[idToContainsRules[b][k]].contains < |idToBag|
      ensures rank[rules[idToContainsRules[b][k]].contains] < rank[b]
      ensures SumRules(b, k + 1, rank) ==
        SumRules(b, k, rank) + (1 + BagCount(rules[idToContainsRules[b][k]].contains, rank)) * rules[idToContainsRules[b][k]].count
    {
    }

    /** Every cached count is the true count. */
    ghost predicate CacheSound(cache: array<Option<nat>>, rank: seq<nat>)
      reads this, cache
      requires Valid() && Ranked(rank)
    {
      cache.Length == |idToBag| &&
      forall i :: 0 <= i < cache.Length && cache[i].Some? ==> cache[i].value == BagCount(i, rank)
    }

    /**
     * `compute_contained_bag_count`: the number of bags inside `bag`, memoised in `cache`. Cached
     * entries are returned and never changed; the recursion ends because the graph is acyclic.
     */
    method ContainedBagCount(bag: nat, cache: array<Option<nat>>, ghost rank: seq<nat>) returns (count: nat)
      requires Valid() && Ranked(rank) && bag < |idToBag| && CacheSound(cache, rank)
      modifies cache
      ensures CacheSound(cache, rank) && count == BagCount(bag, rank)
      ensures forall i :: 0 <= i < cache.Length && old(cache[i]).Some? ==> cache[i] == old(cache[i])
      ensures cache[bag] == Some(count)
      decreases rank[bag]
    {
      if cache[bag].Some? {
        return cache[bag].value;
      }
      count := 0;
      var ruleIds := idToContainsRules[bag];
      for k := 0 to |ruleIds|
        invariant CacheSound(cache, rank) && count == SumRules(bag, k, rank)
        invariant forall i :: 0 <= i < cache.Length && old(cache[i]).Some? ==> cache[i] == old(cache[i])
      {
        var rule := rules[ruleIds[k]];
        SumRulesStep(bag, k, rank);
        var inner := ContainedBagCount(rule.contains, cache, rank);
        count := count + (1 + inner) * rule.count;
      }
      cache[bag] := Some(count);
    }
  }
}
