/** Day 6 (custom customs): groups of answer sets, and the union and intersection counts. */
module Day6 {
  import Arith
  import opened Wrappers
  import opened Text

  /** One group: the set of questions each person answered "yes" to. */
  type Group = seq<set<char>>

  /** `line.chars().collect()` into a set. */
  function Answers(line: string): (r: set<char>)
    ensures forall c :: c in r <==> c in line
  {
    set c | c in line
  }

  /**
   * The groups `parse` returns: a new group at every empty line, every other line one more
   * person in the last group. There is one group more than there are empty lines.
   */
  function Grouped(lines: seq<string>): (r: seq<Group>)
    ensures |r| == 1 + Count(lines, "")
  {
    if lines == [] then [[]]
    else
      var gs, line := Grouped(lines[..|lines| - 1]), lines[|lines| - 1];
      if line == [] then gs + [[]]
      else gs[..|gs| - 1] + [gs[|gs| - 1] + [Answers(line)]]
  }

  function People(groups: seq<Group>): nat {
    if groups == [] then 0 else People(groups[..|groups| - 1]) + |groups[|groups| - 1]|
  }

  lemma {:induction false} PeopleAppend(a: seq<Group>, b: seq<Group>)
    ensures People(a + b) == People(a) + People(b)
    decreases |b|
  {
    if b != [] {
      assert (a + b)[..|a + b| - 1] == a + b[..|b| - 1];
      PeopleAppend(a, b[..|b| - 1]);
    } else {
      assert a + b == a;
    }
  }

  /** Every non-empty line is exactly one person. */
  lemma {:induction false} GroupedPeople(lines: seq<string>)
    ensures People(Grouped(lines)) == |lines| - Count(lines, "")
  {
    if lines != [] {
      var init, line := lines[..|lines| - 1], lines[|lines| - 1];
      GroupedPeople(init);
      var gs := Grouped(init);
      if line == [] {
        PeopleAppend(gs, [[]]);
        var empty: seq<Group> := [[]];
        assert People(empty) == 0 by { assert empty[..0] == []; }
      } else {
        var last := gs[|gs| - 1];
        assert gs == gs[..|gs| - 1] + [last];
        PeopleAppend(gs[..|gs| - 1], [last]);
        PeopleAppend(gs[..|gs| - 1], [last + [Answers(line)]]);
        assert People([last]) == |last| by { assert [last][..0] == []; }
        assert People([last + [Answers(line)]]) == |last| + 1 by { assert [last + [Answers(line)]][..0] == []; }
      }
    }
  }

  /** `parse`: the loop over the lines, pushing each person into the last group in place. */
  method ParseGroups(lines: seq<string>) returns (r: seq<Group>)
    ensures r == Grouped(lines)
  {
    r := [[]];
    for i := 0 to |lines|
      invariant r == Grouped(lines[..i])
    {
      assert lines[..i + 1][..i] == lines[..i];
      if lines[i] == [] {
        r := r + [[]];
      } else {
        r := r[..|r| - 1] + [r[|r| - 1] + [Answers(lines[i])]];
      }
    }
    assert lines[..|lines|] == lines;
  }

  /** The part-1 fold: the questions anyone in the group answered. */
  function Union(g: Group): (r: set<char>)
    ensures forall c :: c in r <==> exists p :: 0 <= p < |g| && c in g[p]
  {
    if g == [] then {}
    else
      var init := g[..|g| - 1];
      var r := Union(init) + g[|g| - 1];
      assert forall p :: 0 <= p < |init| ==> init[p] == g[p];
      r
  }

  /** The part-2 fold from the first person: the questions everyone answered; `None` for an empty group. */
  function Intersection(g: Group): (r: Option<set<char>>)
    ensures r.None? <==> g == []
    ensures r.Some? ==> forall c :: c in r.value <==> forall p :: 0 <= p < |g| ==> c in g[p]
  {
    if g == [] then None else Some(IntersectFrom(g[0], g[1..]))
  }

  function IntersectFrom(a: set<char>, rest: Group): (r: set<char>)
    ensures forall c :: c in r <==> c in a && forall p :: 0 <= p < |rest| ==> c in rest[p]
  {
    if rest == [] then a
    else
      var r := IntersectFrom(a * rest[0], rest[1..]);
      assert forall p :: 1 <= p < |rest| ==> rest[p] == rest[1..][p - 1];
      r
  }

  /** What everyone answered, somebody answered: the part-2 count never exceeds the part-1 count. */
  lemma IntersectionWithinUnion(g: Group)
    requires g != []
    ensures Intersection(g).value <= Union(g)
    ensures |Intersection(g).value| <= |Union(g)|
  {
    forall c | c in Intersection(g).value
      ensures c in Union(g)
    {
      assert c in g[0];
    }
    Arith.SubsetCard(Intersection(g).value, Union(g));
  }

  /** Solution 1: the sum of the union sizes. */
  function UnionCount(groups: seq<Group>): nat {
    if groups == [] then 0 else |Union(groups[0])| + UnionCount(groups[1..])
  }

  /** Solution 2: the sum of the intersection sizes; empty groups are skipped by `filter_map`. */
  function IntersectionCount(groups: seq<Group>): nat {
    if groups == [] then 0
    else
      (match Intersection(groups[0]) case None => 0 case Some(s) => |s|) + IntersectionCount(groups[1..])
  }

  lemma {:induction false} CountsOrdered(groups: seq<Group>)
    ensures IntersectionCount(groups) <= UnionCount(groups)
  {
    if groups != [] {
      CountsOrdered(groups[1..]);
      if groups[0] != [] {
        IntersectionWithinUnion(groups[0]);
      }
    }
  }
}
