/**
 * Day 21: each food lists its ingredients and some of the allergens it contains. Every allergen is
 * in exactly one ingredient, so the ingredient for an allergen is among the ingredients of every
 * food that lists it. Ingredients outside every such candidate set are safe; the candidate sets are
 * then narrowed down by pinning an allergen whose set has one ingredient left and removing that
 * ingredient from every other set.
 */
module Day21 {
  import opened Wrappers

  /** One food: its ingredients and the allergens it lists. */
  datatype Food = Food(ingredients: set<string>, allergens: set<string>)

  /** `all_allergens`: every allergen some food lists. */
  function AllAllergens(foods: seq<Food>): set<string> {
    set i, a | 0 <= i < |foods| && a in foods[i].allergens :: a
  }

  /** `all_ingredients`: every ingredient of some food. */
  function AllIngredients(foods: seq<Food>): set<string> {
    set i, x | 0 <= i < |foods| && x in foods[i].ingredients :: x
  }

  // ---- Candidates ----

  /**
   * The candidate ingredients for allergen `a`: the ingredients common to every food that lists
   * it, `None` when no food does.
   */
  function Common(foods: seq<Food>, a: string): (r: Option<set<string>>)
    ensures r.None? <==> forall i :: 0 <= i < |foods| ==> a !in foods[i].allergens
    ensures r.Some? ==> forall x :: x in r.value <==>
      forall i :: 0 <= i < |foods| && a in foods[i].allergens ==> x in foods[i].ingredients
  {
    if foods == [] then None else
      var n := |foods| - 1;
      var before := Common(foods[..n], a);
      assert forall i :: 0 <= i < n ==> foods[..n][i] == foods[i];
      if a !in foods[n].allergens then before
      else if before.None? then Some(foods[n].ingredients)
      else Some(before.value * foods[n].ingredients)
  }

  /** An allergen some food lists has candidates. */
  lemma Listed(foods: seq<Food>, a: string)
    requires a in AllAllergens(foods)
    ensures Common(foods, a).Some?
  {
    var i :| 0 <= i < |foods| && a in foods[i].allergens;
  }

  /**
   * The inner loop for allergen `a`: each food that lists it narrows its entry to the ingredients
   * in common, the first one inserting it.
   */
  method AddAllergen(foods: seq<Food>, a: string, m: map<string, set<string>>) returns (m': map<string, set<string>>)
    requires a !in m && a in AllAllergens(foods)
    ensures Common(foods, a).Some? && m' == m[a := Common(foods, a).value]
  {
    m' := m;
    for i := 0 to |foods|
      invariant a in m' <==> Common(foods[..i], a).Some?
      invariant a in m' ==> Common(foods[..i], a) == Some(m'[a])
      invariant m'.Keys <= m.Keys + {a} && forall b :: b in m ==> b in m' && m'[b] == m[b]
    {
      assert foods[..i + 1][..i] == foods[..i];
      if a in foods[i].allergens {
        if a in m' {
          m' := m'[a := m'[a] * foods[i].ingredients];
        } else {
          m' := m'[a := foods[i].ingredients];
        }
      }
    }
    assert foods[..|foods|] == foods;
    Listed(foods, a);
  }

  /** The candidate table: every listed allergen with the ingredients its foods have in common. */
  predicate Table(foods: seq<Food>, m: map<string, set<string>>) {
    m.Keys == AllAllergens(foods) && forall a :: a in m ==> Common(foods, a) == Some(m[a])
  }

  /** `allergens_to_possible_ingredients`: the nested loops over the allergens, in any order, and the foods. */
  method BuildCandidates(foods: seq<Food>) returns (m: map<string, set<string>>)
    ensures Table(foods, m)
  {
    var all := AllAllergens(foods);
    m := map[];
    var todo := all;
    while todo != {}
      invariant todo <= all && m.Keys == all - todo
      invariant forall a :: a in m ==> Common(foods, a) == Some(m[a])
      decreases |todo|
    {
      var a :| a in todo;
      m := AddAllergen(foods, a, m);
      todo := todo - {a};
    }
  }

  // ---- Safe ingredients ----

  /** `ingredients_with_allergens`: every candidate of some allergen. */
  function Suspects(m: map<string, set<string>>): set<string> {
    set a, x | a in m && x in m[a] :: x
  }

  /** `ingredients_without_allergens`: the ingredients that are no allergen's candidate. */
  function Safe(foods: seq<Food>, m: map<string, set<string>>): set<string> {
    AllIngredients(foods) - Suspects(m)
  }

  /**
   * An ingredient is safe exactly when it is in some food and, for every allergen, some food that
   * lists the allergen does not have it, so it cannot be the one holding that allergen.
   */
  lemma SafeMeans(foods: seq<Food>, m: map<string, set<string>>, x: string)
    requires Table(foods, m)
    ensures x in Safe(foods, m) <==> (x in AllIngredients(foods) &&
      forall a :: a in AllAllergens(foods) ==> Excluded(foods, a, x))
  {
    if x in Safe(foods, m) {
      forall a | a in AllAllergens(foods)
        ensures Excluded(foods, a, x)
      {
        assert a in m && (x in m[a] ==> x in Suspects(m));
        assert Common(foods, a) == Some(m[a]);
      }
    } else if x in AllIngredients(foods) {
      var a :| a in m && x in m[a];
      assert Common(foods, a) == Some(m[a]);
    }
  }

  /** Some food that lists allergen `a` does not have ingredient `x`, so `x` cannot hold `a`. */
  predicate Excluded(foods: seq<Food>, a: string, x: string) {
    exists i :: 0 <= i < |foods| && a in foods[i].allergens && x !in foods[i].ingredients
  }

  /** The number of foods that have ingredient `x`. */
  function Containing(foods: seq<Food>, x: string): nat {
    if foods == [] then 0
    else Containing(foods[..|foods| - 1], x) + (if x in foods[|foods| - 1].ingredients then 1 else 0)
  }

  /** The occurrences of the ingredients of `s` in the foods, counted food by food. */
  function Occurrences(foods: seq<Food>, s: set<string>): nat {
    if foods == [] then 0
    else Occurrences(foods[..|foods| - 1], s) + |foods[|foods| - 1].ingredients * s|
  }

  /** Counting no ingredients finds nothing. */
  lemma {:induction false} OccurrencesNone(foods: seq<Food>)
    ensures Occurrences(foods, {}) == 0
  {
    if foods != [] {
      OccurrencesNone(foods[..|foods| - 1]);
    }
  }

  /** Counting one more ingredient adds the foods that have it. */
  lemma {:induction false} OccurrencesAdd(foods: seq<Food>, s: set<string>, x: string)
    requires x !in s
    ensures Occurrences(foods, s + {x}) == Occurrences(foods, s) + Containing(foods, x)
  {
    if foods != [] {
      var n := |foods| - 1;
      OccurrencesAdd(foods[..n], s, x);
      var ing := foods[n].ingredients;
      if x in ing {
        assert ing * (s + {x}) == ing * s + {x};
      } else {
        assert ing * (s + {x}) == ing * s;
      }
    }
  }

  /** `filter(...).count()`: the foods that have ingredient `x`. */
  method CountContaining(foods: seq<Food>, x: string) returns (k: nat)
    ensures k == Containing(foods, x)
  {
    k := 0;
    for i := 0 to |foods|
      invariant k == Containing(foods[..i], x)
    {
      assert foods[..i + 1][..i] == foods[..i];
      if x in foods[i].ingredients {
        k := k + 1;
      }
    }
    assert foods[..|foods|] == foods;
  }

  /** Part 1: over the safe ingredients, in any order, the foods that have each. */
  method CountSafe(foods: seq<Food>, safe: set<string>) returns (count: nat)
    ensures count == Occurrences(foods, safe)
  {
    count := 0;
    var todo := safe;
    OccurrencesNone(foods);
    while todo != {}
      invariant todo <= safe && count == Occurrences(foods, safe - todo)
      decreases |todo|
    {
      var x :| x in todo;
      var k := CountContaining(foods, x);
      OccurrencesAdd(foods, safe - todo, x);
      assert safe - todo + {x} == safe - (todo - {x});
      count := count + k;
      todo := todo - {x};
    }
  }

  // ---- Elimination ----

  /** Every (allergen, candidate) pair of the table. */
  function Pairs(m: map<string, set<string>>): set<(string, string)> {
    set a, x | a in m && x in m[a] :: (a, x)
  }

  /** The table with `x` removed from every candidate set. */
  function Without(m: map<string, set<string>>, x: string): (r: map<string, set<string>>)
    ensures r.Keys == m.Keys && forall a :: a in r ==> r[a] == m[a] - {x}
  {
    map a | a in m :: m[a] - {x}
  }

  /** Removing a candidate ingredient leaves strictly fewer pairs. */
  lemma Shrinks(m: map<string, set<string>>, a: string, x: string)
    requires a in m && x in m[a]
    ensures Pairs(Without(m, x)) < Pairs(m) && |Pairs(Without(m, x))| < |Pairs(m)|
  {
    assert (a, x) in Pairs(m) - Pairs(Without(m, x));
    assert Pairs(m) == Pairs(Without(m, x)) + (Pairs(m) - Pairs(Without(m, x)));
  }

  /** The `iter_mut` and `retain` loop: `x` removed from each candidate set, allergen by allergen in any order. */
  method Retain(m: map<string, set<string>>, x: string) returns (m': map<string, set<string>>)
    ensures m' == Without(m, x)
  {
    m' := m;
    var todo := m.Keys;
    while todo != {}
      invariant todo <= m.Keys && m'.Keys == m.Keys
      invariant forall a :: a in m ==> m'[a] == if a in todo then m[a] else m[a] - {x}
      decreases |todo|
    {
      var a :| a in todo;
      m' := m'[a := m'[a] - {x}];
      todo := todo - {a};
    }
  }

  /**
   * The pins found so far out of the starting table `m0`, and the table `m` now: every set is its
   * starting set less the pinned ingredients; each pin was one of its allergen's starting candidates,
   * and every other starting candidate of that allergen is pinned too (it was the last one left);
   * no ingredient is pinned twice.
   */
  predicate Pinning(m0: map<string, set<string>>, m: map<string, set<string>>, pinned: map<string, string>) {
    m.Keys == m0.Keys &&
    (forall a :: a in m ==> m[a] == m0[a] - pinned.Values) &&
    (forall a :: a in pinned ==> a in m0 && pinned[a] in m0[a] && m0[a] <= pinned.Values) &&
    (forall a, b :: a in pinned && b in pinned && a != b ==> pinned[a] != pinned[b])
  }

  /**
   * The `while let` loop: while some allergen has exactly one candidate left, in any order, pin it
   * to that ingredient and remove the ingredient from every set. At the end every set is its
   * starting set less the pinned ingredients and no set of one is left; a pinned allergen's set is
   * empty, and no pinned ingredient is a candidate of any allergen.
   */
  method Eliminate(m0: map<string, set<string>>) returns (pinned: map<string, string>, m: map<string, set<string>>)
    ensures Pinning(m0, m, pinned)
    ensures forall a :: a in m ==> |m[a]| != 1
    ensures forall a :: a in pinned ==> a in m && m[a] == {}
    ensures forall a, b :: a in pinned && b in m ==> pinned[a] !in m[b]
  {
    m := m0;
    pinned := map[];
    while exists a | a in m :: |m[a]| == 1
      invariant Pinning(m0, m, pinned)
      decreases Pairs(m)
    {
      pinned, m := Pin(m0, m, pinned);
    }
    PinnedGone(m0, m, pinned);
  }

  /**
   * One turn of the `while let` loop: some allergen with exactly one candidate is pinned to it, and
   * the ingredient is removed from every set.
   */
  method Pin(m0: map<string, set<string>>, m: map<string, set<string>>, pinned: map<string, string>)
    returns (pinned': map<string, string>, m': map<string, set<string>>)
    requires Pinning(m0, m, pinned) && exists a | a in m :: |m[a]| == 1
    ensures Pinning(m0, m', pinned')
    ensures exists a, x :: a in m && m[a] == {x} && pinned' == pinned[a := x] && m' == Without(m, x)
    ensures Pairs(m') < Pairs(m)
  {
    var a :| a in m && |m[a]| == 1;
    var x :| x in m[a];
    Singleton(m[a], x);
    PinStep(m0, m, pinned, a, x);
    Shrinks(m, a, x);
    pinned' := pinned[a := x];
    m' := Retain(m, x);
  }

  /** A set of one that holds `x` is `{x}`. */
  lemma Singleton(s: set<string>, x: string)
    requires |s| == 1 && x in s
    ensures s == {x}
  {
    assert |s - {x}| == 0;
  }

  /** Pinning the one candidate left to an allergen, and removing it everywhere, keeps `Pinning`. */
  lemma PinStep(m0: map<string, set<string>>, m: map<string, set<string>>, pinned: map<string, string>, a: string, x: string)
    requires Pinning(m0, m, pinned) && a in m && m[a] == {x}
    ensures a !in pinned && x !in pinned.Values
    ensures Pinning(m0, Without(m, x), pinned[a := x])
  {
    var next := pinned[a := x];
    forall v | v in pinned.Values
      ensures v in next.Values
    {
      var b :| b in pinned && pinned[b] == v;
      assert next[b] == v;
    }
    assert x == next[a];
    forall v | v in next.Values
      ensures v in pinned.Values + {x}
    {
      var b :| b in next && next[b] == v;
      if b != a {
        assert pinned[b] == v;
      }
    }
    assert next.Values == pinned.Values + {x};
  }

  /** A pinned allergen has no candidate left, and no pinned ingredient is anyone's candidate. */
  lemma PinnedGone(m0: map<string, set<string>>, m: map<string, set<string>>, pinned: map<string, string>)
    requires Pinning(m0, m, pinned)
    ensures forall a :: a in pinned ==> a in m && m[a] == {}
    ensures forall a, b :: a in pinned && b in m ==> pinned[a] !in m[b]
  {
    forall a, b | a in pinned && b in m
      ensures pinned[a] !in m[b]
    {
      assert pinned[a] in pinned.Values;
    }
  }
}
