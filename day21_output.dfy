/**
 * Day 21, part 2: the pinned ingredients listed by allergen name in alphabetical order and joined
 * with commas.
 */
module Day21Output {
  import opened Day21

  // ---- Alphabetical order ----

  /**
   * `a` sorts before `b`, as `&str` comparison orders them: at the first place they differ, by the
   * character there; otherwise the shorter first. On characters this is the byte order of UTF-8.
   */
  predicate Before(a: string, b: string) {
    if a == [] then b != []
    else if b == [] then false
    else if a[0] != b[0] then a[0] < b[0]
    else Before(a[1..], b[1..])
  }

  /** No name sorts before itself, and of two names at most one sorts before the other. */
  lemma {:induction false} BeforeAsymmetric(a: string, b: string)
    ensures !(Before(a, b) && Before(b, a))
  {
    if a != [] && b != [] && a[0] == b[0] {
      BeforeAsymmetric(a[1..], b[1..]);
    }
  }

  /** Of two different names one sorts before the other. */
  lemma {:induction false} BeforeTotal(a: string, b: string)
    requires a != b
    ensures Before(a, b) || Before(b, a)
  {
    if a != [] && b != [] && a[0] == b[0] {
      assert a == [a[0]] + a[1..] && b == [b[0]] + b[1..];
      BeforeTotal(a[1..], b[1..]);
    }
  }

  /** The order is transitive. */
  lemma {:induction false} BeforeTransitive(a: string, b: string, c: string)
    requires Before(a, b) && Before(b, c)
    ensures Before(a, c)
  {
    if a != [] && a[0] == b[0] && b[0] == c[0] {
      BeforeTransitive(a[1..], b[1..], c[1..]);
    }
  }

  /** Every name of `s` sorts before the next ones. */
  predicate Sorted(s: seq<string>) {
    forall i, j :: 0 <= i < j < |s| ==> Before(s[i], s[j])
  }

  /** Two sorted lists of the same names are the same list: the order the table is read in does not matter. */
  lemma {:induction false} SortedUnique(s: seq<string>, t: seq<string>)
    requires Sorted(s) && Sorted(t) && forall x :: x in s <==> x in t
    ensures s == t
    decreases |s|
  {
    assert s != [] ==> s[0] in t;
    assert t != [] ==> t[0] in s;
    if s != [] && t != [] {
      var i :| 0 <= i < |t| && t[i] == s[0];
      var j :| 0 <= j < |s| && s[j] == t[0];
      assert s[0] == t[0] by {
        if s[0] != t[0] {
          assert i > 0 && j > 0;
          BeforeAsymmetric(s[0], t[0]);
        }
      }
      forall x
        ensures x in s[1..] <==> x in t[1..]
      {
        if x in s[1..] {
          Later(s, x);
          var k :| 0 <= k < |t| && t[k] == x;
          assert t[1..][k - 1] == x;
        }
        if x in t[1..] {
          Later(t, x);
          var k :| 0 <= k < |s| && s[k] == x;
          assert s[1..][k - 1] == x;
        }
      }
      SortedUnique(s[1..], t[1..]);
    }
  }

  /** A name after the first of a sorted list is not the first. */
  lemma Later(s: seq<string>, x: string)
    requires Sorted(s) && s != [] && x in s[1..]
    ensures x in s && x != s[0]
  {
    var i :| 0 <= i < |s| - 1 && s[1..][i] == x;
    assert s[i + 1] == x;
    BeforeAsymmetric(s[0], x);
  }

  /** The name of `keys` that sorts before all the others, found in one pass over the set. */
  method Smallest(keys: set<string>) returns (k: string)
    requires keys != {}
    ensures k in keys && forall j :: j in keys && j != k ==> Before(k, j)
  {
    k :| k in keys;
    var todo := keys - {k};
    while todo != {}
      invariant todo <= keys && k in keys && k !in todo
      invariant forall j :: j in keys && j !in todo && j != k ==> Before(k, j)
      decreases |todo|
    {
      var j :| j in todo;
      if Before(j, k) {
        forall i | i in keys && i !in todo && i != j
          ensures Before(j, i)
        {
          if i != k {
            BeforeTransitive(j, k, i);
          }
        }
        k := j;
      } else {
        BeforeTotal(j, k);
      }
      todo := todo - {j};
    }
  }

  /** `sort_by_key` on the allergen names: every pinned allergen once, in alphabetical order. */
  method SortAllergens(pinned: map<string, string>) returns (order: seq<string>)
    ensures Sorted(order) && forall a :: a in order <==> a in pinned
  {
    order := [];
    var rest := pinned.Keys;
    while rest != {}
      invariant rest <= pinned.Keys && Sorted(order)
      invariant forall a :: a in pinned <==> a in order || a in rest
      invariant forall i, a :: 0 <= i < |order| && a in rest ==> Before(order[i], a)
      decreases |rest|
    {
      var k := Smallest(rest);
      forall i, a | 0 <= i < |order| && a in rest - {k}
        ensures Before(order[i], a)
      {
        BeforeTransitive(order[i], k, a);
      }
      forall i | 0 <= i < |order|
        ensures order[i] != k
      {
        BeforeAsymmetric(order[i], k);
      }
      order := order + [k];
      rest := rest - {k};
    }
  }

  // ---- Joining ----

  /** `intersperse(",")` and `collect`: the parts with the separator between each two. */
  function Join(parts: seq<string>, sep: char): (s: string)
    ensures parts == [] ==> s == []
  {
    if parts == [] then []
    else if |parts| == 1 then parts[0]
    else parts[0] + [sep] + Join(parts[1..], sep)
  }

  /** The place of the first `sep` in `s`. */
  function Find(s: string, sep: char): (i: nat)
    requires sep in s
    ensures i < |s| && s[i] == sep && sep !in s[..i]
  {
    if s[0] == sep then 0 else 1 + Find(s[1..], sep)
  }

  /** The pieces of `s` between the separators, the reference `Join` is checked against. */
  function Split(s: string, sep: char): seq<string>
    decreases |s|
  {
    if sep !in s then [s] else [s[..Find(s, sep)]] + Split(s[Find(s, sep) + 1..], sep)
  }

  /** The first separator after a part without one is the one right after the part. */
  lemma FindAfter(p: string, t: string, sep: char)
    requires sep !in p
    ensures sep in p + [sep] + t && Find(p + [sep] + t, sep) == |p|
  {
    var s := p + [sep] + t;
    assert s[|p|] == sep;
    assert forall k :: 0 <= k < |p| ==> s[k] == p[k];
  }

  /** Splitting a joined list gives the parts back, when no part holds the separator. */
  lemma {:induction false} SplitJoin(parts: seq<string>, sep: char)
    requires parts != [] && forall i :: 0 <= i < |parts| ==> sep !in parts[i]
    ensures Split(Join(parts, sep), sep) == parts
  {
    if |parts| > 1 {
      var rest := Join(parts[1..], sep);
      FindAfter(parts[0], rest, sep);
      var s := parts[0] + [sep] + rest;
      assert s[..|parts[0]|] == parts[0];
      assert s[|parts[0]| + 1..] == rest;
      SplitJoin(parts[1..], sep);
    }
  }

  /** The pinned ingredient of each allergen of `order`. */
  function Ingredients(pinned: map<string, string>, order: seq<string>): (r: seq<string>)
    requires forall a :: a in order ==> a in pinned
    ensures |r| == |order| && forall i :: 0 <= i < |order| ==> r[i] == pinned[order[i]]
  {
    seq(|order|, i requires 0 <= i < |order| => pinned[order[i]])
  }

  /**
   * Part 2: the pinned ingredients in the alphabetical order of their allergens, joined with commas;
   * the order is the one sorted list of the pinned allergens, whatever order the table is read in.
   */
  method Dangerous(pinned: map<string, string>) returns (order: seq<string>, s: string)
    ensures Sorted(order) && (forall a :: a in order <==> a in pinned)
    ensures s == Join(Ingredients(pinned, order), ',')
  {
    order := SortAllergens(pinned);
    var names := [];
    for i := 0 to |order|
      invariant names == Ingredients(pinned, order[..i])
    {
      names := names + [pinned[order[i]]];
    }
    assert order[..|order|] == order;
    s := Join(names, ',');
  }
}
