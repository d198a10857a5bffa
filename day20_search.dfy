/**
 * Day 20, part 2, the search: the picture is looked at in each of the eight orientations in turn;
 * the first one in which the sweep meets a sea monster gives the answer, the number of pixels
 * still set once every monster met is cleared.
 */
module Day20Search {
  import opened Wrappers
  import opened Day20
  import opened Day20Images
  import opened Day20Monsters

  /** How `find_sea_monsters` ends: the roughness, `None` when no orientation shows a monster, or a panic. */
  datatype Outcome = Roughness(n: nat) | NoMonster | Underflow

  /** The picture as the search looks at it: turned `o.rotation` times, then upside down when `o.flipped`. */
  function OrientFlat(image: seq<bool>, w: nat, o: Orientation): (r: seq<bool>)
    requires |image| >= w * w
    ensures |r| == |image|
  {
    var turned := RotatedN(image, w, o.rotation);
    if o.flipped then Flipped(turned, w) else turned
  }

  /** The number of pixels set, `filter(|b| *b).count()`. */
  function Trues(s: seq<bool>): (n: nat)
    ensures n <= |s|
  {
    if s == [] then 0 else Trues(s[..|s| - 1]) + (if s[|s| - 1] then 1 else 0)
  }

  /** Clearing pixels never adds to the count of those set. */
  lemma {:induction false} TruesBelow(a: seq<bool>, b: seq<bool>)
    requires Below(a, b)
    ensures Trues(a) <= Trues(b)
    decreases |a|
  {
    if a != [] {
      var n := |a| - 1;
      assert Below(a[..n], b[..n]);
      TruesBelow(a[..n], b[..n]);
    }
  }

  /** The loop bounds of the sweep, `0..w - 2` rows and `0..w - 19` columns, when neither underflows. */
  predicate Sized(w: nat) {
    !Underflows(w, 19, 2)
  }

  /** The sweep of the picture in orientation `o` with the monster. */
  function SweepOf(image: seq<bool>, w: nat, o: Orientation): (r: Swept)
    requires |image| >= w * w && Sized(w)
  {
    MonsterExtent();
    Sweep(OrientFlat(image, w, o), w, Monster, 19, 2, RowSpan(w, 2), ColumnSpan(w, 19))
  }

  /** No monster at any position the sweep of orientation `o` visits. */
  predicate Clear(image: seq<bool>, w: nat, o: Orientation)
    requires |image| >= w * w && Sized(w)
  {
    MonsterExtent();
    NoMatch(OrientFlat(image, w, o), w, Monster, 19, 2, RowSpan(w, 2), ColumnSpan(w, 19))
  }

  /** The sweeps of the eight orientations, in the order of `AllOrientations`. */
  function Views(image: seq<bool>, w: nat): (r: seq<Swept>)
    requires |image| >= w * w && Sized(w)
    ensures |r| == |AllOrientations|
  {
    seq(|AllOrientations|, k requires 0 <= k < |AllOrientations| => SweepOf(image, w, AllOrientations[k]))
  }

  /** The first sweep from the `k`-th on that counted a monster gives the roughness: the pixels it left set. */
  function Pick(sws: seq<Swept>, k: nat): Outcome
    requires k <= |sws|
    decreases |sws| - k
  {
    if k == |sws| then NoMonster
    else if sws[k].count > 0 then Roughness(Trues(sws[k].image))
    else Pick(sws, k + 1)
  }

  /** `find_sea_monsters`: a panic on bounds that underflow, else the pick among the eight sweeps. */
  function Search(image: seq<bool>, w: nat): Outcome
    requires |image| >= w * w
  {
    if Sized(w) then Pick(Views(image, w), 0) else Underflow
  }

  /** A sweep counts nothing exactly when its orientation shows no monster. */
  lemma CountZero(image: seq<bool>, w: nat, o: Orientation)
    requires |image| >= w * w && Sized(w)
    ensures SweepOf(image, w, o).count == 0 <==> Clear(image, w, o)
    ensures Below(SweepOf(image, w, o).image, OrientFlat(image, w, o))
  {
    MonsterExtent();
    SweepMeans(OrientFlat(image, w, o), w, Monster, 19, 2, RowSpan(w, 2), ColumnSpan(w, 19));
  }

  /** The `k`-th view counts nothing exactly when the `k`-th orientation shows no monster. */
  lemma ViewCount(image: seq<bool>, w: nat, k: nat)
    requires |image| >= w * w && Sized(w) && k < |AllOrientations|
    ensures Views(image, w)[k].count == 0 <==> Clear(image, w, AllOrientations[k])
    ensures Below(Views(image, w)[k].image, OrientFlat(image, w, AllOrientations[k]))
  {
    CountZero(image, w, AllOrientations[k]);
  }

  /** The pick never panics. */
  lemma {:induction false} PickNoPanic(sws: seq<Swept>, k: nat)
    requires k <= |sws|
    ensures !Pick(sws, k).Underflow?
    decreases |sws| - k
  {
    if k < |sws| && sws[k].count == 0 {
      PickNoPanic(sws, k + 1);
    }
  }

  /** The search panics exactly when the loop bounds underflow, whatever the picture. */
  lemma SearchUnderflow(image: seq<bool>, w: nat)
    requires |image| >= w * w
    ensures Search(image, w).Underflow? <==> !Sized(w)
  {
    if Sized(w) {
      PickNoPanic(Views(image, w), 0);
    }
  }

  /** The pick finds nothing exactly when no sweep from the `k`-th on counted anything. */
  lemma {:induction false} PickNone(sws: seq<Swept>, k: nat)
    requires k <= |sws|
    ensures Pick(sws, k).NoMonster? <==> forall j :: k <= j < |sws| ==> sws[j].count == 0
    decreases |sws| - k
  {
    if k < |sws| {
      PickNone(sws, k + 1);
    }
  }

  /** The search finds nothing exactly when no orientation shows a monster anywhere the sweep looks. */
  lemma SearchNoMonster(image: seq<bool>, w: nat)
    requires |image| >= w * w
    ensures Search(image, w).NoMonster? <==>
      Sized(w) && forall k :: 0 <= k < |AllOrientations| ==> Clear(image, w, AllOrientations[k])
  {
    if Sized(w) {
      var views := Views(image, w);
      PickNone(views, 0);
      forall k | 0 <= k < |AllOrientations|
        ensures views[k].count == 0 <==> Clear(image, w, AllOrientations[k])
      {
        ViewCount(image, w, k);
      }
    }
  }

  /** The sweep a roughness picked from the `k`-th on comes from: the first one that counted something. */
  lemma {:induction false} PickFound(sws: seq<Swept>, k: nat) returns (j: nat)
    requires k <= |sws| && Pick(sws, k).Roughness?
    ensures k <= j < |sws| && sws[j].count > 0 && forall i :: k <= i < j ==> sws[i].count == 0
    ensures Pick(sws, k).n == Trues(sws[j].image)
    decreases |sws| - k
  {
    if sws[k].count > 0 {
      j := k;
    } else {
      j := PickFound(sws, k + 1);
    }
  }

  /**
   * A roughness comes from the first orientation that shows a monster: it is the number of pixels
   * left set once the sweep has cleared the monsters it met, at most the number set in that view.
   */
  lemma SearchRoughness(image: seq<bool>, w: nat)
    requires |image| >= w * w && Search(image, w).Roughness?
    ensures Sized(w)
    ensures exists k :: (0 <= k < |AllOrientations| && !Clear(image, w, AllOrientations[k]) &&
      (forall j :: 0 <= j < k ==> Clear(image, w, AllOrientations[j])) &&
      Search(image, w).n == Trues(SweepOf(image, w, AllOrientations[k]).image) <= Trues(OrientFlat(image, w, AllOrientations[k])))
  {
    var views := Views(image, w);
    var k := PickFound(views, 0);
    ViewCount(image, w, k);
    TruesBelow(views[k].image, OrientFlat(image, w, AllOrientations[k]));
    forall j | 0 <= j < k
      ensures Clear(image, w, AllOrientations[j])
    {
      ViewCount(image, w, j);
    }
  }

  /** `image.into_iter().filter(|b| *b).count()`. */
  method CountTrue(a: array<bool>) returns (n: nat)
    ensures n == Trues(a[..])
  {
    n := 0;
    for i := 0 to a.Length
      invariant n == Trues(a[..i])
    {
      assert a[..i + 1][..i] == a[..i];
      if a[i] {
        n := n + 1;
      }
    }
    assert a[..a.Length] == a[..];
  }

  /** The picture turned and, when `o.flipped`, flipped, in a fresh vector the sweep may write to. */
  method ViewOf(image: seq<bool>, w: nat, o: Orientation) returns (a: array<bool>)
    requires |image| >= w * w
    ensures fresh(a) && a[..] == OrientFlat(image, w, o)
  {
    var oriented := RotateImage(image, w, o.rotation);
    if o.flipped {
      oriented := FlipImage(oriented, w);
    }
    a := new bool[|oriented|](i requires 0 <= i < |oriented| => oriented[i]);
    assert a[..] == oriented;
  }

  /** The monster's offsets, its largest column and its largest row, `max_x` and `max_y`. */
  method MonsterBounds() returns (pat: seq<(nat, nat)>, mx: nat, my: nat)
    ensures pat == Monster && mx == 19 && my == 2
    ensures mx == MaxOf(Columns(pat)) && my == MaxOf(Rows(pat))
  {
    MonsterExtent();
    pat := Monster;
    mx, my := MaxOf(Columns(pat)), MaxOf(Rows(pat));
  }

  /**
   * One pass of the search loop: the `k`-th orientation swept in place; `None` to go on to the next
   * orientation, else how the search ends.
   */
  method TryView(image: seq<bool>, w: nat, k: nat, pat: seq<(nat, nat)>, mx: nat, my: nat) returns (r: Option<Outcome>)
    requires |image| >= w * w && k < |AllOrientations|
    requires pat == Monster && mx == 19 && my == 2
    ensures !Sized(w) ==> r == Some(Underflow)
    ensures Sized(w) ==> (r.None? <==> Views(image, w)[k].count == 0)
    ensures Sized(w) && r.Some? ==> r.value == Pick(Views(image, w), k)
  {
    MonsterExtent();
    var a := ViewOf(image, w, AllOrientations[k]);
    var count := SweepInPlace(a, w, pat, mx, my);
    if count.None? {
      return Some(Underflow);
    }
    assert count.value == Views(image, w)[k].count;
    if count.value > 0 {
      var n := CountTrue(a);
      return Some(Roughness(n));
    }
    return None;
  }

  /**
   * `find_sea_monsters`: the monster's offsets and extent, then, for each orientation in turn, the
   * picture turned and flipped into a fresh vector, swept in place, and the set pixels counted as
   * soon as a sweep has met a monster.
   */
  method FindSeaMonsters(image: seq<bool>, w: nat) returns (r: Outcome)
    requires |image| >= w * w
    ensures r == Search(image, w)
  {
    var pat, mx, my := MonsterBounds();
    r := TryViews(image, w, pat, mx, my);
  }

  /** The loop of `find_sea_monsters` over the eight orientations, with the monster and its extent in hand. */
  method TryViews(image: seq<bool>, w: nat, pat: seq<(nat, nat)>, mx: nat, my: nat) returns (r: Outcome)
    requires |image| >= w * w
    requires pat == Monster && mx == 19 && my == 2
    ensures r == Search(image, w)
  {
    ghost var views: seq<Swept> := if Sized(w) then Views(image, w) else [];
    for k := 0 to |AllOrientations|
      invariant k > 0 ==> Sized(w)
      invariant Sized(w) ==> |views| == |AllOrientations| && Pick(views, 0) == Pick(views, k)
    {
      var found := TryView(image, w, k, pat, mx, my);
      if found.Some? {
        return found.value;
      }
      assert views[k].count == 0 && Pick(views, k) == Pick(views, k + 1);
    }
    return NoMonster;
  }
}
