/**
 * Day 20, part 2, second half: the sea monster drawing, the sweep that clears every match it meets
 * in place and counts it, and the search over the orientations of the picture, which reports the
 * pixels left set once some orientation shows a monster.
 */
module Day20Monsters {
  import opened Wrappers
  import opened Arith
  import opened Day20
  import opened Day20Images

  // ---- The pattern ----

  /** The monster drawing, one string per line; `#` marks a pixel the monster covers. */
  const MonsterRows: seq<string> := ["                  # ", "#    ##    ##    ###", " #  #  #  #  #  #   "]

  /** The `(x, y)` of every `#` of `row`, which is line `y`, from left to right. */
  function RowMarks(row: string, y: nat): (r: seq<(nat, nat)>)
    ensures forall p :: p in r <==> p.1 == y && p.0 < |row| && row[p.0] == '#'
    decreases |row|
  {
    if row == [] then []
    else
      var init := row[..|row| - 1];
      var r := RowMarks(init, y) + (if row[|row| - 1] == '#' then [(|row| - 1, y)] else []);
      assert forall x :: 0 <= x < |init| ==> init[x] == row[x];
      r
  }

  /** The marks of the first `n` lines, line after line: `lines().enumerate().flat_map(...)`. */
  function Marks(rows: seq<string>, n: nat): (r: seq<(nat, nat)>)
    requires n <= |rows|
    ensures forall p :: p in r <==> p.1 < n && p.0 < |rows[p.1]| && rows[p.1][p.0] == '#'
  {
    if n == 0 then [] else Marks(rows, n - 1) + RowMarks(rows[n - 1], n - 1)
  }

  /** The monster as `(dx, dy)` offsets. */
  const Monster: seq<(nat, nat)> := Marks(MonsterRows, 3)

  /** The largest of a non-empty list, `.max().unwrap()`. */
  function MaxOf(xs: seq<nat>): (m: nat)
    requires |xs| > 0
    ensures m in xs && forall k :: 0 <= k < |xs| ==> xs[k] <= m
  {
    if |xs| == 1 then xs[0]
    else
      var m := MaxOf(xs[1..]);
      assert forall k :: 1 <= k < |xs| ==> xs[k] == xs[1..][k - 1];
      if xs[0] >= m then xs[0] else m
  }

  /** The offsets' columns, `max_x` once maximised. */
  function Columns(pat: seq<(nat, nat)>): (xs: seq<nat>)
    ensures |xs| == |pat|
  {
    seq(|pat|, k requires 0 <= k < |pat| => pat[k].0)
  }

  /** The offsets' rows, `max_y` once maximised. */
  function Rows(pat: seq<(nat, nat)>): (ys: seq<nat>)
    ensures |ys| == |pat|
  {
    seq(|pat|, k requires 0 <= k < |pat| => pat[k].1)
  }

  /** Three lines of 20 characters, with marks in the last column and the last line, reach column 19 and row 2. */
  lemma MarksExtent(rows: seq<string>)
    requires |rows| == 3 && forall y :: 0 <= y < 3 ==> |rows[y]| == 20
    requires rows[1][19] == '#' && rows[2][1] == '#'
    ensures |Marks(rows, 3)| > 0
    ensures MaxOf(Columns(Marks(rows, 3))) == 19 && MaxOf(Rows(Marks(rows, 3))) == 2
  {
    var pat := Marks(rows, 3);
    var xs, ys := Columns(pat), Rows(pat);
    assert (19, 1) in pat && (1, 2) in pat;
    var k1 :| 0 <= k1 < |pat| && pat[k1] == (19, 1);
    var k2 :| 0 <= k2 < |pat| && pat[k2] == (1, 2);
    assert xs[k1] == 19 && ys[k2] == 2;
    forall k | 0 <= k < |pat|
      ensures xs[k] <= 19 && ys[k] <= 2
    {
      assert pat[k] in pat;
    }
    MaxIs(xs, 19);
    MaxIs(ys, 2);
  }

  /** A bound that some element reaches is the maximum. */
  lemma MaxIs(xs: seq<nat>, c: nat)
    requires c in xs && forall k :: 0 <= k < |xs| ==> xs[k] <= c
    ensures MaxOf(xs) == c
  {
  }

  /** The monster is 20 pixels wide and 3 high, so its offsets reach column 19 and row 2. */
  lemma MonsterExtent()
    ensures |Monster| > 0 && Reach(Monster, 19, 2)
    ensures MaxOf(Columns(Monster)) == 19 && MaxOf(Rows(Monster)) == 2
  {
    MarksExtent(MonsterRows);
    MaxReach(Monster);
  }

  /** Every offset of a non-empty pattern lies within its largest column and its largest row. */
  lemma MaxReach(pat: seq<(nat, nat)>)
    requires |pat| > 0
    ensures Reach(pat, MaxOf(Columns(pat)), MaxOf(Rows(pat)))
  {
    var xs, ys := Columns(pat), Rows(pat);
    assert forall k :: 0 <= k < |pat| ==> xs[k] == pat[k].0 && ys[k] == pat[k].1;
  }

  // ---- One position ----

  /** Every offset stays at most `mx` columns right and `my` rows down. */
  predicate Reach(pat: seq<(nat, nat)>, mx: nat, my: nat) {
    forall k :: 0 <= k < |pat| ==> pat[k].0 <= mx && pat[k].1 <= my
  }

  /** Placed at `(x, y)`, every offset lands inside the `w` by `w` picture. */
  predicate Inside(pat: seq<(nat, nat)>, w: nat, x: nat, y: nat) {
    forall k :: 0 <= k < |pat| ==> x + pat[k].0 < w && y + pat[k].1 < w
  }

  /** The picture indices `(y + dy) * w + x + dx` the pattern covers when placed at `(x, y)`. */
  function Cells(w: nat, pat: seq<(nat, nat)>, x: nat, y: nat): (r: seq<nat>)
    requires Inside(pat, w, x, y)
    ensures |r| == |pat| && forall k :: 0 <= k < |r| ==> r[k] < w * w
  {
    var r := seq(|pat|, k requires 0 <= k < |pat| => (y + pat[k].1) * w + x + pat[k].0);
    forall k | 0 <= k < |r|
      ensures r[k] < w * w
    {
      RowMajorBound(x + pat[k].0, y + pat[k].1, w, w);
    }
    r
  }

  /** `sea_monster_pattern.iter().all(...)`: every covered pixel is set. */
  predicate Matches(s: seq<bool>, cells: seq<nat>)
    requires forall k :: 0 <= k < |cells| ==> cells[k] < |s|
  {
    forall k :: 0 <= k < |cells| ==> s[cells[k]]
  }

  /** The covered pixels cleared, one after the other. */
  function ClearCells(s: seq<bool>, cells: seq<nat>): (r: seq<bool>)
    requires forall k :: 0 <= k < |cells| ==> cells[k] < |s|
    ensures |r| == |s|
    ensures forall i :: 0 <= i < |s| ==> (r[i] <==> s[i] && i !in cells)
    decreases |cells|
  {
    if cells == [] then s
    else
      var init := cells[..|cells| - 1];
      var r := ClearCells(s, init)[cells[|cells| - 1] := false];
      assert forall i :: i in cells <==> i in init || i == cells[|cells| - 1];
      r
  }

  /** Clearing one more cell extends the clearing by one update. */
  lemma ClearNext(s: seq<bool>, cells: seq<nat>, k: nat)
    requires k < |cells| && forall j :: 0 <= j < |cells| ==> cells[j] < |s|
    ensures ClearCells(s, cells[..k + 1]) == ClearCells(s, cells[..k])[cells[k] := false]
  {
    assert cells[..k + 1][..k] == cells[..k];
  }

  /** The picture after some positions were visited, and how many monsters were found there. */
  datatype Swept = Swept(image: seq<bool>, count: nat)

  /** Position `(x, y)`: a match is cleared and counted; otherwise nothing happens. */
  function Visit(s: seq<bool>, w: nat, pat: seq<(nat, nat)>, x: nat, y: nat): (r: Swept)
    requires |s| >= w * w && Inside(pat, w, x, y)
    ensures |r.image| == |s|
  {
    var cells := Cells(w, pat, x, y);
    if Matches(s, cells) then Swept(ClearCells(s, cells), 1) else Swept(s, 0)
  }

  /** `a` has a subset of the pixels of `b` set. */
  predicate Below(a: seq<bool>, b: seq<bool>) {
    |a| == |b| && forall i :: 0 <= i < |a| && a[i] ==> b[i]
  }

  /** A visit only clears pixels, and afterwards the position no longer shows the monster. */
  lemma VisitClears(s: seq<bool>, w: nat, pat: seq<(nat, nat)>, x: nat, y: nat)
    requires |s| >= w * w && Inside(pat, w, x, y) && |pat| > 0
    ensures Below(Visit(s, w, pat, x, y).image, s)
    ensures !Matches(Visit(s, w, pat, x, y).image, Cells(w, pat, x, y))
    ensures Visit(s, w, pat, x, y).count == 0 <==> !Matches(s, Cells(w, pat, x, y))
    ensures Visit(s, w, pat, x, y).count == 0 ==> Visit(s, w, pat, x, y).image == s
  {
    var cells := Cells(w, pat, x, y);
    if Matches(s, cells) {
      var r := ClearCells(s, cells);
      assert cells[0] in cells && !r[cells[0]];
    }
  }

  /** Clearing pixels cannot make the monster appear. */
  lemma BelowNoMatch(a: seq<bool>, b: seq<bool>, cells: seq<nat>)
    requires Below(a, b) && forall k :: 0 <= k < |cells| ==> cells[k] < |b|
    ensures !Matches(b, cells) ==> !Matches(a, cells)
  {
  }

  // ---- The sweep ----

  /** The positions of row `y`, left to right. */
  function RowPositions(y: nat, n: nat): (ps: seq<(nat, nat)>)
    ensures |ps| == n && forall x :: 0 <= x < n ==> ps[x] == (x, y)
  {
    seq(n, x requires 0 <= x < n => (x, y))
  }

  /** The positions of rows `0..m`, each of `n` columns, in the order the two loops visit them. */
  function Positions(m: nat, n: nat): seq<(nat, nat)>
  {
    if m == 0 then [] else Positions(m - 1, n) + RowPositions(m - 1, n)
  }

  /** Each position of rows `0..m` and columns `0..n` is listed, and nothing else. */
  lemma {:induction false} PositionsMeans(m: nat, n: nat)
    ensures forall p: (nat, nat) :: p in Positions(m, n) <==> p.0 < n && p.1 < m
  {
    if m > 0 {
      PositionsMeans(m - 1, n);
      var row := RowPositions(m - 1, n);
      forall p | p in row
        ensures p.0 < n && p.1 == m - 1
      {
        var x :| 0 <= x < n && row[x] == p;
      }
      forall p: (nat, nat) | p.0 < n && p.1 == m - 1
        ensures p in row
      {
        assert row[p.0] == p;
      }
    }
  }

  /** The pattern fits inside the picture at every one of the positions. */
  predicate AllInside(pat: seq<(nat, nat)>, w: nat, ps: seq<(nat, nat)>) {
    forall k :: 0 <= k < |ps| ==> Inside(pat, w, ps[k].0, ps[k].1)
  }

  /** The positions visited one after the other, each match cleared and counted. */
  function SweepOver(s: seq<bool>, w: nat, pat: seq<(nat, nat)>, ps: seq<(nat, nat)>): (r: Swept)
    requires |s| >= w * w && AllInside(pat, w, ps)
    ensures |r.image| == |s|
    decreases |ps|
  {
    if ps == [] then Swept(s, 0)
    else
      var prev := SweepOver(s, w, pat, ps[..|ps| - 1]);
      var v := Visit(prev.image, w, pat, ps[|ps| - 1].0, ps[|ps| - 1].1);
      Swept(v.image, prev.count + v.count)
  }

  /** Every position of the sweep is inside the picture when the rows and columns leave room for the pattern. */
  lemma PositionsInside(pat: seq<(nat, nat)>, w: nat, mx: nat, my: nat, m: nat, n: nat)
    requires Reach(pat, mx, my) && m + my <= w && (m == 0 || n + mx <= w)
    ensures AllInside(pat, w, Positions(m, n))
  {
    var ps := Positions(m, n);
    PositionsMeans(m, n);
    forall k | 0 <= k < |ps|
      ensures Inside(pat, w, ps[k].0, ps[k].1)
    {
      assert ps[k] in ps;
    }
  }

  /** One more position: the sweep of the first `k + 1` positions visits position `k` after the first `k`. */
  lemma SweepStep(s: seq<bool>, w: nat, pat: seq<(nat, nat)>, ps: seq<(nat, nat)>, k: nat)
    requires |s| >= w * w && AllInside(pat, w, ps) && k < |ps|
    ensures AllInside(pat, w, ps[..k]) && AllInside(pat, w, ps[..k + 1])
    ensures SweepOver(s, w, pat, ps[..k + 1]) ==
      Swept(Visit(SweepOver(s, w, pat, ps[..k]).image, w, pat, ps[k].0, ps[k].1).image,
            SweepOver(s, w, pat, ps[..k]).count + Visit(SweepOver(s, w, pat, ps[..k]).image, w, pat, ps[k].0, ps[k].1).count)
  {
    assert ps[..k + 1][..k] == ps[..k];
  }

  /** Every position of row `y` is inside the picture when the row and the columns leave room for the pattern. */
  lemma RowInside(pat: seq<(nat, nat)>, w: nat, mx: nat, my: nat, y: nat, n: nat)
    requires Reach(pat, mx, my) && y + my < w && n + mx <= w
    ensures AllInside(pat, w, RowPositions(y, n))
  {
  }

  /** The sweep of rows `0..m` of `n` columns, row after row as the outer loop goes. */
  function Sweep(s: seq<bool>, w: nat, pat: seq<(nat, nat)>, mx: nat, my: nat, m: nat, n: nat): (r: Swept)
    requires |s| >= w * w && Reach(pat, mx, my) && m + my <= w && (m == 0 || n + mx <= w)
    ensures |r.image| == |s|
  {
    if m == 0 then Swept(s, 0)
    else
      var prev := Sweep(s, w, pat, mx, my, m - 1, n);
      RowInside(pat, w, mx, my, m - 1, n);
      var row := SweepOver(prev.image, w, pat, RowPositions(m - 1, n));
      Swept(row.image, prev.count + row.count)
  }

  /** Sweeping `ps` then `qs` is sweeping `ps + qs`: counts add up. */
  lemma {:induction false} SweepConcat(s: seq<bool>, w: nat, pat: seq<(nat, nat)>, ps: seq<(nat, nat)>, qs: seq<(nat, nat)>)
    requires |s| >= w * w && AllInside(pat, w, ps) && AllInside(pat, w, qs)
    ensures AllInside(pat, w, ps + qs)
    ensures SweepOver(s, w, pat, ps + qs).image == SweepOver(SweepOver(s, w, pat, ps).image, w, pat, qs).image
    ensures SweepOver(s, w, pat, ps + qs).count == SweepOver(s, w, pat, ps).count + SweepOver(SweepOver(s, w, pat, ps).image, w, pat, qs).count
    decreases |qs|
  {
    if qs == [] {
      assert ps + qs == ps;
    } else {
      var init := qs[..|qs| - 1];
      assert (ps + qs)[..|ps + qs| - 1] == ps + init;
      SweepConcat(s, w, pat, ps, init);
    }
  }

  /** Row by row is position by position: the sweep of rows `0..m` visits `Positions(m, n)` in order. */
  lemma {:induction false} SweepFlat(s: seq<bool>, w: nat, pat: seq<(nat, nat)>, mx: nat, my: nat, m: nat, n: nat)
    requires |s| >= w * w && Reach(pat, mx, my) && m + my <= w && (m == 0 || n + mx <= w)
    ensures AllInside(pat, w, Positions(m, n))
    ensures Sweep(s, w, pat, mx, my, m, n).image == SweepOver(s, w, pat, Positions(m, n)).image
    ensures Sweep(s, w, pat, mx, my, m, n).count == SweepOver(s, w, pat, Positions(m, n)).count
  {
    if m > 0 {
      SweepFlat(s, w, pat, mx, my, m - 1, n);
      RowInside(pat, w, mx, my, m - 1, n);
      FlatStep(s, w, pat, Positions(m - 1, n), RowPositions(m - 1, n), Sweep(s, w, pat, mx, my, m - 1, n), Positions(m, n));
    }
  }

  /** `SweepConcat` with the sweep of the first part already known. */
  lemma FlatStep(s: seq<bool>, w: nat, pat: seq<(nat, nat)>, init: seq<(nat, nat)>, row: seq<(nat, nat)>, prev: Swept, ps: seq<(nat, nat)>)
    requires |s| >= w * w && AllInside(pat, w, init) && AllInside(pat, w, row) && ps == init + row
    requires prev.image == SweepOver(s, w, pat, init).image && prev.count == SweepOver(s, w, pat, init).count
    ensures AllInside(pat, w, ps)
    ensures SweepOver(s, w, pat, ps).image == SweepOver(prev.image, w, pat, row).image
    ensures SweepOver(s, w, pat, ps).count == prev.count + SweepOver(prev.image, w, pat, row).count
  {
    SweepConcat(s, w, pat, init, row);
  }

  /** The sweep only clears pixels, and changes nothing when it counts nothing. */
  lemma {:induction false} SweepBelow(s: seq<bool>, w: nat, pat: seq<(nat, nat)>, ps: seq<(nat, nat)>)
    requires |s| >= w * w && AllInside(pat, w, ps) && |pat| > 0
    ensures Below(SweepOver(s, w, pat, ps).image, s)
    ensures SweepOver(s, w, pat, ps).count == 0 ==> SweepOver(s, w, pat, ps).image == s
    decreases |ps|
  {
    if ps != [] {
      var init := ps[..|ps| - 1];
      SweepBelow(s, w, pat, init);
      VisitClears(SweepOver(s, w, pat, init).image, w, pat, ps[|ps| - 1].0, ps[|ps| - 1].1);
    }
  }

  /** After the sweep no position it visited shows the monster. */
  lemma {:induction false} SweepLeaves(s: seq<bool>, w: nat, pat: seq<(nat, nat)>, ps: seq<(nat, nat)>)
    requires |s| >= w * w && AllInside(pat, w, ps) && |pat| > 0
    ensures forall k :: 0 <= k < |ps| ==> !Matches(SweepOver(s, w, pat, ps).image, Cells(w, pat, ps[k].0, ps[k].1))
    decreases |ps|
  {
    if ps != [] {
      var init := ps[..|ps| - 1];
      SweepLeaves(s, w, pat, init);
      var prev := SweepOver(s, w, pat, init);
      var r := SweepOver(s, w, pat, ps);
      VisitClears(prev.image, w, pat, ps[|ps| - 1].0, ps[|ps| - 1].1);
      forall k | 0 <= k < |ps| - 1
        ensures !Matches(r.image, Cells(w, pat, ps[k].0, ps[k].1))
      {
        assert init[k] == ps[k];
        BelowNoMatch(r.image, prev.image, Cells(w, pat, ps[k].0, ps[k].1));
      }
    }
  }

  /** The sweep counts nothing exactly when the picture showed the monster at none of the positions. */
  lemma {:induction false} SweepZero(s: seq<bool>, w: nat, pat: seq<(nat, nat)>, ps: seq<(nat, nat)>)
    requires |s| >= w * w && AllInside(pat, w, ps) && |pat| > 0
    ensures SweepOver(s, w, pat, ps).count == 0 <==> forall k :: 0 <= k < |ps| ==> !Matches(s, Cells(w, pat, ps[k].0, ps[k].1))
    decreases |ps|
  {
    if ps != [] {
      var init := ps[..|ps| - 1];
      SweepZero(s, w, pat, init);
      SweepBelow(s, w, pat, init);
      var prev := SweepOver(s, w, pat, init);
      var last := ps[|ps| - 1];
      VisitClears(prev.image, w, pat, last.0, last.1);
      assert forall k :: 0 <= k < |init| ==> init[k] == ps[k];
      if forall k :: 0 <= k < |ps| ==> !Matches(s, Cells(w, pat, ps[k].0, ps[k].1)) {
        BelowNoMatch(prev.image, s, Cells(w, pat, last.0, last.1));
      }
    }
  }

  /** No position of rows `0..m` and columns `0..n` shows the monster. */
  predicate NoMatch(s: seq<bool>, w: nat, pat: seq<(nat, nat)>, mx: nat, my: nat, m: nat, n: nat)
    requires |s| >= w * w && Reach(pat, mx, my) && m + my <= w && (m == 0 || n + mx <= w)
  {
    forall x: nat, y: nat :: x < n && y < m ==> !Matches(s, Cells(w, pat, x, y))
  }

  /**
   * The sweep of rows `0..m` and columns `0..n` only clears pixels, leaves no monster at any of
   * those positions, and counts nothing exactly when the picture showed none there to begin with.
   */
  lemma SweepMeans(s: seq<bool>, w: nat, pat: seq<(nat, nat)>, mx: nat, my: nat, m: nat, n: nat)
    requires |s| >= w * w && Reach(pat, mx, my) && m + my <= w && (m == 0 || n + mx <= w) && |pat| > 0
    ensures Below(Sweep(s, w, pat, mx, my, m, n).image, s)
    ensures NoMatch(Sweep(s, w, pat, mx, my, m, n).image, w, pat, mx, my, m, n)
    ensures Sweep(s, w, pat, mx, my, m, n).count == 0 <==> NoMatch(s, w, pat, mx, my, m, n)
  {
    SweepFlat(s, w, pat, mx, my, m, n);
    PositionsMeans(m, n);
    FlatMeans(s, w, pat, mx, my, m, n, Positions(m, n));
  }

  /** `SweepMeans` for any list of exactly the positions of rows `0..m` and columns `0..n`, visited one after the other. */
  lemma FlatMeans(s: seq<bool>, w: nat, pat: seq<(nat, nat)>, mx: nat, my: nat, m: nat, n: nat, ps: seq<(nat, nat)>)
    requires |s| >= w * w && Reach(pat, mx, my) && m + my <= w && (m == 0 || n + mx <= w) && |pat| > 0
    requires AllInside(pat, w, ps) && forall p: (nat, nat) :: p in ps <==> p.0 < n && p.1 < m
    ensures Below(SweepOver(s, w, pat, ps).image, s)
    ensures NoMatch(SweepOver(s, w, pat, ps).image, w, pat, mx, my, m, n)
    ensures SweepOver(s, w, pat, ps).count == 0 <==> NoMatch(s, w, pat, mx, my, m, n)
  {
    SweepBelow(s, w, pat, ps);
    SweepLeaves(s, w, pat, ps);
    SweepZero(s, w, pat, ps);
    var r := SweepOver(s, w, pat, ps);
    forall x: nat, y: nat | x < n && y < m
      ensures !Matches(r.image, Cells(w, pat, x, y))
    {
      assert (x, y) in ps;
    }
    if NoMatch(s, w, pat, mx, my, m, n) {
      forall k | 0 <= k < |ps|
        ensures !Matches(s, Cells(w, pat, ps[k].0, ps[k].1))
      {
        assert ps[k] in ps;
      }
    }
    if r.count == 0 {
      forall x: nat, y: nat | x < n && y < m
        ensures !Matches(s, Cells(w, pat, x, y))
      {
        assert (x, y) in ps;
      }
    }
  }

  // ---- The sweep in place ----

  /** The clearing loop: every covered pixel set to `false`, in pattern order. */
  method ClearAt(a: array<bool>, w: nat, pat: seq<(nat, nat)>, x: nat, y: nat)
    requires a.Length >= w * w && Inside(pat, w, x, y)
    modifies a
    ensures a[..] == ClearCells(old(a[..]), Cells(w, pat, x, y))
  {
    ghost var cells := Cells(w, pat, x, y);
    for k := 0 to |pat|
      invariant a[..] == ClearCells(old(a[..]), cells[..k])
    {
      var (dx, dy) := pat[k];
      ClearNext(old(a[..]), cells, k);
      assert cells[k] == (y + dy) * w + x + dx;
      a[(y + dy) * w + x + dx] := false;
    }
    assert cells[..|pat|] == cells;
  }

  /** The `x` loop of one row: each match cleared in place and counted. */
  method SweepRowInPlace(a: array<bool>, w: nat, pat: seq<(nat, nat)>, mx: nat, my: nat, y: nat, n: nat) returns (count: nat)
    requires a.Length >= w * w && Reach(pat, mx, my) && y + my < w && n + mx <= w
    ensures AllInside(pat, w, RowPositions(y, n))
    modifies a
    ensures a[..] == SweepOver(old(a[..]), w, pat, RowPositions(y, n)).image
    ensures count == SweepOver(old(a[..]), w, pat, RowPositions(y, n)).count
  {
    ghost var ps := RowPositions(y, n);
    count := 0;
    for x := 0 to n
      invariant AllInside(pat, w, ps[..x])
      invariant a[..] == SweepOver(old(a[..]), w, pat, ps[..x]).image
      invariant count == SweepOver(old(a[..]), w, pat, ps[..x]).count
    {
      SweepStep(old(a[..]), w, pat, ps, x);
      if Matches(a[..], Cells(w, pat, x, y)) {
        ClearAt(a, w, pat, x, y);
        count := count + 1;
      }
    }
    assert ps[..n] == ps;
  }

  /**
   * The two loops over positions, `0..w - max_y` rows of `0..w - max_x` columns; `None` where a
   * subtraction of the loop bounds underflows and the Rust code panics. The column bound is first
   * computed on entering row 0, before any pixel is written, so the panic is decided up front.
   */
  method SweepInPlace(a: array<bool>, w: nat, pat: seq<(nat, nat)>, mx: nat, my: nat) returns (count: Option<nat>)
    requires a.Length >= w * w && Reach(pat, mx, my)
    modifies a
    ensures count.None? <==> Underflows(w, mx, my)
    ensures count.Some? ==> a[..] == Sweep(old(a[..]), w, pat, mx, my, RowSpan(w, my), ColumnSpan(w, mx)).image
    ensures count.Some? ==> count.value == Sweep(old(a[..]), w, pat, mx, my, RowSpan(w, my), ColumnSpan(w, mx)).count
  {
    if w < my {
      return None;
    } else if w - my == 0 {
      // No row is entered, so the column bound is never computed.
      return Some(0);
    } else if w < mx {
      return None;
    }
    var c := SweepRows(a, w, pat, mx, my, w - my, w - mx);
    count := Some(c);
  }

  /** The row loop once its bounds are known: row after row swept in place. */
  method SweepRows(a: array<bool>, w: nat, pat: seq<(nat, nat)>, mx: nat, my: nat, m: nat, n: nat) returns (count: nat)
    requires a.Length >= w * w && Reach(pat, mx, my) && m + my <= w && n + mx <= w
    modifies a
    ensures a[..] == Sweep(old(a[..]), w, pat, mx, my, m, n).image
    ensures count == Sweep(old(a[..]), w, pat, mx, my, m, n).count
  {
    ghost var s := a[..];
    count := 0;
    for y := 0 to m
      invariant a[..] == Sweep(s, w, pat, mx, my, y, n).image && count == Sweep(s, w, pat, mx, my, y, n).count
    {
      count := SweepNextRowInPlace(a, w, pat, mx, my, y, n, s, count);
    }
  }

  /** One turn of the row loop: row `y` swept in place on top of rows `0..y`. */
  method SweepNextRowInPlace(a: array<bool>, w: nat, pat: seq<(nat, nat)>, mx: nat, my: nat, y: nat, n: nat,
                             ghost s: seq<bool>, count: nat) returns (next: nat)
    requires a.Length >= w * w && |s| == a.Length && Reach(pat, mx, my) && y + 1 + my <= w && n + mx <= w
    requires a[..] == Sweep(s, w, pat, mx, my, y, n).image && count == Sweep(s, w, pat, mx, my, y, n).count
    modifies a
    ensures a[..] == Sweep(s, w, pat, mx, my, y + 1, n).image && next == Sweep(s, w, pat, mx, my, y + 1, n).count
  {
    var found := SweepRowInPlace(a, w, pat, mx, my, y, n);
    next := count + found;
  }

  /** Whether `w - max_y`, or `w - max_x` once a row is entered, goes below zero. */
  predicate Underflows(w: nat, mx: nat, my: nat) {
    w < my || (my < w && w < mx)
  }

  /** The number of rows the sweep visits. */
  function RowSpan(w: nat, my: nat): (m: nat)
    ensures m + my <= w || m == 0
  {
    if w >= my then w - my else 0
  }

  /** The number of columns the sweep visits in a row. */
  function ColumnSpan(w: nat, mx: nat): (n: nat)
    ensures n + mx <= w || n == 0
  {
    if w >= mx then w - mx else 0
  }
}
