/** Day 3 (toboggan trajectory): count the trees met on a slope through a map that repeats to the right. */
module Day3 {
  import opened Wrappers
  import opened Arith

  /** Every row of the map has the same width. */
  ghost predicate Rectangular(grid: seq<seq<bool>>) {
    forall i, j :: 0 <= i < j < |grid| ==> |grid[i]| == |grid[j]|
  }

  /**
   * The trees met at steps `k, k + 1, ...` of the slope `(dx, dy)`: step `k` visits row
   * `k * dy` and column `(k * dx) mod width`; the walk stops at the first row past the map.
   */
  ghost function Trees(grid: seq<seq<bool>>, dx: nat, dy: nat, k: nat): nat
    requires |grid| > 0 && |grid[0]| > 0 && Rectangular(grid) && dy >= 1
    decreases |grid| - k * dy
  {
    if k * dy >= |grid| then 0
    else
      assert (k + 1) * dy == k * dy + dy;
      (if grid[k * dy][(k * dx) % |grid[0]|] then 1 else 0) + Trees(grid, dx, dy, k + 1)
  }

  /** At most one tree per step, and there are at most `height - k` steps from step `k`. */
  lemma {:induction false} TreesBound(grid: seq<seq<bool>>, dx: nat, dy: nat, k: nat)
    requires |grid| > 0 && |grid[0]| > 0 && Rectangular(grid) && dy >= 1
    ensures Trees(grid, dx, dy, k) <= if k <= |grid| then |grid| - k else 0
    decreases |grid| - k * dy
  {
    if k * dy < |grid| {
      assert k <= k * dy;
      assert (k + 1) * dy == k * dy + dy;
      TreesBound(grid, dx, dy, k + 1);
    }
  }

  /**
   * `count_trees`: the trees met strictly after the origin; `None` where the Rust code
   * panics on an empty map or an empty first row.
   */
  method CountTrees(grid: seq<seq<bool>>, dx: nat, dy: nat) returns (r: Option<nat>)
    requires dy >= 1 && Rectangular(grid)
    ensures |grid| == 0 || |grid[0]| == 0 ==> r == None
    ensures |grid| > 0 && |grid[0]| > 0 ==> r == Some(Trees(grid, dx, dy, 1))
    ensures r.Some? ==> r.value <= |grid| - 1
  {
    if |grid| == 0 || |grid[0]| == 0 {
      return None;
    }
    var width := |grid[0]|;
    var height := |grid|;
    var col, row := 0, 0;
    var count := 0;
    ghost var k: nat := 0;
    while true
      invariant col == (k * dx) % width && row == k * dy && row < height
      invariant count + Trees(grid, dx, dy, k + 1) == Trees(grid, dx, dy, 1)
      decreases height - row
    {
      ModAdd(k * dx, dx, width);
      assert (k + 1) * dx == k * dx + dx && (k + 1) * dy == k * dy + dy;
      var newCol, newRow := (col + dx) % width, row + dy;
      if newRow >= height {
        TreesBound(grid, dx, dy, 1);
        return Some(count);
      }
      col, row := newCol, newRow;
      k := k + 1;
      if grid[row][col] {
        count := count + 1;
      }
    }
  }
}
