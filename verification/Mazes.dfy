/** Mazes of walls, roads, one start and goals, and the shortest ways through them. */
module Mazes {
  const WALL := 1
  const ROAD := 2
  const START := 3
  const GOAL := 4
  const MARK := 5

  datatype Cell = Cell(x: int, y: int)

  type Grid = seq<seq<int>>

  /** A grid of `m` rows and `n` columns; the search starts at `root`. */
  datatype Maze = Maze(grid: Grid, m: nat, n: nat, root: Cell) {
    predicate Shaped() {
      |grid| == m && (forall i :: 0 <= i < m ==> |grid[i]| == n) && Inside(root) && At(root) == START
    }

    predicate Inside(c: Cell) {
      0 <= c.x < m && 0 <= c.y < n && c.x < |grid| && c.y < |grid[c.x]|
    }

    function At(c: Cell): int
      requires Inside(c)
    {
      grid[c.x][c.y]
    }

    /** A way from the start over road cells. */
    ghost predicate Walk(p: seq<Cell>) {
      && |p| > 0 && p[0] == root
      && forall k :: 1 <= k < |p| ==> Inside(p[k]) && At(p[k]) == ROAD && Adjacent(p[k - 1], p[k])
    }

    ghost predicate Reach(c: Cell, k: nat) {
      exists p :: Walk(p) && |p| == k + 1 && p[k] == c
    }

    predicate IsGoal(c: Cell) {
      Inside(c) && At(c) == GOAL
    }

    predicate NextToGoal(c: Cell) {
      exists i :: 0 <= i < 4 && IsGoal(Side(c, i))
    }

    /** A goal can be reached in `d` steps. */
    ghost predicate GoalIn(d: nat) {
      d >= 1 && exists c :: Reach(c, d - 1) && NextToGoal(c)
    }

    ghost predicate Shortest(d: nat) {
      GoalIn(d) && forall e: nat :: e < d ==> !GoalIn(e)
    }
  }

  /** The neighbour in direction `i`: right, left, down, up. */
  function Side(c: Cell, i: nat): Cell {
    if i == 0 then Cell(c.x, c.y + 1) else if i == 1 then Cell(c.x, c.y - 1)
    else if i == 2 then Cell(c.x + 1, c.y) else Cell(c.x - 1, c.y)
  }

  predicate Adjacent(a: Cell, b: Cell) {
    exists i :: 0 <= i < 4 && b == Side(a, i)
  }

  /** Neighbours are the cells one step up, down, left or right, and no others. */
  lemma AdjacentIff(a: Cell, b: Cell)
    ensures Adjacent(a, b) <==> (b.x == a.x && (b.y == a.y + 1 || b.y == a.y - 1)) || (b.y == a.y && (b.x == a.x + 1 || b.x == a.x - 1))
  {
    assert Side(a, 0) == Cell(a.x, a.y + 1) && Side(a, 1) == Cell(a.x, a.y - 1);
    assert Side(a, 2) == Cell(a.x + 1, a.y) && Side(a, 3) == Cell(a.x - 1, a.y);
  }

  lemma WalkOn(z: Maze, p: seq<Cell>, c: Cell)
    requires z.Walk(p) && z.Inside(c) && z.At(c) == ROAD && Adjacent(p[|p| - 1], c)
    ensures z.Walk(p + [c]) && z.Reach(c, |p|)
  {
  }

  lemma WalkReaches(z: Maze, p: seq<Cell>, k: nat)
    requires z.Walk(p) && k < |p|
    ensures z.Walk(p[..k + 1]) && z.Reach(p[k], k)
  {
    var q := p[..k + 1];
    forall j | 1 <= j < |q| ensures z.Inside(q[j]) && z.At(q[j]) == ROAD && Adjacent(q[j - 1], q[j]) {
      assert q[j] == p[j] && q[j - 1] == p[j - 1];
    }
    assert z.Walk(q) && |q| == k + 1 && q[k] == p[k];
  }

  ghost predicate Distinct(p: seq<Cell>) {
    forall i, j :: 0 <= i < j < |p| ==> p[i] != p[j]
  }

  /** A walk that comes back to where it was can be cut short. */
  lemma Shortcut(z: Maze, p: seq<Cell>, i: nat, j: nat)
    requires z.Walk(p) && i < j < |p| && p[i] == p[j]
    ensures z.Reach(p[|p| - 1], |p| - 1 - (j - i))
  {
    var q := p[..i + 1] + p[j + 1..];
    forall k | 1 <= k < |q| ensures z.Inside(q[k]) && z.At(q[k]) == ROAD && Adjacent(q[k - 1], q[k]) {
      var k' := if k <= i then k else k + (j - i);
      assert q[k] == p[k'] && q[k - 1] == p[k' - 1];
    }
    assert z.Walk(q) && q[|q| - 1] == p[|p| - 1];
  }

  /** A shortest walk to a cell never comes back to where it was. */
  lemma ShortestIsSimple(z: Maze, p: seq<Cell>, c: Cell)
    requires z.Walk(p) && c == p[|p| - 1] && forall k: nat :: z.Reach(c, k) ==> |p| <= k + 1
    ensures Distinct(p)
  {
    forall i, j | 0 <= i < j < |p| ensures p[i] != p[j] {
      if p[i] == p[j] { Shortcut(z, p, i, j); }
    }
  }

  // ----- marking a way -----

  predicate On(g: Grid, c: Cell) {
    0 <= c.x < |g| && 0 <= c.y < |g[c.x]|
  }

  function Put(g: Grid, c: Cell, v: int): (g': Grid)
    requires On(g, c)
    ensures |g'| == |g| && forall i :: 0 <= i < |g| ==> |g'[i]| == |g[i]|
    ensures forall b :: On(g, b) ==> g'[b.x][b.y] == if b == c then v else g[b.x][b.y]
  {
    g[c.x := g[c.x][c.y := v]]
  }

  /** The grid with all cells of `p` marked. */
  function Marked(g: Grid, p: seq<Cell>): (g': Grid)
    requires forall k :: 0 <= k < |p| ==> On(g, p[k])
    ensures |g'| == |g| && forall i :: 0 <= i < |g| ==> |g'[i]| == |g[i]|
    ensures forall b :: On(g, b) ==> g'[b.x][b.y] == if b in p then MARK else g[b.x][b.y]
  {
    if p == [] then g else Put(Marked(g, p[..|p| - 1]), p[|p| - 1], MARK)
  }

  function RowMarks(row: seq<int>): nat {
    if row == [] then 0 else RowMarks(row[..|row| - 1]) + if row[|row| - 1] == MARK then 1 else 0
  }

  function Marks(g: Grid): nat {
    if g == [] then 0 else Marks(g[..|g| - 1]) + RowMarks(g[|g| - 1])
  }

  lemma {:induction false} RowPut(row: seq<int>, y: nat)
    requires y < |row| && row[y] != MARK
    ensures RowMarks(row[y := MARK]) == RowMarks(row) + 1
  {
    var n := |row| - 1;
    if y < n {
      RowPut(row[..n], y);
      assert row[y := MARK][..n] == row[..n][y := MARK];
    } else {
      assert row[y := MARK][..n] == row[..n];
    }
  }

  lemma {:induction false} PutMarks(g: Grid, c: Cell)
    requires On(g, c) && g[c.x][c.y] != MARK
    ensures Marks(Put(g, c, MARK)) == Marks(g) + 1
  {
    var n := |g| - 1;
    if c.x < n {
      PutMarks(g[..n], c);
      assert Put(g, c, MARK)[..n] == Put(g[..n], c, MARK);
    } else {
      RowPut(g[c.x], c.y);
      assert Put(g, c, MARK)[..n] == g[..n];
    }
  }

  /** Marking distinct cells adds as many marks. */
  lemma {:induction false} MarkedMarks(g: Grid, p: seq<Cell>)
    requires forall k :: 0 <= k < |p| ==> On(g, p[k]) && g[p[k].x][p[k].y] != MARK
    requires Distinct(p)
    ensures Marks(Marked(g, p)) == Marks(g) + |p|
  {
    if p != [] {
      var q, c := p[..|p| - 1], p[|p| - 1];
      MarkedMarks(g, q);
      assert c !in q;
      PutMarks(Marked(g, q), c);
    }
  }

  /** A way to a goal along a walk without repetition, marked between start and goal: one mark for each step but one. */
  lemma WalkMarks(z: Maze, p: seq<Cell>)
    requires z.Shaped() && z.Walk(p) && Distinct(p)
    ensures forall k :: 0 <= k < |p[1..]| ==> On(z.grid, p[1..][k])
    ensures Marks(Marked(z.grid, p[1..])) == Marks(z.grid) + |p| - 1
  {
    var q := p[1..];
    forall k | 0 <= k < |q| ensures On(z.grid, q[k]) && z.grid[q[k].x][q[k].y] != MARK {
      assert q[k] == p[k + 1];
    }
    MarkedMarks(z.grid, q);
  }

  lemma SameGrid(a: Grid, b: Grid)
    requires |a| == |b| && forall i :: 0 <= i < |a| ==> |a[i]| == |b[i]|
    requires forall c :: On(a, c) ==> a[c.x][c.y] == b[c.x][c.y]
    ensures a == b
  {
    forall i | 0 <= i < |a| ensures a[i] == b[i] {
      forall j | 0 <= j < |a[i]| ensures a[i][j] == b[i][j] {
        assert On(a, Cell(i, j));
      }
    }
  }

  /** The grid as it was read, with the cells of `p` after the first marked. */
  ghost predicate Drawn(z: Maze, g: Grid, p: seq<Cell>)
    requires z.Shaped() && |p| > 0
  {
    && |g| == z.m && (forall x :: 0 <= x < z.m ==> |g[x]| == z.n)
    && forall c :: z.Inside(c) ==> g[c.x][c.y] == if c in p[1..] then MARK else z.At(c)
  }

  /** A drawn way adds one mark for each step but the one to the goal. */
  lemma DrawnMarks(z: Maze, g: Grid, p: seq<Cell>)
    requires z.Shaped() && z.Walk(p) && Distinct(p) && Drawn(z, g, p)
    ensures Marks(g) == Marks(z.grid) + |p| - 1
  {
    WalkMarks(z, p);
    SameGrid(g, Marked(z.grid, p[1..]));
  }

  method CountPath(arr: Grid) returns (ret: nat)
    ensures ret == Marks(arr)
  {
    ret := 0;
    for i := 0 to |arr|
      invariant ret == Marks(arr[..i])
    {
      var row := arr[i];
      ghost var before := ret;
      for j := 0 to |row|
        invariant ret == before + RowMarks(row[..j])
      {
        assert row[..j + 1][..j] == row[..j];
        if row[j] == MARK {
          ret := ret + 1;
        }
      }
      assert row[..|row|] == row && arr[..i + 1][..i] == arr[..i];
    }
    assert arr[..|arr|] == arr;
  }
}
