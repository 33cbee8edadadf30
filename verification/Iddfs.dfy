/** Iterative deepening on mazes: depth-limited search over ways without repetition, with limits 0, 1, 2, ... */
module Iddfs {
  import opened Mazes
  import AStar

  const MAX := 250000

  /** `r` goes on from `p` without repetition, ends next to a goal, and has fewer than `depth` steps more. */
  ghost predicate Extends(z: Maze, p: seq<Cell>, r: seq<Cell>, depth: nat) {
    0 < |p| <= |r| && r[..|p|] == p && |r| < |p| + depth && z.Walk(r) && Distinct(r) && z.NextToGoal(r[|r| - 1])
  }

  ghost predicate Leads(z: Maze, p: seq<Cell>, depth: nat) {
    exists r :: Extends(z, p, r, depth)
  }

  /** The way goes on in direction `j`. */
  ghost predicate LeadsVia(z: Maze, p: seq<Cell>, j: nat, depth: nat)
    requires |p| > 0 && depth > 0
  {
    var c := Side(p[|p| - 1], j);
    z.Inside(c) && z.At(c) == ROAD && c !in p && Leads(z, p + [c], depth - 1)
  }

  lemma Further(z: Maze, p: seq<Cell>, j: nat, r: seq<Cell>, depth: nat)
    requires |p| > 0 && depth > 0 && j < 4
    requires Extends(z, p + [Side(p[|p| - 1], j)], r, depth - 1)
    ensures Extends(z, p, r, depth)
  {
    assert r[..|p|] == (p + [Side(p[|p| - 1], j)])[..|p|];
  }

  /** A way that does not end next to a goal goes on in some direction. */
  /** The way goes on in one of the first `n` directions. */
  ghost predicate LeadsBelow(z: Maze, p: seq<Cell>, n: nat, depth: nat)
    requires |p| > 0 && depth > 0
  {
    exists j :: 0 <= j < n && LeadsVia(z, p, j, depth)
  }

  lemma LeadsBelowNext(z: Maze, p: seq<Cell>, n: nat, depth: nat)
    requires |p| > 0 && depth > 0
    ensures LeadsBelow(z, p, n + 1, depth) <==> LeadsBelow(z, p, n, depth) || LeadsVia(z, p, n, depth)
    ensures !LeadsBelow(z, p, 0, depth)
  {
  }

  lemma LeadsOn(z: Maze, p: seq<Cell>, depth: nat)
    requires |p| > 0 && depth > 0 && !z.NextToGoal(p[|p| - 1])
    ensures Leads(z, p, depth) <==> LeadsBelow(z, p, 4, depth)
  {
    if Leads(z, p, depth) {
      var r :| Extends(z, p, r, depth);
      var n := |p|;
      assert r[n - 1] == r[..n][n - 1] == p[n - 1];
      assert Adjacent(r[n - 1], r[n]);
      var j :| 0 <= j < 4 && r[n] == Side(r[n - 1], j);
      forall k | 0 <= k < n ensures p[k] != r[n] {
        assert p[k] == r[..n][k] == r[k];
      }
      assert r[..n + 1] == p + [r[n]];
      assert Extends(z, p + [r[n]], r, depth - 1);
      assert LeadsVia(z, p, j, depth);
    }
    forall j | 0 <= j < 4 && LeadsVia(z, p, j, depth) ensures Leads(z, p, depth) {
      var r :| Extends(z, p + [Side(p[|p| - 1], j)], r, depth - 1);
      Further(z, p, j, r, depth);
    }
  }

  lemma {:induction false} LeastGoal(z: Maze, d: nat) returns (e: nat)
    requires z.GoalIn(d)
    ensures e <= d && z.Shortest(e)
  {
    if f: nat :| f < d && z.GoalIn(f) {
      e := LeastGoal(z, f);
    } else {
      e := d;
    }
  }

  /** A shortest way is one that the search finds at its depth. */
  lemma ShortestLeads(z: Maze, d: nat)
    requires z.Shortest(d)
    ensures Leads(z, [z.root], d)
  {
    var c :| z.Reach(c, d - 1) && z.NextToGoal(c);
    var p :| z.Walk(p) && |p| == d && p[d - 1] == c;
    forall k: nat | z.Reach(c, k) ensures |p| <= k + 1 {
      assert z.GoalIn(k + 1);
    }
    ShortestIsSimple(z, p, c);
    assert p[..1] == [z.root];
    assert Extends(z, [z.root], p, d);
  }

  lemma DeeperLeads(z: Maze, p: seq<Cell>, d: nat, e: nat)
    requires Leads(z, p, d) && d <= e
    ensures Leads(z, p, e)
  {
    var r :| Extends(z, p, r, d);
    assert Extends(z, p, r, e);
  }

  /** The search with limit `depth` finds a goal exactly if one can be reached in so many steps. */
  lemma LeadsIff(z: Maze, depth: nat)
    ensures Leads(z, [z.root], depth) <==> exists d: nat :: d <= depth && z.GoalIn(d)
  {
    if Leads(z, [z.root], depth) {
      var r :| Extends(z, [z.root], r, depth);
      WalkReaches(z, r, |r| - 1);
      assert z.GoalIn(|r|);
    }
    if d: nat :| d <= depth && z.GoalIn(d) {
      var e := LeastGoal(z, d);
      ShortestLeads(z, e);
      DeeperLeads(z, [z.root], e, depth);
    }
  }

  /** What the first limit that succeeds has found is a shortest way. */
  lemma FirstIsShortest(z: Maze, r: seq<Cell>, depth: nat)
    requires Extends(z, [z.root], r, depth) && (depth > 0 ==> !Leads(z, [z.root], depth - 1))
    ensures |r| == depth && z.Shortest(depth)
  {
    WalkReaches(z, r, |r| - 1);
    assert z.GoalIn(|r|);
    LeadsIff(z, depth - 1);
  }

  /** A way that goes on from `p` to a goal is drawn in `g`. */
  ghost predicate Shows(z: Maze, g: Grid, p: seq<Cell>, depth: nat)
    requires z.Shaped()
  {
    exists r :: Extends(z, p, r, depth) && Drawn(z, g, r)
  }

  lemma ShowsFurther(z: Maze, g: Grid, p: seq<Cell>, j: nat, depth: nat)
    requires z.Shaped() && |p| > 0 && depth > 0 && j < 4 && Shows(z, g, p + [Side(p[|p| - 1], j)], depth - 1)
    ensures Shows(z, g, p, depth)
  {
    var r :| Extends(z, p + [Side(p[|p| - 1], j)], r, depth - 1) && Drawn(z, g, r);
    Further(z, p, j, r, depth);
  }

  class IDS {
    const z: Maze
    var result: Grid
    var endcondition: bool

    constructor (z: Maze)
      ensures this.z == z && result == [] && !endcondition
    {
      this.z, result, endcondition := z, [], false;
    }

    /** Searches on from the last cell of the way `p` that is drawn in `curmaze`. A way found later replaces the result. */
    method DLS(curmaze: Grid, node: Cell, depth: nat, ghost p: seq<Cell>)
      requires z.Shaped() && z.Walk(p) && Distinct(p) && p[|p| - 1] == node && Drawn(z, curmaze, p)
      modifies this
      ensures endcondition == (old(endcondition) || Leads(z, p, depth))
      ensures if Leads(z, p, depth) then Shows(z, result, p, depth) else result == old(result)
      decreases depth, 1
    {
      if depth == 0 {
        return;
      }
      hide Leads, Shows, LeadsVia, LeadsBelow, Drawn, Distinct, Maze.Walk, Maze.IsGoal;
      var i := 0;
      ghost var via := false;
      LeadsBelowNext(z, p, 0, depth);
      while i < 4
        invariant 0 <= i <= 4 && via == LeadsBelow(z, p, i, depth)
        invariant forall j :: 0 <= j < i ==> !z.IsGoal(Side(node, j))
        invariant endcondition == (old(endcondition) || via)
        invariant if via then Shows(z, result, p, depth) else result == old(result)
      {
        var goal := Try(curmaze, node, depth, i, p);
        if goal {
          return;
        }
        LeadsBelowNext(z, p, i, depth);
        via := via || LeadsVia(z, p, i, depth);
        i := i + 1;
      }
      LeadsOn(z, p, depth);
    }

    /** One direction. A goal there ends the search around this cell. */
    method Try(curmaze: Grid, node: Cell, depth: nat, i: nat, ghost p: seq<Cell>) returns (goal: bool)
      requires z.Shaped() && z.Walk(p) && Distinct(p) && p[|p| - 1] == node && Drawn(z, curmaze, p)
      requires depth > 0 && i < 4
      modifies this
      ensures goal == z.IsGoal(Side(node, i))
      ensures goal ==> endcondition && Leads(z, p, depth) && Shows(z, result, p, depth)
      ensures !goal ==> endcondition == (old(endcondition) || LeadsVia(z, p, i, depth))
      ensures !goal ==> if LeadsVia(z, p, i, depth) then Shows(z, result, p, depth) else result == old(result)
      decreases depth, 0
    {
      assert |p| > 0 && Adjacent(node, Side(node, i));
      hide Leads, Shows, Drawn, Distinct, Maze.Walk, Put, Adjacent;
      goal := false;
      var c := Side(node, i);
      DrawnShape(z, curmaze, p);
      if 0 <= c.x < z.m && 0 <= c.y < z.n && curmaze[c.x][c.y] != WALL {
        Cells(z, curmaze, p, c);
        if curmaze[c.x][c.y] == GOAL {
          endcondition := true;
          result := curmaze;
          goal := true;
          GoalHere(z, curmaze, p, i, depth);
        } else if curmaze[c.x][c.y] == ROAD {
          WalkOn(z, p, c);
          DrawnMore(z, curmaze, p, c);
          var tarr := Put(curmaze, c, MARK);
          DLS(tarr, c, depth - 1, p + [c]);
          if Leads(z, p + [c], depth - 1) { ShowsFurther(z, result, p, i, depth); }
        }
      }
    }

    /** Finds a goal exactly if one can be reached in fewer than 250000 steps, and then the way drawn is a shortest one. */
    method IDDFS()
      requires z.Shaped() && !endcondition
      modifies this
      ensures endcondition <==> exists d: nat :: d < MAX && z.GoalIn(d)
      ensures endcondition ==> exists r :: z.Walk(r) && Distinct(r) && Drawn(z, result, r) && z.Shortest(|r|)
    {
      hide Leads;
      var depth := 0;
      while depth < MAX
        invariant 0 <= depth <= MAX && !endcondition
        invariant depth > 0 ==> !Leads(z, [z.root], depth - 1)
      {
        LeadsIff(z, depth);
        DLS(z.grid, z.root, depth, [z.root]);
        if endcondition {
          ghost var r :| Extends(z, [z.root], r, depth) && Drawn(z, result, r);
          FirstIsShortest(z, r, depth);
          ExtendsFacts(z, [z.root], r, depth);
          return;
        }
        depth := depth + 1;
      }
      LeadsIff(z, MAX - 1);
    }

    /** The length reported is one less than the number of steps to the nearest goal, besides the marks that were there
        before. */
    method Work() returns (found: bool, length: nat)
      requires z.Shaped() && !endcondition
      modifies this
      ensures found <==> exists d: nat :: d < MAX && z.GoalIn(d)
      ensures found ==> exists d: nat :: z.Shortest(d) && length == Marks(z.grid) + d - 1
    {
      IDDFS();
      found, length := endcondition, 0;
      if endcondition {
        ghost var r :| z.Walk(r) && Distinct(r) && Drawn(z, result, r) && z.Shortest(|r|);
        DrawnMarks(z, result, r);
        length := CountPath(result);
      }
    }
  }

  /** A cell of the drawn maze: a goal if it is one, a road if it is one and not on the way. */
  lemma Cells(z: Maze, g: Grid, p: seq<Cell>, c: Cell)
    requires z.Shaped() && z.Walk(p) && Drawn(z, g, p) && 0 <= c.x < z.m && 0 <= c.y < z.n
    ensures z.Inside(c)
    ensures g[c.x][c.y] == GOAL <==> z.IsGoal(c)
    ensures g[c.x][c.y] == ROAD <==> z.At(c) == ROAD && c !in p
  {
    assert p == [p[0]] + p[1..];
    if c in p[1..] {
      var k :| 0 <= k < |p[1..]| && p[1..][k] == c;
      assert p[k + 1] == c;
    }
  }

  lemma GoalHere(z: Maze, g: Grid, p: seq<Cell>, i: nat, depth: nat)
    requires z.Shaped() && z.Walk(p) && Drawn(z, g, p) && Distinct(p) && i < 4 && z.IsGoal(Side(p[|p| - 1], i)) && depth > 0
    ensures Leads(z, p, depth) && Shows(z, g, p, depth)
  {
    assert Extends(z, p, p, depth);
  }

  lemma DrawnMore(z: Maze, g: Grid, p: seq<Cell>, c: Cell)
    requires z.Shaped() && z.Walk(p) && Drawn(z, g, p) && Distinct(p) && z.Inside(c) && c !in p
    ensures On(g, c) && Drawn(z, Put(g, c, MARK), p + [c]) && Distinct(p + [c])
  {
    assert (p + [c])[1..] == p[1..] + [c];
  }

  lemma DrawnShape(z: Maze, g: Grid, p: seq<Cell>)
    requires z.Shaped() && |p| > 0 && Drawn(z, g, p)
    ensures |g| == z.m && forall x :: 0 <= x < z.m ==> |g[x]| == z.n
  {
  }

  lemma ExtendsFacts(z: Maze, p: seq<Cell>, r: seq<Cell>, depth: nat)
    requires Extends(z, p, r, depth)
    ensures z.Walk(r) && Distinct(r)
  {
  }

  /** Both programs on one maze: whatever iterative deepening finds, A* finds with the same length, and what only A* finds is
      too far away for the other. */
  method BothSearches(z: Maze, destinations: seq<Cell>)
    returns (foundA: bool, lengthA: nat, foundI: bool, lengthI: nat)
    requires z.Shaped() && AStar.AllGoals(z, destinations)
    ensures foundI ==> foundA && lengthA == lengthI
    ensures foundA && !foundI ==> lengthA >= Marks(z.grid) + MAX - 1
  {
    var a := new AStar.ASSearch(z, destinations);
    foundA, lengthA := a.Work();
    var b := new IDS(z);
    foundI, lengthI := b.Work();
  }
}
