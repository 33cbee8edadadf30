/** A* search on mazes: cells are marked as visited when they leave the queue, goals are recognised when they are generated. */
module AStar {
  import opened Mazes

  const MAX := 250000

  /** A node of the search tree: the cell, the number of steps to it, and the node it was reached from. */
  datatype Node = Root(cell: Cell) | Child(cell: Cell, parent: Node) {
    function G(): nat {
      if Root? then 0 else parent.G() + 1
    }

    /** The cells from the root of the tree to this node. */
    function Trail(): (p: seq<Cell>)
      ensures |p| == G() + 1 && p[|p| - 1] == cell
    {
      if Root? then [cell] else parent.Trail() + [cell]
    }
  }

  function Abs(a: int): nat {
    if a < 0 then -a else a
  }

  function Manhattan(a: Cell, b: Cell): nat {
    Abs(b.x - a.x) + Abs(b.y - a.y)
  }

  /** The heuristic: the distance to the nearest goal as if there were no walls, but at most 250000. */
  function H(c: Cell, goals: seq<Cell>): (h: nat)
    ensures h <= MAX
  {
    if goals == [] then MAX else Min(H(c, goals[..|goals| - 1]), Manhattan(c, goals[|goals| - 1]))
  }

  function Min(a: int, b: int): int {
    if a < b then a else b
  }

  function F(v: Node, goals: seq<Cell>): nat {
    v.G() + H(v.cell, goals)
  }

  ghost predicate AllGoals(z: Maze, goals: seq<Cell>) {
    forall c :: c in goals <==> z.IsGoal(c)
  }

  /** One step changes the heuristic by at most one. */
  lemma {:induction false} HConsistent(a: Cell, b: Cell, goals: seq<Cell>)
    requires Adjacent(a, b)
    ensures H(a, goals) <= H(b, goals) + 1
  {
    if goals != [] { HConsistent(a, b, goals[..|goals| - 1]); }
  }

  lemma {:induction false} HAtMost(c: Cell, goals: seq<Cell>, b: Cell)
    requires b in goals
    ensures H(c, goals) <= Manhattan(c, b)
  {
    var n := |goals| - 1;
    if b != goals[n] { HAtMost(c, goals[..n], b); }
  }

  /** The heuristic is the distance to the nearest goal, walls apart, or 250000 if that is less. */
  lemma {:induction false} HIsNearest(c: Cell, goals: seq<Cell>)
    ensures forall b :: b in goals ==> H(c, goals) <= (if b.x < c.x then c.x - b.x else b.x - c.x) + (if b.y < c.y then c.y - b.y else b.y - c.y)
    ensures H(c, goals) == 250000 || exists b :: b in goals && H(c, goals) == Manhattan(c, b)
    ensures H(c, goals) <= 250000
  {
    forall b | b in goals ensures H(c, goals) <= Manhattan(c, b) {
      HAtMost(c, goals, b);
    }
    if goals != [] {
      var n := |goals| - 1;
      HIsNearest(c, goals[..n]);
      assert goals[n] in goals;
    }
  }

  lemma {:induction false} HPositive(c: Cell, goals: seq<Cell>)
    requires c !in goals
    ensures H(c, goals) >= 1
  {
    if goals != [] {
      HPositive(c, goals[..|goals| - 1]);
      assert goals[|goals| - 1] in goals;
    }
  }

  lemma HNextToGoal(z: Maze, c: Cell, goals: seq<Cell>)
    requires AllGoals(z, goals) && z.NextToGoal(c)
    ensures H(c, goals) <= 1
  {
    var i :| 0 <= i < 4 && z.IsGoal(Side(c, i));
    HAtMost(c, goals, Side(c, i));
  }

  /** Along a walk the heuristic falls by at most one for each step. */
  lemma {:induction false} HAlong(z: Maze, p: seq<Cell>, i: nat, j: nat, goals: seq<Cell>)
    requires z.Walk(p) && i <= j < |p|
    ensures H(p[i], goals) <= (j - i) + H(p[j], goals)
    decreases j - i
  {
    if i < j {
      HConsistent(p[i], p[i + 1], goals);
      HAlong(z, p, i + 1, j, goals);
    }
  }

  // ----- the search -----

  ghost predicate Queues(queue: seq<Node>, c: Cell, g: nat) {
    exists k :: 0 <= k < |queue| && queue[k].cell == c && queue[k].G() <= g
  }

  /** No walk to `c` is shorter than `g`. */
  ghost predicate Least(z: Maze, c: Cell, g: nat) {
    forall k: nat :: z.Reach(c, k) ==> g <= k
  }

  /** What holds between two turns of the search: queued nodes stand for walks; visited cells were reached by a shortest walk,
      none of them is next to a goal, and the road cells around them are visited or queued with one step more. */
  ghost predicate Searching(z: Maze, queue: seq<Node>, best: map<Cell, nat>) {
    && (forall k :: 0 <= k < |queue| ==> z.Walk(queue[k].Trail()))
    && (forall c :: c in best ==> Least(z, c, best[c]) && !z.NextToGoal(c) && !z.IsGoal(c))
    && (forall c, b :: c in best && z.Inside(b) && z.At(b) == ROAD && Adjacent(c, b) && b !in best ==> Queues(queue, b, best[c] + 1))
    && (z.root in best || Queues(queue, z.root, 0))
  }

  /** On a walk that leaves the visited cells, the first cell outside is queued with no more steps than the walk takes. */
  lemma {:induction false} Frontier(z: Maze, queue: seq<Node>, best: map<Cell, nat>, p: seq<Cell>, j: nat) returns (i: nat)
    requires Searching(z, queue, best) && z.Walk(p) && j < |p| && p[j] !in best
    ensures i <= j && Queues(queue, p[i], i)
  {
    if j > 0 && p[j - 1] !in best {
      i := Frontier(z, queue, best, p, j - 1);
    } else {
      i := j;
      if j > 0 { WalkReaches(z, p, j - 1); }
    }
  }

  ghost predicate Cheapest(queue: seq<Node>, v: Node, goals: seq<Cell>) {
    forall k :: 0 <= k < |queue| ==> F(v, goals) <= F(queue[k], goals)
  }

  /** The node with the least F has been reached by a shortest walk if its cell has not been visited. */
  lemma PoppedLeast(z: Maze, queue: seq<Node>, best: map<Cell, nat>, v: Node, goals: seq<Cell>)
    requires Searching(z, queue, best) && Cheapest(queue, v, goals) && v.cell !in best
    ensures Least(z, v.cell, v.G())
  {
    forall k: nat | z.Reach(v.cell, k) ensures v.G() <= k {
      var p :| z.Walk(p) && |p| == k + 1 && p[k] == v.cell;
      var i := Frontier(z, queue, best, p, k);
      HAlong(z, p, i, k, goals);
    }
  }

  /** No way to a goal is shorter than the least F in the queue. */
  lemma GoalNotNearer(z: Maze, queue: seq<Node>, best: map<Cell, nat>, v: Node, goals: seq<Cell>, e: nat)
    requires Searching(z, queue, best) && Cheapest(queue, v, goals) && AllGoals(z, goals) && z.GoalIn(e)
    ensures F(v, goals) <= e
  {
    var c :| z.Reach(c, e - 1) && z.NextToGoal(c);
    var p :| z.Walk(p) && |p| == e && p[e - 1] == c;
    var i := Frontier(z, queue, best, p, e - 1);
    HAlong(z, p, i, e - 1, goals);
    HNextToGoal(z, c, goals);
  }

  lemma RoadOrStart(z: Maze, p: seq<Cell>, k: nat)
    requires z.Shaped() && z.Walk(p) && k < |p|
    ensures z.Inside(p[k]) && !z.IsGoal(p[k])
  {
  }

  lemma WayToGoal(z: Maze, t: seq<Cell>, c: Cell)
    requires z.Walk(t) && c == t[|t| - 1] && z.NextToGoal(c)
    ensures z.GoalIn(|t|)
  {
    WalkReaches(z, t, |t| - 1);
  }

  lemma LeastTrail(z: Maze, v: Node)
    requires z.Walk(v.Trail()) && Least(z, v.cell, v.G())
    ensures Distinct(v.Trail())
  {
    ShortestIsSimple(z, v.Trail(), v.cell);
  }

  /** If the least node is next to a goal, no way to a goal is shorter than the one through it. */
  lemma GoalLeast(z: Maze, queue: seq<Node>, best: map<Cell, nat>, v: Node, goals: seq<Cell>)
    requires Searching(z, queue, best) && Cheapest(queue, v, goals) && AllGoals(z, goals)
    requires v in queue && z.NextToGoal(v.cell) && z.Shaped()
    ensures z.Shortest(v.G() + 1) && Distinct(v.Trail()) && z.Walk(v.Trail())
  {
    var t := v.Trail();
    assert z.Walk(t);
    PoppedLeast(z, queue, best, v, goals);
    RoadOrStart(z, t, |t| - 1);
    HPositive(v.cell, goals);
    FAtLeast(v, goals);
    hide Searching, Cheapest, AllGoals, Maze.NextToGoal, Maze.GoalIn, Maze.Walk, Least, F, H;
    LeastTrail(z, v);
    WayToGoal(z, t, v.cell);
    forall e: nat | e < v.G() + 1 ensures !z.GoalIn(e) {
      if z.GoalIn(e) { GoalNotNearer(z, queue, best, v, goals, e); }
    }
  }

  lemma FAtLeast(v: Node, goals: seq<Cell>)
    requires H(v.cell, goals) >= 1
    ensures F(v, goals) >= v.G() + 1
  {
  }

  /** With an empty queue no goal can be reached. */
  lemma NothingLeft(z: Maze, best: map<Cell, nat>)
    requires Searching(z, [], best)
    ensures forall d: nat :: !z.GoalIn(d)
  {
    forall d: nat | z.GoalIn(d) ensures false {
      var c :| z.Reach(c, d - 1) && z.NextToGoal(c);
      var p :| z.Walk(p) && |p| == d && p[d - 1] == c;
      var i := Frontier(z, [], best, p, d - 1);
    }
  }

  // ----- one turn -----

  /** The queue without its node number `i`. */
  function Without(queue: seq<Node>, i: nat): seq<Node>
    requires i < |queue|
  {
    queue[..i] + queue[i + 1..]
  }

  lemma QueuesWithout(queue: seq<Node>, i: nat, c: Cell, g: nat)
    requires i < |queue| && Queues(queue, c, g) && queue[i].cell != c
    ensures Queues(Without(queue, i), c, g)
  {
    var k :| 0 <= k < |queue| && queue[k].cell == c && queue[k].G() <= g;
    assert Without(queue, i)[if k < i then k else k - 1] == queue[k];
  }

  lemma QueuesMore(queue: seq<Node>, more: seq<Node>, c: Cell, g: nat)
    requires Queues(queue, c, g) || Queues(more, c, g)
    ensures Queues(queue + more, c, g)
  {
    if Queues(queue, c, g) {
      var k :| 0 <= k < |queue| && queue[k].cell == c && queue[k].G() <= g;
      assert (queue + more)[k] == queue[k];
    } else {
      var k :| 0 <= k < |more| && more[k].cell == c && more[k].G() <= g;
      assert (queue + more)[|queue| + k] == more[k];
    }
  }

  /** The children of `v`: its road neighbours in the first `n` directions that have not been visited. */
  ghost predicate Children(z: Maze, best: map<Cell, nat>, v: Node, n: nat, more: seq<Node>) {
    && (forall k :: 0 <= k < |more| ==> more[k].Child? && more[k].parent == v && z.Inside(more[k].cell)
                                        && z.At(more[k].cell) == ROAD && Adjacent(v.cell, more[k].cell) && more[k].cell !in best)
    && (forall i :: 0 <= i < n && z.Inside(Side(v.cell, i)) && z.At(Side(v.cell, i)) == ROAD && Side(v.cell, i) !in best ==>
          Queues(more, Side(v.cell, i), v.G() + 1))
  }

  lemma TurnKeeps(z: Maze, queue: seq<Node>, best: map<Cell, nat>, i: nat, more: seq<Node>, goals: seq<Cell>)
    requires Searching(z, queue, best) && i < |queue| && Cheapest(queue, queue[i], goals) && !z.NextToGoal(queue[i].cell)
    requires z.Shaped()
    requires var v := queue[i]; Children(z, if v.cell in best then best else best[v.cell := v.G()], v, 4, more)
    ensures var v := queue[i];
            Searching(z, Without(queue, i) + more, if v.cell in best then best else best[v.cell := v.G()])
  {
    var v := queue[i];
    var best' := if v.cell in best then best else best[v.cell := v.G()];
    var queue' := Without(queue, i) + more;
    InsideMaze(z, queue, best, i);
    if v.cell !in best { PoppedLeast(z, queue, best, v, goals); }
    WalksKept(z, queue, i, best', more);
    hide Adjacent, Maze.Walk, Queues, Children, Without, Node.Trail;
    forall c, b | c in best' && z.Inside(b) && z.At(b) == ROAD && Adjacent(c, b) && b !in best'
      ensures Queues(queue', b, best'[c] + 1) {
      FrontierKept(z, queue, best, best', i, more, c, b);
    }
    if z.root !in best' {
      QueuesWithout(queue, i, z.root, 0);
      QueuesMore(Without(queue, i), more, z.root, 0);
    }
  }

  lemma FrontierKept(z: Maze, queue: seq<Node>, best: map<Cell, nat>, best': map<Cell, nat>, i: nat, more: seq<Node>, c: Cell, b: Cell)
    requires Searching(z, queue, best) && i < |queue| && Children(z, best', queue[i], 4, more)
    requires best' == if queue[i].cell in best then best else best[queue[i].cell := queue[i].G()]
    requires c in best' && z.Inside(b) && z.At(b) == ROAD && Adjacent(c, b) && b !in best'
    ensures Queues(Without(queue, i) + more, b, best'[c] + 1)
  {
    hide Adjacent, Maze.Walk, Queues, Children, Without, Least;
    if c in best {
      QueuesWithout(queue, i, b, best[c] + 1);
    } else {
      ChildQueued(z, best', queue[i], more, b);
    }
    QueuesMore(Without(queue, i), more, b, best'[c] + 1);
  }

  /** The child of `v` in cell `b` has been queued. */
  lemma ChildQueued(z: Maze, best: map<Cell, nat>, v: Node, more: seq<Node>, b: Cell)
    requires Children(z, best, v, 4, more) && z.Inside(b) && z.At(b) == ROAD && Adjacent(v.cell, b) && b !in best
    ensures Queues(more, b, v.G() + 1)
  {
  }

  lemma WalksKept(z: Maze, queue: seq<Node>, i: nat, best: map<Cell, nat>, more: seq<Node>)
    requires i < |queue| && (forall k :: 0 <= k < |queue| ==> z.Walk(queue[k].Trail())) && Children(z, best, queue[i], 4, more)
    requires z.Shaped()
    ensures var queue' := Without(queue, i) + more; forall k :: 0 <= k < |queue'| ==> z.Walk(queue'[k].Trail())
  {
    var v, queue' := queue[i], Without(queue, i) + more;
    forall k | 0 <= k < |queue'| ensures z.Walk(queue'[k].Trail()) {
      if k < |queue| - 1 {
        assert queue'[k] == queue[if k < i then k else k + 1];
      } else {
        var w := more[k - (|queue| - 1)];
        assert z.Walk(v.Trail());
        WalkOn(z, v.Trail(), w.cell);
      }
    }
  }

  // ----- the search ends -----

  function Cells(z: Maze): set<Cell> {
    set x: int, y: int | 0 <= x < z.m && 0 <= y < z.n :: Cell(x, y)
  }

  /** The queued nodes whose cells have been visited. */
  function Stale(queue: seq<Node>, seen: set<Cell>): nat {
    if queue == [] then 0 else Stale(queue[..|queue| - 1], seen) + if queue[|queue| - 1].cell in seen then 1 else 0
  }

  lemma {:induction false} StaleSum(a: seq<Node>, b: seq<Node>, seen: set<Cell>)
    ensures Stale(a + b, seen) == Stale(a, seen) + Stale(b, seen)
  {
    if b == [] {
      assert a + b == a;
    } else {
      var n := |b| - 1;
      StaleSum(a, b[..n], seen);
      assert (a + b)[..|a + b| - 1] == a + b[..n];
    }
  }

  lemma {:induction false} NotStale(a: seq<Node>, seen: set<Cell>)
    requires forall k :: 0 <= k < |a| ==> a[k].cell !in seen
    ensures Stale(a, seen) == 0
  {
    if a != [] { NotStale(a[..|a| - 1], seen); }
  }

  /** A node of a visited cell has left the queue, and only nodes of other cells have come in. */
  lemma FewerStale(queue: seq<Node>, i: nat, more: seq<Node>, seen: set<Cell>)
    requires i < |queue| && queue[i].cell in seen && forall k :: 0 <= k < |more| ==> more[k].cell !in seen
    ensures Stale(Without(queue, i) + more, seen) == Stale(queue, seen) - 1
  {
    assert queue == queue[..i] + [queue[i]] + queue[i + 1..];
    StaleSum(queue[..i] + [queue[i]], queue[i + 1..], seen);
    StaleSum(queue[..i], [queue[i]], seen);
    StaleSum(queue[..i], queue[i + 1..], seen);
    StaleSum(Without(queue, i), more, seen);
    NotStale(more, seen);
  }

  function Unseen(z: Maze, seen: set<Cell>): nat {
    |Cells(z) - seen|
  }

  lemma FewerUnseen(z: Maze, seen: set<Cell>, c: Cell)
    requires c in Cells(z) && c !in seen
    ensures Unseen(z, seen + {c}) < Unseen(z, seen)
  {
    assert Cells(z) - seen == (Cells(z) - (seen + {c})) + {c};
  }

  /** The grid `visited` tells which cells have been visited. */
  ghost predicate SeenAre(z: Maze, visited: Grid, best: map<Cell, nat>) {
    && |visited| == z.m && (forall x :: 0 <= x < z.m ==> |visited[x]| == z.n)
    && (forall c :: z.Inside(c) ==> (visited[c.x][c.y] == 0 <==> c !in best))
    && best.Keys <= Cells(z)
  }

  lemma SeenMore(z: Maze, visited: Grid, best: map<Cell, nat>, c: Cell, g: nat)
    requires z.Shaped() && SeenAre(z, visited, best) && z.Inside(c) && c in Cells(z)
    ensures On(visited, c) && SeenAre(z, Put(visited, c, 1), if c in best then best else best[c := g])
  {
  }

  class ASSearch {
    const z: Maze                // the maze as it was read
    const destinations: seq<Cell>
    var maze: Grid
    var visited: Grid
    var queue: seq<Node>
    var endcondition: bool
    var fNode: Node

    constructor (z: Maze, destinations: seq<Cell>)
      requires z.Shaped() && AllGoals(z, destinations)
      ensures this.z == z && this.destinations == destinations && maze == z.grid && queue == [] && !endcondition
    {
      this.z, this.destinations := z, destinations;
      maze, visited, queue, endcondition := z.grid, [], [], false;
      fNode := Root(z.root);
    }

    /** Takes out a node with the least F; which one of several is open. */
    method Poll() returns (v: Node, ghost i: nat)
      requires queue != []
      modifies this`queue
      ensures i < |old(queue)| && v == old(queue)[i] && queue == Without(old(queue), i)
      ensures Cheapest(old(queue), v, destinations)
      ensures forall k :: 0 <= k < |old(queue)| ==>
                |v.Trail()| + H(v.cell, destinations) <= |old(queue)[k].Trail()| + H(old(queue)[k].cell, destinations)
    {
      var at, k := 0, 1;
      while k < |queue|
        invariant 0 <= at < k <= |queue|
        invariant forall j :: 0 <= j < k ==> F(queue[at], destinations) <= F(queue[j], destinations)
      {
        if F(queue[k], destinations) < F(queue[at], destinations) {
          at := k;
        }
        k := k + 1;
      }
      v, i := queue[at], at;
      queue := queue[..at] + queue[at + 1..];
    }

    /** Finds a goal exactly if one can be reached, and then the way to it is a shortest one. */
    method Search()
      requires z.Shaped() && AllGoals(z, destinations) && queue == [] && !endcondition
      modifies this`visited, this`queue, this`endcondition, this`fNode
      ensures endcondition <==> exists d :: z.GoalIn(d)
      ensures endcondition ==> Found()
    {
      hide Stale, Cells, Unseen, Maze.Shortest, Maze.GoalIn, Maze.Walk, Searching;
      visited := seq(z.m, _ => seq(z.n, _ => 0));
      queue := queue + [Root(z.root)];
      ghost var best: map<Cell, nat> := map[];
      assert queue == [Root(z.root)];
      Started(z);
      while queue != [] && !endcondition
        invariant !endcondition ==> Searching(z, queue, best) && SeenAre(z, visited, best)
        invariant endcondition ==> Found()
        decreases if endcondition then 0 else 1, Unseen(z, best.Keys), Stale(queue, best.Keys)
      {
        best := Turn(best);
      }
      if !endcondition {
        NothingLeft(z, best);
      } else {
        ShortestLeads(z, fNode.G());
      }
    }

    /** The goal node hangs on a shortest way. */
    ghost predicate Found()
      reads this
    {
      && fNode.Child? && z.IsGoal(fNode.cell) && Adjacent(fNode.parent.cell, fNode.cell)
      && z.Shortest(fNode.G()) && z.Walk(fNode.parent.Trail()) && Distinct(fNode.parent.Trail())
    }

    /** One turn: take a node from the queue, mark its cell, generate its children. It brings the end nearer: there are fewer
        cells not visited, or as many and fewer queued nodes of visited cells. */
    method Turn(ghost best: map<Cell, nat>) returns (ghost best': map<Cell, nat>)
      requires z.Shaped() && AllGoals(z, destinations) && queue != [] && !endcondition
      requires Searching(z, queue, best) && SeenAre(z, visited, best)
      modifies this`visited, this`queue, this`endcondition, this`fNode
      ensures !endcondition ==> Searching(z, queue, best') && SeenAre(z, visited, best')
      ensures endcondition ==> Found()
      ensures !endcondition ==>
                || Unseen(z, best'.Keys) < Unseen(z, best.Keys)
                || (best' == best && Stale(queue, best'.Keys) < Stale(old(queue), best.Keys))
    {
      hide Searching, Cheapest, AllGoals, Stale, Cells, Unseen, Children, Maze.Walk, Maze.GoalIn, SeenAre, Put;
      var v;
      ghost var i;
      v, i := Poll();
      InsideMaze(z, old(queue), best, i);
      SearchedCells(z, old(queue), best);
      SeenMore(z, visited, best, v.cell, v.G());
      visited := Put(visited, v.cell, 1);
      best' := if v.cell in best then best else best[v.cell := v.G()];
      ghost var more := Expand(v, best');
      if endcondition {
        GoalLeast(z, old(queue), best, v, destinations);
      } else {
        TurnKeeps(z, old(queue), best, i, more, destinations);
        if v.cell in best {
          ChildrenFresh(z, best', v, more);
          FewerStale(old(queue), i, more, best.Keys);
        } else {
          FewerUnseen(z, best.Keys, v.cell);
          assert best'.Keys == best.Keys + {v.cell};
        }
      }
    }

    /** Generates the children of `v`; a goal among them ends the search. */
    method Expand(v: Node, ghost best: map<Cell, nat>) returns (ghost more: seq<Node>)
      requires z.Shaped() && SeenAre(z, visited, best) && !endcondition
      requires forall c :: c in best ==> !z.IsGoal(c)
      modifies this`queue, this`endcondition, this`fNode
      ensures queue == old(queue) + more
      ensures endcondition <==> z.NextToGoal(v.cell)
      ensures endcondition ==> fNode.Child? && fNode.parent == v && z.IsGoal(fNode.cell) && Adjacent(v.cell, fNode.cell)
      ensures !endcondition ==> Children(z, best, v, 4, more)
    {
      more := [];
      var i := 0;
      while i < 4
        invariant 0 <= i <= 4 && !endcondition && queue == old(queue) + more
        invariant forall j :: 0 <= j < i ==> !z.IsGoal(Side(v.cell, j))
        invariant Children(z, best, v, i, more)
      {
        var c := Side(v.cell, i);
        if z.Inside(c) && visited[c.x][c.y] == 0 {
          if z.At(c) == ROAD {
            queue := queue + [Child(c, v)];
            MoreChildren(z, best, v, i, more);
            more := more + [Child(c, v)];
          } else if z.At(c) == GOAL {
            endcondition := true;
            fNode := Child(c, v);
            return;
          }
        }
        i := i + 1;
      }
    }

    /** Marks the cells of the way from the parent of `child` back to the start. */
    method DrawPath(child: Node)
      requires z.Shaped() && child.Child? && z.Walk(child.parent.Trail()) && Distinct(child.parent.Trail())
      requires |maze| == z.m && forall x :: 0 <= x < z.m ==> |maze[x]| == z.n
      requires forall k :: 0 <= k < |child.parent.Trail()| ==>
                 z.Inside(child.parent.Trail()[k]) && maze[child.parent.Trail()[k].x][child.parent.Trail()[k].y] == z.At(child.parent.Trail()[k])
      modifies this`maze
      ensures |maze| == z.m && forall x :: 0 <= x < z.m ==> |maze[x]| == z.n
      ensures forall c :: z.Inside(c) ==>
                maze[c.x][c.y] == if c in child.parent.Trail()[1..] then MARK else old(maze)[c.x][c.y]
      decreases child
    {
      var v := child.parent;
      ghost var t := v.Trail();
      assert t[|t| - 1] == v.cell;
      if maze[v.cell.x][v.cell.y] == START {
        OnlyRootStarts(z, v);
        return;
      }
      assert v.Child?;
      ghost var u := v.parent.Trail();
      assert t == u + [v.cell] && t[1..] == u[1..] + [v.cell];
      WalkReaches(z, t, |t| - 2);
      assert t[..|t| - 1] == u;
      maze := Put(maze, v.cell, MARK);
      forall k | 0 <= k < |u| ensures z.Inside(u[k]) && maze[u[k].x][u[k].y] == z.At(u[k]) {
        assert u[k] == t[k];
      }
      DrawPath(v);
    }

    /** The length reported is one less than the number of steps to the nearest goal, besides the marks that were there
        before; there is none exactly if no goal can be reached. */
    method Work() returns (found: bool, length: nat)
      requires z.Shaped() && AllGoals(z, destinations) && queue == [] && !endcondition && maze == z.grid
      modifies this
      ensures found <==> exists d :: z.GoalIn(d)
      ensures found ==> exists d: nat :: z.Shortest(d) && length == Marks(z.grid) + d - 1
    {
      Search();
      found, length := endcondition, 0;
      if endcondition {
        ghost var t := fNode.parent.Trail();
        forall k | 0 <= k < |t| ensures z.Inside(t[k]) && maze[t[k].x][t[k].y] == z.At(t[k]) {
          RoadOrStart(z, t, k);
        }
        hide Maze.Walk, Maze.Shortest, Distinct;
        DrawPath(fNode);
        DrawnMarks(z, maze, t);
        length := CountPath(maze);
        assert z.Shortest(fNode.G());
      }
    }
  }

  lemma InsideMaze(z: Maze, queue: seq<Node>, best: map<Cell, nat>, i: nat)
    requires z.Shaped() && Searching(z, queue, best) && i < |queue|
    ensures z.Inside(queue[i].cell) && queue[i].cell in Cells(z) && !z.IsGoal(queue[i].cell)
  {
    var t := queue[i].Trail();
    assert z.Walk(t);
    RoadOrStart(z, t, |t| - 1);
  }

  lemma Started(z: Maze)
    ensures Searching(z, [Root(z.root)], map[])
  {
    var queue := [Root(z.root)];
    assert queue[0].Trail() == [z.root] && queue[0].G() == 0;
  }

  lemma ShortestLeads(z: Maze, d: nat)
    requires z.Shortest(d)
    ensures z.GoalIn(d)
  {
  }

  /** No visited cell is a goal. */
  lemma SearchedCells(z: Maze, queue: seq<Node>, best: map<Cell, nat>)
    requires Searching(z, queue, best)
    ensures forall c :: c in best ==> !z.NextToGoal(c) && !z.IsGoal(c)
  {
  }

  lemma ChildrenFresh(z: Maze, best: map<Cell, nat>, v: Node, more: seq<Node>)
    requires Children(z, best, v, 4, more)
    ensures forall k :: 0 <= k < |more| ==> more[k].cell !in best
  {
  }

  lemma MoreChildren(z: Maze, best: map<Cell, nat>, v: Node, i: nat, more: seq<Node>)
    requires Children(z, best, v, i, more) && i < 4
    requires var c := Side(v.cell, i); z.Inside(c) && z.At(c) == ROAD && c !in best
    ensures Children(z, best, v, i + 1, more + [Child(Side(v.cell, i), v)])
  {
    var c := Side(v.cell, i);
    var next := [Child(c, v)];
    assert next[0].cell == c && next[0].G() == v.G() + 1;
    forall j | 0 <= j < i + 1 && z.Inside(Side(v.cell, j)) && z.At(Side(v.cell, j)) == ROAD && Side(v.cell, j) !in best
      ensures Queues(more + next, Side(v.cell, j), v.G() + 1) {
      QueuesMore(more, next, Side(v.cell, j), v.G() + 1);
    }
  }

  lemma OnlyRootStarts(z: Maze, v: Node)
    requires z.Shaped() && z.Walk(v.Trail()) && z.Inside(v.cell) && z.At(v.cell) == START
    ensures v.Trail()[1..] == []
  {
    var t := v.Trail();
    assert t[|t| - 1] == v.cell;
  }
}
