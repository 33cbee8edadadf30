/** Topological sorting by depth-first search with an explicit stack. */
module TopologicalSort {
  import opened Common

  /** A graph on the nodes 1 to n as the matrix gives it, seen from `source`. */
  datatype Graph = Graph(adj: seq<seq<int>>, source: nat, masked: bool) {
    predicate Valid() {
      && 1 <= source < |adj|
      && forall a :: 0 <= a < |adj| ==> |adj[a]| == |adj|
    }

    predicate Node(a: int) {
      1 <= a < |adj|
    }

    /** An edge from `a` to `b`. The search starts at column `source` of the source's own row, so what it sees of the
        graph lacks the edges from the source to lower nodes: that is the masked graph. */
    predicate Edge(a: int, b: int)
      requires Valid()
    {
      Node(a) && Node(b) && adj[a][b] == 1 && (masked && a == source ==> b >= source)
    }

    ghost predicate Path(p: seq<int>)
      requires Valid()
    {
      |p| > 0 && forall k :: 0 <= k < |p| - 1 ==> Edge(p[k], p[k + 1])
    }

    ghost predicate Leads(p: seq<int>, a: int, b: int)
      requires Valid()
    {
      Path(p) && p[0] == a && p[|p| - 1] == b
    }

    ghost predicate Reachable(b: int)
      requires Valid()
    {
      exists p :: Leads(p, source, b)
    }

    /** Some cycle can be reached from the source. */
    ghost predicate HasCycle()
      requires Valid()
    {
      exists p :: |p| >= 2 && Leads(p, p[0], p[0]) && Reachable(p[0])
    }

    /** Every edge out of a listed node leads to a node listed earlier. */
    ghost predicate Ordered(out: seq<int>)
      requires Valid()
    {
      forall k, b :: 0 <= k < |out| && Edge(out[k], b) ==> b in out[..k]
    }

    /** `out` lists exactly the nodes reachable from the source, once each, every node after its successors. */
    ghost predicate Sorted(out: seq<int>)
      requires Valid()
    {
      && (forall j, k :: 0 <= j < k < |out| ==> out[j] != out[k])
      && (forall a :: a in out <==> Reachable(a))
      && Ordered(out)
    }

    /** The answer that topological sorting promises: none if a cycle can be reached, else a sorted list in the
        places from 1 on of an array filled up with zeros. */
    ghost predicate Answer(r: Option<seq<int>>, out: seq<int>)
      requires Valid()
    {
      match r
      case None => HasCycle()
      case Some(a) => !HasCycle() && Sorted(out) && |a| == |adj| && |out| < |adj| && Filled(a, out)
    }

    function Unmasked(): Graph {
      this.(masked := false)
    }
  }

  ghost predicate Filled(a: seq<int>, out: seq<int>)
    requires |out| < |a|
  {
    a[1..|out| + 1] == out && a[0] == 0 && forall k :: |out| < k < |a| ==> a[k] == 0
  }

  lemma SourceReachable(g: Graph)
    requires g.Valid()
    ensures g.Reachable(g.source)
  {
    assert g.Leads([g.source], g.source, g.source);
  }

  /** A list that is ordered and has the source has everything reachable. */
  lemma {:induction false} OrderedCovers(g: Graph, out: seq<int>, p: seq<int>)
    requires g.Valid() && g.Ordered(out) && g.Path(p) && p[0] in out
    ensures p[|p| - 1] in out
  {
    if |p| > 1 {
      var k :| 0 <= k < |out| && out[k] == p[0];
      assert g.Edge(p[0], p[0 + 1]);
      assert p[1] in out[..k];
      assert g.Path(p[1..]) by {
        forall i | 0 <= i < |p[1..]| - 1
          ensures g.Edge(p[1..][i], p[1..][i + 1])
        {
          assert g.Edge(p[i + 1], p[i + 1 + 1]);
        }
      }
      OrderedCovers(g, out, p[1..]);
    }
  }

  /** Along a path the places in an ordered list go down. */
  lemma {:induction false} OrderedDescends(g: Graph, out: seq<int>, p: seq<int>, k: nat, m: nat)
    requires g.Valid() && g.Ordered(out) && g.Path(p) && k < |out| && out[k] == p[0] && 1 <= m < |p|
    ensures p[m] in out[..k]
  {
    if m == 1 {
      assert g.Edge(p[0], p[0 + 1]);
    } else {
      OrderedDescends(g, out, p, k, m - 1);
      var i :| 0 <= i < k && out[..k][i] == p[m - 1];
      assert g.Edge(p[m - 1], p[m - 1 + 1]);
      assert p[m] in out[..i];
    }
  }

  /** When the search has finished everything the source leads to, there is no cycle. */
  lemma SearchComplete(g: Graph, out: seq<int>)
    requires g.Valid() && g.Ordered(out) && g.source in out
    requires forall j, k :: 0 <= j < k < |out| ==> out[j] != out[k]
    requires forall a :: a in out ==> g.Reachable(a)
    ensures g.Sorted(out) && !g.HasCycle()
  {
    forall a | g.Reachable(a)
      ensures a in out
    {
      var p :| g.Leads(p, g.source, a);
      OrderedCovers(g, out, p);
    }
    forall p | |p| >= 2 && g.Leads(p, p[0], p[0]) && g.Reachable(p[0])
      ensures false
    {
      var k :| 0 <= k < |out| && out[k] == p[0];
      OrderedDescends(g, out, p, k, |p| - 1);
    }
  }

  // ----- the search -----

  /** The state of the search: the nodes on the stack, from the source up, form a path; finished nodes are listed after all
      their successors; of each node on the stack the successors before the column reached are finished. */
  ghost predicate Searching(g: Graph, stack: seq<int>, out: seq<int>, i: int)
    requires g.Valid()
  {
    && (forall k :: 0 <= k < |stack| ==> g.Node(stack[k]))
    && (|stack| > 0 ==> stack[0] == g.source)
    && (forall k :: 0 <= k < |stack| - 1 ==> g.Edge(stack[k], stack[k + 1]))
    && (forall j, k :: 0 <= j < k < |stack| ==> stack[j] != stack[k])
    && (forall j, k :: 0 <= j < k < |out| ==> out[j] != out[k])
    && (forall a :: a in stack ==> a !in out)
    && (forall a :: a in out ==> g.Reachable(a))
    && g.Ordered(out)
    && (forall k, b :: 0 <= k < |stack| && b < Column(stack, k, i) && g.Edge(stack[k], b) ==> b in out)
  }

  /** The column that the scan of row `stack[k]` has reached. */
  function Column(stack: seq<int>, k: nat, i: int): int {
    if k + 1 < |stack| then stack[k + 1] else i
  }

  lemma StackReachable(g: Graph, stack: seq<int>, out: seq<int>, i: int, k: nat)
    requires g.Valid() && Searching(g, stack, out, i) && k < |stack|
    ensures g.Reachable(stack[k])
  {
    assert g.Leads(stack[..k + 1], g.source, stack[k]);
  }

  /** An edge from the top of the stack back into the stack closes a cycle. */
  lemma BackEdge(g: Graph, stack: seq<int>, out: seq<int>, i: int)
    requires g.Valid() && Searching(g, stack, out, i) && stack != [] && g.Edge(stack[|stack| - 1], i) && i in stack
    ensures g.HasCycle()
  {
    var k :| 0 <= k < |stack| && stack[k] == i;
    StackReachable(g, stack, out, i, k);
    var p := stack[k..] + [i];
    assert g.Leads(p, p[0], p[0]);
    assert |p| >= 2 && g.Reachable(p[0]);
  }

  lemma Scanned(g: Graph, stack: seq<int>, out: seq<int>, i: int)
    requires g.Valid() && Searching(g, stack, out, i) && stack != []
    requires g.Edge(stack[|stack| - 1], i) ==> i in out
    ensures Searching(g, stack, out, i + 1)
  {
  }

  lemma Pushed(g: Graph, stack: seq<int>, out: seq<int>, i: int)
    requires g.Valid() && Searching(g, stack, out, i) && stack != []
    requires g.Edge(stack[|stack| - 1], i) && i !in stack && i !in out
    ensures Searching(g, stack + [i], out, 1)
  {
    hide Graph.Ordered, Graph.Reachable;
    var stack' := stack + [i];
    forall k | 0 <= k < |stack'| - 1 ensures g.Edge(stack'[k], stack'[k + 1]) {
      if k < |stack| - 1 { assert g.Edge(stack[k], stack[k + 1]); }
    }
    forall k, b | 0 <= k < |stack'| && b < Column(stack', k, 1) && g.Edge(stack'[k], b) ensures b in out {
      if k < |stack| { assert Column(stack', k, 1) == Column(stack, k, i); }
    }
    forall j, k | 0 <= j < k < |stack'| ensures stack'[j] != stack'[k] {
      if k == |stack| { assert stack[j] in stack; }
    }
  }

  lemma Popped(g: Graph, stack: seq<int>, out: seq<int>, i: int)
    requires g.Valid() && Searching(g, stack, out, i) && stack != [] && i >= |g.adj|
    ensures var j := stack[|stack| - 1]; Searching(g, stack[..|stack| - 1], out + [j], j + 1)
  {
    var j := stack[|stack| - 1];
    StackReachable(g, stack, out, i, |stack| - 1);
    assert j in stack;
    forall b | g.Edge(j, b)
      ensures b in out
    {
      assert b < Column(stack, |stack| - 1, i);
    }
    OrderedAppend(g, out, j);
    PoppedColumns(g, stack, out, i);
    PoppedDistinct(stack, out);
    hide Graph.Ordered, Graph.Reachable, Column;
    var rest := stack[..|stack| - 1];
    assert forall k :: 0 <= k < |rest| ==> rest[k] == stack[k];
    forall k | 0 <= k < |rest| - 1
      ensures g.Edge(rest[k], rest[k + 1])
    {
      assert g.Edge(stack[k], stack[k + 1]);
    }
  }

  lemma PoppedDistinct(stack: seq<int>, out: seq<int>)
    requires stack != []
    requires forall j, k :: 0 <= j < k < |stack| ==> stack[j] != stack[k]
    requires forall j, k :: 0 <= j < k < |out| ==> out[j] != out[k]
    requires forall a :: a in stack ==> a !in out
    ensures var rest, out' := stack[..|stack| - 1], out + [stack[|stack| - 1]];
            && (forall j, k :: 0 <= j < k < |rest| ==> rest[j] != rest[k])
            && (forall j, k :: 0 <= j < k < |out'| ==> out'[j] != out'[k])
            && (forall a :: a in rest ==> a !in out')
  {
    assert stack[|stack| - 1] in stack;
    forall j | 0 <= j < |out|
      ensures out[j] != stack[|stack| - 1]
    {
      assert out[j] in out;
    }
  }

  lemma PoppedColumns(g: Graph, stack: seq<int>, out: seq<int>, i: int)
    requires g.Valid() && Searching(g, stack, out, i) && stack != []
    ensures var j, rest := stack[|stack| - 1], stack[..|stack| - 1];
            forall k, b :: 0 <= k < |rest| && b < Column(rest, k, j + 1) && g.Edge(rest[k], b) ==> b in out + [j]
  {
    var j, rest := stack[|stack| - 1], stack[..|stack| - 1];
    forall k, b | 0 <= k < |rest| && b < Column(rest, k, j + 1) && g.Edge(rest[k], b)
      ensures b in out + [j]
    {
      assert b == j || b < Column(stack, k, i);
    }
  }

  lemma OrderedAppend(g: Graph, out: seq<int>, j: int)
    requires g.Valid() && g.Ordered(out) && forall b :: g.Edge(j, b) ==> b in out
    ensures g.Ordered(out + [j])
  {
    var out' := out + [j];
    forall k, b | 0 <= k < |out'| && g.Edge(out'[k], b)
      ensures b in out'[..k]
    {
      assert out'[..k] == if k < |out| then out[..k] else out;
    }
  }

  lemma Started(g: Graph)
    requires g.Valid() && g.masked
    ensures Searching(g, [g.source], [], g.source)
  {
  }

  /** Distinct nodes are at most as many as there are nodes. */
  lemma {:induction false} AtMostNodes(s: seq<int>, n: nat)
    requires forall k :: 0 <= k < |s| ==> 1 <= s[k] <= n
    requires forall j, k :: 0 <= j < k < |s| ==> s[j] != s[k]
    ensures |s| <= n
  {
    if s != [] {
      assert 1 <= s[0] <= n;
      if n in s {
        var k :| 0 <= k < |s| && s[k] == n;
        AtMostNodes(s[..k] + s[k + 1..], n - 1);
      } else {
        AtMostNodes(s, n - 1);
      }
    }
  }

  lemma SearchFits(g: Graph, stack: seq<int>, out: seq<int>, i: int)
    requires g.Valid() && Searching(g, stack, out, i)
    ensures |stack| + |out| < |g.adj|
  {
    forall k | 0 <= k < |out|
      ensures g.Node(out[k])
    {
      assert out[k] in out;
      var p :| g.Leads(p, g.source, out[k]);
      if |p| > 1 {
        assert g.Edge(p[|p| - 2], p[|p| - 2 + 1]);
      }
    }
    forall k, j | 0 <= k < |stack| && 0 <= j < |out|
      ensures stack[k] != out[j]
    {
      assert stack[k] in stack && out[j] in out;
    }
    AtMostNodes(stack + out, |g.adj| - 1);
  }

  class TopologicalSort {
    var stack: seq<int>

    constructor ()
      ensures stack == []
    {
      stack := [];
    }

    /** Sorts the nodes that `source` leads to, or finds that it leads to a cycle; then the stack is left as it is. */
    method Topological(adj: seq<seq<int>>, source: int) returns (r: Option<seq<int>>, ghost out: seq<int>)
      requires stack == [] && 1 <= source && Graph(adj, source, true).Valid()
      modifies this
      ensures Graph(adj, source, true).Answer(r, out)
      ensures r.Some? ==> stack == [] && |out| > 0 && out[|out| - 1] == source
      ensures r.None? ==> stack != []
    {
      hide Searching, Marks, Filled, Graph.HasCycle, Graph.Sorted, Graph.Reachable, Graph.Path, Graph.Ordered, Column;
      ghost var g := Graph(adj, source, true);
      assert g.Valid() && |adj[source]| == |adj|;
      var n := |adj[source]| - 1;
      var topologicalSort := new int[n + 1](_ => 0);
      var pos := 1;
      var visited := new int[n + 1](_ => 0);
      var element, i := source, source;
      visited[source] := 1;
      stack := stack + [source];
      out := [];
      Started(g);
      assert stack == [source];
      FirstMark(visited[..], topologicalSort[..], source);
      while stack != []
        invariant Searching(g, stack, out, i) && 1 <= i <= n + 1 && |out| <= n
        invariant Marks(visited[..], stack, out) && pos == |out| + 1 && Filled(topologicalSort[..], out)
        invariant stack != [] ==> stack[0] == source
        invariant |stack| == 1 ==> i >= source
        invariant stack == [] ==> |out| > 0 && out[|out| - 1] == source
        decreases n - |out|
      {
        element := stack[|stack| - 1];
        while i <= n
          invariant Searching(g, stack, out, i) && 1 <= i <= n + 1
          invariant stack != [] && stack[0] == source && element == stack[|stack| - 1]
          invariant |stack| == 1 ==> i >= source
          invariant Marks(visited[..], stack, out) && Filled(topologicalSort[..], out)
          decreases n - |stack| - |out|, n + 1 - i
        {
          SearchFits(g, stack, out, i);
          TopFacts(g, stack, out, i);
          MarkAt(visited[..], stack, out, i);
          if adj[element][i] == 1 && visited[i] == 1 {
            if i in stack {
              BackEdge(g, stack, out, i);
              return None, out;
            }
          }
          if adj[element][i] == 1 && visited[i] == 0 {
            Pushed(g, stack, out, i);
            MarksPushed(visited[..], stack, out, i);
            stack := stack + [i];
            visited[i] := 1;
            SearchFits(g, stack, out, 1);
            element := i;
            i := 1;
            continue;
          }
          Scanned(g, stack, out, i);
          i := i + 1;
        }
        SearchFits(g, stack, out, i);
        TopFacts(g, stack, out, i);
        Popped(g, stack, out, i);
        var j := stack[|stack| - 1];
        assert stack == stack[..|stack| - 1] + [j];
        stack := stack[..|stack| - 1];
        MarksPopped(visited[..], stack, out, j);
        ghost var before := topologicalSort[..];
        topologicalSort[pos] := j;
        FilledNext(before, out, j);
        assert topologicalSort[..] == before[pos := j];
        out := out + [j];
        pos := pos + 1;
        i := j + 1;
        SearchFits(g, stack, out, i);
      }
      SearchDone(g, out, i);
      r := Some(topologicalSort[..]);
    }
  }

  /** The visited nodes are those on the stack and the finished ones. */
  ghost predicate Marks(visited: seq<int>, stack: seq<int>, out: seq<int>) {
    forall a :: 0 <= a < |visited| ==> visited[a] == if a in stack || a in out then 1 else 0
  }

  lemma FirstMark(visited: seq<int>, a: seq<int>, source: int)
    requires 0 <= source < |visited| && visited[source] == 1 && |a| > 0
    requires forall k :: 0 <= k < |visited| && k != source ==> visited[k] == 0
    requires forall k :: 0 <= k < |a| ==> a[k] == 0
    ensures Marks(visited, [source], []) && Filled(a, [])
  {
  }

  lemma MarkAt(visited: seq<int>, stack: seq<int>, out: seq<int>, i: int)
    requires Marks(visited, stack, out) && 0 <= i < |visited|
    ensures visited[i] == if i in stack || i in out then 1 else 0
  {
  }

  lemma MarksPushed(visited: seq<int>, stack: seq<int>, out: seq<int>, i: int)
    requires Marks(visited, stack, out) && 0 <= i < |visited|
    ensures Marks(visited[i := 1], stack + [i], out)
  {
  }

  lemma MarksPopped(visited: seq<int>, stack: seq<int>, out: seq<int>, j: int)
    requires Marks(visited, stack + [j], out)
    ensures Marks(visited, stack, out + [j])
  {
    assert forall a :: a in stack + [j] <==> a in stack || a == j;
  }

  lemma FilledNext(a: seq<int>, out: seq<int>, j: int)
    requires |out| + 1 < |a| && Filled(a, out)
    ensures Filled(a[|out| + 1 := j], out + [j])
  {
  }

  lemma TopFacts(g: Graph, stack: seq<int>, out: seq<int>, i: int)
    requires g.Valid() && Searching(g, stack, out, i) && stack != []
    ensures var t := stack[|stack| - 1];
            g.Node(t) && stack[0] == g.source && (|stack| > 1 ==> t != g.source)
            && (|stack| == 2 ==> g.Edge(g.source, t))
  {
    assert |stack| > 1 ==> g.Edge(stack[|stack| - 2], stack[|stack| - 2 + 1]);
  }

  lemma SearchDone(g: Graph, out: seq<int>, i: int)
    requires g.Valid() && Searching(g, [], out, i) && g.source in out
    ensures g.Sorted(out) && !g.HasCycle()
  {
    SearchComplete(g, out);
  }

  // ----- sources other than node 1 -----

  lemma EdgeUnmasked(g: Graph, p: seq<int>)
    requires g.Valid() && g.masked && g.Path(p)
    ensures g.Unmasked().Path(p)
  {
    forall k | 0 <= k < |p| - 1
      ensures g.Unmasked().Edge(p[k], p[k + 1])
    {
      assert g.Edge(p[k], p[k + 1]);
    }
  }

  lemma ReachableUnmasked(g: Graph, b: int)
    requires g.Valid() && g.masked && g.Reachable(b)
    ensures g.Unmasked().Reachable(b)
  {
    var p :| g.Leads(p, g.source, b);
    EdgeUnmasked(g, p);
    assert g.Unmasked().Leads(p, g.source, b);
  }

  /** Every edge from the source to a lower node leads to a node that the source reaches without such edges. */
  ghost predicate LowerEdgesCovered(g: Graph)
    requires g.Valid()
  {
    forall b :: g.Unmasked().Edge(g.source, b) && b < g.source ==> g.Reachable(b)
  }

  /** For source 1 no edge is skipped: the answer is right for the whole graph. */
  lemma SourceOne(g: Graph)
    requires g.Valid() && g.masked && g.source == 1
    ensures LowerEdgesCovered(g)
  {
  }

  /** The answer found on the masked graph is right for the whole graph exactly if it is that a cycle can be reached or
      the skipped edges lead to nothing new. */
  lemma RightIffCovered(g: Graph, r: Option<seq<int>>, out: seq<int>)
    requires g.Valid() && g.masked && g.Answer(r, out) && (r.Some? ==> |out| > 0 && out[|out| - 1] == g.source)
    ensures g.Unmasked().Answer(r, out) <==> g.HasCycle() || LowerEdgesCovered(g)
  {
    var h := g.Unmasked();
    if g.HasCycle() {
      var p :| |p| >= 2 && g.Leads(p, p[0], p[0]) && g.Reachable(p[0]);
      EdgeUnmasked(g, p);
      ReachableUnmasked(g, p[0]);
      assert h.Leads(p, p[0], p[0]);
    } else if LowerEdgesCovered(g) {
      assert h.Ordered(out) by {
        forall k, b | 0 <= k < |out| && h.Edge(out[k], b)
          ensures b in out[..k]
        {
          if !g.Edge(out[k], b) {
            assert b in out;
            assert out[k] == g.source;
          }
        }
      }
      forall a | a in out
        ensures h.Reachable(a)
      {
        ReachableUnmasked(g, a);
      }
      SearchComplete(h, out);
    } else {
      var b :| h.Edge(g.source, b) && b < g.source && !g.Reachable(b);
      assert h.Leads([g.source, b], g.source, b);
      assert h.Reachable(b);
    }
  }

  lemma NoEdgeNoPath(g: Graph, p: seq<int>)
    requires g.Valid() && forall a, b :: !g.Edge(a, b)
    ensures |p| >= 2 ==> !g.Path(p)
  {
    if |p| >= 2 && g.Path(p) {
      FirstEdge(g, p);
    }
  }

  lemma FirstEdge(g: Graph, p: seq<int>)
    requires g.Valid() && |p| >= 2 && g.Path(p)
    ensures g.Edge(p[0], p[1])
  {
    assert g.Edge(p[0], p[0 + 1]);
  }

  /** Node 2 with one edge to node 1, sorted from 2: the answer lists node 2 alone. */
  lemma LowerNodeMissed()
    ensures var g := Graph([[0, 0, 0], [0, 0, 0], [0, 1, 0]], 2, true);
            g.Valid() && g.Answer(Some([0, 2, 0]), [2]) && !g.Unmasked().Answer(Some([0, 2, 0]), [2])
  {
    var g := Graph([[0, 0, 0], [0, 0, 0], [0, 1, 0]], 2, true);
    assert g.Valid();
    assert forall a, b :: !g.Edge(a, b);
    SourceReachable(g);
    SearchComplete(g, [2]);
    assert g.Answer(Some([0, 2, 0]), [2]);
    assert !LowerEdgesCovered(g) by {
      assert g.Unmasked().Edge(2, 1);
      forall p
        ensures !g.Leads(p, 2, 1)
      {
        NoEdgeNoPath(g, p);
      }
    }
    RightIffCovered(g, Some([0, 2, 0]), [2]);
  }
}
