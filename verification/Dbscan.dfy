/** Density-based clustering: every point gets a cluster or is noise. */
module Dbscan {
  const UNDEFINED := -10000
  const NOISE := -9999

  /** The points are 0 to n-1; `near(p, q)` says that q lies within Eps of p. */
  datatype Space = Space(n: nat, near: (nat, nat) -> bool, minPts: int) {
    ghost predicate Symmetric() {
      forall p: nat, q: nat :: p < n && q < n && near(p, q) ==> near(q, p)
    }

    function Neighbours(p: nat): set<nat> {
      set q: nat | q < n && near(p, q)
    }

    predicate Core(p: nat) {
      p < n && |Neighbours(p)| >= minPts
    }
  }

  /** A point with exactly as many points within Eps as asked for, itself among them if it is near itself, is a core point; with one
      fewer it is not. */
  lemma JustEnough(s: Space, p: nat, some: set<nat>)
    requires p < s.n && forall q: nat :: q in some <==> q < s.n && s.near(p, q)
    ensures |some| == s.minPts ==> s.Core(p)
    ensures |some| == s.minPts - 1 ==> !s.Core(p)
  {
    assert some == s.Neighbours(p);
  }

  // ----- chains of core points -----

  /** A sequence of core points, each within Eps of the next. */
  ghost predicate Chain(s: Space, path: seq<nat>) {
    && |path| > 0
    && (forall i :: 0 <= i < |path| ==> s.Core(path[i]))
    && (forall i :: 0 <= i < |path| - 1 ==> s.near(path[i], path[i + 1]))
  }

  /** A chain of core points leads from `p` to `q`. */
  ghost predicate Connected(s: Space, p: nat, q: nat) {
    exists path :: Chain(s, path) && path[0] == p && path[|path| - 1] == q
  }

  lemma ConnectedItself(s: Space, p: nat)
    requires s.Core(p)
    ensures Connected(s, p, p)
  {
    assert Chain(s, [p]);
  }

  lemma ConnectedFurther(s: Space, p: nat, q: nat, r: nat)
    requires Connected(s, p, q) && s.Core(r) && s.near(q, r)
    ensures Connected(s, p, r)
  {
    var path :| Chain(s, path) && path[0] == p && path[|path| - 1] == q;
    assert Chain(s, path + [r]);
    assert (path + [r])[0] == p && (path + [r])[|path|] == r;
  }

  lemma ConnectedSymmetric(s: Space, p: nat, q: nat)
    requires s.Symmetric() && Connected(s, p, q)
    ensures Connected(s, q, p)
  {
    var path :| Chain(s, path) && path[0] == p && path[|path| - 1] == q;
    var back := seq(|path|, i requires 0 <= i < |path| => path[|path| - 1 - i]);
    forall i | 0 <= i < |back| - 1
      ensures s.near(back[i], back[i + 1])
    {
      assert s.near(path[|path| - 2 - i], path[|path| - 2 - i + 1]);
    }
    assert Chain(s, back);
    assert back[0] == q && back[|back| - 1] == p;
  }

  lemma ConnectedTransitive(s: Space, p: nat, q: nat, r: nat)
    requires Connected(s, p, q) && Connected(s, q, r)
    ensures Connected(s, p, r)
  {
    var a :| Chain(s, a) && a[0] == p && a[|a| - 1] == q;
    var b :| Chain(s, b) && b[0] == q && b[|b| - 1] == r;
    var c := a + b[1..];
    forall i | 0 <= i < |c| - 1
      ensures s.near(c[i], c[i + 1])
    {
      if i >= |a| - 1 {
        assert c[i] == b[i - |a| + 1] && c[i + 1] == b[i - |a| + 2];
        assert s.near(b[i - |a| + 1], b[i - |a| + 1 + 1]);
      }
    }
    assert Chain(s, c);
    assert c[0] == p && c[|c| - 1] == r;
  }

  // ----- labellings -----

  /** The labelling that the algorithm promises. */
  ghost predicate Clustering(s: Space, labels: seq<int>) {
    && |labels| == s.n
    && (forall p :: 0 <= p < s.n ==> labels[p] != UNDEFINED)
    && (forall p, q :: 0 <= p < s.n && 0 <= q < s.n && s.Core(p) && s.Core(q) ==>
          (labels[p] == labels[q] <==> Connected(s, p, q)))
    && (forall p :: 0 <= p < s.n ==>
          (labels[p] == NOISE <==> !s.Core(p) && forall q: nat :: s.Core(q) ==> !s.near(q, p)))
    && (forall p :: 0 <= p < s.n && !s.Core(p) && labels[p] != NOISE ==>
          exists q: nat :: s.Core(q) && s.near(q, p) && labels[q] == labels[p])
  }

  predicate InCluster(l: int) {
    l != UNDEFINED && l != NOISE
  }

  /** `root[c]` is the core point from which cluster c + 1 was grown. */
  ghost predicate Labelled(s: Space, labels: seq<int>, root: seq<nat>) {
    && |labels| == s.n
    && (forall p :: 0 <= p < s.n && InCluster(labels[p]) ==> 1 <= labels[p] <= |root|)
    && (forall p :: 0 <= p < s.n && s.Core(p) ==> labels[p] != NOISE)
    && (forall p :: 0 <= p < s.n && s.Core(p) && InCluster(labels[p]) ==> Connected(s, root[labels[p] - 1], p))
    && (forall p :: 0 <= p < s.n && InCluster(labels[p]) && !s.Core(p) ==> Reached(s, labels, p, labels[p]))
  }

  /** Some core point of cluster `c` lies within Eps of `p`. */
  ghost predicate Reached(s: Space, labels: seq<int>, p: nat, c: int) {
    exists q: nat :: q < s.n && q < |labels| && s.Core(q) && s.near(q, p) && labels[q] == c
  }

  /** Around a core point with a label everything is in a cluster, the core points in the same one; the points waiting
      in `queue` are exempt around core points of cluster `c`. */
  ghost predicate Closed(s: Space, labels: seq<int>, c: int, queue: seq<nat>)
    requires |labels| == s.n
  {
    forall p: nat, q: nat :: p < s.n && q < s.n && s.Core(p) && s.near(p, q) && InCluster(labels[p]) ==>
      (labels[p] == c && q in queue) || (InCluster(labels[q]) && (s.Core(q) ==> labels[q] == labels[p]))
  }

  /** Along a chain all core points have one label. */
  lemma {:induction false} ChainLabel(s: Space, labels: seq<int>, path: seq<nat>, k: nat)
    requires |labels| == s.n && Closed(s, labels, 0, []) && Chain(s, path) && k < |path|
    requires InCluster(labels[path[0]])
    ensures labels[path[k]] == labels[path[0]]
  {
    if k > 0 {
      ChainLabel(s, labels, path, k - 1);
      assert s.near(path[k - 1], path[k - 1 + 1]);
    }
  }

  /** Two core points share a label exactly if a chain joins them. */
  lemma SameClusterIff(s: Space, labels: seq<int>, root: seq<nat>, p: nat, q: nat)
    requires s.Symmetric() && Labelled(s, labels, root) && Closed(s, labels, 0, [])
    requires s.Core(p) && s.Core(q) && labels[p] != UNDEFINED && labels[q] != UNDEFINED
    ensures labels[p] == labels[q] <==> Connected(s, p, q)
  {
    hide Connected, Closed;
    assert InCluster(labels[p]) && InCluster(labels[q]);
    if labels[p] == labels[q] {
      ConnectedSymmetric(s, root[labels[p] - 1], p);
      ConnectedTransitive(s, p, root[labels[p] - 1], q);
    }
    if Connected(s, p, q) {
      ConnectedLabel(s, labels, p, q);
    }
  }

  lemma ConnectedLabel(s: Space, labels: seq<int>, p: nat, q: nat)
    requires |labels| == s.n && Closed(s, labels, 0, []) && p < s.n && q < s.n && Connected(s, p, q) && InCluster(labels[p])
    ensures labels[q] == labels[p]
  {
    var path :| Chain(s, path) && path[0] == p && path[|path| - 1] == q;
    ChainLabel(s, labels, path, |path| - 1);
  }

  lemma NoiseIff(s: Space, labels: seq<int>, root: seq<nat>, p: nat)
    requires s.Symmetric() && Labelled(s, labels, root) && Closed(s, labels, 0, []) && p < s.n
    requires forall q :: 0 <= q < s.n ==> labels[q] != UNDEFINED
    ensures labels[p] == NOISE <==> !s.Core(p) && forall q: nat :: s.Core(q) ==> !s.near(q, p)
    ensures !s.Core(p) && labels[p] != NOISE ==> Reached(s, labels, p, labels[p])
  {
    hide Connected;
  }

  /** When every point has a label, the labelling is the clustering promised. */
  lemma Finished(s: Space, labels: seq<int>, root: seq<nat>)
    requires s.Symmetric() && Labelled(s, labels, root) && Closed(s, labels, 0, [])
    requires forall p :: 0 <= p < s.n ==> labels[p] != UNDEFINED
    ensures Clustering(s, labels)
  {
    hide Connected;
    forall p: nat, q: nat | p < s.n && q < s.n && s.Core(p) && s.Core(q)
      ensures labels[p] == labels[q] <==> Connected(s, p, q)
    {
      SameClusterIff(s, labels, root, p, q);
    }
    assert |labels| == s.n;
    hide Labelled, Closed;
    forall p: nat | p < s.n
      ensures labels[p] == NOISE <==> !s.Core(p) && forall q: nat :: s.Core(q) ==> !s.near(q, p)
      ensures !s.Core(p) && labels[p] != NOISE ==> exists q: nat :: s.Core(q) && s.near(q, p) && labels[q] == labels[p]
    {
      NoiseIff(s, labels, root, p);
    }
  }

  // ----- one step of the expansion -----

  /** Every point waiting in the queue lies within Eps of a core point of cluster `c`. */
  ghost predicate Waiting(s: Space, labels: seq<int>, c: int, queue: seq<nat>) {
    forall i :: 0 <= i < |queue| ==> queue[i] < s.n && Reached(s, labels, queue[i], c)
  }

  lemma WaitingKept(s: Space, labels: seq<int>, c: int, queue: seq<nat>, q: nat)
    requires |labels| == s.n && q < s.n && Waiting(s, labels, c, queue) && labels[q] != c
    ensures Waiting(s, labels[q := c], c, queue)
  {
    forall i | 0 <= i < |queue|
      ensures Reached(s, labels[q := c], queue[i], c)
    {
      assert Reached(s, labels, queue[i], c);
      var r: nat :| r < s.n && s.Core(r) && s.near(r, queue[i]) && labels[r] == c;
      assert labels[q := c][r] == c;
    }
  }

  /** A point that is in a cluster already can leave the queue. */
  lemma AlreadyThere(s: Space, labels: seq<int>, c: int, q: nat, queue: seq<nat>)
    requires |labels| == s.n && s.Symmetric() && Closed(s, labels, c, [q] + queue) && q < s.n && InCluster(labels[q])
    ensures Closed(s, labels, c, queue)
  {
    forall p: nat, r: nat | p < s.n && r < s.n && s.Core(p) && s.near(p, r) && InCluster(labels[p])
      ensures (labels[p] == c && r in queue) || (InCluster(labels[r]) && (s.Core(r) ==> labels[r] == labels[p]))
    {
      if r == q && s.Core(q) {
        assert s.near(q, p);
      }
    }
  }

  /** A point without a cluster that is in reach of cluster `c` takes its label. */
  lemma LabelledMore(s: Space, labels: seq<int>, root: seq<nat>, c: int, q: nat)
    requires Labelled(s, labels, root) && c == |root| && c >= 1 && q < s.n && !InCluster(labels[q])
    requires if s.Core(q) then Connected(s, root[c - 1], q) else Reached(s, labels, q, c)
    ensures Labelled(s, labels[q := c], root)
  {
    hide Connected;
    var labels' := labels[q := c];
    forall p | 0 <= p < s.n && InCluster(labels'[p]) && !s.Core(p)
      ensures Reached(s, labels', p, labels'[p])
    {
      ReachedKept(s, labels, p, labels'[p], q, c);
    }
    hide Reached;
  }

  /** A border point joins the cluster. */
  lemma BorderJoins(s: Space, labels: seq<int>, root: seq<nat>, c: int, q: nat, queue: seq<nat>)
    requires s.Symmetric() && Labelled(s, labels, root) && c == |root| && c >= 1
    requires Closed(s, labels, c, [q] + queue) && q < s.n && !s.Core(q) && !InCluster(labels[q])
    requires Reached(s, labels, q, c)
    ensures Labelled(s, labels[q := c], root) && Closed(s, labels[q := c], c, queue)
  {
    LabelledMore(s, labels, root, c, q);
    assert |labels| == s.n;
    hide Labelled, Reached;
    var labels' := labels[q := c];
    forall p: nat, r: nat | p < s.n && r < s.n && s.Core(p) && s.near(p, r) && InCluster(labels'[p])
      ensures (labels'[p] == c && r in queue) || (InCluster(labels'[r]) && (s.Core(r) ==> labels'[r] == labels'[p]))
    {
      assert InCluster(labels[p]);
    }
  }

  lemma ReachedKept(s: Space, labels: seq<int>, p: nat, l: int, q: nat, c: int)
    requires |labels| == s.n && q < s.n && !InCluster(labels[q]) && InCluster(l) && Reached(s, labels, p, l)
    ensures Reached(s, labels[q := c], p, l)
  {
    var r: nat :| r < s.n && s.Core(r) && s.near(r, p) && labels[r] == l;
    assert labels[q := c][r] == l;
  }

  /** A core point joins the cluster and puts its neighbours into the queue. */
  lemma CoreJoins(s: Space, labels: seq<int>, root: seq<nat>, c: int, q: nat, queue: seq<nat>, more: seq<nat>)
    requires s.Symmetric() && |labels| == s.n && Labelled(s, labels, root) && c == |root| && c >= 1
    requires Closed(s, labels, c, [q] + queue) && q < s.n && s.Core(q) && labels[q] == UNDEFINED
    requires Connected(s, root[c - 1], q)
    requires forall r: nat :: r < s.n && s.near(q, r) ==> r in more || r == q
    ensures Labelled(s, labels[q := c], root) && Closed(s, labels[q := c], c, queue + more)
  {
    LabelledMore(s, labels, root, c, q);
    hide Connected, Labelled, Reached;
    var labels' := labels[q := c];
    forall p: nat, r: nat | p < s.n && r < s.n && s.Core(p) && s.near(p, r) && InCluster(labels'[p])
      ensures (labels'[p] == c && r in queue + more) || (InCluster(labels'[r]) && (s.Core(r) ==> labels'[r] == labels'[p]))
    {
      if p != q && r == q {
        assert labels[p] == c;
      }
    }
  }

  /** The point is not only near the cluster but in reach of its root. */
  lemma ReachedConnected(s: Space, labels: seq<int>, root: seq<nat>, c: int, q: nat)
    requires Labelled(s, labels, root) && 1 <= c <= |root| && q < s.n && s.Core(q) && Reached(s, labels, q, c)
    ensures Connected(s, root[c - 1], q)
  {
    hide Connected;
    var r: nat :| r < s.n && r < |labels| && s.Core(r) && s.near(r, q) && labels[r] == c;
    ConnectedFurther(s, root[c - 1], r, q);
  }

  lemma WaitingMore(s: Space, labels: seq<int>, c: int, q: nat, queue: seq<nat>, more: seq<nat>)
    requires |labels| == s.n && Waiting(s, labels, c, queue) && q < s.n && s.Core(q) && labels[q] == c
    requires forall r: nat :: r in more ==> r in s.Neighbours(q)
    ensures Waiting(s, labels, c, queue + more)
  {
    forall i | 0 <= i < |more|
      ensures more[i] < s.n && Reached(s, labels, more[i], c)
    {
      assert more[i] in more;
    }
  }

  /** The points without a label. */
  function Undefined(labels: seq<int>): (n: nat)
  {
    if labels == [] then 0 else Undefined(labels[..|labels| - 1]) + if labels[|labels| - 1] == UNDEFINED then 1 else 0
  }

  lemma {:induction false} UndefinedLess(labels: seq<int>, q: nat, c: int)
    requires q < |labels| && c != UNDEFINED
    ensures labels[q] == UNDEFINED ==> Undefined(labels[q := c]) == Undefined(labels) - 1
    ensures labels[q] != UNDEFINED ==> Undefined(labels[q := c]) == Undefined(labels)
  {
    var n := |labels| - 1;
    if q < n {
      UndefinedLess(labels[..n], q, c);
      assert labels[q := c][..n] == labels[..n][q := c];
    } else {
      assert labels[q := c][..n] == labels[..n];
    }
  }

  // ----- the algorithm -----

  class DBSCAN {
    const s: Space
    const labels: array<int>
    var cnum: int

    constructor (s: Space)
      ensures this.s == s && labels.Length == s.n && fresh(labels)
      ensures forall p :: 0 <= p < s.n ==> labels[p] == UNDEFINED
    {
      this.s := s;
      labels := new int[s.n](_ => UNDEFINED);
      cnum := 0;
    }

    /** All points within Eps of `p`. */
    method RangeQuery(p: nat) returns (ret: set<nat>)
      ensures ret == s.Neighbours(p)
    {
      ret := {};
      for q := 0 to s.n
        invariant forall r: nat :: r in ret <==> r < q && s.near(p, r)
      {
        if s.near(p, q) {
          ret := ret + {q};
        }
      }
    }

    /** The members of a set in some order, `skip` left out. */
    method Enumerate(points: set<nat>, skip: int) returns (order: seq<nat>)
      ensures forall q: nat :: q in order <==> q in points && q != skip
    {
      order := [];
      var rest := points;
      while rest != {}
        invariant rest <= points
        invariant forall q: nat :: q in order <==> q in points && q !in rest && q != skip
        decreases rest
      {
        var q :| q in rest;
        if q != skip {
          order := order + [q];
        }
        rest := rest - {q};
      }
    }

    /** Takes the points from the queue one by one and lets them join cluster `cnum`. */
    method Expand(seedSet: seq<nat>, ghost root: seq<nat>)
      requires s.Symmetric() && labels.Length == s.n && cnum == |root| && cnum >= 1
      requires Labelled(s, labels[..], root) && Closed(s, labels[..], cnum, seedSet)
      requires Waiting(s, labels[..], cnum, seedSet)
      modifies labels
      ensures Labelled(s, labels[..], root) && Closed(s, labels[..], cnum, [])
      ensures forall p :: 0 <= p < s.n && old(labels[p]) != UNDEFINED ==> labels[p] != UNDEFINED
    {
      hide Connected, Labelled, Closed, Waiting, Reached;
      var queue := seedSet;
      while queue != []
        invariant Labelled(s, labels[..], root) && Closed(s, labels[..], cnum, queue)
        invariant Waiting(s, labels[..], cnum, queue)
        invariant forall p :: 0 <= p < s.n && old(labels[p]) != UNDEFINED ==> labels[p] != UNDEFINED
        decreases Undefined(labels[..]), |queue|
      {
        var q := queue[0];
        ghost var now := labels[..];
        WaitingFirst(s, now, cnum, queue);
        assert queue == [q] + queue[1..];
        queue := queue[1..];
        UndefinedLess(now, q, cnum);
        if labels[q] == NOISE {
          NoiseIsBorder(s, now, root, q);
          labels[q] := cnum;
          BorderJoins(s, now, root, cnum, q, queue);
          WaitingKept(s, now, cnum, queue, q);
          assert labels[..] == now[q := cnum];
        }
        if labels[q] != UNDEFINED {
          if now[q] != NOISE {
            AlreadyThere(s, now, cnum, q, queue);
          }
          continue;
        }
        labels[q] := cnum;
        assert labels[..] == now[q := cnum];
        WaitingKept(s, now, cnum, queue, q);
        var newneighbor := RangeQuery(q);
        if |newneighbor| >= s.minPts {
          var more := Enumerate(newneighbor, -1);
          ReachedConnected(s, now, root, cnum, q);
          CoreJoins(s, now, root, cnum, q, queue, more);
          WaitingMore(s, labels[..], cnum, q, queue, more);
          queue := queue + more;
        } else {
          BorderJoins(s, now, root, cnum, q, queue);
        }
      }
    }

    /** Labels every point. */
    method Cluster()
      requires s.Symmetric() && labels.Length == s.n && forall p :: 0 <= p < s.n ==> labels[p] == UNDEFINED
      modifies this, labels
      ensures Clustering(s, labels[..])
    {
      hide Connected, Labelled, Closed, Waiting, Reached;
      cnum := 0;
      ghost var root: seq<nat> := [];
      NothingLabelled(s, labels[..]);
      for p := 0 to s.n
        invariant cnum == |root| && Labelled(s, labels[..], root) && Closed(s, labels[..], 0, [])
        invariant forall q :: 0 <= q < p ==> labels[q] != UNDEFINED
      {
        if labels[p] != UNDEFINED {
          continue;
        }
        var neighbor := RangeQuery(p);
        ghost var now := labels[..];
        if |neighbor| < s.minPts {
          labels[p] := NOISE;
          NoiseJoins(s, now, root, p);
          assert labels[..] == now[p := NOISE];
          continue;
        }
        cnum := cnum + 1;
        labels[p] := cnum;
        assert labels[..] == now[p := cnum];
        var seedSet := Enumerate(neighbor, p);
        NewCluster(s, now, root, p, seedSet);
        root := root + [p];
        Expand(seedSet, root);
        AnyCluster(s, labels[..], cnum);
      }
      Finished(s, labels[..], root);
    }
  }

  lemma WaitingFirst(s: Space, labels: seq<int>, c: int, queue: seq<nat>)
    requires Waiting(s, labels, c, queue) && queue != []
    ensures queue[0] < s.n && Reached(s, labels, queue[0], c) && Waiting(s, labels, c, queue[1..])
  {
  }

  lemma NoiseIsBorder(s: Space, labels: seq<int>, root: seq<nat>, q: nat)
    requires Labelled(s, labels, root) && q < s.n && labels[q] == NOISE
    ensures !s.Core(q)
  {
  }

  lemma NothingLabelled(s: Space, labels: seq<int>)
    requires |labels| == s.n && forall p :: 0 <= p < s.n ==> labels[p] == UNDEFINED
    ensures Labelled(s, labels, []) && Closed(s, labels, 0, [])
  {
  }

  /** With an empty queue no cluster is exempt. */
  lemma AnyCluster(s: Space, labels: seq<int>, c: int)
    requires |labels| == s.n && Closed(s, labels, c, [])
    ensures Closed(s, labels, 0, [])
  {
  }

  lemma NoiseJoins(s: Space, labels: seq<int>, root: seq<nat>, p: nat)
    requires s.Symmetric() && Labelled(s, labels, root) && Closed(s, labels, 0, [])
    requires p < s.n && !s.Core(p) && labels[p] == UNDEFINED
    ensures Labelled(s, labels[p := NOISE], root) && Closed(s, labels[p := NOISE], 0, [])
  {
    hide Connected;
    forall q | 0 <= q < s.n && InCluster(labels[q]) && !s.Core(q)
      ensures Reached(s, labels[p := NOISE], q, labels[q])
    {
      ReachedKept(s, labels, q, labels[q], p, NOISE);
    }
    hide Reached;
  }

  /** A core point without a label starts a cluster of its own. */
  lemma NewCluster(s: Space, labels: seq<int>, root: seq<nat>, p: nat, queue: seq<nat>)
    requires s.Symmetric() && Labelled(s, labels, root) && Closed(s, labels, 0, [])
    requires p < s.n && s.Core(p) && labels[p] == UNDEFINED
    requires forall q: nat :: q in queue <==> q in s.Neighbours(p) && q != p
    ensures var c := |root| + 1;
            && Labelled(s, labels[p := c], root + [p]) && Closed(s, labels[p := c], c, queue)
            && Waiting(s, labels[p := c], c, queue)
  {
    var c := |root| + 1;
    NewClusterLabelled(s, labels, root, p);
    forall i | 0 <= i < |queue|
      ensures queue[i] < s.n && Reached(s, labels[p := c], queue[i], c)
    {
      assert queue[i] in queue;
      assert labels[p := c][p] == c;
    }
    NewClusterClosed(s, labels, root, p, queue);
  }

  lemma NewClusterLabelled(s: Space, labels: seq<int>, root: seq<nat>, p: nat)
    requires Labelled(s, labels, root) && p < s.n && s.Core(p) && labels[p] == UNDEFINED
    ensures Labelled(s, labels[p := |root| + 1], root + [p])
  {
    hide Connected;
    var c := |root| + 1;
    ConnectedItself(s, p);
    forall q | 0 <= q < s.n && InCluster(labels[q]) && !s.Core(q)
      ensures Reached(s, labels[p := c], q, labels[q])
    {
      ReachedKept(s, labels, q, labels[q], p, c);
    }
    hide Reached;
  }

  lemma NewClusterClosed(s: Space, labels: seq<int>, root: seq<nat>, p: nat, queue: seq<nat>)
    requires s.Symmetric() && Labelled(s, labels, root) && Closed(s, labels, 0, [])
    requires p < s.n && s.Core(p) && labels[p] == UNDEFINED
    requires forall q: nat :: q in queue <==> q in s.Neighbours(p) && q != p
    ensures Closed(s, labels[p := |root| + 1], |root| + 1, queue)
  {
    hide Connected, Reached;
    var c := |root| + 1;
    var labels' := labels[p := c];
    forall q: nat, r: nat | q < s.n && r < s.n && s.Core(q) && s.near(q, r) && InCluster(labels'[q])
      ensures (labels'[q] == c && r in queue) || (InCluster(labels'[r]) && (s.Core(r) ==> labels'[r] == labels'[q]))
    {
      if q == p {
        assert r in s.Neighbours(p);
      } else {
        assert r == p ==> s.near(p, q);
      }
    }
  }
}
