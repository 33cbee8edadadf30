/** Concurrent insertion into a binary search tree with hand-over-hand locking. Insertion never moves a node, so a node is
    named by the way from the root to it: false to the left, true to the right. */
module LockCoupling {
  import opened Common

  type Path = seq<bool>

  /** Where a thread is in its insertion.
      `Start`: about to take the lock of the tree; `InTree`: has it; `RootMade`: has put its node at the root;
      `Want(p)`: about to lock node p while it holds p's parent; `Locked(p)`: holds both; `At(p)`: has released the
      parent; `Linked(p)`: has put its node under p. */
  datatype PC = Start | InTree | RootMade | Want(p: Path) | Locked(p: Path) | At(p: Path) | Linked(p: Path) | Done

  datatype Owner = Free | Held(thread: nat)

  datatype State = State(nodes: map<Path, int>, treeLock: Owner, locks: map<Path, nat>, pcs: seq<PC>)

  function Up(p: Path): Path
    requires p != []
  {
    p[..|p| - 1]
  }

  /** The node locks that a thread holds. */
  function Holds(pc: PC): set<Path> {
    match pc
    case Want(p) => if p == [] then {} else {Up(p)}
    case Locked(p) => if p == [] then {p} else {p, Up(p)}
    case At(p) => {p}
    case Linked(p) => {p}
    case _ => {}
  }

  /** Has the thread put its key into the tree, or found it there? */
  predicate Inserted(pc: PC) {
    pc.RootMade? || pc.Linked? || pc.Done?
  }

  predicate Enabled(s: State, t: nat)
    requires t < |s.pcs|
  {
    match s.pcs[t]
    case Start => s.treeLock.Free?
    case Want(p) => p !in s.locks
    case Done => false
    case _ => true
  }

  function Unlock(s: State, p: Path): State {
    s.(locks := s.locks - {p})
  }

  function Goto(s: State, t: nat, pc: PC): State
    requires t < |s.pcs|
  {
    s.(pcs := s.pcs[t := pc])
  }

  /** One step of thread `t`, which inserts `key`. A thread that has to wait for a lock does nothing. */
  function Step(s: State, t: nat, key: int): State
    requires t < |s.pcs|
  {
    if !Enabled(s, t) then s else
    match s.pcs[t]
    case Start => Goto(s, t, InTree).(treeLock := Held(t))
    case InTree =>
      if [] !in s.nodes then Goto(s, t, RootMade).(nodes := s.nodes[[] := key])
      else Goto(s, t, Want([])).(treeLock := Free)
    case RootMade => Goto(s, t, Done).(treeLock := Free)
    case Want(p) => Goto(s, t, Locked(p)).(locks := s.locks[p := t])
    case Locked(p) => Goto(if p == [] then s else Unlock(s, Up(p)), t, At(p))
    case At(p) =>
      if p !in s.nodes || s.nodes[p] == key then Goto(Unlock(s, p), t, Done)
      else
        var q := p + [s.nodes[p] < key];
        if q !in s.nodes then Goto(s, t, Linked(p)).(nodes := s.nodes[q := key])
        else Goto(s, t, Want(q))
    case Linked(p) => Goto(Unlock(s, p), t, Done)
  }

  // ----- what every step keeps -----

  /** Every node but the root has its parent in the tree. */
  ghost predicate Rooted(nodes: map<Path, int>) {
    forall p :: p in nodes && p != [] ==> Up(p) in nodes
  }

  /** `key` belongs under every node that `p` passes: it goes the way that `p` goes. */
  ghost predicate Fits(nodes: map<Path, int>, p: Path, key: int) {
    forall i :: 0 <= i < |p| ==> p[..i] in nodes && (if p[i] then nodes[p[..i]] < key else key < nodes[p[..i]])
  }

  /** A search tree: to the left of each node all keys are smaller, to the right greater. */
  ghost predicate SearchTree(nodes: map<Path, int>) {
    forall p :: p in nodes ==> Fits(nodes, p, nodes[p])
  }

  /** The keys in the tree are those that were there first and those inserted since. */
  ghost predicate KeysAre(s: State, keys: seq<int>, first: set<int>)
    requires |keys| == |s.pcs|
  {
    && (forall p :: p in s.nodes ==> s.nodes[p] in first || exists t :: 0 <= t < |keys| && Inserted(s.pcs[t]) && keys[t] == s.nodes[p])
    && (forall k :: k in first ==> exists p :: p in s.nodes && s.nodes[p] == k)
    && (forall t :: 0 <= t < |keys| && Inserted(s.pcs[t]) ==> exists p :: p in s.nodes && s.nodes[p] == keys[t])
  }

  /** A node is locked by a thread exactly if that is where the thread is. */
  ghost predicate LocksRight(s: State) {
    && (forall p :: p in s.locks ==> s.locks[p] < |s.pcs| && p in Holds(s.pcs[s.locks[p]]))
    && (forall t: nat, p :: t < |s.pcs| && p in Holds(s.pcs[t]) ==> p in s.locks && s.locks[p] == t)
    && (forall t: nat :: t < |s.pcs| ==> ((s.pcs[t].InTree? || s.pcs[t].RootMade?) <==> s.treeLock == Held(t)))
    && (s.treeLock.Held? ==> s.treeLock.thread < |s.pcs|)
  }

  /** A thread under way stands at a node of the tree, on the way to where its key belongs. */
  ghost predicate OnTheWay(s: State, keys: seq<int>)
    requires |keys| == |s.pcs|
  {
    forall t :: 0 <= t < |keys| && (s.pcs[t].Want? || s.pcs[t].Locked? || s.pcs[t].At? || s.pcs[t].Linked?) ==>
      s.pcs[t].p in s.nodes && Fits(s.nodes, s.pcs[t].p, keys[t])
  }

  ghost predicate Inv(s: State, keys: seq<int>, first: set<int>) {
    && |keys| == |s.pcs|
    && Rooted(s.nodes) && SearchTree(s.nodes) && KeysAre(s, keys, first) && LocksRight(s) && OnTheWay(s, keys)
  }

  /** A thread holds at most two node locks, those of a node and its parent. */
  lemma HoldsParentAndChild(pc: PC, p: Path, q: Path)
    requires p in Holds(pc) && q in Holds(pc) && p != q
    ensures (q != [] && p == Up(q)) || (p != [] && q == Up(p))
  {
  }

  /** A new leaf where its key belongs keeps the search tree and leaves every thread on its way. */
  lemma LeafFits(nodes: map<Path, int>, q: Path, key: int, p: Path, k: int)
    requires q !in nodes && Fits(nodes, p, k)
    ensures Fits(nodes[q := key], p, k)
  {
  }

  lemma LeafKeepsTree(nodes: map<Path, int>, q: Path, key: int)
    requires Rooted(nodes) && SearchTree(nodes) && q !in nodes && Fits(nodes, q, key)
    ensures Rooted(nodes[q := key]) && SearchTree(nodes[q := key])
  {
    var nodes' := nodes[q := key];
    if q != [] {
      assert q[..|q| - 1] in nodes;
    }
    forall p | p in nodes'
      ensures Fits(nodes', p, nodes'[p])
    {
      if p != q {
        assert Fits(nodes, p, nodes[p]);
      }
      LeafFits(nodes, q, key, p, nodes'[p]);
    }
  }

  lemma Further(nodes: map<Path, int>, p: Path, key: int)
    requires p in nodes && Fits(nodes, p, key) && nodes[p] != key
    ensures Fits(nodes, p + [nodes[p] < key], key)
  {
    var q := p + [nodes[p] < key];
    forall i | 0 <= i < |q|
      ensures q[..i] in nodes && (if q[i] then nodes[q[..i]] < key else key < nodes[q[..i]])
    {
      if i < |p| {
        assert q[..i] == p[..i];
      } else {
        assert q[..i] == p;
      }
    }
  }

  lemma StepTree(s: State, keys: seq<int>, first: set<int>, t: nat)
    requires Inv(s, keys, first) && t < |keys|
    ensures var s' := Step(s, t, keys[t]); Rooted(s'.nodes) && SearchTree(s'.nodes) && OnTheWay(s', keys)
  {
    hide LocksRight, KeysAre;
    var s' := Step(s, t, keys[t]);
    if Enabled(s, t) {
      match s.pcs[t]
      case InTree =>
        if [] !in s.nodes {
          LeafKeepsTree(s.nodes, [], keys[t]);
        }
        ThreadsStayOnTheWay(s, keys, t, s', [], keys[t]);
      case At(p) =>
        if s.nodes[p] != keys[t] {
          Further(s.nodes, p, keys[t]);
          var q := p + [s.nodes[p] < keys[t]];
          assert Up(q) == p;
          if q !in s.nodes {
            LeafKeepsTree(s.nodes, q, keys[t]);
          }
        }
        ThreadsStayOnTheWay(s, keys, t, s', p + [s.nodes[p] < keys[t]], keys[t]);
      case _ =>
        ThreadsStayOnTheWay(s, keys, t, s', [], 0);
    }
  }

  lemma ThreadsStayOnTheWay(s: State, keys: seq<int>, t: nat, s': State, q: Path, k: int)
    requires |keys| == |s.pcs| == |s'.pcs| && t < |keys| && OnTheWay(s, keys)
    requires s'.pcs == s.pcs[t := s'.pcs[t]]
    requires s'.nodes == s.nodes || (q !in s.nodes && s'.nodes == s.nodes[q := k])
    requires var pc := s'.pcs[t];
             (pc.Want? || pc.Locked? || pc.At? || pc.Linked?) ==> pc.p in s.nodes && Fits(s.nodes, pc.p, keys[t])
    ensures OnTheWay(s', keys)
  {
    forall u | 0 <= u < |keys| && (s'.pcs[u].Want? || s'.pcs[u].Locked? || s'.pcs[u].At? || s'.pcs[u].Linked?)
      ensures s'.pcs[u].p in s'.nodes && Fits(s'.nodes, s'.pcs[u].p, keys[u])
    {
      assert Fits(s.nodes, s'.pcs[u].p, keys[u]);
      if s'.nodes != s.nodes {
        LeafFits(s.nodes, q, k, s'.pcs[u].p, keys[u]);
      }
    }
  }

  predicate UsesTree(pc: PC) {
    pc.InTree? || pc.RootMade?
  }

  /** Thread `t` moves on and lets go of the locks `drop`. */
  lemma LocksDropped(s: State, t: nat, s': State, drop: set<Path>)
    requires LocksRight(s) && t < |s.pcs| == |s'.pcs| && s'.pcs == s.pcs[t := s'.pcs[t]]
    requires Holds(s'.pcs[t]) == Holds(s.pcs[t]) - drop && drop <= Holds(s.pcs[t]) && s'.locks == s.locks - drop
    requires if UsesTree(s'.pcs[t]) then s'.treeLock == Held(t) && (UsesTree(s.pcs[t]) || s.treeLock.Free?)
             else if UsesTree(s.pcs[t]) then s'.treeLock.Free? else s'.treeLock == s.treeLock
    ensures LocksRight(s')
  {
    hide Holds;
    forall u: nat, p | u < |s'.pcs| && p in Holds(s'.pcs[u])
      ensures p in s'.locks && s'.locks[p] == u
    {
      assert u != t ==> p in s.locks && s.locks[p] == u;
    }
  }

  /** Thread `t` moves on and takes the free lock `q`. */
  lemma LockTaken(s: State, t: nat, s': State, q: Path)
    requires LocksRight(s) && t < |s.pcs| == |s'.pcs| && s'.pcs == s.pcs[t := s'.pcs[t]]
    requires Holds(s'.pcs[t]) == Holds(s.pcs[t]) + {q} && q !in s.locks && s'.locks == s.locks[q := t]
    requires s'.treeLock == s.treeLock && !UsesTree(s.pcs[t]) && !UsesTree(s'.pcs[t])
    ensures LocksRight(s')
  {
    hide Holds;
  }

  lemma StepLocks(s: State, keys: seq<int>, first: set<int>, t: nat)
    requires Inv(s, keys, first) && t < |keys|
    ensures LocksRight(Step(s, t, keys[t]))
  {
    assert s.pcs[t].At? ==> s.pcs[t].p in s.nodes;
    assert LocksRight(s) && |keys| == |s.pcs|;
    hide Inv, LocksRight;
    if Enabled(s, t) {
      if s.pcs[t].At? { StepDown(s, keys[t], t); } else { StepOther(s, keys[t], t); }
    }
  }

  /** A step from a node to where its child is, or to the end if the key is there. */
  lemma StepDown(s: State, key: int, t: nat)
    requires LocksRight(s) && t < |s.pcs| && s.pcs[t].At? && s.pcs[t].p in s.nodes && Enabled(s, t)
    ensures LocksRight(Step(s, t, key))
  {
    hide LocksRight;
    var p := s.pcs[t].p;
    assert Up(p + [s.nodes[p] < key]) == p;
    LocksDropped(s, t, Step(s, t, key), if s.nodes[p] == key then {p} else {});
  }

  lemma StepOther(s: State, key: int, t: nat)
    requires LocksRight(s) && t < |s.pcs| && !s.pcs[t].At? && Enabled(s, t)
    ensures LocksRight(Step(s, t, key))
  {
    assert s.pcs[t].InTree? || s.pcs[t].RootMade? ==> s.treeLock == Held(t);
    hide LocksRight;
    var s' := Step(s, t, key);
    match s.pcs[t]
    case Want(p) =>
      LockTaken(s, t, s', p);
    case Locked(p) =>
      LocksDropped(s, t, s', if p == [] then {} else {Up(p)});
    case Linked(p) =>
      LocksDropped(s, t, s', {p});
    case _ =>
      LocksDropped(s, t, s', {});
  }

  lemma StepKeys(s: State, keys: seq<int>, first: set<int>, t: nat)
    requires Inv(s, keys, first) && t < |keys|
    ensures KeysAre(Step(s, t, keys[t]), keys, first)
  {
    assert s.pcs[t].At? ==> s.pcs[t].p in s.nodes;
    hide LocksRight, SearchTree, Rooted, OnTheWay;
    var s' := Step(s, t, keys[t]);
    assert forall u :: 0 <= u < |keys| && Inserted(s.pcs[u]) ==> Inserted(s'.pcs[u]);
    assert forall p :: p in s.nodes ==> p in s'.nodes && s'.nodes[p] == s.nodes[p];
    forall p | p in s'.nodes
      ensures s'.nodes[p] in first || exists u :: 0 <= u < |keys| && Inserted(s'.pcs[u]) && keys[u] == s'.nodes[p]
    {
      if p !in s.nodes {
        assert Inserted(s'.pcs[t]) && keys[t] == s'.nodes[p];
      }
    }
    forall u | 0 <= u < |keys| && Inserted(s'.pcs[u])
      ensures exists p :: p in s'.nodes && s'.nodes[p] == keys[u]
    {
      if Inserted(s.pcs[u]) {
        var p :| p in s.nodes && s.nodes[p] == keys[u];
        assert p in s'.nodes;
      } else {
        var q := if s.pcs[t].InTree? then [] else if s.nodes[s.pcs[t].p] == keys[t] then s.pcs[t].p
                 else s.pcs[t].p + [s.nodes[s.pcs[t].p] < keys[t]];
        assert q in s'.nodes && s'.nodes[q] == keys[t];
      }
    }
  }

  lemma StepKeeps(s: State, keys: seq<int>, first: set<int>, t: nat)
    requires Inv(s, keys, first) && t < |keys|
    ensures Inv(Step(s, t, keys[t]), keys, first)
  {
    hide Rooted, SearchTree, KeysAre, LocksRight, OnTheWay;
    StepTree(s, keys, first, t);
    StepLocks(s, keys, first, t);
    StepKeys(s, keys, first, t);
  }

  // ----- whole runs -----

  /** The threads take steps in the order of `schedule`. */
  function Run(s: State, keys: seq<int>, schedule: seq<nat>): (s': State)
    requires |keys| == |s.pcs|
    ensures |s'.pcs| == |s.pcs|
    decreases |schedule|
  {
    if schedule == [] then s
    else if schedule[0] < |keys| then Run(Step(s, schedule[0], keys[schedule[0]]), keys, schedule[1..])
    else Run(s, keys, schedule[1..])
  }

  /** Threads that all start on a search tree nobody uses. */
  ghost predicate Initial(s: State, keys: seq<int>, first: set<int>) {
    && |keys| == |s.pcs| && Rooted(s.nodes) && SearchTree(s.nodes) && s.locks == map[] && s.treeLock.Free?
    && (forall t :: 0 <= t < |keys| ==> s.pcs[t].Start?)
    && (forall k :: k in first <==> exists p :: p in s.nodes && s.nodes[p] == k)
  }

  lemma {:induction false} RunKeeps(s: State, keys: seq<int>, first: set<int>, schedule: seq<nat>)
    requires |keys| == |s.pcs| && Inv(s, keys, first)
    ensures Inv(Run(s, keys, schedule), keys, first)
    decreases |schedule|
  {
    hide Inv;
    if schedule != [] {
      var t := schedule[0];
      if t < |keys| {
        StepKeeps(s, keys, first, t);
        RunKeeps(Step(s, t, keys[t]), keys, first, schedule[1..]);
      } else {
        RunKeeps(s, keys, first, schedule[1..]);
      }
    }
  }

  /** In every interleaving the tree stays a search tree, its keys are the first ones and those of the threads that have
      inserted, and each lock is held where it should be. When all threads are done, no insertion is lost and no lock
      is left. */
  lemma AllInterleavings(s: State, keys: seq<int>, first: set<int>, schedule: seq<nat>)
    requires Initial(s, keys, first)
    ensures var s' := Run(s, keys, schedule);
            && Inv(s', keys, first)
            && ((forall t :: 0 <= t < |keys| ==> s'.pcs[t].Done?) ==>
                  s'.nodes.Values == first + (set k | k in keys) && s'.locks == map[] && s'.treeLock.Free?)
  {
    assert Inv(s, keys, first);
    RunKeeps(s, keys, first, schedule);
    var s' := Run(s, keys, schedule);
    hide Run;
    if forall t :: 0 <= t < |keys| ==> s'.pcs[t].Done? {
      AllDone(s', keys, first);
    }
  }

  lemma AllDone(s: State, keys: seq<int>, first: set<int>)
    requires Inv(s, keys, first) && forall t :: 0 <= t < |keys| ==> s.pcs[t].Done?
    ensures s.nodes.Values == first + (set k | k in keys) && s.locks == map[] && s.treeLock.Free?
  {
    NoLocksLeft(s, keys, first);
    hide LocksRight, SearchTree, Rooted, OnTheWay;
    forall k
      ensures k in s.nodes.Values <==> k in first + (set k | k in keys)
    {
      if k in keys {
        var t :| 0 <= t < |keys| && keys[t] == k;
        assert Inserted(s.pcs[t]);
      }
    }
  }

  lemma NoLocksLeft(s: State, keys: seq<int>, first: set<int>)
    requires Inv(s, keys, first) && forall t :: 0 <= t < |keys| ==> s.pcs[t].Done?
    ensures s.locks == map[] && s.treeLock.Free?
  {
    hide KeysAre, SearchTree, Rooted, OnTheWay;
    forall t: nat | t < |s.pcs|
      ensures Holds(s.pcs[t]) == {}
    {
    }
    assert s.locks.Keys == {};
  }

  // ----- no deadlock -----

  /** A locked node that is at least as far from the root as any other locked node. */
  lemma {:induction false} DeepestLock(locks: map<Path, nat>) returns (p: Path)
    requires locks != map[]
    ensures p in locks && forall q :: q in locks ==> |q| <= |p|
    decreases |locks|
  {
    var r :| r in locks;
    var rest := locks - {r};
    if rest == map[] {
      assert forall q :: q in locks ==> q == r by {
        forall q | q in locks
          ensures q == r
        {
          assert q != r ==> q in rest;
        }
      }
      p := r;
    } else {
      assert locks.Keys == rest.Keys + {r};
      assert |rest| == |rest.Keys| && |locks| == |locks.Keys|;
      var d := DeepestLock(rest);
      p := if |d| >= |r| then d else r;
      forall q | q in locks
        ensures |q| <= |p|
      {
        assert q != r ==> q in rest;
      }
    }
  }

  /** As long as some thread is not done, some thread can take a step. */
  lemma Progress(s: State, keys: seq<int>, first: set<int>, t: nat) returns (u: nat)
    requires Inv(s, keys, first) && t < |keys| && !s.pcs[t].Done?
    ensures u < |keys| && Enabled(s, u)
  {
    if s.treeLock.Held? {
      u := s.treeLock.thread;
    } else if s.locks == map[] {
      u := t;
    } else {
      var p := DeepestLock(s.locks);
      u := s.locks[p];
      assert p in Holds(s.pcs[u]);
      if s.pcs[u].Want? {
        assert Up(s.pcs[u].p) == p;
      }
    }
  }

  // ----- every insertion ends -----

  function Prefixes(p: Path): set<Path>
    decreases |p|
  {
    if p == [] then {p} else Prefixes(Up(p)) + {p}
  }

  lemma {:induction false} PrefixCount(nodes: map<Path, int>, p: Path)
    requires Rooted(nodes) && p in nodes
    ensures |Prefixes(p)| == |p| + 1 && Prefixes(p) <= nodes.Keys && forall q :: q in Prefixes(p) ==> |q| <= |p|
    decreases |p|
  {
    if p != [] { PrefixCount(nodes, Up(p)); }
  }

  /** No node is further from the root than there are nodes. */
  lemma PathShort(nodes: map<Path, int>, p: Path)
    requires Rooted(nodes) && p in nodes
    ensures |p| < |nodes|
  {
    PrefixCount(nodes, p);
    SubsetSize(Prefixes(p), nodes.Keys);
  }

  /** The threads that may still put a node into the tree. */
  function Remaining(pcs: seq<PC>): nat {
    if pcs == [] then 0 else Remaining(pcs[..|pcs| - 1]) + if Inserted(pcs[|pcs| - 1]) then 0 else 1
  }

  /** There will never be more nodes than this. */
  function Bound(s: State): nat {
    |s.nodes| + Remaining(s.pcs)
  }

  /** The steps that a thread can still take in a tree of at most `b` nodes. */
  function Ahead(pc: PC, b: nat): nat {
    match pc
    case Start => 4 * b + 5
    case InTree => 4 * b + 4
    case RootMade => 1
    case Want(p) => if |p| <= b then 4 * (b - |p|) + 3 else 0
    case Locked(p) => if |p| <= b then 4 * (b - |p|) + 2 else 0
    case At(p) => if |p| <= b then 4 * (b - |p|) + 1 else 0
    case Linked(_) => 1
    case Done => 0
  }

  function AllAhead(pcs: seq<PC>, b: nat): nat {
    if pcs == [] then 0 else AllAhead(pcs[..|pcs| - 1], b) + Ahead(pcs[|pcs| - 1], b)
  }

  /** A measure of what is left to do. */
  function Measure(s: State): nat {
    AllAhead(s.pcs, Bound(s))
  }

  lemma {:induction false} OneMoves(pcs: seq<PC>, t: nat, pc: PC, b: nat)
    requires t < |pcs|
    ensures AllAhead(pcs[t := pc], b) + Ahead(pcs[t], b) == AllAhead(pcs, b) + Ahead(pc, b)
    ensures Remaining(pcs[t := pc]) + (if Inserted(pcs[t]) then 0 else 1) == Remaining(pcs) + if Inserted(pc) then 0 else 1
  {
    hide Ahead, Inserted;
    var n := |pcs| - 1;
    if t < n {
      OneMoves(pcs[..n], t, pc, b);
      assert pcs[t := pc][..n] == pcs[..n][t := pc];
    } else {
      assert pcs[t := pc][..n] == pcs[..n];
    }
  }

  lemma {:induction false} SmallerBound(pcs: seq<PC>, b: nat, b': nat)
    requires b' <= b
    ensures AllAhead(pcs, b') <= AllAhead(pcs, b)
  {
    if pcs != [] { SmallerBound(pcs[..|pcs| - 1], b, b'); }
  }

  /** Every step of a thread that need not wait brings the end nearer. */
  lemma StepLowers(s: State, keys: seq<int>, first: set<int>, t: nat)
    requires Inv(s, keys, first) && t < |keys| && Enabled(s, t)
    ensures Measure(Step(s, t, keys[t])) < Measure(s)
  {
    hide KeysAre, LocksRight, SearchTree, Fits, AllAhead, Remaining;
    var s' := Step(s, t, keys[t]);
    var pc, pc', b, b' := s.pcs[t], s'.pcs[t], Bound(s), Bound(s');
    if pc.Want? || pc.Locked? || pc.At? { PathShort(s.nodes, pc.p); }
    OneMoves(s.pcs, t, pc', b);
    assert s'.pcs == s.pcs[t := pc'];
    assert b' <= b && Ahead(pc', b) < Ahead(pc, b);
    SmallerBound(s'.pcs, b, b');
  }

  /** The steps in a schedule that are not of threads that wait or are done. */
  function Taken(s: State, keys: seq<int>, schedule: seq<nat>): nat
    requires |keys| == |s.pcs|
    decreases |schedule|
  {
    if schedule == [] then 0
    else if schedule[0] < |keys| then
      (if Enabled(s, schedule[0]) then 1 else 0) + Taken(Step(s, schedule[0], keys[schedule[0]]), keys, schedule[1..])
    else Taken(s, keys, schedule[1..])
  }

  /** No schedule, however long, holds more steps than the measure says: no thread goes on for ever. */
  lemma {:induction false} StepsBounded(s: State, keys: seq<int>, first: set<int>, schedule: seq<nat>)
    requires Inv(s, keys, first)
    ensures Taken(s, keys, schedule) + Measure(Run(s, keys, schedule)) <= Measure(s)
    decreases |schedule|
  {
    hide Inv, Measure, Enabled;
    InvSizes(s, keys, first);
    if schedule != [] {
      var t := schedule[0];
      if t < |keys| {
        StepKeeps(s, keys, first, t);
        if Enabled(s, t) { StepLowers(s, keys, first, t); } else { Waits(s, t, keys[t]); }
        StepsBounded(Step(s, t, keys[t]), keys, first, schedule[1..]);
      } else {
        StepsBounded(s, keys, first, schedule[1..]);
      }
    }
  }

  lemma Waits(s: State, t: nat, key: int)
    requires t < |s.pcs| && !Enabled(s, t)
    ensures Step(s, t, key) == s
  {
  }

  lemma InvSizes(s: State, keys: seq<int>, first: set<int>)
    requires Inv(s, keys, first)
    ensures |keys| == |s.pcs|
  {
  }

  /** From every state some schedule brings all insertions to their end; with `StepsBounded`, so does every schedule that always
      picks a thread that need not wait. */
  lemma {:induction false} AllEnd(s: State, keys: seq<int>, first: set<int>) returns (schedule: seq<nat>)
    requires Inv(s, keys, first)
    ensures |keys| == |s.pcs| && forall t :: 0 <= t < |keys| ==> Run(s, keys, schedule).pcs[t].Done?
    decreases Measure(s)
  {
    hide Inv, Measure, Enabled;
    InvSizes(s, keys, first);
    if t :| 0 <= t < |keys| && !s.pcs[t].Done? {
      var u := Progress(s, keys, first, t);
      StepKeeps(s, keys, first, u);
      StepLowers(s, keys, first, u);
      schedule := AllEnd(Step(s, u, keys[u]), keys, first);
      schedule := [u] + schedule;
    } else {
      schedule := [];
    }
  }

  /** A schedule that leaves nobody able to go on has brought every insertion to its end. */
  lemma StuckIsDone(s: State, keys: seq<int>, first: set<int>)
    requires Inv(s, keys, first) && forall t: nat :: t < |keys| ==> !Enabled(s, t)
    ensures forall t :: 0 <= t < |keys| ==> s.pcs[t].Done?
  {
    if t :| 0 <= t < |keys| && !s.pcs[t].Done? {
      var u := Progress(s, keys, first, t);
    }
  }
}
