/** Deletion from the binary search tree by one thread: what becomes of the tree, and of the locks taken on the way. */
module TreeDelete {
  import opened Common

  /** A node keeps its identity, and with it its lock, while its data and children change. */
  datatype Tree = Nil | Node(id: nat, data: int, left: Tree, right: Tree)

  datatype Which = TreeLock | NodeLock(id: nat)

  datatype LockOp = Lock(l: Which) | Unlock(l: Which)

  function Ids(t: Tree): set<nat> {
    if t.Nil? then {} else {t.id} + Ids(t.left) + Ids(t.right)
  }

  function Keys(t: Tree): set<int> {
    if t.Nil? then {} else {t.data} + Keys(t.left) + Keys(t.right)
  }

  /** No node is in the tree twice. */
  predicate Proper(t: Tree) {
    t.Node? ==> Proper(t.left) && Proper(t.right) && t.id !in Ids(t.left) && t.id !in Ids(t.right) && Ids(t.left) !! Ids(t.right)
  }

  predicate SearchTree(t: Tree) {
    t.Node? ==>
      && SearchTree(t.left) && SearchTree(t.right)
      && (forall k :: k in Keys(t.left) ==> k < t.data) && (forall k :: k in Keys(t.right) ==> t.data < k)
  }

  function Size(t: Tree): nat {
    if t.Nil? then 0 else 1 + Size(t.left) + Size(t.right)
  }

  /** The locks held after these operations; none if a lock that is held is taken again, or one that is not is released. */
  function Replay(held: set<Which>, ops: seq<LockOp>): Option<set<Which>>
    decreases |ops|
  {
    if ops == [] then Some(held)
    else match ops[0]
      case Lock(l) => if l in held then None else Replay(held + {l}, ops[1..])
      case Unlock(l) => if l !in held then None else Replay(held - {l}, ops[1..])
  }

  function Release(parent: Option<nat>): seq<LockOp> {
    if parent.None? then [] else [Unlock(NodeLock(parent.value))]
  }

  function HeldBy(parent: Option<nat>): set<Which> {
    if parent.None? then {} else {NodeLock(parent.value)}
  }

  /** The data of the leftmost node. */
  function Min(t: Tree): int
    requires t.Node?
  {
    if t.left.Nil? then t.data else Min(t.left)
  }

  /** The locks of the way down to the leftmost node. */
  function MinOps(t: Tree, parent: Option<nat>): seq<LockOp>
    requires t.Node?
  {
    [Lock(NodeLock(t.id))] + Release(parent)
    + if t.left.Nil? then [Unlock(NodeLock(t.id))] else MinOps(t.left, Some(t.id))
  }

  /** The tree without `key`, and the operations on locks; the caller holds the lock of `parent`. */
  function DeleteHelper(t: Tree, key: int, parent: Option<nat>): (Tree, seq<LockOp>)
    decreases t
  {
    if t.Nil? then (Nil, Release(parent)) else
    var ops := [Lock(NodeLock(t.id))] + Release(parent);
    if t.data > key then
      var (u, more) := DeleteHelper(t.left, key, Some(t.id));
      (t.(left := u), ops + more)
    else if t.data < key then
      var (u, more) := DeleteHelper(t.right, key, Some(t.id));
      (t.(right := u), ops + more)
    else if t.left.Nil? && t.right.Nil? then (Nil, ops + [Unlock(NodeLock(t.id))])
    else if t.left.Nil? then (t.right, ops + [Unlock(NodeLock(t.id))])
    else if t.right.Nil? then (t.left, ops + [Unlock(NodeLock(t.id))])
    else
      var min := Min(t.right);
      var (u, more) := DeleteHelper(t.right, min, None);
      (t.(data := min, right := u), ops + MinOps(t.right, Some(t.id)) + more)
  }

  function Delete(t: Tree, key: int): (Tree, seq<LockOp>) {
    var ops := [Lock(TreeLock), Unlock(TreeLock)];
    if t.Nil? then (t, ops) else
    var (u, more) := DeleteHelper(t, key, None);
    (u, ops + more)
  }

  // ----- the tree -----

  lemma {:induction false} MinLeast(t: Tree)
    requires t.Node? && SearchTree(t)
    ensures Min(t) in Keys(t) && forall k :: k in Keys(t) ==> Min(t) <= k
  {
    if t.left.Node? { MinLeast(t.left); }
  }

  /** `u` is `t` without `key`. */
  ghost predicate Removed(t: Tree, key: int, u: Tree) {
    && SearchTree(u) && Proper(u) && Keys(u) == Keys(t) - {key} && Ids(u) <= Ids(t)
    && Size(u) == (if key in Keys(t) then Size(t) - 1 else Size(t)) && (key !in Keys(t) ==> u == t)
  }

  lemma LeftRemoved(t: Tree, key: int, u: Tree)
    requires t.Node? && SearchTree(t) && Proper(t) && key < t.data && Removed(t.left, key, u)
    ensures Removed(t, key, t.(left := u))
  {
    assert key !in Keys(t.right);
  }

  lemma RightRemoved(t: Tree, key: int, u: Tree)
    requires t.Node? && SearchTree(t) && Proper(t) && t.data < key && Removed(t.right, key, u)
    ensures Removed(t, key, t.(right := u))
  {
    assert key !in Keys(t.left);
  }

  lemma RootRemoved(t: Tree, u: Tree)
    requires t.Node? && SearchTree(t) && Proper(t) && t.right.Node? && Removed(t.right, Min(t.right), u)
    ensures Removed(t, t.data, t.(data := Min(t.right), right := u))
  {
    hide Min;
    MinLeast(t.right);
    assert t.data !in Keys(t.left) && t.data !in Keys(t.right);
    var v := t.(data := Min(t.right), right := u);
    assert Keys(v) == {Min(t.right)} + Keys(t.left) + (Keys(t.right) - {Min(t.right)});
  }

  /** Exactly the key is gone, the order is kept, and no node is new. */
  lemma {:induction false} HelperDeletes(t: Tree, key: int, parent: Option<nat>)
    requires SearchTree(t) && Proper(t)
    ensures Removed(t, key, DeleteHelper(t, key, parent).0)
    decreases t
  {
    if t.Node? {
      if t.data > key {
        HelperDeletes(t.left, key, Some(t.id));
        LeftRemoved(t, key, DeleteHelper(t.left, key, Some(t.id)).0);
      } else if t.data < key {
        HelperDeletes(t.right, key, Some(t.id));
        RightRemoved(t, key, DeleteHelper(t.right, key, Some(t.id)).0);
      } else if t.left.Node? && t.right.Node? {
        HelperDeletes(t.right, Min(t.right), None);
        RootRemoved(t, DeleteHelper(t.right, Min(t.right), None).0);
      } else {
        assert t.data !in Keys(t.left) && t.data !in Keys(t.right);
      }
    }
  }

  // ----- the locks -----

  lemma {:induction false} ReplayThen(held: set<Which>, a: seq<LockOp>, b: seq<LockOp>)
    ensures Replay(held, a + b) == if Replay(held, a).None? then None else Replay(Replay(held, a).value, b)
    decreases |a|
  {
    if a == [] {
      assert a + b == b;
    } else {
      assert (a + b)[1..] == a[1..] + b;
      match a[0]
      case Lock(l) => if l !in held { ReplayThen(held + {l}, a[1..], b); }
      case Unlock(l) => if l in held { ReplayThen(held - {l}, a[1..], b); }
    }
  }

  /** Taking a node's lock and letting the parent's go. */
  lemma Hand(id: nat, parent: Option<nat>)
    requires parent.Some? ==> parent.value != id
    ensures Replay(HeldBy(parent), [Lock(NodeLock(id))] + Release(parent)) == Some(HeldBy(Some(id)))
  {
    var l, ops := NodeLock(id), [Lock(NodeLock(id))] + Release(parent);
    assert ops[1..] == Release(parent);
    var both := HeldBy(parent) + {l};
    assert Replay(HeldBy(parent), ops) == Replay(both, Release(parent));
    if parent.Some? {
      assert both - {NodeLock(parent.value)} == {l};
      assert Release(parent)[1..] == [];
      assert Replay(both, Release(parent)) == Replay({l}, []);
    } else {
      assert both == {l};
    }
  }

  lemma LetGo(id: nat)
    ensures Replay(HeldBy(Some(id)), [Unlock(NodeLock(id))]) == Some({})
    ensures Replay(HeldBy(Some(id)), Release(Some(id))) == Some({})
  {
    assert HeldBy(Some(id)) - {NodeLock(id)} == {};
    assert [Unlock(NodeLock(id))][1..] == [];
  }

  lemma {:induction false} MinReleases(t: Tree, parent: Option<nat>)
    requires t.Node? && Proper(t) && (parent.Some? ==> parent.value !in Ids(t))
    ensures Replay(HeldBy(parent), MinOps(t, parent)) == Some({})
  {
    Hand(t.id, parent);
    var hand := [Lock(NodeLock(t.id))] + Release(parent);
    if t.left.Nil? {
      ReplayThen(HeldBy(parent), hand, [Unlock(NodeLock(t.id))]);
      LetGo(t.id);
    } else {
      ReplayThen(HeldBy(parent), hand, MinOps(t.left, Some(t.id)));
      MinReleases(t.left, Some(t.id));
    }
  }

  /** Every lock taken is released, the one of the parent as well; none is taken twice or released without being held. */
  lemma {:induction false} HelperReleases(t: Tree, key: int, parent: Option<nat>)
    requires Proper(t) && (parent.Some? ==> parent.value !in Ids(t))
    ensures Replay(HeldBy(parent), DeleteHelper(t, key, parent).1) == Some({})
    decreases t
  {
    if t.Nil? {
      if parent.Some? { LetGo(parent.value); }
    } else {
      Hand(t.id, parent);
      LetGo(t.id);
      var hand := [Lock(NodeLock(t.id))] + Release(parent);
      if t.data > key {
        HelperReleases(t.left, key, Some(t.id));
        ReplayThen(HeldBy(parent), hand, DeleteHelper(t.left, key, Some(t.id)).1);
      } else if t.data < key {
        HelperReleases(t.right, key, Some(t.id));
        ReplayThen(HeldBy(parent), hand, DeleteHelper(t.right, key, Some(t.id)).1);
      } else if t.left.Nil? || t.right.Nil? {
        ReplayThen(HeldBy(parent), hand, [Unlock(NodeLock(t.id))]);
      } else {
        var down, more := MinOps(t.right, Some(t.id)), DeleteHelper(t.right, Min(t.right), None).1;
        MinReleases(t.right, Some(t.id));
        HelperReleases(t.right, Min(t.right), None);
        ReplayThen(HeldBy(parent), hand, down);
        ReplayThen(HeldBy(parent), hand + down, more);
      }
    }
  }

  // ----- hand over hand -----

  /** The nodes from the root to the key, or to where it would be. */
  function Way(t: Tree, key: int): seq<nat> {
    if t.Nil? then [] else [t.id] + if t.data > key then Way(t.left, key) else if t.data < key then Way(t.right, key) else []
  }

  function Found(t: Tree, key: int): Tree {
    if t.Nil? || t.data == key then t else if t.data > key then Found(t.left, key) else Found(t.right, key)
  }

  /** From a node with two children on: the way to the least key of its right subtree. */
  function Beyond(t: Tree, key: int): seq<nat> {
    var f := Found(t, key);
    if f.Nil? || f.left.Nil? || f.right.Nil? then [] else Way(f.right, Min(f.right))
  }

  /** The locks of a way: each is taken before the one above it is let go, and the last one is let go. */
  function Couple(way: seq<nat>, parent: Option<nat>): seq<LockOp> {
    if way == [] then Release(parent) else [Lock(NodeLock(way[0]))] + Release(parent) + Couple(way[1..], Some(way[0]))
  }

  lemma CoupleFirst(id: nat, way: seq<nat>, parent: Option<nat>)
    ensures Couple([id] + way, parent) == [Lock(NodeLock(id))] + Release(parent) + Couple(way, Some(id))
  {
    assert ([id] + way)[1..] == way;
  }

  lemma {:induction false} MinCouples(t: Tree, parent: Option<nat>)
    requires t.Node? && SearchTree(t)
    ensures MinOps(t, parent) == Couple(Way(t, Min(t)), parent)
    ensures Found(t, Min(t)).Node? && Found(t, Min(t)).left.Nil?
  {
    if t.left.Node? {
      MinLeast(t.left);
      MinCouples(t.left, Some(t.id));
      CoupleFirst(t.id, Way(t.left, Min(t)), parent);
    } else {
      CoupleFirst(t.id, [], parent);
      assert Way(t, Min(t)) == [t.id] + [];
    }
  }

  /** The locks of one call of the helper. */
  lemma HelperOps(t: Tree, key: int, parent: Option<nat>)
    requires t.Node?
    ensures var hand, ops := [Lock(NodeLock(t.id))] + Release(parent), DeleteHelper(t, key, parent).1;
            if t.data > key then
              && ops == hand + DeleteHelper(t.left, key, Some(t.id)).1
              && Way(t, key) == [t.id] + Way(t.left, key) && Beyond(t, key) == Beyond(t.left, key)
            else if t.data < key then
              && ops == hand + DeleteHelper(t.right, key, Some(t.id)).1
              && Way(t, key) == [t.id] + Way(t.right, key) && Beyond(t, key) == Beyond(t.right, key)
            else
              && Way(t, key) == [t.id]
              && if t.left.Nil? || t.right.Nil? then ops == hand + [Unlock(NodeLock(t.id))] && Beyond(t, key) == []
                 else
                   && ops == hand + MinOps(t.right, Some(t.id)) + DeleteHelper(t.right, Min(t.right), None).1
                   && Beyond(t, key) == Way(t.right, Min(t.right))
  {
    hide MinOps, Min, Release;
    assert [t.id] + [] == [t.id];
  }

  /** The locks of a deletion: hand over hand to the key, and for a node with two children on to the least greater key
      and then once more down to that key. */
  lemma {:induction false} HelperCouples(t: Tree, key: int, parent: Option<nat>)
    requires SearchTree(t)
    ensures DeleteHelper(t, key, parent).1
         == Couple(Way(t, key) + Beyond(t, key), parent) + Couple(Beyond(t, key), None)
    decreases t
  {
    if t.Nil? {
      assert Way(t, key) + Beyond(t, key) == [];
    } else {
      SubtreesSearch(t);
      HelperOps(t, key, parent);
      hide SearchTree, DeleteHelper, Way, Beyond, MinOps, Min, Found, Couple, Release;
      var down := Beyond(t, key);
      if t.data > key {
        HelperCouples(t.left, key, Some(t.id));
        Longer(t.id, Way(t.left, key), down, parent, Couple(down, None));
      } else if t.data < key {
        HelperCouples(t.right, key, Some(t.id));
        Longer(t.id, Way(t.right, key), down, parent, Couple(down, None));
      } else if t.left.Node? && t.right.Node? {
        MinCouples(t.right, Some(t.id));
        NothingBeyond(t.right);
        HelperCouples(t.right, Min(t.right), None);
        TwoWays(t.id, down, parent);
      } else {
        LastNode(t.id, parent);
      }
    }
  }

  lemma NothingBeyond(t: Tree)
    requires t.Node? && SearchTree(t)
    ensures Beyond(t, Min(t)) == []
  {
    MinCouples(t, None);
  }

  lemma LastNode(id: nat, parent: Option<nat>)
    ensures Couple([id] + [], parent) + Couple([], None) == [Lock(NodeLock(id))] + Release(parent) + [Unlock(NodeLock(id))]
  {
    CoupleFirst(id, [], parent);
    assert Couple([], Some(id)) == [Unlock(NodeLock(id))];
  }

  lemma TwoWays(id: nat, down: seq<nat>, parent: Option<nat>)
    ensures [Lock(NodeLock(id))] + Release(parent) + Couple(down, Some(id)) + (Couple(down + [], None) + Couple([], None))
         == Couple([id] + down, parent) + Couple(down, None)
  {
    CoupleFirst(id, down, parent);
    assert down + [] == down;
    assert Couple([], None) == [];
  }

  lemma Longer(id: nat, way: seq<nat>, down: seq<nat>, parent: Option<nat>, last: seq<LockOp>)
    ensures Couple([id] + way + down, parent) + last
         == [Lock(NodeLock(id))] + Release(parent) + (Couple(way + down, Some(id)) + last)
  {
    hide Couple, Release;
    assert [id] + way + down == [id] + (way + down);
    CoupleFirst(id, way + down, parent);
  }

  lemma SubtreesSearch(t: Tree)
    requires t.Node? && SearchTree(t)
    ensures SearchTree(t.left) && SearchTree(t.right)
  {
  }

  /** Deletion removes exactly the key, keeps the order, and holds no lock in the end. */
  lemma DeleteRight(t: Tree, key: int)
    requires SearchTree(t) && Proper(t)
    ensures var (u, ops) := Delete(t, key);
            Removed(t, key, u) && Replay({}, ops) == Some({})
  {
    var first := [Lock(TreeLock), Unlock(TreeLock)];
    assert Replay({}, first) == Some({}) by {
      assert first[1..] == [Unlock(TreeLock)] && {} + {TreeLock} - {TreeLock} == {};
      assert [Unlock(TreeLock)][1..] == [];
      assert Replay({TreeLock}, [Unlock(TreeLock)]) == Some({TreeLock} - {TreeLock});
    }
    if t.Node? {
      HelperDeletes(t, key, None);
      HelperReleases(t, key, None);
      ReplayThen({}, first, DeleteHelper(t, key, None).1);
    }
  }
}
