/** Full binary trees over numbered leaves, their weighted path length, and the exchange argument behind Huffman's
    greedy choice. */
module HuffmanTrees {

  datatype Tree = Leaf(id: nat) | Node(left: Tree, right: Tree)

  function Leaves(t: Tree): set<nat> {
    match t
    case Leaf(i) => {i}
    case Node(l, r) => Leaves(l) + Leaves(r)
  }

  /** No leaf occurs twice. */
  predicate Proper(t: Tree) {
    t.Node? ==> Proper(t.left) && Proper(t.right) && Leaves(t.left) !! Leaves(t.right)
  }

  function Weight(w: seq<int>, i: nat): int {
    if i < |w| then w[i] else 0
  }

  /** The sum of weight times depth over the leaves, the root of `t` lying at depth `d`. */
  function Cost(t: Tree, w: seq<int>, d: nat): int {
    match t
    case Leaf(i) => Weight(w, i) * d
    case Node(l, r) => Cost(l, w, d + 1) + Cost(r, w, d + 1)
  }

  function DepthOf(t: Tree, i: nat, d: nat): nat {
    match t
    case Leaf(_) => d
    case Node(l, r) => if i in Leaves(l) then DepthOf(l, i, d + 1) else DepthOf(r, i, d + 1)
  }

  function Height(t: Tree): nat {
    match t
    case Leaf(_) => 0
    case Node(l, r) => 1 + if Height(l) >= Height(r) then Height(l) else Height(r)
  }

  // ----- exchanging two leaves -----

  function Swapped(i: nat, a: nat, b: nat): nat {
    if i == a then b else if i == b then a else i
  }

  function Exchange(t: Tree, a: nat, b: nat): Tree {
    match t
    case Leaf(i) => Leaf(Swapped(i, a, b))
    case Node(l, r) => Node(Exchange(l, a, b), Exchange(r, a, b))
  }

  lemma {:induction false} ExchangeLeaves(t: Tree, a: nat, b: nat)
    ensures forall i :: i in Leaves(Exchange(t, a, b)) <==> Swapped(i, a, b) in Leaves(t)
    ensures Proper(t) ==> Proper(Exchange(t, a, b))
  {
    if t.Node? {
      ExchangeLeaves(t.left, a, b);
      ExchangeLeaves(t.right, a, b);
    }
  }

  lemma {:induction false} ExchangeNeither(t: Tree, a: nat, b: nat)
    requires a !in Leaves(t) && b !in Leaves(t)
    ensures Exchange(t, a, b) == t
  {
    if t.Node? {
      ExchangeNeither(t.left, a, b);
      ExchangeNeither(t.right, a, b);
    }
  }

  lemma ExchangeSymmetric(t: Tree, a: nat, b: nat)
    ensures Exchange(t, a, b) == Exchange(t, b, a)
  {
  }

  /** With only `a` in the tree, an exchange puts `b` in its place. */
  lemma {:induction false} ExchangeOne(t: Tree, w: seq<int>, d: nat, a: nat, b: nat)
    requires Proper(t) && a in Leaves(t) && b !in Leaves(t)
    ensures Cost(Exchange(t, a, b), w, d) == Cost(t, w, d) + (Weight(w, b) - Weight(w, a)) * DepthOf(t, a, d)
  {
    if t.Node? {
      if a in Leaves(t.left) {
        ExchangeOne(t.left, w, d + 1, a, b);
        ExchangeNeither(t.right, a, b);
      } else {
        ExchangeOne(t.right, w, d + 1, a, b);
        ExchangeNeither(t.left, a, b);
      }
    }
  }

  lemma Crosswise(x: int, y: int, p: int, q: int)
    ensures (y - x) * p + (x - y) * q == (x - y) * (q - p)
  {
  }

  /** The exchange changes the cost by the difference of the weights times the difference of the depths. */
  lemma {:induction false} ExchangeCost(t: Tree, w: seq<int>, d: nat, a: nat, b: nat)
    requires Proper(t) && a in Leaves(t) && b in Leaves(t) && a != b
    ensures Cost(Exchange(t, a, b), w, d)
         == Cost(t, w, d) + (Weight(w, a) - Weight(w, b)) * (DepthOf(t, b, d) - DepthOf(t, a, d))
  {
    var l, r := t.left, t.right;
    if a in Leaves(l) && b in Leaves(l) {
      ExchangeCost(l, w, d + 1, a, b);
      ExchangeNeither(r, a, b);
    } else if a in Leaves(r) && b in Leaves(r) {
      ExchangeCost(r, w, d + 1, a, b);
      ExchangeNeither(l, a, b);
    } else if a in Leaves(l) {
      ExchangeOne(l, w, d + 1, a, b);
      ExchangeOne(r, w, d + 1, b, a);
      ExchangeSymmetric(r, a, b);
      Crosswise(Weight(w, a), Weight(w, b), DepthOf(t, a, d), DepthOf(t, b, d));
    } else {
      ExchangeOne(l, w, d + 1, b, a);
      ExchangeSymmetric(l, a, b);
      ExchangeOne(r, w, d + 1, a, b);
      Crosswise(Weight(w, a), Weight(w, b), DepthOf(t, a, d), DepthOf(t, b, d));
    }
  }

  lemma {:induction false} ExchangeDepth(t: Tree, d: nat, a: nat, b: nat, i: nat)
    requires Proper(t) && i in Leaves(t)
    ensures Swapped(i, a, b) in Leaves(Exchange(t, a, b))
    ensures DepthOf(Exchange(t, a, b), Swapped(i, a, b), d) == DepthOf(t, i, d)
  {
    ExchangeLeaves(t, a, b);
    if t.Node? {
      ExchangeLeaves(t.left, a, b);
      ExchangeDepth(if i in Leaves(t.left) then t.left else t.right, d + 1, a, b, i);
    }
  }

  // ----- sibling leaves -----

  predicate Siblings(t: Tree, a: nat, b: nat) {
    t.Node? && (t == Node(Leaf(a), Leaf(b)) || t == Node(Leaf(b), Leaf(a)) || Siblings(t.left, a, b) || Siblings(t.right, a, b))
  }

  lemma {:induction false} SiblingsFacts(t: Tree, a: nat, b: nat, d: nat)
    requires Proper(t) && Siblings(t, a, b)
    ensures a in Leaves(t) && b in Leaves(t) && a != b && DepthOf(t, a, d) == DepthOf(t, b, d)
  {
    if t == Node(Leaf(a), Leaf(b)) || t == Node(Leaf(b), Leaf(a)) {
    } else if Siblings(t.left, a, b) {
      SiblingsFacts(t.left, a, b, d + 1);
    } else {
      SiblingsFacts(t.right, a, b, d + 1);
    }
  }

  lemma {:induction false} ExchangeSiblings(t: Tree, a: nat, b: nat, x: nat, y: nat)
    requires Siblings(t, x, y)
    ensures Siblings(Exchange(t, a, b), Swapped(x, a, b), Swapped(y, a, b))
  {
    if t == Node(Leaf(x), Leaf(y)) || t == Node(Leaf(y), Leaf(x)) {
    } else if Siblings(t.left, x, y) {
      ExchangeSiblings(t.left, a, b, x, y);
    } else {
      ExchangeSiblings(t.right, a, b, x, y);
    }
  }

  lemma {:induction false} DepthAtMostHeight(t: Tree, i: nat, d: nat)
    requires i in Leaves(t)
    ensures d <= DepthOf(t, i, d) <= d + Height(t)
  {
    if t.Node? {
      DepthAtMostHeight(if i in Leaves(t.left) then t.left else t.right, i, d + 1);
    }
  }

  /** Some two leaves at the greatest depth are siblings. */
  lemma {:induction false} DeepestSiblings(t: Tree, d: nat) returns (p: nat, q: nat)
    requires Proper(t) && t.Node?
    ensures Siblings(t, p, q) && DepthOf(t, p, d) == d + Height(t)
  {
    if t.left.Leaf? && t.right.Leaf? {
      p, q := t.left.id, t.right.id;
    } else if Height(t.left) >= Height(t.right) {
      p, q := DeepestSiblings(t.left, d + 1);
      SiblingsFacts(t.left, p, q, d + 1);
    } else {
      p, q := DeepestSiblings(t.right, d + 1);
      SiblingsFacts(t.right, p, q, d + 1);
    }
  }

  /** Moving leaf `a`, which weighs no more than leaf `p`, to the place of `p`, which lies no higher, does not raise
      the cost. */
  lemma SinkLeaf(t: Tree, w: seq<int>, a: nat, p: nat) returns (t': Tree)
    requires Proper(t) && a in Leaves(t) && p in Leaves(t) && Weight(w, a) <= Weight(w, p)
    requires DepthOf(t, a, 0) <= DepthOf(t, p, 0)
    ensures t' == Exchange(t, a, p) && Proper(t') && Leaves(t') == Leaves(t) && Cost(t', w, 0) <= Cost(t, w, 0)
  {
    t' := Exchange(t, a, p);
    ExchangeLeaves(t, a, p);
    if a == p {
      ExchangeSame(t, a);
    } else {
      ExchangeCost(t, w, 0, a, p);
      ProductOfSigns(Weight(w, a) - Weight(w, p), DepthOf(t, p, 0) - DepthOf(t, a, 0));
    }
  }

  lemma ExchangeSame(t: Tree, a: nat)
    ensures Exchange(t, a, a) == t
  {
  }

  lemma ProductOfSigns(x: int, y: int)
    requires x <= 0 <= y
    ensures x * y <= 0
  {
  }

  // ----- merging two siblings into one leaf, and splitting a leaf -----

  function Merge(t: Tree, a: nat, b: nat, k: nat): Tree {
    match t
    case Leaf(_) => t
    case Node(l, r) =>
      if t == Node(Leaf(a), Leaf(b)) || t == Node(Leaf(b), Leaf(a)) then Leaf(k)
      else if Siblings(l, a, b) then Node(Merge(l, a, b, k), r)
      else Node(l, Merge(r, a, b, k))
  }

  lemma {:induction false} MergeCost(t: Tree, w: seq<int>, d: nat, a: nat, b: nat, k: nat)
    requires Proper(t) && Siblings(t, a, b) && k !in Leaves(t) && Weight(w, k) == Weight(w, a) + Weight(w, b)
    ensures var t' := Merge(t, a, b, k);
            Proper(t') && Leaves(t') == Leaves(t) - {a, b} + {k} && Cost(t, w, d) == Cost(t', w, d) + Weight(w, k)
  {
    if t == Node(Leaf(a), Leaf(b)) || t == Node(Leaf(b), Leaf(a)) {
      Distribute(Weight(w, a), Weight(w, b), d);
    } else if Siblings(t.left, a, b) {
      SiblingsFacts(t.left, a, b, d);
      MergeCost(t.left, w, d + 1, a, b, k);
    } else {
      SiblingsFacts(t.right, a, b, d);
      MergeCost(t.right, w, d + 1, a, b, k);
    }
  }

  lemma Distribute(x: int, y: int, d: int)
    ensures x * (d + 1) + y * (d + 1) == (x + y) * d + (x + y)
  {
  }

  function Split(t: Tree, k: nat, a: nat, b: nat): Tree {
    match t
    case Leaf(i) => if i == k then Node(Leaf(a), Leaf(b)) else t
    case Node(l, r) => Node(Split(l, k, a, b), Split(r, k, a, b))
  }

  lemma {:induction false} SplitNone(t: Tree, k: nat, a: nat, b: nat)
    requires k !in Leaves(t)
    ensures Split(t, k, a, b) == t
  {
    if t.Node? {
      SplitNone(t.left, k, a, b);
      SplitNone(t.right, k, a, b);
    }
  }

  /** Splitting leaf `k` puts `a` and `b` one level below it and leaves every other leaf where it is. */
  lemma {:induction false} SplitFacts(t: Tree, d: nat, k: nat, a: nat, b: nat)
    requires Proper(t) && k in Leaves(t) && a != b && a !in Leaves(t) && b !in Leaves(t)
    ensures var t' := Split(t, k, a, b);
            && Proper(t') && Leaves(t') == Leaves(t) - {k} + {a, b}
            && DepthOf(t', a, d) == DepthOf(t', b, d) == DepthOf(t, k, d) + 1
            && forall i :: i in Leaves(t) && i != k ==> DepthOf(t', i, d) == DepthOf(t, i, d)
  {
    if t.Node? {
      if k in Leaves(t.left) {
        SplitFacts(t.left, d + 1, k, a, b);
        SplitNone(t.right, k, a, b);
      } else {
        SplitFacts(t.right, d + 1, k, a, b);
        SplitNone(t.left, k, a, b);
      }
    }
  }

  lemma {:induction false} SplitCost(t: Tree, w: seq<int>, d: nat, k: nat, a: nat, b: nat)
    requires Proper(t) && k in Leaves(t) && Weight(w, k) == Weight(w, a) + Weight(w, b)
    ensures Cost(Split(t, k, a, b), w, d) == Cost(t, w, d) + Weight(w, k)
  {
    if t.Leaf? {
      Distribute(Weight(w, a), Weight(w, b), d);
    } else if k in Leaves(t.left) {
      SplitCost(t.left, w, d + 1, k, a, b);
      SplitNone(t.right, k, a, b);
    } else {
      SplitCost(t.right, w, d + 1, k, a, b);
      SplitNone(t.left, k, a, b);
    }
  }

  // ----- the greedy choice -----

  ghost predicate Lightest(w: seq<int>, s: set<nat>, a: nat) {
    a in s && forall x :: x in s ==> Weight(w, a) <= Weight(w, x)
  }

  /** Joining the two lightest leaves is a best first move: from any tree there is one over the joined leaves that,
      with the joint weight added, costs no more. */
  lemma GreedyChoice(t: Tree, w: seq<int>, a: nat, b: nat, k: nat) returns (t': Tree)
    requires Proper(t) && Lightest(w, Leaves(t), a) && Lightest(w, Leaves(t) - {a}, b)
    requires k !in Leaves(t) && Weight(w, k) == Weight(w, a) + Weight(w, b)
    ensures Proper(t') && Leaves(t') == Leaves(t) - {a, b} + {k}
    ensures Cost(t', w, 0) + Weight(w, k) <= Cost(t, w, 0)
  {
    var p, q := DeepestSiblings(t, 0);
    SiblingsFacts(t, p, q, 0);
    DepthAtMostHeight(t, a, 0);
    var t1 := SinkLeaf(t, w, a, p);
    var q1 := Swapped(q, a, p);
    ExchangeSiblings(t, a, p, p, q);
    ExchangeDepth(t, 0, a, p, q);
    ExchangeDepth(t, 0, a, p, Swapped(b, a, p));
    DepthAtMostHeight(t, Swapped(b, a, p), 0);
    SiblingsFacts(t1, a, q1, 0);
    var t2 := SinkLeaf(t1, w, b, q1);
    ExchangeSiblings(t1, b, q1, a, q1);
    assert Swapped(a, b, q1) == a;
    t' := Merge(t2, a, b, k);
    MergeCost(t2, w, 0, a, b, k);
  }
}
