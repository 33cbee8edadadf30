/** The Huffman program: the merge loop, code lengths, code words and the length of the encoded text. */
module HuffmanCode {
  import opened HuffmanTrees
  import opened HuffmanHeap

  function Symbols(n: nat): (s: set<nat>)
    ensures forall x: nat :: x in s <==> x < n
  {
    if n == 0 then {} else Symbols(n - 1) + {n - 1}
  }

  /** A full binary tree whose leaves are the symbols 0 to n-1. */
  ghost predicate CodeTree(t: Tree, n: nat) {
    Proper(t) && Leaves(t) == Symbols(n)
  }

  // ----- the record of the merge loop -----

  /** The arrays of the program, and the set of queued nodes before each merge. */
  datatype Record = Record(n: nat, pr: seq<int>, left: seq<int>, right: seq<int>, parent: seq<int>, queue: seq<set<nat>>) {
    ghost predicate Shaped() {
      && n >= 1 && |pr| == |left| == |right| == |parent| == 2 * n - 1
      && 1 <= |queue| <= n && queue[0] == Symbols(n)
    }

    /** Merge number `k` joined the two lightest queued nodes under node n + k. */
    ghost predicate Joined(k: nat)
      requires Shaped() && k + 1 < |queue|
    {
      var i := n + k;
      var l, r := left[i], right[i];
      && 0 <= l < i && 0 <= r < i && l != r
      && Lightest(pr, queue[k], l) && Lightest(pr, queue[k] - {l}, r)
      && queue[k + 1] == queue[k] - {l, r} + {i}
      && pr[i] == pr[l] + pr[r]
      && parent[l] == i && parent[r] == i
    }

    ghost predicate Valid() {
      && Shaped()
      && (forall k: nat :: k < |queue| ==> forall x :: x in queue[k] ==> x < n + k)
      && (forall k: nat :: k + 1 < |queue| ==> Joined(k))
    }

    ghost predicate Complete() {
      Valid() && |queue| == n && queue[n - 1] == {2 * n - 2}
    }

    function Root(): int {
      2 * n - 2
    }
  }

  /** A node that has left the queue never comes back. */
  lemma {:induction false} GoneForever(h: Record, k: nat, k': nat, x: nat)
    requires h.Valid() && k <= k' < |h.queue| && x !in h.queue[k] && x < h.n + k
    ensures x !in h.queue[k']
    decreases k' - k
  {
    if k < k' {
      assert h.Joined(k);
      GoneForever(h, k + 1, k', x);
    }
  }

  /** Every queued node but the root is joined under its parent, which has a greater number. */
  lemma {:induction false} ChildOfParent(h: Record, k: nat, x: nat)
    requires h.Complete() && k < h.n && x in h.queue[k] && x != h.Root()
    ensures var p := h.parent[x]; h.n <= p <= h.Root() && x < p && (h.left[p] == x || h.right[p] == x)
    decreases h.n - k
  {
    if k < h.n - 1 {
      assert h.Joined(k);
      if x in h.queue[k + 1] {
        ChildOfParent(h, k + 1, x);
      }
    }
  }

  lemma AnyChildOfParent(h: Record, x: nat)
    requires h.Complete() && x < h.Root()
    ensures var p := h.parent[x]; h.n <= p <= h.Root() && x < p && (h.left[p] == x || h.right[p] == x)
  {
    if x < h.n {
      ChildOfParent(h, 0, x);
    } else {
      assert h.Joined(x - h.n);
      ChildOfParent(h, x - h.n + 1, x);
    }
  }

  lemma AllParents(h: Record)
    requires h.Complete()
    ensures forall x: nat :: x < h.Root() ==>
              h.n <= h.parent[x] <= h.Root() && x < h.parent[x] && (h.left[h.parent[x]] == x || h.right[h.parent[x]] == x)
  {
    forall x: nat | x < h.Root()
      ensures h.n <= h.parent[x] <= h.Root() && x < h.parent[x] && (h.left[h.parent[x]] == x || h.right[h.parent[x]] == x)
    {
      AnyChildOfParent(h, x);
    }
  }

  lemma Children(h: Record, i: nat)
    requires h.Complete() && h.n <= i <= h.Root()
    ensures 0 <= h.left[i] < i && 0 <= h.right[i] < i && h.left[i] != h.right[i]
    ensures h.parent[h.left[i]] == i == h.parent[h.right[i]]
  {
    assert h.Joined(i - h.n);
  }

  // ----- optimality -----

  /** The weights of the nodes made by merges number k, k + 1, ... */
  function MergedWeight(h: Record, k: nat): int
    requires h.n >= 1 && |h.pr| == 2 * h.n - 1 && k <= h.n - 1
    decreases h.n - k
  {
    if k == h.n - 1 then 0 else h.pr[h.n + k] + MergedWeight(h, k + 1)
  }

  lemma SingleLeaf(t: Tree, i: nat)
    requires Proper(t) && Leaves(t) == {i}
    ensures t == Leaf(i)
  {
    if t.Node? {
      var x := SomeLeaf(t.left);
      var y := SomeLeaf(t.right);
      assert false;
    }
  }

  lemma {:induction false} SomeLeaf(t: Tree) returns (x: nat)
    ensures x in Leaves(t)
  {
    if t.Leaf? {
      x := t.id;
    } else {
      x := SomeLeaf(t.left);
    }
  }

  /** No tree over the nodes queued before merge `k` costs less than the merges that follow. */
  lemma {:induction false} NoneCheaper(h: Record, k: nat, t: Tree)
    requires h.Complete() && k < h.n && Proper(t) && Leaves(t) == h.queue[k]
    ensures MergedWeight(h, k) <= Cost(t, h.pr, 0)
    decreases h.n - k
  {
    if k == h.n - 1 {
      SingleLeaf(t, h.Root());
    } else {
      assert h.Joined(k);
      var t' := GreedyChoice(t, h.pr, h.left[h.n + k], h.right[h.n + k], h.n + k);
      NoneCheaper(h, k + 1, t');
    }
  }

  /** The number of edges from the root to node `x`. */
  function Length(h: Record, x: nat): nat
    requires h.n >= 1 && |h.parent| == 2 * h.n - 1
    decreases 2 * h.n - x
  {
    if x >= 2 * h.n - 2 || h.parent[x] <= x || h.parent[x] >= 2 * h.n then 0 else 1 + Length(h, h.parent[x])
  }

  lemma {:induction false} InnerLength(h: Record, i: nat)
    requires h.Complete() && h.n <= i <= h.Root()
    ensures Length(h, i) <= h.Root() - i
    decreases h.Root() - i
  {
    if i < h.Root() {
      AnyChildOfParent(h, i);
      InnerLength(h, h.parent[i]);
    }
  }

  /** The tree that the merges from `k` on build over the nodes queued before. */
  lemma {:induction false} TreeBuilt(h: Record, k: nat) returns (t: Tree)
    requires h.Complete() && k < h.n
    ensures Proper(t) && Leaves(t) == h.queue[k] && Cost(t, h.pr, 0) == MergedWeight(h, k)
    ensures forall x :: x in Leaves(t) ==> x <= h.Root() && DepthOf(t, x, 0) == Length(h, x)
    decreases h.n - k
  {
    if k == h.n - 1 {
      t := Leaf(h.Root());
    } else {
      assert h.Joined(k);
      var i := h.n + k;
      var l, r := h.left[i], h.right[i];
      var t1 := TreeBuilt(h, k + 1);
      assert l !in Leaves(t1) && r !in Leaves(t1);
      SplitFacts(t1, 0, i, l, r);
      SplitCost(t1, h.pr, 0, i, l, r);
      t := Split(t1, i, l, r);
      assert i !in h.queue[k];
    }
  }

  /** The sum of weight times length over the members of `s` below `b`. */
  function SumOver(b: nat, s: set<nat>, w: seq<int>, len: nat -> nat): int {
    if b == 0 then 0 else SumOver(b - 1, s, w, len) + if b - 1 in s then Weight(w, b - 1) * len(b - 1) else 0
  }

  lemma {:induction false} SumOverUnion(b: nat, s: set<nat>, s': set<nat>, w: seq<int>, len: nat -> nat)
    requires s !! s'
    ensures SumOver(b, s + s', w, len) == SumOver(b, s, w, len) + SumOver(b, s', w, len)
  {
    if b > 0 {
      SumOverUnion(b - 1, s, s', w, len);
    }
  }

  lemma {:induction false} SumOverOne(b: nat, i: nat, w: seq<int>, len: nat -> nat)
    ensures SumOver(b, {i}, w, len) == if i < b then Weight(w, i) * len(i) else 0
  {
    if b > 0 {
      SumOverOne(b - 1, i, w, len);
    }
  }

  /** The cost of a tree is the sum over its leaves. */
  lemma {:induction false} CostIsSum(t: Tree, w: seq<int>, d: nat, b: nat, len: nat -> nat)
    requires Proper(t) && forall x :: x in Leaves(t) ==> x < b && DepthOf(t, x, d) == len(x)
    ensures Cost(t, w, d) == SumOver(b, Leaves(t), w, len)
  {
    match t
    case Leaf(i) =>
      SumOverOne(b, i, w, len);
    case Node(l, r) =>
      assert forall x :: x in Leaves(l) ==> DepthOf(t, x, d) == DepthOf(l, x, d + 1);
      assert forall x :: x in Leaves(r) ==> DepthOf(t, x, d) == DepthOf(r, x, d + 1);
      CostIsSum(l, w, d + 1, b, len);
      CostIsSum(r, w, d + 1, b, len);
      SumOverUnion(b, Leaves(l), Leaves(r), w, len);
  }

  /** The length of the text encoded with code words of the lengths computed. */
  function EncodedLength(h: Record, b: nat): int
    requires h.n >= 1 && |h.parent| == 2 * h.n - 1
  {
    if b == 0 then 0 else EncodedLength(h, b - 1) + Weight(h.pr, b - 1) * Length(h, b - 1)
  }

  lemma {:induction false} EncodedLengthIsSum(h: Record, b: nat)
    requires h.n >= 1 && |h.parent| == 2 * h.n - 1 && b <= h.n
    ensures EncodedLength(h, b) == SumOver(b, Symbols(h.n), h.pr, (x: nat) => Length(h, x))
  {
    if b > 0 {
      EncodedLengthIsSum(h, b - 1);
    }
  }

  /** Huffman's code is optimal: its encoded length is the cost of some tree over the symbols and no tree has a smaller
      one. */
  lemma HuffmanOptimal(h: Record)
    requires h.Complete()
    ensures exists t :: CodeTree(t, h.n) && Cost(t, h.pr, 0) == EncodedLength(h, h.n)
    ensures forall t :: CodeTree(t, h.n) ==> EncodedLength(h, h.n) <= Cost(t, h.pr, 0)
  {
    var t := TreeBuilt(h, 0);
    CostIsSum(t, h.pr, 0, h.n, (x: nat) => Length(h, x));
    EncodedLengthIsSum(h, h.n);
    assert CodeTree(t, h.n);
    forall t' | CodeTree(t', h.n)
      ensures EncodedLength(h, h.n) <= Cost(t', h.pr, 0)
    {
      NoneCheaper(h, 0, t');
    }
  }

  // ----- code words -----

  /** The way from the root to node `x`: '0' to the left, '1' to the right. */
  function Code(h: Record, x: nat): string
    requires h.n >= 1 && |h.parent| == |h.left| == 2 * h.n - 1
    decreases 2 * h.n - x
  {
    if x >= 2 * h.n - 2 || h.parent[x] <= x || h.parent[x] >= 2 * h.n - 1 then ""
    else Code(h, h.parent[x]) + [if h.left[h.parent[x]] == x then '0' else '1']
  }

  /** Reads bits from node `x` down to a symbol; what is left of the bits comes with it. */
  datatype Read = Symbol(id: nat, rest: string) | Stuck

  function Walk(h: Record, x: nat, bits: string): Read
    requires h.Complete() && x <= h.Root()
    decreases |bits|
  {
    if x < h.n then Symbol(x, bits)
    else if bits == "" then Stuck
    else
      assert h.Joined(x - h.n);
      Walk(h, if bits[0] == '0' then h.left[x] else h.right[x], bits[1..])
  }

  lemma {:induction false} WalkCode(h: Record, x: nat, rest: string)
    requires h.Complete() && x <= h.Root()
    ensures Walk(h, h.Root(), Code(h, x) + rest) == Walk(h, x, rest)
    decreases h.Root() - x
  {
    if x == h.Root() {
      assert Code(h, x) + rest == rest;
    } else {
      AnyChildOfParent(h, x);
      var p := h.parent[x];
      Children(h, p);
      var bit := if h.left[p] == x then '0' else '1';
      assert Code(h, x) + rest == Code(h, p) + ([bit] + rest);
      WalkCode(h, p, [bit] + rest);
      assert ([bit] + rest)[1..] == rest;
    }
  }

  /** No code word is the start of another. */
  lemma PrefixFree(h: Record, x: nat, y: nat)
    requires h.Complete() && x < h.n && y < h.n && Code(h, x) <= Code(h, y)
    ensures x == y
  {
    var rest := Code(h, y)[|Code(h, x)|..];
    assert Code(h, y) == Code(h, x) + rest;
    assert Code(h, y) == Code(h, y) + "";
    WalkCode(h, x, rest);
    WalkCode(h, y, "");
  }

  function Encode(h: Record, text: seq<nat>): string
    requires h.n >= 1 && |h.parent| == |h.left| == 2 * h.n - 1
  {
    if text == [] then "" else Code(h, text[0]) + Encode(h, text[1..])
  }

  function Decode(h: Record, bits: string): seq<nat>
    requires h.Complete()
    decreases |bits|
  {
    if bits == "" then [] else
    match Walk(h, h.Root(), bits)
    case Stuck => []
    case Symbol(x, rest) => if |rest| < |bits| then [x] + Decode(h, rest) else []
  }

  lemma CodeNonempty(h: Record, x: nat)
    requires h.Complete() && x < h.n && h.n >= 2
    ensures Code(h, x) != ""
  {
    AnyChildOfParent(h, x);
  }

  /** With two symbols or more, every encoded text decodes to itself. */
  lemma {:induction false} DecodeEncode(h: Record, text: seq<nat>)
    requires h.Complete() && h.n >= 2 && IsText(h, text)
    ensures Decode(h, Encode(h, text)) == text
  {
    if text != [] {
      var rest := Encode(h, text[1..]);
      WalkCode(h, text[0], rest);
      CodeNonempty(h, text[0]);
      DecodeEncode(h, text[1..]);
    }
  }

  ghost predicate IsText(h: Record, s: seq<nat>) {
    forall i :: 0 <= i < |s| ==> s[i] < h.n
  }

  /** Encoding loses nothing exactly if there are at least two symbols: a single symbol gets the empty code word. */
  lemma UniquelyDecodable(h: Record)
    requires h.Complete()
    ensures (forall s, t :: IsText(h, s) && IsText(h, t) && Encode(h, s) == Encode(h, t) ==> s == t) <==> h.n >= 2
  {
    if h.n >= 2 {
      forall s, t | IsText(h, s) && IsText(h, t) && Encode(h, s) == Encode(h, t)
        ensures s == t
      {
        DecodeEncode(h, s);
        DecodeEncode(h, t);
      }
    } else {
      var s: seq<nat>, t: seq<nat> := [0], [];
      assert IsText(h, s) && IsText(h, t);
      assert Encode(h, s) == Code(h, 0) + Encode(h, []) == "" == Encode(h, t);
      assert s != t;
    }
  }

  // ----- the program -----

  /** Everything that the merge at node `i` writes leaves the record of earlier merges as it was. */
  lemma RecordKept(h: Record, pr: seq<int>, left: seq<int>, right: seq<int>, parent: seq<int>)
    requires h.Valid()
    requires |pr| == |left| == |right| == |parent| == 2 * h.n - 1
    requires var i := h.n + |h.queue| - 1;
             forall x :: 0 <= x < i && x < |pr| ==> pr[x] == h.pr[x] && left[x] == h.left[x] && right[x] == h.right[x]
    requires var last := h.queue[|h.queue| - 1];
             forall x: nat :: x < |parent| && x !in last ==> parent[x] == h.parent[x]
    ensures Record(h.n, pr, left, right, parent, h.queue).Valid()
  {
    var h' := Record(h.n, pr, left, right, parent, h.queue);
    forall k: nat | k + 1 < |h.queue|
      ensures h'.Joined(k)
    {
      assert h.Joined(k);
      var i := h.n + k;
      GoneForever(h, k + 1, |h.queue| - 1, h.left[i]);
      GoneForever(h, k + 1, |h.queue| - 1, h.right[i]);
      assert forall x :: x in h.queue[k] ==> Weight(pr, x) == Weight(h.pr, x);
    }
  }

  lemma RecordExtended(h: Record, q: set<nat>)
    requires h.Valid() && |h.queue| < h.n
    requires var k := |h.queue| - 1; var i := h.n + k;
             && 0 <= h.left[i] < i && 0 <= h.right[i] < i && h.left[i] != h.right[i]
             && Lightest(h.pr, h.queue[k], h.left[i]) && Lightest(h.pr, h.queue[k] - {h.left[i]}, h.right[i])
             && q == h.queue[k] - {h.left[i], h.right[i]} + {i}
             && h.pr[i] == h.pr[h.left[i]] + h.pr[h.right[i]]
             && h.parent[h.left[i]] == i && h.parent[h.right[i]] == i
    ensures h.(queue := h.queue + [q]).Valid()
  {
    var h' := h.(queue := h.queue + [q]);
    forall k: nat | k + 1 < |h'.queue|
      ensures h'.Joined(k)
    {
      if k + 1 < |h.queue| {
        assert h.Joined(k);
      }
    }
  }

  /** The record after the merge of `l` and `r` under node `i`. */
  lemma RecordMerged(h: Record, i: nat, l: nat, r: nat, h': Record)
    requires h.Valid() && i == h.n + |h.queue| - 1 && i < |h.pr| && l < i && r < i && l != r
    requires var q := h.queue[|h.queue| - 1];
             && Lightest(h.pr, q, l) && Lightest(h.pr, q - {l}, r)
             && h' == Record(h.n, h.pr[i := h.pr[l] + h.pr[r]], h.left[i := l], h.right[i := r],
                             h.parent[l := i][r := i], h.queue + [q - {l, r} + {i}])
    ensures h'.Valid()
  {
    var h1 := Record(h.n, h'.pr, h'.left, h'.right, h'.parent, h.queue);
    RecordKept(h, h'.pr, h'.left, h'.right, h'.parent);
    RecordExtended(h1, h'.queue[|h.queue|]);
    assert h' == h1.(queue := h1.queue + [h'.queue[|h.queue|]]);
  }

  lemma OrderedKept(a: seq<int>, a': seq<int>, pq: seq<int>, qp: seq<int>, n: int)
    requires Linked(pq, qp, n) && |a| == |a'| == |qp| && Ordered(a, pq, n)
    requires forall k :: k in Queued(qp) ==> a[k] == a'[k]
    ensures Ordered(a', pq, n)
  {
    forall p | 1 <= p <= n
      ensures At(a', pq, p) == At(a, pq, p)
    {
      assert pq[p] in Queued(qp);
    }
  }

  lemma OneQueued(pq: seq<int>, qp: seq<int>, x: nat)
    requires Linked(pq, qp, 1) && x in Queued(qp)
    ensures Queued(qp) == {x}
  {
  }

  /** What the program computes from the weights: a complete record of merges over them, and from it the code words and
      the length of the encoded text. */
  class Huffman {
    const n: nat
    const priority: array<int>
    const left: array<int>
    const right: array<int>
    const parent: array<int>
    const length: array<int>
    ghost var queue: seq<set<nat>>

    ghost predicate Shaped()
      reads this
    {
      && n >= 1 && priority.Length == left.Length == right.Length == parent.Length == length.Length == 2 * n - 1
      && priority != left && priority != right && priority != parent && priority != length && left != right
      && left != parent && left != length && right != parent && right != length && parent != length
    }

    ghost function State(): Record
      reads this, priority, left, right, parent
    {
      Record(n, priority[..], left[..], right[..], parent[..], queue)
    }

    constructor (weights: seq<int>)
      requires |weights| >= 1
      ensures Shaped() && n == |weights|
      ensures fresh(priority) && fresh(left) && fresh(right) && fresh(parent) && fresh(length)
    {
      var m := 2 * |weights| - 1;
      n := |weights|;
      priority := new int[m];
      left := new int[m];
      right := new int[m];
      parent := new int[m];
      length := new int[m];
    }

    /** Reads the weights and queues every symbol. */
    method QueueSymbols(weights: seq<int>) returns (heap: MinHeap)
      requires Shaped() && n == |weights|
      modifies priority
      ensures priority[..n] == weights
      ensures fresh(heap) && fresh(heap.pq) && fresh(heap.qp) && heap.a == priority && heap.pq.Length == n + 1
      ensures heap.Valid() && heap.N == n && heap.Items() == Symbols(n)
    {
      hide Linked, OrderedBut;
      heap := new MinHeap(priority, n);
      for i := 0 to n
        invariant priority[..i] == weights[..i]
        invariant heap.Valid() && heap.N == i && heap.Items() == Symbols(i)
      {
        ghost var before := priority[..];
        priority[i] := weights[i];
        OrderedKept(before, priority[..], heap.pq[..], heap.qp[..], heap.N);
        heap.Insert(i);
      }
    }

    /** Joins the two lightest queued nodes until one is left. */
    method MergeLoop(heap: MinHeap)
      requires Shaped() && heap.a == priority && heap.pq.Length == n + 1
      requires {heap.pq, heap.qp} !! {priority, left, right, parent, length}
      requires heap.Valid() && heap.N == n && heap.Items() == Symbols(n)
      modifies this`queue, heap, heap.pq, heap.qp, priority, left, right, parent
      ensures State().Complete() && priority[..n] == old(priority[..n])
    {
      hide Linked, OrderedBut;
      var m := 2 * n - 1;
      queue := [heap.Items()];
      var i := n;
      while i < m
        invariant n <= i <= m && priority[..n] == old(priority[..n])
        invariant heap.Valid() && heap.N == 2 * n - i && |queue| == i - n + 1 && queue[i - n] == heap.Items()
        invariant State().Valid()
        invariant if i == n then heap.Items() == Symbols(n) else i - 1 in heap.Items()
      {
        MergeOnce(heap, i);
        i := i + 1;
      }
      OneQueued(heap.pq[..], heap.qp[..], m - 1);
      ghost var h := State();
      i := heap.ExtractMin();
      parent[m - 1] := -1;
      RecordKept(h, priority[..], left[..], right[..], parent[..]);
    }

    method MergeOnce(heap: MinHeap, i: nat)
      requires Shaped() && n <= i < 2 * n - 1
      requires heap.a == priority && heap.pq.Length == n + 1 && {heap.pq, heap.qp} !! {left, right, parent, length}
      requires heap.Valid() && heap.N == 2 * n - i && |queue| == i - n + 1 && queue[i - n] == heap.Items()
      requires State().Valid()
      modifies this`queue, heap, heap.pq, heap.qp, priority, left, right, parent
      ensures heap.Valid() && heap.N == 2 * n - i - 1 && heap.pq.Length == n + 1
      ensures |queue| == i - n + 2 && queue[i - n + 1] == heap.Items() && i in heap.Items()
      ensures State().Valid() && priority[..n] == old(priority[..n])
    {
      hide Linked, OrderedBut;
      ghost var h := State();
      var l, r := TakeTwo(heap);
      Join(i, l, r);
      OrderedKept(h.pr, priority[..], heap.pq[..], heap.qp[..], heap.N);
      heap.Insert(i);
      queue := queue + [heap.Items()];
      RecordMerged(h, i, l, r, State());
    }

    method Join(i: nat, l: nat, r: nat)
      requires Shaped() && l < i && r < i && i < priority.Length
      modifies priority, left, right, parent
      ensures priority[..] == old(priority[..][i := priority[l] + priority[r]])
      ensures left[..] == old(left[..][i := l]) && right[..] == old(right[..][i := r])
      ensures parent[..] == old(parent[..][l := i][r := i])
    {
      left[i] := l;
      right[i] := r;
      parent[l] := i;
      parent[r] := i;
      priority[i] := priority[l] + priority[r];
    }

    method TakeTwo(heap: MinHeap) returns (l: nat, r: nat)
      requires Shaped() && heap.Valid() && heap.a == priority && heap.N >= 2
      modifies heap, heap.pq, heap.qp
      ensures heap.Valid() && heap.N == old(heap.N) - 2
      ensures l < priority.Length && r < priority.Length && l != r
      ensures Lightest(priority[..], old(heap.Items()), l) && Lightest(priority[..], old(heap.Items()) - {l}, r)
      ensures heap.Items() == old(heap.Items()) - {l, r}
    {
      hide Linked, OrderedBut;
      l := heap.ExtractMin();
      r := heap.ExtractMin();
    }

    /** The number of bits of every node, from the root down. */
    method Lengths()
      requires Shaped() && State().Complete()
      modifies length
      ensures forall x :: 0 <= x < 2 * n - 1 ==> length[x] == Length(State(), x)
    {
      ghost var h := State();
      var m := 2 * n - 1;
      AllParents(h);
      length[m - 1] := 0;
      var i := m - 1;
      while i >= n
        invariant n - 1 <= i <= m - 1 && State() == h
        invariant length[m - 1] == 0
        invariant forall x :: 0 <= x < m - 1 && h.parent[x] > i ==> length[x] == Length(h, x)
      {
        Children(h, i);
        length[left[i]], length[right[i]] := length[i] + 1, length[i] + 1;
        i := i - 1;
      }
    }

    /** The code word of symbol `i`, written from its end into a buffer that is shared by all symbols. */
    method CodeWord(i: nat, outString: array<char>)
      requires Shaped() && State().Complete() && i < n && outString.Length == n + 1
      requires forall x :: 0 <= x < 2 * n - 1 ==> length[x] == Length(State(), x)
      modifies outString
      ensures 0 <= length[i] <= n && outString[..length[i]] == Code(State(), i) && outString[length[i]] == '\0'
    {
      hide Record.Complete, Code, Length;
      ghost var h := State();
      LengthFits(h, i);
      CodeLength(h, i);
      CodeRoot(h);
      outString[length[i]] := '\0';
      var j := i;
      while j != 2 * n - 2
        invariant 0 <= j <= 2 * n - 2 && State() == h && 0 <= length[j] <= length[i] <= n
        invariant Code(h, i) == Code(h, j) + outString[length[j]..length[i]]
        invariant outString[length[i]] == '\0' && |Code(h, j)| == length[j]
        decreases 2 * n - j
      {
        CodeStep(h, j);
        var k := length[j] - 1;
        ghost var tail := outString[k + 1..length[i]];
        outString[k] := if left[parent[j]] == j then '0' else '1';
        assert outString[k..length[i]] == [outString[k]] + tail;
        j := parent[j];
      }
    }

    /** The whole program: the code words and the length of the text in which each symbol occurs as often as its
        weight says. */
    method Compress(weights: seq<int>) returns (total: int, codes: seq<string>)
      requires Shaped() && n == |weights|
      modifies this`queue, priority, left, right, parent, length
      ensures State().Complete() && priority[..n] == weights && |codes| == n
      ensures forall i :: 0 <= i < n ==> codes[i] == Code(State(), i)
      ensures exists t :: CodeTree(t, n) && Cost(t, weights, 0) == total
      ensures forall t :: CodeTree(t, n) ==> total <= Cost(t, weights, 0)
    {
      hide Length, EncodedLength, Code, CodeTree, Cost, Record.Complete;
      var heap := QueueSymbols(weights);
      MergeLoop(heap);
      Lengths();
      total, codes := Encode();
      CompleteShaped(State());
      HuffmanOptimal(State());
      SameCosts(State(), weights);
    }

    /** The code words of all symbols, and the length of the text encoded. */
    method Encode() returns (total: int, codes: seq<string>)
      requires Shaped() && State().Complete()
      requires forall x :: 0 <= x < 2 * n - 1 ==> length[x] == Length(State(), x)
      ensures |codes| == n && total == EncodedLength(State(), n)
      ensures forall i :: 0 <= i < n ==> codes[i] == Code(State(), i)
    {
      hide Length, Code, Record.Complete;
      var outString := new char[n + 1];
      total, codes := 0, [];
      for i := 0 to n
        invariant |codes| == i && total == EncodedLength(State(), i)
        invariant forall k :: 0 <= k < i ==> codes[k] == Code(State(), k)
      {
        CodeWord(i, outString);
        codes := codes + [outString[..length[i]]];
        total := total + priority[i] * length[i];
      }
    }
  }

  /** Costs of trees over the symbols depend only on the symbols' weights. */
  lemma CompleteShaped(h: Record)
    requires h.Complete()
    ensures h.Shaped()
  {
  }

  lemma SameCosts(h: Record, weights: seq<int>)
    requires h.Shaped() && h.pr[..h.n] == weights
    ensures forall t :: CodeTree(t, h.n) ==> Cost(t, h.pr, 0) == Cost(t, weights, 0)
  {
    forall t | CodeTree(t, h.n)
      ensures Cost(t, h.pr, 0) == Cost(t, weights, 0)
    {
      SameCost(t, h.pr, weights, 0);
    }
  }

  lemma {:induction false} SameCost(t: Tree, w: seq<int>, w': seq<int>, d: nat)
    requires forall x :: x in Leaves(t) ==> Weight(w, x) == Weight(w', x)
    ensures Cost(t, w, d) == Cost(t, w', d)
  {
    if t.Node? {
      SameCost(t.left, w, w', d + 1);
      SameCost(t.right, w, w', d + 1);
    }
  }

  /** A symbol's code word has at most n - 1 bits. */
  lemma LengthFits(h: Record, x: nat)
    requires h.Complete() && x < h.n
    ensures Length(h, x) < h.n
  {
    if x < h.Root() {
      AnyChildOfParent(h, x);
      InnerLength(h, h.parent[x]);
    }
  }

  /** One step towards the root. */
  lemma CodeStep(h: Record, x: nat)
    requires h.Complete() && x < h.Root()
    ensures var p := h.parent[x];
            && h.n <= p <= h.Root() && x < p && Length(h, x) == Length(h, p) + 1 && |Code(h, p)| == Length(h, p)
            && Code(h, x) == Code(h, p) + [if h.left[p] == x then '0' else '1']
  {
    AnyChildOfParent(h, x);
    CodeLength(h, h.parent[x]);
  }

  /** Joining two nodes puts a 0 before the codes on the left, where the lighter one is, and a 1 before those on the right. */
  lemma ChildrenCodes(h: Record, p: nat)
    requires h.Complete() && h.n <= p <= h.Root()
    ensures 0 <= h.left[p] < p && 0 <= h.right[p] < p && h.pr[h.left[p]] <= h.pr[h.right[p]]
    ensures Code(h, h.left[p]) == Code(h, p) + "0" && Code(h, h.right[p]) == Code(h, p) + "1"
  {
    Children(h, p);
    assert h.Joined(p - h.n);
    CodeStep(h, h.left[p]);
    CodeStep(h, h.right[p]);
  }

  lemma CodeRoot(h: Record)
    requires h.Complete()
    ensures h.n >= 1 && Code(h, h.Root()) == "" && Length(h, h.Root()) == 0
  {
  }

  lemma {:induction false} CodeLength(h: Record, x: nat)
    requires h.Complete() && x <= h.Root()
    ensures |Code(h, x)| == Length(h, x)
    decreases h.Root() - x
  {
    if x < h.Root() {
      AnyChildOfParent(h, x);
      CodeLength(h, h.parent[x]);
    }
  }
}
