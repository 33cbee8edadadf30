/** The indexed binary heap: `pq[1..N]` holds the queued items in heap order of their priority `a`, and `qp` says
    where each item stands, -1 for an item that is not queued. */
module HuffmanHeap {

  /** `pq` and `qp` are inverse to each other on positions 1 to `top`. */
  ghost predicate Linked(pq: seq<int>, qp: seq<int>, top: int) {
    && 0 <= top < |pq|
    && (forall p :: 1 <= p <= top ==> 0 <= pq[p] < |qp| && qp[pq[p]] == p)
    && (forall k :: 0 <= k < |qp| && qp[k] != -1 ==> 1 <= qp[k] <= top && pq[qp[k]] == k)
  }

  /** The priority at position `p`. */
  ghost function At(a: seq<int>, pq: seq<int>, p: int): int {
    if 0 <= p < |pq| && 0 <= pq[p] < |a| then a[pq[p]] else 0
  }

  /** Each position but `hole` has a priority no less than its parent's. */
  ghost predicate OrderedBut(a: seq<int>, pq: seq<int>, n: int, hole: int) {
    forall p :: 2 <= p <= n && p != hole ==> At(a, pq, p / 2) <= At(a, pq, p)
  }

  /** Each position whose parent is not `hole` has a priority no less than its parent's. */
  ghost predicate OrderedBelow(a: seq<int>, pq: seq<int>, n: int, hole: int) {
    forall p :: 2 <= p <= n && p / 2 != hole ==> At(a, pq, p / 2) <= At(a, pq, p)
  }

  /** The children of `hole` are no less than the parent of `hole`. */
  ghost predicate Bridged(a: seq<int>, pq: seq<int>, n: int, hole: int) {
    forall p :: 2 <= p <= n && p / 2 == hole && 2 <= hole ==> At(a, pq, hole / 2) <= At(a, pq, p)
  }

  ghost predicate Ordered(a: seq<int>, pq: seq<int>, n: int) {
    OrderedBut(a, pq, n, 0)
  }

  /** In an ordered heap the first position has the least priority. */
  lemma {:induction false} FirstIsLeast(a: seq<int>, pq: seq<int>, n: int, p: int)
    requires Ordered(a, pq, n) && 1 <= p <= n
    ensures At(a, pq, 1) <= At(a, pq, p)
    decreases p
  {
    if p > 1 {
      FirstIsLeast(a, pq, n, p / 2);
    }
  }

  ghost function Queued(qp: seq<int>): set<nat> {
    set k: nat | k < |qp| && qp[k] != -1
  }

  class MinHeap {
    const a: array<int>   // priorities, shared with the caller
    const pq: array<int>
    const qp: array<int>
    var N: int

    ghost predicate Shaped(top: int)
      reads this, pq, qp
    {
      && a != pq && a != qp && pq != qp && a.Length == qp.Length
      && Linked(pq[..], qp[..], top)
    }

    ghost predicate Valid()
      reads this, a, pq, qp
    {
      Shaped(N) && Ordered(a[..], pq[..], N)
    }

    ghost function Items(): set<nat>
      reads this, qp
    {
      Queued(qp[..])
    }

    /** An empty heap for items 0 to |items|-1 with room for `m` of them. */
    constructor (items: array<int>, m: nat)
      ensures a == items && fresh(pq) && fresh(qp) && pq.Length == m + 1
      ensures Valid() && N == 0 && Items() == {}
    {
      a := items;
      N := 0;
      pq := new int[m + 1];
      qp := new int[items.Length](_ => -1);
      new;
      assert forall k :: 0 <= k < qp.Length ==> qp[..][k] == -1;
    }

    method Exch(i: int, j: int, ghost top: int)
      requires Shaped(top) && 1 <= i <= top && 1 <= j <= top
      modifies pq, qp
      ensures Shaped(top)
      ensures pq[..] == old(pq[..][i := pq[j]][j := pq[i]])
      ensures Items() == old(Items())
    {
      var t := pq[i];
      pq[i] := pq[j];
      pq[j] := t;
      qp[pq[i]] := i;
      qp[pq[j]] := j;
    }

    method Less(i: int, j: int, ghost top: int) returns (b: bool)
      requires Shaped(top) && 1 <= i <= top && 1 <= j <= top
      ensures b == (At(a[..], pq[..], i) < At(a[..], pq[..], j))
    {
      b := a[pq[i]] < a[pq[j]];
    }

    /** Moves the entry at `k` up to its place. */
    method FixUp(k0: int)
      requires Shaped(N) && 1 <= k0 <= N
      requires OrderedBut(a[..], pq[..], N, k0) && Bridged(a[..], pq[..], N, k0)
      modifies pq, qp
      ensures Valid() && Items() == old(Items())
    {
      var k := k0;
      while k > 1
        invariant Shaped(N) && 1 <= k <= N && Items() == old(Items())
        invariant OrderedBut(a[..], pq[..], N, k) && Bridged(a[..], pq[..], N, k)
      {
        var b := Less(k, k / 2, N);
        if !b {
          break;
        }
        ghost var before := pq[..];
        Exch(k, k / 2, N);
        MovedUp(a[..], before, pq[..], N, k);
        k := k / 2;
      }
    }

    method SmallerChild(k: int, n: int, ghost top: int) returns (j: int)
      requires Shaped(top) && 1 <= k && 2 * k <= n <= top
      ensures (j == 2 * k || j == 2 * k + 1) && j <= n
      ensures forall p :: 2 <= p <= n && p / 2 == k ==> At(a[..], pq[..], j) <= At(a[..], pq[..], p)
    {
      j := 2 * k;
      if j < n {
        var smaller := Less(j + 1, j, top);
        if smaller {
          j := 2 * k + 1;
        }
      }
    }

    /** Moves the entry at `k` down to its place among the first `n` positions; position `n + 1` may hold an entry
        on its way out. */
    method MinHeapify(k0: int, n: int, ghost top: int)
      requires Shaped(top) && 0 <= n <= top && 1 <= k0
      requires OrderedBelow(a[..], pq[..], n, k0) && Bridged(a[..], pq[..], n, k0)
      modifies pq, qp
      ensures Shaped(top) && Ordered(a[..], pq[..], n) && Items() == old(Items())
      ensures pq[n + 1..] == old(pq[n + 1..])
    {
      var k := k0;
      while 2 * k <= n
        invariant Shaped(top) && 1 <= k && Items() == old(Items())
        invariant OrderedBelow(a[..], pq[..], n, k) && Bridged(a[..], pq[..], n, k)
        invariant pq[n + 1..] == old(pq[n + 1..])
        decreases n - k
      {
        var j := SmallerChild(k, n, top);
        var b := Less(j, k, top);
        if !b {
          break;
        }
        ghost var before := pq[..];
        Exch(k, j, top);
        MovedDown(a[..], before, pq[..], n, k, j);
        assert pq[n + 1..] == pq[..][n + 1..] == before[n + 1..];
        k := j;
      }
    }

    method Insert(k: nat)
      requires Valid() && k < qp.Length && k !in Items() && N + 1 < pq.Length
      modifies this, pq, qp
      ensures Valid() && N == old(N) + 1 && Items() == old(Items()) + {k}
    {
      N := N + 1;
      qp[k] := N;
      pq[N] := k;
      assert forall p :: 1 <= p < N ==> pq[p] == old(pq[..])[p];
      assert Items() == old(Items()) + {k};
      FixUp(N);
    }

    method ExtractMin() returns (x: nat)
      requires Valid() && N >= 1
      modifies this, pq, qp
      ensures Valid() && N == old(N) - 1
      ensures x in old(Items()) && Items() == old(Items()) - {x}
      ensures x < a.Length && forall y :: y in old(Items()) ==> a[x] <= a[y]
    {
      ghost var top, before := N, pq[..];
      LeastFirst(a[..], pq[..], qp[..], N);
      Exch(1, N, top);
      Detached(a[..], before, pq[..], N);
      N := N - 1;
      MinHeapify(1, N, top);
      assert pq[top] == pq[top..][0];
      Unlinked(pq[..], qp[..], top);
      qp[pq[N + 1]] := -1;
      x := pq[N + 1];
    }
  }

  lemma LeastFirst(a: seq<int>, pq: seq<int>, qp: seq<int>, n: int)
    requires Linked(pq, qp, n) && n >= 1 && |a| == |qp| && Ordered(a, pq, n)
    ensures pq[1] in Queued(qp) && forall y :: y in Queued(qp) ==> a[pq[1]] <= a[y]
  {
    forall y | y in Queued(qp)
      ensures a[pq[1]] <= a[y]
    {
      FirstIsLeast(a, pq, n, qp[y]);
    }
  }

  /** With the first and the last entry exchanged, only the children of the first position can be out of order. */
  lemma Detached(a: seq<int>, before: seq<int>, after: seq<int>, n: int)
    requires 1 <= n < |before| && after == before[1 := before[n]][n := before[1]]
    requires Ordered(a, before, n)
    ensures OrderedBelow(a, after, n - 1, 1) && Bridged(a, after, n - 1, 1)
  {
    forall p | 2 <= p <= n - 1 && p / 2 != 1
      ensures At(a, after, p / 2) <= At(a, after, p)
    {
      assert At(a, before, p / 2) <= At(a, before, p);
    }
  }

  lemma Unlinked(pq: seq<int>, qp: seq<int>, top: int)
    requires Linked(pq, qp, top) && top >= 1
    ensures Linked(pq, qp[pq[top] := -1], top - 1)
    ensures Queued(qp[pq[top] := -1]) == Queued(qp) - {pq[top]}
  {
  }

  lemma MovedUp(a: seq<int>, before: seq<int>, after: seq<int>, n: int, k: int)
    requires 1 < k <= n < |before| && after == before[k := before[k / 2]][k / 2 := before[k]]
    requires OrderedBut(a, before, n, k) && Bridged(a, before, n, k)
    requires At(a, before, k) < At(a, before, k / 2)
    ensures OrderedBut(a, after, n, k / 2) && Bridged(a, after, n, k / 2)
  {
  }

  lemma MovedDown(a: seq<int>, before: seq<int>, after: seq<int>, n: int, k: int, j: int)
    requires 1 <= k && (j == 2 * k || j == 2 * k + 1) && j <= n < |before|
    requires after == before[k := before[j]][j := before[k]]
    requires OrderedBelow(a, before, n, k) && Bridged(a, before, n, k)
    requires At(a, before, j) < At(a, before, k)
    requires forall p :: 2 <= p <= n && p / 2 == k ==> At(a, before, j) <= At(a, before, p)
    ensures OrderedBelow(a, after, n, j) && Bridged(a, after, n, j)
  {
    hide At;
    AtSwapped(a, before, after, k, j);
    forall p | 2 <= p <= n && p / 2 != j ensures At(a, after, p / 2) <= At(a, after, p) {
      if p / 2 == k {
        assert At(a, before, j) <= At(a, before, p);
      } else {
        assert At(a, before, p / 2) <= At(a, before, p);
      }
    }
    forall p | 2 <= p <= n && p / 2 == j ensures At(a, after, j / 2) <= At(a, after, p) {
      assert At(a, before, p / 2) <= At(a, before, p);
    }
  }

  lemma AtSwapped(a: seq<int>, before: seq<int>, after: seq<int>, k: int, j: int)
    requires 0 <= k < |before| && 0 <= j < |before| && after == before[k := before[j]][j := before[k]]
    ensures forall p :: At(a, after, p) == At(a, before, if p == k then j else if p == j then k else p)
  {
  }
}
