/** The storage allocator of Kernighan and Ritchie: a circular list of free blocks in order of address, with neighbours joined
    when a block is freed. */
module Allocator {
  const BASE := 0        // the header that starts the list; it lies below the heap
  const NULL := -1
  const HEADER := 8      // bytes in a header; addresses and sizes count headers
  const MORE := 4096
  const UINT := 0x1_0000_0000
  const KERNBASE := 0x8000_0000          // in bytes: user memory ends below it
  const TOP := KERNBASE / HEADER         // the same in headers
  const MOST := KERNBASE - 2 * HEADER    // the largest request that can be met

  // ----- the blocks tile the memory obtained -----

  /** Every unit of the memory obtained lies in exactly one block. */
  ghost predicate Tiled(blocks: set<int>, size: map<int, int>, owned: set<int>, brk: int) {
    && (forall b :: b in blocks ==> b in size && size[b] > 0 && BASE < b && b + size[b] <= brk)
    && (forall b, c :: b in blocks && c in blocks && b < c ==> b + size[b] <= c)
    && (forall u :: u in owned <==> Covered(blocks, size, u))
  }

  ghost predicate Covered(blocks: set<int>, size: map<int, int>, u: int) {
    exists b :: b in blocks && b in size && b <= u < b + size[b]
  }

  /** Two adjacent blocks become one. */
  lemma Absorbs(blocks: set<int>, size: map<int, int>, owned: set<int>, brk: int, b: int, c: int)
    requires Tiled(blocks, size, owned, brk) && b in blocks && c in blocks && b + size[b] == c
    ensures Tiled(blocks - {c}, size[b := size[b] + size[c]], owned, brk)
  {
    var blocks', size' := blocks - {c}, size[b := size[b] + size[c]];
    forall u ensures u in owned <==> Covered(blocks', size', u) {
      if u in owned {
        var d :| d in blocks && d <= u < d + size[d];
        assert if d == c then b <= u < b + size'[b] else d <= u < d + size'[d];
      }
      if Covered(blocks', size', u) {
        var d :| d in blocks' && d in size' && d <= u < d + size'[d];
        assert if d == b && u >= c then c <= u < c + size[c] else d <= u < d + size[d];
      }
    }
  }

  /** The last `n` units of a block become a block of their own. */
  lemma Splits(blocks: set<int>, size: map<int, int>, owned: set<int>, brk: int, b: int, n: int)
    requires Tiled(blocks, size, owned, brk) && b in blocks && 0 < n < size[b]
    ensures var c := b + size[b] - n;
            c !in blocks && Tiled(blocks + {c}, size[b := size[b] - n][c := n], owned, brk)
  {
    var c := b + size[b] - n;
    assert c !in blocks;
    var blocks', size' := blocks + {c}, size[b := size[b] - n][c := n];
    forall u ensures u in owned <==> Covered(blocks', size', u) {
      SplitCovers(blocks, size, b, n, u);
    }
  }

  /** Cutting a block covers the same units. */
  lemma SplitCovers(blocks: set<int>, size: map<int, int>, b: int, n: int, u: int)
    requires b in blocks && b in size && 0 < n < size[b] && b + size[b] - n !in blocks
    ensures var c := b + size[b] - n;
            Covered(blocks + {c}, size[b := size[b] - n][c := n], u) <==> Covered(blocks, size, u)
  {
    var c := b + size[b] - n;
    var blocks', size' := blocks + {c}, size[b := size[b] - n][c := n];
    if Covered(blocks, size, u) {
      var d :| d in blocks && d in size && d <= u < d + size[d];
      assert if d == b && u >= c then c <= u < c + size'[c] else d <= u < d + size'[d];
    }
    if Covered(blocks', size', u) {
      var d :| d in blocks' && d in size' && d <= u < d + size'[d];
      assert if d == c then b <= u < b + size[b] else d <= u < d + size[d];
    }
  }

  function Units(b: int, n: nat): (r: set<int>)
    ensures forall u :: u in r <==> b <= u < b + n
  {
    if n == 0 then {} else Units(b, n - 1) + {b + n - 1}
  }

  /** New memory becomes a block. */
  lemma Extends(blocks: set<int>, size: map<int, int>, owned: set<int>, brk: int, b: int, n: nat)
    requires Tiled(blocks, size, owned, brk) && BASE < b && brk <= b && n > 0
    ensures b !in blocks && Tiled(blocks + {b}, size[b := n], owned + Units(b, n), b + n)
  {
    hide Units;
    assert b !in blocks;
    var blocks', size' := blocks + {b}, size[b := n];
    forall u ensures u in owned + Units(b, n) <==> Covered(blocks', size', u) {
      OneMoreCovers(blocks, size, b, n, u);
    }
  }

  /** One block more covers its units more. */
  lemma OneMoreCovers(blocks: set<int>, size: map<int, int>, b: int, n: nat, u: int)
    requires b !in blocks
    ensures Covered(blocks + {b}, size[b := n], u) <==> Covered(blocks, size, u) || b <= u < b + n
  {
    var blocks', size' := blocks + {b}, size[b := n];
    if Covered(blocks, size, u) {
      var d :| d in blocks && d in size && d <= u < d + size[d];
      assert size'[d] == size[d];
    } else if b <= u < b + n {
      assert b <= u < b + size'[b];
    }
    if Covered(blocks', size', u) {
      var d :| d in blocks' && d in size' && d <= u < d + size'[d];
      if d != b { assert d <= u < d + size[d]; }
    }
  }

  // ----- the free list -----

  function Next(i: nat, n: nat): (r: nat)
    requires i < n
    ensures r < n
  {
    if i + 1 < n then i + 1 else 0
  }

  ghost predicate Ordered(free: seq<int>) {
    |free| > 0 && free[0] == BASE && forall i, j :: 0 <= i < j < |free| ==> free[i] < free[j]
  }

  predicate LinkAt(ptr: map<int, int>, free: seq<int>, i: nat)
    requires i < |free|
  {
    free[i] in ptr && ptr[free[i]] == free[Next(i, |free|)]
  }

  ghost predicate Linked(ptr: map<int, int>, free: seq<int>) {
    forall i :: 0 <= i < |free| ==> LinkAt(ptr, free, i)
  }

  predicate ApartAt(size: map<int, int>, free: seq<int>, i: nat)
    requires i < |free|
  {
    free[i] in size && (i + 1 < |free| ==> free[i] + size[free[i]] < free[i + 1])
  }

  ghost predicate Apart(size: map<int, int>, free: seq<int>) {
    && BASE in size && size[BASE] == 0
    && (forall i :: 0 <= i < |free| ==> ApartAt(size, free, i))
  }

  /** The list goes through the addresses `free` in increasing order, from the base and back to it, and no block on it ends
      where the next one begins. */
  ghost predicate Listed(ptr: map<int, int>, size: map<int, int>, free: seq<int>) {
    Ordered(free) && Linked(ptr, free) && Apart(size, free)
  }

  function Elements(free: seq<int>): set<int> {
    set b | b in free
  }

  /** The free blocks that hold memory. */
  function FreeBlocks(free: seq<int>): set<int> {
    Elements(free) - {BASE}
  }

  /** `b` belongs into the gap after number `k` of the list. */
  predicate Gap(free: seq<int>, k: nat, b: int) {
    k < |free| && free[k] < b && (k + 1 < |free| ==> b < free[k + 1])
  }

  function With(free: seq<int>, k: nat, b: int): seq<int>
    requires k < |free|
  {
    free[..k + 1] + [b] + free[k + 1..]
  }

  function Without(free: seq<int>, k: nat): seq<int>
    requires k < |free|
  {
    free[..k] + free[k + 1..]
  }

  lemma WithAt(free: seq<int>, k: nat, b: int)
    requires k < |free|
    ensures |With(free, k, b)| == |free| + 1
    ensures forall i :: 0 <= i <= |free| ==>
              With(free, k, b)[i] == if i <= k then free[i] else if i == k + 1 then b else free[i - 1]
    ensures forall x :: x in With(free, k, b) <==> x in free || x == b
  {
    assert free == free[..k + 1] + free[k + 1..];
  }

  lemma WithoutAt(free: seq<int>, k: nat)
    requires k < |free|
    ensures |Without(free, k)| == |free| - 1
    ensures forall i :: 0 <= i < |free| - 1 ==> Without(free, k)[i] == if i < k then free[i] else free[i + 1]
  {
  }

  lemma OthersStay(free: seq<int>, k: nat)
    requires Ordered(free) && k < |free|
    ensures forall x :: x in Without(free, k) <==> x in free && x != free[k]
  {
    WithoutAt(free, k);
    var list := Without(free, k);
    forall x ensures x in list <==> x in free && x != free[k] {
      if x in free && x != free[k] {
        var i :| 0 <= i < |free| && free[i] == x;
        assert list[if i < k then i else i - 1] == x;
      }
    }
  }

  /** The place of an address that is not on the list: after the last smaller one. */
  function GapAt(free: seq<int>, b: int, n: nat): (k: nat)
    requires 0 < n <= |free| && free[0] < b
    ensures k < n && free[k] < b && forall j :: k < j < n ==> free[j] >= b
  {
    if n == 1 || free[n - 1] < b then n - 1 else GapAt(free, b, n - 1)
  }

  /** How far it is from place `c` of the list on to place `k`. */
  function Distance(c: nat, k: nat, n: nat): nat
    requires c < n && k < n
  {
    if c <= k then k - c else k + n - c
  }

  /** A block that touches neither neighbour is linked in between them. */
  lemma LinkIn(ptr: map<int, int>, size: map<int, int>, free: seq<int>, k: nat, b: int)
    requires Listed(ptr, size, free) && Gap(free, k, b) && b in size && LinkAt(ptr, free, k) && ApartAt(size, free, k)
    requires free[k] + size[free[k]] < b && (k + 1 < |free| ==> b + size[b] < free[k + 1])
    ensures Listed(ptr[b := ptr[free[k]]][free[k] := b], size, With(free, k, b))
    ensures FreeBlocks(With(free, k, b)) == FreeBlocks(free) + {b}
  {
    WithAt(free, k, b);
    WithLinked(ptr, free, k, b);
    WithOrdered(free, k, b);
    WithApart(size, free, k, b);
    hide With, Ordered, Linked, Apart;
  }

  lemma WithOrdered(free: seq<int>, k: nat, b: int)
    requires Ordered(free) && Gap(free, k, b)
    ensures Ordered(With(free, k, b)) && b != BASE
  {
    WithAt(free, k, b);
    hide With;
  }

  lemma WithApart(size: map<int, int>, free: seq<int>, k: nat, b: int)
    requires Apart(size, free) && Gap(free, k, b) && b in size && ApartAt(size, free, k)
    requires free[k] + size[free[k]] < b && (k + 1 < |free| ==> b + size[b] < free[k + 1])
    ensures Apart(size, With(free, k, b))
  {
    WithAt(free, k, b);
    hide With;
    var list := With(free, k, b);
    forall i | 0 <= i < |list| ensures ApartAt(size, list, i) {
      assert i < k ==> ApartAt(size, free, i);
      assert i > k + 1 ==> ApartAt(size, free, i - 1);
    }
  }

  lemma WithLinked(ptr: map<int, int>, free: seq<int>, k: nat, b: int)
    requires Ordered(free) && Linked(ptr, free) && Gap(free, k, b) && LinkAt(ptr, free, k)
    ensures Linked(ptr[b := ptr[free[k]]][free[k] := b], With(free, k, b))
  {
    NotListed(free, k, b);
    WithAt(free, k, b);
    hide With;
    var list, ptr' := With(free, k, b), ptr[b := ptr[free[k]]][free[k] := b];
    forall i | 0 <= i < |list| ensures LinkAt(ptr', list, i) {
      assert i < k ==> LinkAt(ptr, free, i);
      assert i > k + 1 ==> LinkAt(ptr, free, i - 1);
    }
  }

  /** A block that ends where the next one begins takes its place. */
  lemma TakesPlace(ptr: map<int, int>, size: map<int, int>, free: seq<int>, k: nat, b: int)
    requires Listed(ptr, size, free) && Gap(free, k, b) && b in size && k + 1 < |free| && b + size[b] == free[k + 1]
    requires LinkAt(ptr, free, k + 1) && ApartAt(size, free, k) && ApartAt(size, free, k + 1) && free[k] + size[free[k]] < b
    ensures var c := free[k + 1];
            && Listed(ptr[b := ptr[c]][free[k] := b], size[b := size[b] + size[c]], free[k + 1 := b])
            && FreeBlocks(free[k + 1 := b]) == FreeBlocks(free) - {c} + {b}
  {
    NotListed(free, k, b);
    ReplacedLinked(ptr, free, k, b);
    ReplacedApart(size, free, k, b);
    ReplacedElements(free, k + 1, b);
    hide Linked, Apart, FreeBlocks;
  }

  lemma ReplacedApart(size: map<int, int>, free: seq<int>, k: nat, b: int)
    requires Ordered(free) && Apart(size, free) && Gap(free, k, b) && b in size && k + 1 < |free|
    requires ApartAt(size, free, k) && ApartAt(size, free, k + 1) && b + size[b] == free[k + 1] && free[k] + size[free[k]] < b
    ensures Apart(size[b := size[b] + size[free[k + 1]]], free[k + 1 := b])
  {
    NotListed(free, k, b);
    var list, size' := free[k + 1 := b], size[b := size[b] + size[free[k + 1]]];
    forall i | 0 <= i < |list| ensures ApartAt(size', list, i) {
      assert ApartAt(size, free, i);
    }
  }

  lemma ReplacedElements(free: seq<int>, m: nat, b: int)
    requires Ordered(free) && 0 < m < |free| && b !in free && b != BASE
    ensures FreeBlocks(free[m := b]) == FreeBlocks(free) - {free[m]} + {b}
  {
    var list := free[m := b];
    forall x ensures x in list <==> (x in free && x != free[m]) || x == b {
      if x in free && x != free[m] {
        var i :| 0 <= i < |free| && free[i] == x;
        assert list[i] == x;
      }
      if x == b { assert list[m] == x; }
    }
  }

  lemma ReplacedLinked(ptr: map<int, int>, free: seq<int>, k: nat, b: int)
    requires Ordered(free) && Linked(ptr, free) && Gap(free, k, b) && k + 1 < |free| && LinkAt(ptr, free, k + 1)
    ensures Linked(ptr[b := ptr[free[k + 1]]][free[k] := b], free[k + 1 := b])
  {
    NotListed(free, k, b);
    var list, ptr' := free[k + 1 := b], ptr[b := ptr[free[k + 1]]][free[k] := b];
    forall i | 0 <= i < |free| ensures LinkAt(ptr', list, i) {
      assert LinkAt(ptr, free, i);
    }
  }

  lemma NotListed(free: seq<int>, k: nat, b: int)
    requires Gap(free, k, b) && Ordered(free)
    ensures b !in free
  {
  }

  /** A block that begins where the one before ends is joined to it. */
  lemma JoinsLower(ptr: map<int, int>, size: map<int, int>, free: seq<int>, k: nat, b: int)
    requires Listed(ptr, size, free) && Gap(free, k, b) && b in size && LinkAt(ptr, free, k) && ApartAt(size, free, k)
    requires free[k] + size[free[k]] == b && (k + 1 < |free| ==> b + size[b] < free[k + 1]) && free[k] != BASE
    ensures Listed(ptr[b := ptr[free[k]]][free[k] := ptr[free[k]]], size[free[k] := size[free[k]] + size[b]], free)
  {
    NotListed(free, k, b);
    var size' := size[free[k] := size[free[k]] + size[b]];
    assert ptr[b := ptr[free[k]]][free[k] := ptr[free[k]]] == ptr[b := ptr[free[k]]];
    LinkedElsewhere(ptr, free, b, ptr[free[k]]);
    forall i | 0 <= i < |free| ensures ApartAt(size', free, i) {
      assert ApartAt(size, free, i);
    }
  }

  /** A block between two that it touches makes one block of all three. */
  lemma JoinsBoth(ptr: map<int, int>, size: map<int, int>, free: seq<int>, k: nat, b: int)
    requires Listed(ptr, size, free) && Gap(free, k, b) && b in size && k + 1 < |free| && b + size[b] == free[k + 1]
    requires LinkAt(ptr, free, k + 1) && ApartAt(size, free, k) && ApartAt(size, free, k + 1)
    requires free[k] + size[free[k]] == b && free[k] != BASE
    ensures var c := free[k + 1];
            && Listed(ptr[b := ptr[c]][free[k] := ptr[c]],
                      size[b := size[b] + size[c]][free[k] := size[free[k]] + (size[b] + size[c])], Without(free, k + 1))
            && FreeBlocks(Without(free, k + 1)) == FreeBlocks(free) - {c}
  {
    var list, c := Without(free, k + 1), free[k + 1];
    NotListed(free, k, b);
    OthersStay(free, k + 1);
    WithoutOrdered(free, k + 1);
    WithoutLinked(ptr, free, k + 1);
    LinkedElsewhere(ptr[free[k] := ptr[c]], list, b, ptr[c]);
    assert ptr[b := ptr[c]][free[k] := ptr[c]] == ptr[free[k] := ptr[c]][b := ptr[c]];
    JoinedApart(size, free, k, b);
    hide Without, Linked, Apart, Ordered;
  }

  lemma JoinedApart(size: map<int, int>, free: seq<int>, k: nat, b: int)
    requires Ordered(free) && Apart(size, free) && Gap(free, k, b) && b in size && k + 1 < |free|
    requires ApartAt(size, free, k) && ApartAt(size, free, k + 1)
    requires free[k] + size[free[k]] == b && b + size[b] == free[k + 1] && free[k] != BASE
    ensures var c := free[k + 1];
            Apart(size[b := size[b] + size[c]][free[k] := size[free[k]] + (size[b] + size[c])], Without(free, k + 1))
  {
    NotListed(free, k, b);
    WithoutAt(free, k + 1);
    hide Without;
    var list, c := Without(free, k + 1), free[k + 1];
    var size' := size[b := size[b] + size[c]][free[k] := size[free[k]] + (size[b] + size[c])];
    forall i | 0 <= i < |list| ensures ApartAt(size', list, i) {
      assert i < k ==> ApartAt(size, free, i);
      assert ApartAt(size, free, i + 1);
    }
  }

  lemma LinkedElsewhere(ptr: map<int, int>, free: seq<int>, b: int, x: int)
    requires Linked(ptr, free) && b !in free
    ensures Linked(ptr[b := x], free)
  {
    var ptr' := ptr[b := x];
    forall i | 0 <= i < |free| ensures LinkAt(ptr', free, i) {
      assert LinkAt(ptr, free, i);
    }
  }

  lemma WithoutOrdered(free: seq<int>, m: nat)
    requires Ordered(free) && 0 < m < |free|
    ensures Ordered(Without(free, m))
  {
    WithoutAt(free, m);
    hide Without;
  }

  lemma WithoutLinked(ptr: map<int, int>, free: seq<int>, m: nat)
    requires Ordered(free) && Linked(ptr, free) && 0 < m < |free| && LinkAt(ptr, free, m)
    ensures Linked(ptr[free[m - 1] := ptr[free[m]]], Without(free, m))
  {
    WithoutAt(free, m);
    hide Without;
    var list, ptr' := Without(free, m), ptr[free[m - 1] := ptr[free[m]]];
    forall i | 0 <= i < |list| ensures LinkAt(ptr', list, i) {
      assert LinkAt(ptr, free, i) && LinkAt(ptr, free, i + 1);
    }
  }

  /** A block that is used up leaves the list. */
  lemma TakenOut(ptr: map<int, int>, size: map<int, int>, free: seq<int>, m: nat)
    requires Listed(ptr, size, free) && 0 < m < |free| && LinkAt(ptr, free, m)
    ensures Listed(ptr[free[m - 1] := ptr[free[m]]], size, Without(free, m))
    ensures FreeBlocks(Without(free, m)) == FreeBlocks(free) - {free[m]} && free[m] in FreeBlocks(free)
    ensures free[m - 1] in Without(free, m)
  {
    WithoutAt(free, m);
    OthersStay(free, m);
    WithoutOrdered(free, m);
    WithoutLinked(ptr, free, m);
    WithoutApart(size, free, m);
    hide Without, Linked, Apart;
    assert free[m - 1] != free[m] && free[m] != BASE && free[m] in free;
  }

  lemma WithoutApart(size: map<int, int>, free: seq<int>, m: nat)
    requires Ordered(free) && Apart(size, free) && 0 < m < |free|
    ensures Apart(size, Without(free, m))
  {
    WithoutAt(free, m);
    hide Without;
    var list := Without(free, m);
    forall i | 0 <= i < |list| ensures ApartAt(size, list, i) {
      assert ApartAt(size, free, i) && ApartAt(size, free, i + 1);
    }
  }

  /** A smaller block stays where it is. */
  lemma CutDown(ptr: map<int, int>, size: map<int, int>, free: seq<int>, m: nat, n: int, c: int)
    requires Listed(ptr, size, free) && 0 < m < |free| && ApartAt(size, free, m) && 0 < n < size[free[m]] && c !in free
    ensures Listed(ptr, size[free[m] := size[free[m]] - n][c := n], free)
  {
    var size' := size[free[m] := size[free[m]] - n][c := n];
    assert c != BASE && free[m] != BASE;
    forall i | 0 <= i < |free| ensures ApartAt(size', free, i) {
      assert ApartAt(size, free, i);
    }
  }

  // ----- malloc and free -----

  /** The units for a block that is to hold `nbytes` bytes, computed with 32-bit integers. */
  function UnitsFor(nbytes: int): nat
    requires 0 <= nbytes < UINT
  {
    (nbytes + HEADER - 1) % UINT / HEADER + 1
  }

  /** A request gets enough units, and no more than there are addresses for, exactly if it is not larger than `MOST`. Larger
      ones ask for more units than can be, until the rounding wraps around and they ask for one. */
  lemma FitsIff(nbytes: int)
    requires 0 <= nbytes < UINT
    ensures UnitsFor(nbytes) < TOP && (UnitsFor(nbytes) - 1) * HEADER >= nbytes <==> nbytes <= MOST
    ensures UnitsFor(nbytes) >= TOP <==> MOST < nbytes <= UINT - HEADER
    ensures (UnitsFor(nbytes) - 1) * HEADER >= nbytes <==> nbytes <= UINT - HEADER
    ensures 0 < UnitsFor(nbytes) <= UINT / HEADER
  {
  }

  // ----- the system call -----

  /** The address returned, -1 for a failure, and the end of the memory that the process then has; in bytes. */
  datatype Reply = Reply(addr: int, top: int)

  /** sbrk(n) of a process of `sz` bytes without threads, where `memory` says whether there are free pages. Growing stops below
      the kernel; shrinking to nothing fails after the memory is gone; shrinking by more than there is changes nothing. */
  function Sbrk(sz: int, n: int, memory: bool): Reply
    requires 0 <= sz < KERNBASE && -KERNBASE <= n < KERNBASE
  {
    if n > 0 then
      if !memory || sz + n >= KERNBASE then Reply(-1, sz) else Reply(sz, sz + n)
    else if n < 0 then
      var newsz := (sz + n) % UINT;
      if newsz >= sz then Reply(sz - n, sz)
      else if newsz == 0 then Reply(-1, 0)
      else Reply(newsz - n, newsz)
    else Reply(sz, sz)
  }

  /** The size of `nu` headers in bytes, computed without sign in 32 bits and passed as a signed integer. */
  function SbrkArgument(nu: nat): (n: int)
    ensures -KERNBASE <= n < KERNBASE
  {
    var n := nu * HEADER % UINT;
    if n < KERNBASE then n else n - UINT
  }

  /** Either the system has refused and nothing has changed, or there is memory for `nu` headers at the address returned. */
  predicate Backed(sz: int, r: Reply, nu: nat) {
    if r.addr == -1 then r.top == sz else r.addr + nu * HEADER <= r.top
  }

  /** The answer of the system is one of these exactly if the size fits below the kernel: beyond that the size becomes negative or
      zero, and what seems to be a success gives no memory. */
  lemma BackedIff(brk: int, nu: nat, memory: bool)
    requires 0 < brk < TOP && 0 < nu <= UINT / HEADER
    ensures Backed(brk * HEADER, Sbrk(brk * HEADER, SbrkArgument(nu), memory), nu) <==> nu < TOP
    ensures nu < TOP ==>
              Sbrk(brk * HEADER, SbrkArgument(nu), memory)
                == if memory && brk + nu < TOP then Reply(brk * HEADER, (brk + nu) * HEADER) else Reply(-1, brk * HEADER)
  {
    if nu < TOP {
      assert SbrkArgument(nu) == nu * HEADER;
    } else if nu < UINT / HEADER {
      assert SbrkArgument(nu) == nu * HEADER - UINT;
    }
  }

  /** A request of 2^32 - 8 bytes: sbrk(0) succeeds, and a block of 2^29 headers begins where the memory ends. */
  lemma NothingBehind(sz: int, memory: bool)
    requires 0 <= sz < KERNBASE
    ensures UnitsFor(UINT - 8) == UINT / HEADER && SbrkArgument(UINT / HEADER) == 0
    ensures Sbrk(sz, 0, memory) == Reply(sz, sz) && !Backed(sz, Reply(sz, sz), UINT / HEADER)
  {
  }

  /** A request of 2^32 - 16 bytes: sbrk(-8) succeeds, and the process has less memory than before. */
  lemma LessThanBefore(sz: int, memory: bool)
    requires 8 < sz < KERNBASE
    ensures SbrkArgument(UnitsFor(UINT - 16)) == -8
    ensures Sbrk(sz, -8, memory) == Reply(sz, sz - 8) && !Backed(sz, Reply(sz, sz - 8), UnitsFor(UINT - 16))
  {
  }

  function UnitsAsked(nu: nat): nat {
    if nu < MORE then MORE else nu
  }

  /** Some free block has at least `n` units. */
  ghost predicate HasRoom(size: map<int, int>, free: seq<int>, n: int) {
    exists i :: 0 <= i < |free| && free[i] in size && size[free[i]] >= n
  }

  /** The list is right, the blocks handed out are not on it, and together with those on it they tile the memory obtained. */
  ghost predicate Right(ptr: map<int, int>, size: map<int, int>, free: seq<int>, live: set<int>, owned: set<int>, brk: int) {
    && Listed(ptr, size, free) && BASE !in live && live !! Elements(free)
    && Tiled(FreeBlocks(free) + live, size, owned, brk)
  }

  /** The sizes of these blocks have not changed. */
  ghost predicate Kept(blocks: set<int>, size: map<int, int>, size': map<int, int>) {
    forall b :: b in blocks ==> b in size && b in size' && size'[b] == size[b]
  }

  /** What malloc answers: a block, a null pointer, or nothing that means anything, because the system was asked for a size that
      became negative or zero and there is no memory for the header it writes next. */
  datatype Answer = Block(ap: int) | NoMemory | Unbacked

  class Heap {
    var ptr: map<int, int>   // the link in each header
    var size: map<int, int>  // the size in each header
    var freep: int
    var brk: int             // the size of the process
    ghost var free: seq<int>    // the blocks on the list, from the base on
    ghost var live: set<int>    // the blocks handed out
    ghost var owned: set<int>   // the units obtained from the system

    ghost predicate Valid()
      reads this
    {
      && BASE < brk < TOP
      && if freep == NULL then free == [] && live == {} && owned == {}
         else
           Right(ptr, size, free, live, owned, brk) && freep in free
    }

    constructor (start: int)
      requires BASE < start < TOP
      ensures Valid() && live == {} && owned == {} && brk == start
    {
      ptr, size, freep, brk := map[], map[], NULL, start;
      free, live, owned := [], {}, {};
    }

    /** The search of free: the block on the list after which `bp` belongs. */
    method FindGap(bp: int) returns (p: int, ghost k: nat)
      requires Listed(ptr, size, free) && freep in free && bp > BASE && bp !in free
      ensures Gap(free, k, bp) && p == free[k]
    {
      k := GapAt(free, bp, |free|);
      p := freep;
      ghost var c :| 0 <= c < |free| && free[c] == freep;
      assert LinkAt(ptr, free, c);
      while !(bp > p && bp < ptr[p])
        invariant 0 <= c < |free| && p == free[c] && LinkAt(ptr, free, c)
        decreases Distance(c, k, |free|)
      {
        if p >= ptr[p] && (bp > p || bp < ptr[p]) {
          break;
        }
        p := ptr[p];
        c := Next(c, |free|);
        assert LinkAt(ptr, free, c);
      }
    }

    /** Takes the block at `ap` back. It is joined with the free blocks it touches. */
    method Free(ap: int)
      requires Valid() && ap - 1 in live
      modifies this
      ensures Valid() && freep != NULL && live == old(live) - {ap - 1} && owned == old(owned) && brk == old(brk)
      ensures Kept(live, old(size), size)
      ensures ap - 1 in old(size) && HasRoom(size, free, old(size)[ap - 1])
    {
      var bp := ap - 1;
      LiveFacts(ptr, size, free, live, owned, brk, bp);
      var p;
      ghost var k;
      p, k := FindGap(bp);
      Neighbours(ptr, size, free, live, owned, brk, k, bp);
      Release(bp, p, k);
    }

    method Release(bp: int, p: int, ghost k: nat)
      requires Valid() && freep != NULL && Between(ptr, size, free, live, k, bp) && p == free[k]
      modifies this
      ensures Valid() && freep != NULL && live == old(live) - {bp} && owned == old(owned) && brk == old(brk)
      ensures Kept(live, old(size), size)
      ensures HasRoom(size, free, old(size)[bp])
    {
      hide Right, Kept, HasRoom, Between, Gap;
      BetweenFacts(ptr, size, free, live, k, bp);
      ghost var list := After(ptr, size, free, live, owned, brk, k, bp);
      if bp + size[bp] == ptr[p] {
        size := size[bp := size[bp] + size[ptr[p]]];
        ptr := ptr[bp := ptr[ptr[p]]];
      } else {
        ptr := ptr[bp := ptr[p]];
      }
      if p + size[p] == bp {
        size := size[p := size[p] + size[bp]];
        ptr := ptr[p := ptr[bp]];
      } else {
        ptr := ptr[p := bp];
      }
      freep := p;
      free := list;
      live := live - {bp};
    }

    /** At least 4096 units more from the system, and not less than asked for. */
    method Morecore(nu0: nat, memory: bool) returns (backed: bool, p: int)
      requires Valid() && freep != NULL && 0 < nu0 <= UINT / HEADER
      modifies this
      ensures backed <==> UnitsAsked(nu0) < TOP
      ensures live == old(live) && (p == NULL ==> owned == old(owned) && free == old(free) && freep == old(freep))
      ensures backed ==> Valid() && freep != NULL && Kept(live, old(size), size)
      ensures backed ==> (p == NULL <==> !memory || old(brk) + UnitsAsked(nu0) >= TOP)
      ensures backed && p != NULL ==> p == freep && HasRoom(size, free, nu0) && HasRoom(size, free, MORE)
      ensures backed && p != NULL ==> owned == old(owned) + Units(old(brk), UnitsAsked(nu0)) && old(owned) < owned
      ensures brk == if p == NULL then old(brk) else old(brk) + UnitsAsked(nu0)
      ensures p != NULL ==> brk == old(brk) + (if nu0 < 4096 then 4096 else nu0)
      ensures !backed ==> p == NULL
    {
      hide Right, Kept, HasRoom, Sbrk, SbrkArgument;
      var nu := if nu0 < MORE then MORE else nu0;
      BackedIff(brk, nu, memory);
      var r := Sbrk(brk * HEADER, SbrkArgument(nu), memory);
      if !Backed(brk * HEADER, r, nu) {
        return false, NULL;
      }
      backed := true;
      if r.addr == -1 {
        KeptAll(ptr, size, free, live, owned, brk);
        return true, NULL;
      }
      AddBlock(r.addr / HEADER, nu, r.top / HEADER);
      p := freep;
      MoreRoom(size, free, nu, nu0);
      MoreRoom(size, free, nu, MORE);
    }

    /** The memory obtained becomes a free block. */
    method AddBlock(hp: int, nu: nat, top: int)
      requires Valid() && freep != NULL && nu > 0 && hp == brk && top == hp + nu < TOP
      modifies this
      ensures Valid() && freep != NULL && live == old(live) && Kept(live, old(size), size) && HasRoom(size, free, nu)
      ensures owned == old(owned) + Units(old(brk), nu) && old(owned) < owned && brk == top
    {
      hide Right, Kept, HasRoom;
      Grown(ptr, size, free, live, owned, brk, hp, nu);
      size := size[hp := nu];
      brk := top;
      owned := owned + Units(hp, nu);
      live := live + {hp};
      ghost var size1 := size;
      Free(hp + 1);
      KeptOn(live, old(size), size1, size, hp, nu);
    }

    /** A block for `nbytes` bytes: a block of its own that nobody has, of the units computed; a null pointer exactly if no free
        block is large enough and the system has no more memory. All blocks handed out before keep their places and sizes. For
        requests up to `MOST` the block is large enough; of larger ones none is met. */
    method Malloc(nbytes: int, memory: bool) returns (out: Answer)
      requires Valid() && 0 <= nbytes < UINT
      modifies this
      ensures out.Unbacked? <==> MOST < nbytes <= UINT - HEADER
      ensures !out.Unbacked? ==> Valid() && Kept(old(live), old(size), size)
      ensures out.Block? ==> out.ap - 1 !in old(live) && live == old(live) + {out.ap - 1}
                             && out.ap - 1 in size && size[out.ap - 1] == UnitsFor(nbytes)
                             && ((size[out.ap - 1] - 1) * HEADER >= nbytes <==> nbytes <= MOST)
      ensures !out.Block? ==> live == old(live)
      ensures var n := UnitsFor(nbytes);
              out.NoMemory? <==> n < TOP && !HasRoom(old(size), old(free), n) && (!memory || old(brk) + UnitsAsked(n) >= TOP)
      ensures old(owned) <= owned && (HasRoom(old(size), old(free), UnitsFor(nbytes)) ==> owned == old(owned))
      ensures brk == if out.Block? && !HasRoom(old(size), old(free), UnitsFor(nbytes)) then old(brk) + UnitsAsked(UnitsFor(nbytes))
                     else old(brk)
      ensures out.Block? && HasRoom(old(size), old(free), UnitsFor(nbytes)) ==>
                NextFit(old(size), old(free), old(freep), UnitsFor(nbytes), out.ap - 1, freep)
    {
      hide Right, Kept, HasRoom, TooSmall, NextFit, LinkAt, ApartAt, Distance, Next, Previous, UnitsFor;
      var nunits := UnitsFor(nbytes);
      FitsIff(nbytes);
      Initialise(nunits);
      if nunits >= TOP { NoneSoLarge(ptr, size, free, live, owned, brk, nunits); }
      var prevp := freep;
      ghost var f :| 0 <= f < |free| && free[f] == freep;
      PlaceFacts(ptr, size, free, live, owned, brk, f, nunits);
      Onward(f, f, |free|);
      var p := ptr[prevp];
      ghost var c, grown := Next(f, |free|), false;
      while true
        invariant Valid() && freep != NULL && live == old(live) && old(owned) <= owned && Kept(live, old(size), size)
        invariant 0 <= f < |free| && free[f] == freep && 0 <= c < |free| && p == free[c] && prevp == free[Previous(c, |free|)]
        invariant TooSmall(size, free, c, f, nunits)
        invariant grown ==> nunits < TOP && HasRoom(size, free, nunits)
        invariant grown ==> !HasRoom(old(size), old(free), nunits) && memory && brk == old(brk) + UnitsAsked(nunits) < TOP
        invariant !grown ==> HasRoom(size, free, nunits) == HasRoom(old(size), old(free), nunits)
        invariant !grown ==> owned == old(owned) && brk == old(brk)
        invariant HasRoom(old(size), old(free), nunits) ==> size == old(size) && free == old(free) && freep == old(freep)
        decreases if grown then 0 else 1, Distance(c, f, |free|)
      {
        ghost var size1 := size;
        PlaceFacts(ptr, size, free, live, owned, brk, c, nunits);
        Onward(c, f, |free|);
        if size[p] >= nunits {
          RoomAt(size, free, c, nunits);
          FitFound(size, free, c, f, nunits);
          var ap := Take(p, prevp, nunits, c);
          KeptThen(old(live), old(size), size1, size);
          return Block(ap);
        }
        if p == freep {
          OneRound(ptr, size, free, live, owned, brk, c, f, nunits);
          var backed;
          backed, p := Morecore(nunits, memory);
          if !backed {
            return Unbacked;
          }
          KeptThen(old(live), old(size), size1, size);
          if p == NULL {
            return NoMemory;
          }
          f :| 0 <= f < |free| && free[f] == freep;
          c := f;
          grown := true;
          PlaceFacts(ptr, size, free, live, owned, brk, f, nunits);
        } else {
          StepOn(size, free, c, f, nunits);
        }
        Onward(c, f, |free|);
        prevp := p;
        p := ptr[p];
        c := Next(c, |free|);
      }
    }

    /** Other memory that the program asks for. */
    method Extend(n: nat, memory: bool)
      requires Valid()
      modifies this`brk
      ensures Valid() && brk == if n > 0 && memory && old(brk) + n < TOP then old(brk) + n else old(brk)
    {
      if 0 < n < TOP {
        BackedIff(brk, n, memory);
        var r := Sbrk(brk * HEADER, SbrkArgument(n), memory);
        brk := r.top / HEADER;
      }
    }

    /** On the first call the list is set up with the base alone. */
    method Initialise(ghost n: nat)
      requires Valid() && n > 0
      modifies this`ptr, this`size, this`freep, this`free
      ensures Valid() && freep != NULL && Kept(live, old(size), size)
      ensures HasRoom(size, free, n) == HasRoom(old(size), old(free), n)
      ensures HasRoom(old(size), old(free), n) ==> size == old(size) && free == old(free) && freep == old(freep)
    {
      if freep != NULL {
        KeptAll(ptr, size, free, live, owned, brk);
        return;
      }
      freep := BASE;
      ptr, size := ptr[BASE := BASE], size[BASE := 0];
      free := [BASE];
      assert LinkAt(ptr, free, 0) && ApartAt(size, free, 0);
      assert FreeBlocks(free) + live == {};
    }

    /** Hands out the block at `p` or its last `nunits` units. */
    method Take(p0: int, prevp: int, nunits: nat, ghost c: nat) returns (ap: int)
      requires Valid() && freep != NULL && nunits > 0 && 0 < c < |free| && p0 == free[c] && prevp == free[c - 1]
      requires LinkAt(ptr, free, c) && ApartAt(size, free, c) && size[p0] >= nunits
      modifies this
      ensures Valid() && freep != NULL && ap - 1 !in old(live) && live == old(live) + {ap - 1} && owned == old(owned)
      ensures ap - 1 in size && size[ap - 1] == nunits && brk == old(brk)
      ensures ap - 1 == p0 + old(size)[p0] - nunits && freep == prevp
      ensures Kept(old(live), old(size), size)
    {
      hide Right, Kept;
      var p := p0;
      assert prevp in free;
      if size[p] == nunits {
        TakeWhole(ptr, size, free, live, owned, brk, c);
        ptr := ptr[prevp := ptr[p]];
        free := Without(free, c);
      } else {
        TakeTail(ptr, size, free, live, owned, brk, c, nunits);
        size := size[p := size[p] - nunits];
        p := p + size[p];
        size := size[p := nunits];
      }
      freep := prevp;
      live := live + {p};
      ap := p + 1;
    }
  }

  function Previous(c: nat, n: nat): (r: nat)
    requires c < n
    ensures r < n
  {
    if c == 0 then n - 1 else c - 1
  }

  /** The blocks passed on the way from the place after `f` to place `c` are too small. */
  ghost predicate TooSmall(size: map<int, int>, free: seq<int>, c: nat, f: nat, n: int) {
    && c < |free| && f < |free|
    && forall i :: 0 <= i < |free| && Distance(i, f, |free|) > Distance(c, f, |free|) ==> free[i] in size && size[free[i]] < n
  }

  lemma Onward(c: nat, f: nat, n: nat)
    requires c < n && f < n
    ensures Next(c, n) < n && Previous(Next(c, n), n) == c && (c != f ==> Distance(Next(c, n), f, n) < Distance(c, f, n))
    ensures Previous(c, n) < n && (c > 0 ==> Previous(c, n) == c - 1)
  {
  }

  lemma StepOn(size: map<int, int>, free: seq<int>, c: nat, f: nat, n: int)
    requires TooSmall(size, free, c, f, n) && c != f && free[c] in size && size[free[c]] < n
    ensures TooSmall(size, free, Next(c, |free|), f, n)
  {
  }

  /** When the search is back where it started, no block is large enough. */
  lemma OneRound(ptr: map<int, int>, size: map<int, int>, free: seq<int>, live: set<int>, owned: set<int>, brk: int,
                 c: nat, f: nat, n: int)
    requires Right(ptr, size, free, live, owned, brk)
    requires TooSmall(size, free, c, f, n) && free[c] == free[f] && free[c] in size && size[free[c]] < n
    ensures c == f && !HasRoom(size, free, n)
  {
    assert c == f;
    forall i | 0 <= i < |free| ensures free[i] in size && size[free[i]] < n {
      if i != f { assert Distance(i, f, |free|) > 0; }
    }
  }

  /** What is known of place `f` of the list. The search that starts there has passed nothing yet. */
  lemma PlaceFacts(ptr: map<int, int>, size: map<int, int>, free: seq<int>, live: set<int>, owned: set<int>, brk: int, f: nat, n: nat)
    requires Right(ptr, size, free, live, owned, brk) && f < |free|
    ensures LinkAt(ptr, free, f) && ApartAt(size, free, f) && free[f] in size && free[f] in ptr && ptr[free[f]] == free[Next(f, |free|)]
    ensures TooSmall(size, free, Next(f, |free|), f, n)
    ensures n > 0 && size[free[f]] >= n ==> f > 0
  {
  }

  lemma LiveFacts(ptr: map<int, int>, size: map<int, int>, free: seq<int>, live: set<int>, owned: set<int>, brk: int, b: int)
    requires Right(ptr, size, free, live, owned, brk) && b in live
    ensures b in size && size[b] > 0 && b > BASE && b !in free && Listed(ptr, size, free)
  {
    assert b in FreeBlocks(free) + live;
    assert b !in Elements(free);
  }

  lemma KeptAll(ptr: map<int, int>, size: map<int, int>, free: seq<int>, live: set<int>, owned: set<int>, brk: int)
    requires Right(ptr, size, free, live, owned, brk)
    ensures Kept(live, size, size)
  {
    forall b | b in live ensures b in size {
      LiveFacts(ptr, size, free, live, owned, brk, b);
    }
  }

  lemma KeptThen(blocks: set<int>, a: map<int, int>, b: map<int, int>, c: map<int, int>)
    requires Kept(blocks, a, b) && Kept(blocks, b, c)
    ensures Kept(blocks, a, c)
  {
  }

  lemma KeptOn(live: set<int>, a: map<int, int>, b: map<int, int>, c: map<int, int>, hp: int, n: nat)
    requires b == a[hp := n] && hp !in live && Kept(live, b, c)
    ensures Kept(live, a, c)
  {
  }

  /** The block at `b` is the end of the first one, counted from the place after `freep`, that has `n` units, and the next search
      starts where this one ended. */
  ghost predicate NextFit(size: map<int, int>, free: seq<int>, freep: int, n: int, b: int, freep': int) {
    exists c: nat, f: nat ::
      && TooSmall(size, free, c, f, n) && free[f] == freep && free[c] in size && size[free[c]] >= n
      && b == free[c] + size[free[c]] - n && freep' == free[Previous(c, |free|)]
  }

  lemma FitFound(size: map<int, int>, free: seq<int>, c: nat, f: nat, n: int)
    requires c < |free| && f < |free| && free[c] in size && size[free[c]] >= n && TooSmall(size, free, c, f, n)
    ensures NextFit(size, free, free[f], n, free[c] + size[free[c]] - n, free[Previous(c, |free|)])
  {
  }

  lemma RoomAt(size: map<int, int>, free: seq<int>, c: nat, n: int)
    requires c < |free| && free[c] in size && size[free[c]] >= n
    ensures HasRoom(size, free, n)
  {
  }

  /** No free block is as large as all memory. */
  lemma NoneSoLarge(ptr: map<int, int>, size: map<int, int>, free: seq<int>, live: set<int>, owned: set<int>, brk: int, n: nat)
    requires Right(ptr, size, free, live, owned, brk) && brk < TOP <= n
    ensures !HasRoom(size, free, n)
  {
    forall i | 0 <= i < |free| && free[i] in size ensures size[free[i]] < n {
      assert ApartAt(size, free, i);
      assert free[i] != BASE ==> free[i] in FreeBlocks(free) + live;
    }
  }

  lemma MoreRoom(size: map<int, int>, free: seq<int>, n: int, m: int)
    requires HasRoom(size, free, n) && m <= n
    ensures HasRoom(size, free, m)
  {
  }

  lemma Grown(ptr: map<int, int>, size: map<int, int>, free: seq<int>, live: set<int>, owned: set<int>, brk: int, hp: int, n: nat)
    requires Right(ptr, size, free, live, owned, brk) && n > 0 && BASE < brk <= hp
    ensures hp !in live && Right(ptr, size[hp := n], free, live + {hp}, owned + Units(hp, n), hp + n)
    ensures owned < owned + Units(hp, n)
  {
    var blocks := FreeBlocks(free) + live;
    Extends(blocks, size, owned, brk, hp, n);
    assert FreeBlocks(free) + (live + {hp}) == blocks + {hp};
    var size' := size[hp := n];
    forall i | 0 <= i < |free| ensures ApartAt(size', free, i) && free[i] != hp {
      assert ApartAt(size, free, i);
      assert free[i] != BASE ==> free[i] in blocks;
    }
    assert hp in Units(hp, n);
    assert !Covered(blocks, size, hp);
  }

  /** `b`, a block handed out, lies in the gap after place `k` of the list. */
  ghost predicate Between(ptr: map<int, int>, size: map<int, int>, free: seq<int>, live: set<int>, k: nat, b: int) {
    && b in live && Gap(free, k, b) && b in size && size[b] > 0 && free[k] >= BASE
    && LinkAt(ptr, free, k) && ApartAt(size, free, k)
    && free[k] + size[free[k]] <= b && (free[k] + size[free[k]] == b ==> free[k] != BASE)
    && (if k + 1 < |free| then LinkAt(ptr, free, k + 1) && ApartAt(size, free, k + 1) && b + size[b] <= free[k + 1]
                               && ptr[free[k]] == free[k + 1] && free[k + 1] in ptr
        else ptr[free[k]] == BASE && BASE < b)
  }

  lemma BetweenFacts(ptr: map<int, int>, size: map<int, int>, free: seq<int>, live: set<int>, k: nat, b: int)
    requires Between(ptr, size, free, live, k, b)
    ensures k < |free| && free[k] in size && free[k] in ptr && b in size && free[k] != b && free[k] != NULL && b in live
    ensures b + size[b] == ptr[free[k]] ==> ptr[free[k]] in size && ptr[free[k]] in ptr
  {
  }

  lemma Neighbours(ptr: map<int, int>, size: map<int, int>, free: seq<int>, live: set<int>, owned: set<int>, brk: int, k: nat, b: int)
    requires Right(ptr, size, free, live, owned, brk) && Gap(free, k, b) && b in live
    ensures Between(ptr, size, free, live, k, b)
  {
    LiveFacts(ptr, size, free, live, owned, brk, b);
    assert LinkAt(ptr, free, k) && ApartAt(size, free, k);
    var blocks := FreeBlocks(free) + live;
    assert b in blocks;
    if free[k] != BASE { assert free[k] in blocks; }
    if k + 1 < |free| {
      assert LinkAt(ptr, free, k + 1) && ApartAt(size, free, k + 1);
      assert free[k + 1] in blocks;
    }
  }

  lemma ListedApart(live: set<int>, free: seq<int>, b: int)
    requires live !! Elements(free) && b in free
    ensures b !in live
  {
    assert b in Elements(free);
  }

  lemma AfterNone(ptr: map<int, int>, size: map<int, int>, free: seq<int>, live: set<int>, owned: set<int>, brk: int, k: nat, b: int)
    requires Right(ptr, size, free, live, owned, brk) && Between(ptr, size, free, live, k, b)
    requires b + size[b] != ptr[free[k]] && free[k] + size[free[k]] != b
    ensures var p, list := free[k], With(free, k, b);
            && Right(ptr[b := ptr[p]][p := b], size, list, live - {b}, owned, brk) && p in list
            && Kept(live - {b}, size, size) && HasRoom(size, list, size[b])
  {
    LinkIn(ptr, size, free, k, b);
    WithAt(free, k, b);
    KeptAll(ptr, size, free, live, owned, brk);
    var list := With(free, k, b);
    assert FreeBlocks(list) + (live - {b}) == FreeBlocks(free) + live;
    assert list[k] == free[k] && list[k + 1] == b;
  }

  lemma AfterUpper(ptr: map<int, int>, size: map<int, int>, free: seq<int>, live: set<int>, owned: set<int>, brk: int, k: nat, b: int)
    requires Right(ptr, size, free, live, owned, brk) && Between(ptr, size, free, live, k, b)
    requires b + size[b] == ptr[free[k]] && free[k] + size[free[k]] != b
    ensures k + 1 < |free|
    ensures var p, c, list := free[k], free[k + 1], free[k + 1 := b]; var size' := size[b := size[b] + size[c]];
            && Right(ptr[b := ptr[c]][p := b], size', list, live - {b}, owned, brk) && p in list
            && Kept(live - {b}, size, size') && HasRoom(size', list, size[b])
  {
    TakesPlace(ptr, size, free, k, b);
    KeptAll(ptr, size, free, live, owned, brk);
    var c, list := free[k + 1], free[k + 1 := b];
    assert c in FreeBlocks(free) && b in live;
    Absorbs(FreeBlocks(free) + live, size, owned, brk, b, c);
    ListedApart(live, free, c);
    assert FreeBlocks(list) + (live - {b}) == FreeBlocks(free) + live - {c};
    assert list[k] == free[k] && list[k + 1] == b;
    assert c in FreeBlocks(free) + live;
  }

  lemma AfterLower(ptr: map<int, int>, size: map<int, int>, free: seq<int>, live: set<int>, owned: set<int>, brk: int, k: nat, b: int)
    requires Right(ptr, size, free, live, owned, brk) && Between(ptr, size, free, live, k, b)
    requires b + size[b] != ptr[free[k]] && free[k] + size[free[k]] == b
    ensures var p := free[k]; var size' := size[p := size[p] + size[b]];
            && Right(ptr[b := ptr[p]][p := ptr[p]], size', free, live - {b}, owned, brk) && p in free
            && Kept(live - {b}, size, size') && HasRoom(size', free, size[b])
  {
    JoinsLower(ptr, size, free, k, b);
    KeptAll(ptr, size, free, live, owned, brk);
    var p := free[k];
    assert p in FreeBlocks(free) && p in FreeBlocks(free) + live;
    Absorbs(FreeBlocks(free) + live, size, owned, brk, p, b);
    ListedApart(live, free, p);
    NotListed(free, k, b);
    assert FreeBlocks(free) + (live - {b}) == FreeBlocks(free) + live - {b};
  }

  lemma AfterBoth(ptr: map<int, int>, size: map<int, int>, free: seq<int>, live: set<int>, owned: set<int>, brk: int, k: nat, b: int)
    requires Right(ptr, size, free, live, owned, brk) && Between(ptr, size, free, live, k, b)
    requires b + size[b] == ptr[free[k]] && free[k] + size[free[k]] == b
    ensures k + 1 < |free|
    ensures var p, c, list := free[k], free[k + 1], Without(free, k + 1);
            var size' := size[b := size[b] + size[c]][p := size[p] + (size[b] + size[c])];
            && Right(ptr[b := ptr[c]][p := ptr[c]], size', list, live - {b}, owned, brk) && p in list
            && Kept(live - {b}, size, size') && HasRoom(size', list, size[b])
  {
    JoinsBoth(ptr, size, free, k, b);
    KeptAll(ptr, size, free, live, owned, brk);
    BothSets(free, live, k, b);
    var p, c, list := free[k], free[k + 1], Without(free, k + 1);
    var blocks := FreeBlocks(free) + live;
    assert size[c] > 0;
    hide Listed, Without, FreeBlocks, Elements;
    Absorbs(blocks, size, owned, brk, b, c);
    Absorbs(blocks - {c}, size[b := size[b] + size[c]], owned, brk, p, b);
    assert size[b := size[b] + size[c]][p := size[p] + (size[b] + size[c])][p] >= size[b];
  }

  lemma BothSets(free: seq<int>, live: set<int>, k: nat, b: int)
    requires Ordered(free) && live !! Elements(free) && BASE !in live && b in live && k + 1 < |free| && free[k] != BASE
    ensures var p, c, list, blocks := free[k], free[k + 1], Without(free, k + 1), FreeBlocks(free) + live;
            && p in blocks && c in blocks && b in blocks && p !in live && c !in live && p != c && b != c && b != p
            && |list| > k && list[k] == p && p in list
            && live - {b} !! Elements(list) && FreeBlocks(list) + (live - {b}) == blocks - {c} - {b}
  {
    WithoutAt(free, k + 1);
    OthersStay(free, k + 1);
    ListedApart(live, free, free[k]);
    ListedApart(live, free, free[k + 1]);
    hide Without;
  }

  /** Whatever neighbours the block touches, the list is right afterwards. */
  lemma After(ptr: map<int, int>, size: map<int, int>, free: seq<int>, live: set<int>, owned: set<int>, brk: int, k: nat, b: int)
    returns (list: seq<int>)
    requires Right(ptr, size, free, live, owned, brk) && Between(ptr, size, free, live, k, b)
    ensures var p, c := free[k], ptr[free[k]];
            var up, down := b + size[b] == c, p + size[p] == b;
            && (up ==> c in size && c in ptr) && p in list
            && var size1 := if up then size[b := size[b] + size[c]] else size;
               var ptr1 := ptr[b := if up then ptr[c] else c];
               var size2 := if down then size1[p := size1[p] + size1[b]] else size1;
               var ptr2 := ptr1[p := if down then ptr1[b] else b];
               Right(ptr2, size2, list, live - {b}, owned, brk) && Kept(live - {b}, size, size2) && HasRoom(size2, list, size[b])
  {
    hide Right, Kept, HasRoom, With, Without;
    var p, c := free[k], ptr[free[k]];
    if b + size[b] == c {
      if p + size[p] == b {
        AfterBoth(ptr, size, free, live, owned, brk, k, b);
        list := Without(free, k + 1);
      } else {
        AfterUpper(ptr, size, free, live, owned, brk, k, b);
        list := free[k + 1 := b];
      }
    } else {
      if p + size[p] == b {
        AfterLower(ptr, size, free, live, owned, brk, k, b);
        list := free;
      } else {
        AfterNone(ptr, size, free, live, owned, brk, k, b);
        list := With(free, k, b);
      }
    }
  }

  lemma TakeWhole(ptr: map<int, int>, size: map<int, int>, free: seq<int>, live: set<int>, owned: set<int>, brk: int, c: nat)
    requires Right(ptr, size, free, live, owned, brk) && 0 < c < |free| && LinkAt(ptr, free, c)
    ensures var p, list := free[c], Without(free, c);
            && free[c - 1] >= BASE && p !in live && Right(ptr[free[c - 1] := ptr[p]], size, list, live + {p}, owned, brk) && free[c - 1] in list
            && Kept(live, size, size)
  {
    TakenOut(ptr, size, free, c);
    OthersStay(free, c);
    KeptAll(ptr, size, free, live, owned, brk);
    var p, list := free[c], Without(free, c);
    ListedApart(live, free, p);
    assert FreeBlocks(list) + (live + {p}) == FreeBlocks(free) + live;
  }

  lemma TakeTail(ptr: map<int, int>, size: map<int, int>, free: seq<int>, live: set<int>, owned: set<int>, brk: int, c: nat, n: nat)
    requires Right(ptr, size, free, live, owned, brk) && 0 < c < |free| && ApartAt(size, free, c) && 0 < n < size[free[c]]
    ensures var p := free[c]; var tail := p + size[p] - n; var size' := size[p := size[p] - n][tail := n];
            && free[c - 1] >= BASE && tail !in live && tail != p && Right(ptr, size', free, live + {tail}, owned, brk) && Kept(live, size, size')
  {
    var p, blocks := free[c], FreeBlocks(free) + live;
    var tail := p + size[p] - n;
    assert p in blocks;
    KeptAll(ptr, size, free, live, owned, brk);
    Splits(blocks, size, owned, brk, p, n);
    forall x | x in free ensures x != tail {
      if x != BASE { assert x in blocks; }
    }
    CutDown(ptr, size, free, c, n, tail);
    ListedApart(live, free, p);
    assert FreeBlocks(free) + (live + {tail}) == blocks + {tail};
  }

  // ----- runs -----

  /** `memory` says whether the system has free pages when it is asked. */
  datatype Op = Get(nbytes: int, memory: bool) | GiveBack(ap: int) | Other(n: nat, memory: bool)
  {
    /** A request that the system answers with memory that is not there. */
    predicate Breaks() {
      Get? && MOST < nbytes <= UINT - HEADER
    }
  }

  /** The blocks handed out, and the size of the process. */
  datatype Seen = Seen(live: set<int>, brk: int)

  /** What an operation does to them. A request gets a new block, for which the process may grow; it gets none only if the process
      could not grow. Pointers that were not handed out are not given back. */
  ghost predicate Moves(op: Op, a: Seen, b: Seen) {
    match op
    case Get(nbytes, memory) =>
      if 0 <= nbytes < UINT then
        var grown := a.brk + UnitsAsked(UnitsFor(nbytes));
        if b.live == a.live then b == a && (!memory || grown >= TOP)
        else (exists x :: x !in a.live && b.live == a.live + {x}) && (b.brk == a.brk || (b.brk == grown < TOP && memory))
      else b == a
    case GiveBack(ap) => b == a.(live := a.live - {ap - 1})
    case Other(n, memory) => b == if n > 0 && memory && a.brk + n < TOP then a.(brk := a.brk + n) else a
  }

  /** Any sequence of calls is carried out up to the first request that breaks the allocator, and no further; after each call the
      list is right and the blocks tile the memory obtained. */
  method Run(start: int, ops: seq<Op>) returns (h: Heap, done: nat, ghost seen: seq<Seen>)
    requires BASE < start < TOP
    ensures done <= |ops| && (forall i :: 0 <= i < done ==> !ops[i].Breaks()) && (done < |ops| ==> ops[done].Breaks())
    ensures fresh(h) && (done == |ops| ==> h.Valid())
    ensures |seen| == done + 1 && seen[0] == Seen({}, start) && seen[done] == Seen(h.live, h.brk)
    ensures forall i :: 0 <= i < done ==> Moves(ops[i], seen[i], seen[i + 1])
  {
    hide Right;
    h := new Heap(start);
    seen := [Seen({}, start)];
    done := 0;
    var handed: set<int> := {};
    while done < |ops|
      invariant done <= |ops| && forall i :: 0 <= i < done ==> !ops[i].Breaks()
      invariant fresh(h) && h.Valid() && handed == h.live
      invariant |seen| == done + 1 && seen[0] == Seen({}, start) && seen[done] == Seen(h.live, h.brk)
      invariant forall j :: 0 <= j < done ==> Moves(ops[j], seen[j], seen[j + 1])
    {
      match ops[done] {
        case Get(nbytes, memory) =>
          if 0 <= nbytes < UINT {
            var out := h.Malloc(nbytes, memory);
            if out.Unbacked? {
              return;
            }
            if out.Block? {
              handed := handed + {out.ap - 1};
            }
          }
        case GiveBack(ap) =>
          if ap - 1 in handed {
            h.Free(ap);
            handed := handed - {ap - 1};
          }
        case Other(n, memory) =>
          h.Extend(n, memory);
      }
      seen := seen + [Seen(h.live, h.brk)];
      done := done + 1;
    }
  }
}
