/** Inodes with direct, indirect and double-indirect blocks: who owns which block, and what a file contains. */
module InodeBlocks {
  import opened Common

  const BSIZE := 512
  const NDIRECT := 11
  const NINDIRECT := 128
  const MAXFILE := 11 + 128 + 128 * 128
  const UINT := 0x1_0000_0000

  // ----- blocks as words -----

  function Word(b: seq<byte>, k: nat): nat
    requires |b| == BSIZE && k < NINDIRECT
  {
    b[4 * k] as int + 0x100 * (b[4 * k + 1] as int) + 0x10000 * (b[4 * k + 2] as int) + 0x1000000 * (b[4 * k + 3] as int)
  }

  function PutWord(b: seq<byte>, k: nat, v: nat): (b': seq<byte>)
    requires |b| == BSIZE && k < NINDIRECT && v < UINT
    ensures |b'| == BSIZE
  {
    b[4 * k := (v % 0x100) as byte][4 * k + 1 := (v / 0x100 % 0x100) as byte]
     [4 * k + 2 := (v / 0x10000 % 0x100) as byte][4 * k + 3 := (v / 0x1000000 % 0x100) as byte]
  }

  lemma Digits(v: nat)
    requires v < UINT
    ensures v == v % 0x100 + 0x100 * (v / 0x100 % 0x100) + 0x10000 * (v / 0x10000 % 0x100) + 0x1000000 * (v / 0x1000000 % 0x100)
  {
    assert v / 0x10000 == v / 0x100 / 0x100 && v / 0x1000000 == v / 0x100 / 0x100 / 0x100;
  }

  lemma WordPut(b: seq<byte>, k: nat, v: nat, j: nat)
    requires |b| == BSIZE && k < NINDIRECT && v < UINT && j < NINDIRECT
    ensures Word(PutWord(b, k, v), j) == if j == k then v else Word(b, j)
  {
    var b' := PutWord(b, k, v);
    if j == k {
      Digits(v);
    } else {
      assert b'[4 * j] == b[4 * j] && b'[4 * j + 1] == b[4 * j + 1];
      assert b'[4 * j + 2] == b[4 * j + 2] && b'[4 * j + 3] == b[4 * j + 3];
    }
  }

  /** A zeroed block. */
  function Zero(): (b: seq<byte>)
    ensures |b| == BSIZE && forall i :: 0 <= i < BSIZE ==> b[i] == 0
  {
    seq(BSIZE, _ => 0 as byte)
  }

  lemma WordZero(k: nat)
    requires k < NINDIRECT
    ensures Word(Zero(), k) == 0
  {
  }

  // ----- inodes and the places that name a block -----

  datatype Inode = Inode(addrs: seq<nat>, size: nat)

  /** A place that holds a block number: an entry of the inode, of its indirect block, of its double-indirect block, or
      of one of the blocks that the double-indirect block lists. */
  datatype Slot =
    | Addr(ip: nat, i: nat)
    | Ind(ip: nat, j: nat)
    | Dbl(ip: nat, j: nat)
    | Leaf(ip: nat, j: nat, k: nat)
  {
    predicate Valid(n: nat) {
      && ip < n
      && match this
         case Addr(_, i) => i < NDIRECT + 2
         case Ind(_, j) => j < NINDIRECT
         case Dbl(_, j) => j < NINDIRECT
         case Leaf(_, j, k) => j < NINDIRECT && k < NINDIRECT
    }

    /** The slot naming the block in which this slot lies. */
    function Parent(): Slot
      requires !Addr?
    {
      match this
      case Ind(_, _) => Slot.Addr(ip, NDIRECT)
      case Dbl(_, _) => Slot.Addr(ip, NDIRECT + 1)
      case Leaf(_, j, _) => Slot.Dbl(ip, j)
    }

    function Index(): nat {
      match this
      case Addr(_, i) => i
      case Ind(_, j) => j
      case Dbl(_, j) => j
      case Leaf(_, _, k) => k
    }

    /** Does the block named here hold file data? */
    predicate Data() {
      Ind? || Leaf? || (Addr? && i < NDIRECT)
    }

    function Level(): nat {
      if Addr? then 0 else if Leaf? then 2 else 1
    }
  }

  /** Inodes, the contents of all blocks, and the free map. Blocks below `first` are metadata. */
  datatype FS = FS(inodes: seq<Inode>, blocks: seq<seq<byte>>, used: seq<bool>, first: nat) {
    ghost predicate Shaped() {
      && |used| == |blocks| < UINT && 1 <= first
      && (forall i :: 0 <= i < |inodes| ==> |inodes[i].addrs| == NDIRECT + 2)
      && (forall b :: 0 <= b < |blocks| ==> |blocks[b]| == BSIZE)
      && (forall b :: 0 <= b < first && b < |used| ==> used[b])
    }

    /** The block number in a slot, 0 for none. */
    function Get(s: Slot): nat
      requires Shaped() && s.Valid(|inodes|)
      decreases s.Level()
    {
      if s.Addr? then inodes[s.ip].addrs[s.i] else
      var p := Get(s.Parent());
      if p == 0 || p >= |blocks| then 0 else Word(blocks[p], s.Index())
    }

    /** Every block in a slot is a data block in use, each used data block is in exactly one slot, and `owner` says in
        which. */
    ghost predicate Owned(owner: map<nat, Slot>) {
      && Shaped()
      && (forall b :: b in owner ==> first <= b < |blocks| && used[b] && owner[b].Valid(|inodes|) && Get(owner[b]) == b)
      && (forall b :: first <= b < |blocks| && used[b] ==> b in owner)
      && (forall s: Slot :: s.Valid(|inodes|) && Get(s) != 0 ==> Get(s) in owner && owner[Get(s)] == s)
    }

    /** Puts block number `b` into slot `s`. */
    function Set(s: Slot, b: nat): FS
      requires Shaped() && s.Valid(|inodes|) && b < UINT
    {
      if s.Addr? then
        this.(inodes := inodes[s.ip := inodes[s.ip].(addrs := inodes[s.ip].addrs[s.i := b])])
      else
        var p := Get(s.Parent());
        if p >= |blocks| then this else this.(blocks := blocks[p := PutWord(blocks[p], s.Index(), b)])
    }

    /** Marks a block as used and zeroes it. */
    function Taken(b: nat): FS
      requires b < |used| && b < |blocks|
    {
      this.(used := used[b := true], blocks := blocks[b := Zero()])
    }
  }

  /** Putting a fresh zeroed block into an empty slot changes that slot and no other. */
  lemma {:induction false} GetAfterAlloc(fs: FS, owner: map<nat, Slot>, s: Slot, b: nat, t: Slot)
    requires fs.Owned(owner) && s.Valid(|fs.inodes|) && t.Valid(|fs.inodes|) && fs.Get(s) == 0
    requires fs.first <= b < |fs.blocks| && !fs.used[b]
    requires !s.Addr? ==> fs.Get(s.Parent()) != 0
    ensures fs.Taken(b).Shaped() && fs.Taken(b).Set(s, b).Shaped()
    ensures fs.Taken(b).Set(s, b).Get(t) == if t == s then b else fs.Get(t)
    decreases t.Level()
  {
    SetShaped(fs, owner, s, b);
    if !t.Addr? {
      GetAfterAlloc(fs, owner, s, b, t.Parent());
      WordAfterAlloc(fs, owner, s, b, t);
    }
  }

  lemma SetShaped(fs: FS, owner: map<nat, Slot>, s: Slot, b: nat)
    requires fs.Owned(owner) && s.Valid(|fs.inodes|) && fs.first <= b < |fs.blocks| && !fs.used[b]
    ensures fs.Taken(b).Shaped() && fs.Taken(b).Set(s, b).Shaped()
  {
    assert fs.Taken(b).Shaped();
  }

  /** The words in the block that names `t`, by way of its parent, in the fresh block as well. */
  lemma WordAfterAlloc(fs: FS, owner: map<nat, Slot>, s: Slot, b: nat, t: Slot)
    requires fs.Owned(owner) && s.Valid(|fs.inodes|) && t.Valid(|fs.inodes|) && !t.Addr? && fs.Get(s) == 0
    requires fs.first <= b < |fs.blocks| && !fs.used[b]
    requires !s.Addr? ==> fs.Get(s.Parent()) != 0
    requires fs.Taken(b).Shaped() && fs.Taken(b).Set(s, b).Shaped()
    requires fs.Taken(b).Set(s, b).Get(t.Parent()) == if t.Parent() == s then b else fs.Get(t.Parent())
    ensures fs.Taken(b).Set(s, b).Get(t) == if t == s then b else fs.Get(t)
  {
    if !s.Addr? { TakenKeepsGet(fs, owner, b, s.Parent()); }
    var p := t.Parent();
    if p == s {
      WordZero(t.Index());
    } else if fs.Get(p) != 0 {
      var q := fs.Get(p);
      assert q in owner && owner[q] == p;
      if !s.Addr? && fs.Get(s.Parent()) == q {
        WordPut(fs.blocks[q], s.Index(), b, t.Index());
        assert p == s.Parent();
      }
    }
  }

  lemma {:induction false} TakenKeepsGet(fs: FS, owner: map<nat, Slot>, b: nat, t: Slot)
    requires fs.Owned(owner) && t.Valid(|fs.inodes|) && fs.first <= b < |fs.blocks| && !fs.used[b]
    ensures fs.Taken(b).Shaped() && fs.Taken(b).Get(t) == fs.Get(t)
    decreases t.Level()
  {
    assert fs.Taken(b).Shaped();
    if !t.Addr? {
      TakenKeepsGet(fs, owner, b, t.Parent());
    }
  }

  /** After an allocation every used data block still has exactly one owner. */
  lemma OwnedAfterAlloc(fs: FS, owner: map<nat, Slot>, s: Slot, b: nat)
    requires fs.Owned(owner) && s.Valid(|fs.inodes|) && fs.Get(s) == 0
    requires fs.first <= b < |fs.blocks| && !fs.used[b]
    requires !s.Addr? ==> fs.Get(s.Parent()) != 0
    ensures fs.Taken(b).Shaped() && fs.Taken(b).Set(s, b).Owned(owner[b := s])
  {
    SetShaped(fs, owner, s, b);
    var fs' := fs.Taken(b).Set(s, b);
    assert fs'.used == fs.used[b := true] && fs'.first == fs.first && |fs'.inodes| == |fs.inodes| && |fs'.blocks| == |fs.blocks|;
    hide FS.Get, FS.Set, FS.Taken, FS.Owned;
    forall t: Slot | t.Valid(|fs.inodes|)
      ensures fs'.Get(t) == if t == s then b else fs.Get(t)
    {
      GetAfterAlloc(fs, owner, s, b, t);
    }
    OwnerAdded(fs, owner, fs', s, b);
  }

  lemma OwnerAdded(fs: FS, owner: map<nat, Slot>, fs': FS, s: Slot, b: nat)
    requires fs.Owned(owner) && s.Valid(|fs.inodes|) && fs.Get(s) == 0 && fs.first <= b < |fs.blocks| && !fs.used[b]
    requires fs'.Shaped() && fs'.used == fs.used[b := true] && fs'.first == fs.first
    requires |fs'.inodes| == |fs.inodes| && |fs'.blocks| == |fs.blocks|
    requires forall t: Slot :: t.Valid(|fs.inodes|) ==> fs'.Get(t) == if t == s then b else fs.Get(t)
    ensures fs'.Owned(owner[b := s])
  {
    hide FS.Get;
    assert b !in owner;
  }

  /** An allocation does not touch the contents of blocks that hold file data. */
  lemma DataAfterAlloc(fs: FS, owner: map<nat, Slot>, s: Slot, b: nat, t: Slot)
    requires fs.Owned(owner) && s.Valid(|fs.inodes|) && t.Valid(|fs.inodes|) && fs.Get(s) == 0
    requires fs.first <= b < |fs.blocks| && !fs.used[b]
    requires !s.Addr? ==> fs.Get(s.Parent()) != 0
    requires t.Data() && fs.Get(t) != 0
    ensures fs.Taken(b).Shaped() && fs.Taken(b).Set(s, b).blocks[fs.Get(t)] == fs.blocks[fs.Get(t)]
  {
    GetAfterAlloc(fs, owner, s, b, t);
    if !s.Addr? {
      TakenKeepsGet(fs, owner, b, s.Parent());
      assert owner[fs.Get(s.Parent())] == s.Parent() && owner[fs.Get(t)] == t;
    }
  }

  // ----- files -----

  /** The slot of block number `bn` of a file. */
  function SlotOf(ip: nat, bn: nat): (s: Slot)
    requires bn < MAXFILE
    ensures s.Data() && s.ip == ip
  {
    if bn < NDIRECT then Slot.Addr(ip, bn)
    else if bn < NDIRECT + NINDIRECT then Slot.Ind(ip, bn - NDIRECT)
    else Slot.Leaf(ip, (bn - NDIRECT - NINDIRECT) / NINDIRECT, (bn - NDIRECT - NINDIRECT) % NINDIRECT)
  }

  /** Different blocks of files are named by different slots. */
  lemma SlotOfInjective(ip: nat, bn: nat, ip': nat, bn': nat)
    requires bn < MAXFILE && bn' < MAXFILE && SlotOf(ip, bn) == SlotOf(ip', bn')
    ensures ip == ip' && bn == bn'
  {
  }

  function BlockOf(fs: FS, ip: nat, bn: nat): nat
    requires fs.Shaped() && ip < |fs.inodes| && bn < MAXFILE
  {
    fs.Get(SlotOf(ip, bn))
  }

  /** The byte at offset `o` of a file, 0 where no block is allocated. */
  function ByteAt(fs: FS, ip: nat, o: nat): byte
    requires fs.Shaped() && ip < |fs.inodes| && o < MAXFILE * BSIZE
  {
    var b := BlockOf(fs, ip, o / BSIZE);
    if b == 0 || b >= |fs.blocks| then 0 else fs.blocks[b][o % BSIZE]
  }

  /** Every block below the file's size is allocated. */
  ghost predicate NoHoles(fs: FS, ip: nat)
    requires fs.Shaped() && ip < |fs.inodes|
  {
    && fs.inodes[ip].size <= MAXFILE * BSIZE
    && forall bn: nat :: bn < MAXFILE && bn * BSIZE < fs.inodes[ip].size ==> BlockOf(fs, ip, bn) != 0
  }

  function Contents(fs: FS, ip: nat): seq<byte>
    requires fs.Shaped() && ip < |fs.inodes| && fs.inodes[ip].size <= MAXFILE * BSIZE
  {
    seq(fs.inodes[ip].size, o requires 0 <= o < fs.inodes[ip].size => ByteAt(fs, ip, o))
  }

  ghost predicate Consistent(fs: FS, owner: map<nat, Slot>) {
    fs.Owned(owner) && forall ip :: 0 <= ip < |fs.inodes| ==> NoHoles(fs, ip)
  }

  /** Blocks may have been allocated, but no file shows any difference. */
  ghost predicate Grown(fs: FS, fs': FS) {
    && fs.Shaped() && fs'.Shaped() && |fs'.inodes| == |fs.inodes| && |fs'.blocks| == |fs.blocks| && fs'.first == fs.first
    && (forall ip :: 0 <= ip < |fs.inodes| ==> fs'.inodes[ip].size == fs.inodes[ip].size)
    && (forall t: Slot :: t.Valid(|fs.inodes|) && fs.Get(t) != 0 ==> fs'.Get(t) == fs.Get(t))
    && (forall ip, o: nat :: 0 <= ip < |fs.inodes| && o < MAXFILE * BSIZE ==> ByteAt(fs', ip, o) == ByteAt(fs, ip, o))
  }

  lemma GrownByAlloc(fs: FS, owner: map<nat, Slot>, s: Slot, b: nat)
    requires fs.Owned(owner) && s.Valid(|fs.inodes|) && fs.Get(s) == 0
    requires fs.first <= b < |fs.blocks| && !fs.used[b]
    requires !s.Addr? ==> fs.Get(s.Parent()) != 0
    ensures fs.Taken(b).Shaped() && Grown(fs, fs.Taken(b).Set(s, b))
    ensures fs.Taken(b).Set(s, b).Get(s) == b
  {
    GetAfterAlloc(fs, owner, s, b, s);
    var fs' := fs.Taken(b).Set(s, b);
    forall t: Slot | t.Valid(|fs.inodes|) && fs.Get(t) != 0
      ensures fs'.Get(t) == fs.Get(t)
    {
      GetAfterAlloc(fs, owner, s, b, t);
    }
    forall ip, o: nat | 0 <= ip < |fs.inodes| && o < MAXFILE * BSIZE
      ensures ByteAt(fs', ip, o) == ByteAt(fs, ip, o)
    {
      ByteAfterAlloc(fs, owner, s, b, ip, o);
    }
  }

  lemma ByteAfterAlloc(fs: FS, owner: map<nat, Slot>, s: Slot, b: nat, ip: nat, o: nat)
    requires fs.Owned(owner) && s.Valid(|fs.inodes|) && fs.Get(s) == 0
    requires fs.first <= b < |fs.blocks| && !fs.used[b]
    requires !s.Addr? ==> fs.Get(s.Parent()) != 0
    requires ip < |fs.inodes| && o < MAXFILE * BSIZE
    ensures fs.Taken(b).Shaped() && fs.Taken(b).Set(s, b).Shaped()
    ensures ByteAt(fs.Taken(b).Set(s, b), ip, o) == ByteAt(fs, ip, o)
  {
    var t := SlotOf(ip, o / BSIZE);
    GetAfterAlloc(fs, owner, s, b, t);
    if fs.Get(t) != 0 {
      DataAfterAlloc(fs, owner, s, b, t);
      assert fs.Get(t) in owner;
    } else if t == s && !s.Addr? {
      TakenKeepsGet(fs, owner, b, s.Parent());
      assert owner[fs.Get(s.Parent())] == s.Parent();
    }
  }

  lemma GrownTransitive(a: FS, b: FS, c: FS)
    requires Grown(a, b) && Grown(b, c)
    ensures Grown(a, c)
  {
    forall ip, o: nat | 0 <= ip < |a.inodes| && o < MAXFILE * BSIZE
      ensures ByteAt(c, ip, o) == ByteAt(a, ip, o)
    {
      assert ByteAt(b, ip, o) == ByteAt(a, ip, o);
    }
  }

  lemma GrownItself(a: FS)
    requires a.Shaped()
    ensures Grown(a, a)
  {
  }

  /** Growing keeps the file system consistent. */
  lemma GrownConsistent(fs: FS, owner: map<nat, Slot>, fs': FS, owner': map<nat, Slot>)
    requires Consistent(fs, owner) && Grown(fs, fs') && fs'.Owned(owner')
    ensures Consistent(fs', owner')
  {
    forall ip | 0 <= ip < |fs.inodes|
      ensures NoHoles(fs', ip)
    {
      assert NoHoles(fs, ip);
      forall bn: nat | bn < MAXFILE && bn * BSIZE < fs.inodes[ip].size
        ensures BlockOf(fs', ip, bn) != 0
      {
        assert BlockOf(fs, ip, bn) != 0;
      }
    }
  }

  // ----- writing into a block -----

  /** Bytes `data` put at position `at` of block `b`. */
  function Written(fs: FS, b: nat, at: nat, data: seq<byte>): FS
    requires fs.Shaped() && b < |fs.blocks| && at + |data| <= BSIZE
  {
    fs.(blocks := fs.blocks[b := fs.blocks[b][..at] + data + fs.blocks[b][at + |data|..]])
  }

  /** Writing into a data block changes no slot. */
  lemma {:induction false} GetAfterWrite(fs: FS, owner: map<nat, Slot>, d: Slot, at: nat, data: seq<byte>, t: Slot)
    requires fs.Owned(owner) && d.Valid(|fs.inodes|) && d.Data() && fs.Get(d) != 0 && at + |data| <= BSIZE
    requires t.Valid(|fs.inodes|)
    ensures fs.Get(d) < |fs.blocks| && Written(fs, fs.Get(d), at, data).Shaped()
    ensures Written(fs, fs.Get(d), at, data).Get(t) == fs.Get(t)
    decreases t.Level()
  {
    assert fs.Get(d) in owner && owner[fs.Get(d)] == d;
    assert Written(fs, fs.Get(d), at, data).Shaped();
    if !t.Addr? {
      GetAfterWrite(fs, owner, d, at, data, t.Parent());
      var q := fs.Get(t.Parent());
      assert q != 0 ==> owner[q] == t.Parent();
    }
  }

  lemma ByteAfterWrite(fs: FS, owner: map<nat, Slot>, ip: nat, bn: nat, at: nat, data: seq<byte>, ip': nat, o: nat)
    requires fs.Owned(owner) && ip < |fs.inodes| && bn < MAXFILE && BlockOf(fs, ip, bn) != 0 && at + |data| <= BSIZE
    requires ip' < |fs.inodes| && o < MAXFILE * BSIZE
    ensures BlockOf(fs, ip, bn) < |fs.blocks|
    ensures var fs' := Written(fs, BlockOf(fs, ip, bn), at, data);
            fs'.Shaped() && ByteAt(fs', ip', o)
              == if ip' == ip && bn * BSIZE + at <= o < bn * BSIZE + at + |data| then data[o - (bn * BSIZE + at)]
                 else ByteAt(fs, ip', o)
  {
    var d, t := SlotOf(ip, bn), SlotOf(ip', o / BSIZE);
    GetAfterWrite(fs, owner, d, at, data, t);
    if fs.Get(t) == fs.Get(d) {
      assert owner[fs.Get(d)] == d && owner[fs.Get(t)] == t;
      SlotOfInjective(ip, bn, ip', o / BSIZE);
    } else if o / BSIZE == bn && ip' == ip {
      assert false;
    }
  }

  lemma OwnedAfterWrite(fs: FS, owner: map<nat, Slot>, d: Slot, at: nat, data: seq<byte>)
    requires fs.Owned(owner) && d.Valid(|fs.inodes|) && d.Data() && fs.Get(d) != 0 && at + |data| <= BSIZE
    ensures fs.Get(d) < |fs.blocks| && Written(fs, fs.Get(d), at, data).Owned(owner)
  {
    assert fs.Get(d) in owner;
    var fs' := Written(fs, fs.Get(d), at, data);
    assert fs'.Shaped();
    forall t: Slot | t.Valid(|fs.inodes|)
      ensures fs'.Get(t) == fs.Get(t)
    {
      GetAfterWrite(fs, owner, d, at, data, t);
    }
  }

  // ----- how many blocks an allocation takes -----

  function FreeCount(used: seq<bool>): nat {
    if used == [] then 0 else FreeCount(used[..|used| - 1]) + if used[|used| - 1] then 0 else 1
  }

  lemma {:induction false} FreeCountTaken(used: seq<bool>, b: nat)
    requires b < |used| && !used[b]
    ensures FreeCount(used[b := true]) == FreeCount(used) - 1
  {
    var n := |used| - 1;
    if b < n {
      FreeCountTaken(used[..n], b);
      assert used[b := true][..n] == used[..n][b := true];
    } else {
      assert used[b := true][..n] == used[..n];
    }
  }

  lemma {:induction false} FreeCountFull(used: seq<bool>)
    requires forall b :: 0 <= b < |used| ==> used[b]
    ensures FreeCount(used) == 0
  {
    if used != [] { FreeCountFull(used[..|used| - 1]); }
  }

  /** The slots on the way to block number `bn` of a file. */
  function Path(ip: nat, bn: nat): set<Slot>
    requires bn < MAXFILE
  {
    var s := SlotOf(ip, bn);
    if s.Addr? then {s} else if s.Ind? then {s.Parent(), s} else {s.Parent().Parent(), s.Parent(), s}
  }

  /** The slots on the way to all blocks from number `a` up to number `b`. */
  function Paths(ip: nat, a: nat, b: nat): set<Slot>
    requires b <= MAXFILE
    decreases b
  {
    if b <= a then {} else Paths(ip, a, b - 1) + Path(ip, b - 1)
  }

  /** The slots on the way to the bytes from offset `off` up to `end`. */
  function Touched(ip: nat, off: nat, end: nat): set<Slot>
    requires off <= end <= MAXFILE * BSIZE
  {
    if off == end then {} else Paths(ip, off / BSIZE, (end - 1) / BSIZE + 1)
  }

  lemma TouchedThen(ip: nat, off: nat, at: nat, m: nat)
    requires off <= at && 0 < m <= BSIZE - at % BSIZE && at + m <= MAXFILE * BSIZE
    ensures Touched(ip, off, at + m) == Touched(ip, off, at) + Path(ip, at / BSIZE)
  {
    var b := at / BSIZE;
    assert (at + m - 1) / BSIZE == b;
    assert Paths(ip, off / BSIZE, b + 1) == Paths(ip, off / BSIZE, b) + Path(ip, b);
    if off < at && at % BSIZE != 0 {
      assert (at - 1) / BSIZE == b;
    } else if off < at {
      assert (at - 1) / BSIZE + 1 == b;
    } else {
      assert Paths(ip, b, b) == {};
    }
  }

  lemma {:induction false} PathsGrow(ip: nat, a: nat, b: nat, c: nat)
    requires b <= c <= MAXFILE
    ensures Paths(ip, a, b) <= Paths(ip, a, c)
  {
    if b < c { PathsGrow(ip, a, b, c - 1); }
  }

  lemma TouchedGrows(ip: nat, off: nat, at: nat, end: nat)
    requires off <= at <= end <= MAXFILE * BSIZE
    ensures Touched(ip, off, at) <= Touched(ip, off, end)
  {
    if off < at { PathsGrow(ip, off / BSIZE, (at - 1) / BSIZE + 1, (end - 1) / BSIZE + 1); }
  }

  /** Those of the slots that hold no block. */
  ghost function Missing(fs: FS, slots: set<Slot>): set<Slot>
    requires fs.Shaped()
  {
    set s | s in slots && s.Valid(|fs.inodes|) && fs.Get(s) == 0
  }

  /** The blocks that writing the bytes from `off` up to `end` takes. */
  ghost function Needed(fs: FS, ip: nat, off: nat, end: nat): nat
    requires fs.Shaped() && off <= end <= MAXFILE * BSIZE
  {
    |Missing(fs, Touched(ip, off, end))|
  }

  /** Exactly these empty slots got a block each. */
  ghost predicate Filled(fs: FS, fs': FS, slots: set<Slot>) {
    && fs.Shaped() && fs'.Shaped() && |fs'.inodes| == |fs.inodes| && |fs'.used| == |fs.used| && fs'.first == fs.first
    && (forall t :: t in slots ==> t.Valid(|fs.inodes|) && fs.Get(t) == 0)
    && (forall t: Slot :: t.Valid(|fs.inodes|) ==> (fs'.Get(t) != 0 <==> fs.Get(t) != 0 || t in slots))
    && FreeCount(fs'.used) + |slots| == FreeCount(fs.used)
  }

  lemma FilledItself(fs: FS, slots: set<Slot>)
    requires fs.Shaped() && Missing(fs, slots) == {}
    ensures Filled(fs, fs, Missing(fs, slots))
  {
  }

  lemma FilledByAlloc(fs: FS, owner: map<nat, Slot>, s: Slot, b: nat)
    requires fs.Owned(owner) && s.Valid(|fs.inodes|) && fs.Get(s) == 0
    requires fs.first <= b < |fs.blocks| && !fs.used[b]
    requires !s.Addr? ==> fs.Get(s.Parent()) != 0
    ensures fs.Taken(b).Shaped() && Missing(fs, {s}) == {s} && Filled(fs, fs.Taken(b).Set(s, b), {s})
  {
    GetAfterAlloc(fs, owner, s, b, s);
    var fs' := fs.Taken(b).Set(s, b);
    FreeCountTaken(fs.used, b);
    assert fs'.used == fs.used[b := true];
    forall t: Slot | t.Valid(|fs.inodes|) ensures fs'.Get(t) != 0 <==> fs.Get(t) != 0 || t == s {
      GetAfterAlloc(fs, owner, s, b, t);
    }
  }

  /** One allocation after another: what the second finds missing is what the first has left. */
  lemma FilledThen(a: FS, b: FS, c: FS, p: set<Slot>, q: set<Slot>)
    requires a.Shaped() && b.Shaped() && Filled(a, b, Missing(a, p)) && Filled(b, c, Missing(b, q))
    ensures Filled(a, c, Missing(a, p + q))
  {
    MissingThen(a, b, p, q);
    assert Missing(a, p) !! Missing(b, q);
  }

  lemma MissingThen(a: FS, b: FS, p: set<Slot>, q: set<Slot>)
    requires a.Shaped() && b.Shaped() && Filled(a, b, Missing(a, p))
    ensures Missing(a, p + q) == Missing(a, p) + Missing(b, q) && Missing(a, p) !! Missing(b, q)
  {
  }

  /** If too few blocks are left on the way, there were too few from the start. */
  lemma TooFew(a: FS, b: FS, p: set<Slot>, q: set<Slot>, all: set<Slot>)
    requires a.Shaped() && b.Shaped() && Filled(a, b, Missing(a, p)) && FreeCount(b.used) < |Missing(b, q)| && p + q <= all
    ensures FreeCount(a.used) < |Missing(a, all)|
  {
    MissingThen(a, b, p, q);
    assert |Missing(a, p + q)| == |Missing(a, p)| + |Missing(b, q)|;
    SubsetSize(Missing(a, p + q), Missing(a, all));
  }

  /** A change of bytes in a data block, or of a size, takes no block. */
  lemma FilledThenSame(a: FS, b: FS, c: FS, slots: set<Slot>)
    requires Filled(a, b, slots) && c.Shaped() && |c.inodes| == |b.inodes| && c.used == b.used && c.first == b.first
    requires forall t: Slot :: t.Valid(|b.inodes|) ==> c.Get(t) == b.Get(t)
    ensures Filled(a, c, slots)
  {
  }

  lemma FilledSized(a: FS, b: FS, slots: set<Slot>, ip: nat, size: nat)
    requires Filled(a, b, slots) && ip < |b.inodes|
    ensures Filled(a, Sized(b, ip, size), slots)
  {
    forall t: Slot | t.Valid(|b.inodes|) ensures Sized(b, ip, size).Shaped() && Sized(b, ip, size).Get(t) == b.Get(t) {
      GetIgnoresSize(b, ip, size, t);
    }
    assert Sized(b, ip, size).Shaped();
    FilledThenSame(a, b, Sized(b, ip, size), slots);
  }

  lemma FilledShaped(a: FS, b: FS, slots: set<Slot>)
    requires Filled(a, b, slots)
    ensures a.Shaped() && b.Shaped() && |b.inodes| == |a.inodes|
    ensures FreeCount(b.used) + |slots| == FreeCount(a.used)
  {
  }

  // ----- truncation -----

  /** The order in which truncation frees the blocks of a file. */
  function Rank(s: Slot): nat {
    match s
    case Addr(_, i) => if i < NDIRECT then i else if i == NDIRECT then 1000 else 1000000
    case Ind(_, j) => 100 + j
    case Leaf(_, j, k) => 2000 + 1000 * j + k
    case Dbl(_, j) => 2000 + 1000 * j + 500
  }

  /** The blocks of file `ip` whose slots come before rank `r` are free, all other bits are as they were in `fs`. */
  ghost predicate FreedTo(fs: FS, owner: map<nat, Slot>, ip: nat, used: seq<bool>, r: nat)
  {
    && |used| == |fs.used|
    && forall b :: 0 <= b < |used| ==> used[b] == (fs.used[b] && !(b in owner && owner[b].ip == ip && Rank(owner[b]) < r))
  }

  /** No block is in a slot of file `ip` with a rank from `r` up to `r'`. */
  ghost predicate NothingBetween(fs: FS, ip: nat, r: nat, r': nat)
    requires fs.Shaped()
  {
    forall s: Slot :: s.Valid(|fs.inodes|) && s.ip == ip && r <= Rank(s) < r' ==> fs.Get(s) == 0
  }

  lemma FreedSkip(fs: FS, owner: map<nat, Slot>, ip: nat, used: seq<bool>, r: nat, r': nat)
    requires fs.Owned(owner) && FreedTo(fs, owner, ip, used, r) && r <= r' && NothingBetween(fs, ip, r, r')
    ensures FreedTo(fs, owner, ip, used, r')
  {
    forall b | 0 <= b < |used| && b in owner && owner[b].ip == ip
      ensures Rank(owner[b]) < r <==> Rank(owner[b]) < r'
    {
      assert fs.Get(owner[b]) == b;
    }
  }

  /** The ranks between the direct blocks and the double-indirect block that no block has. */
  lemma IndirectGaps(fs: FS, owner: map<nat, Slot>, ip: nat)
    requires fs.Owned(owner) && ip < |fs.inodes|
    ensures NothingBetween(fs, ip, NDIRECT, 100) && NothingBetween(fs, ip, 100 + NINDIRECT, 1000)
    ensures var p := fs.inodes[ip].addrs[NDIRECT];
            && p == fs.Get(Slot.Addr(ip, NDIRECT))
            && if p == 0 then NothingBetween(fs, ip, NDIRECT, 1001) else p in owner && p < |fs.blocks| && |fs.blocks[p]| == BSIZE
  {
    var p := fs.Get(Slot.Addr(ip, NDIRECT));
    assert p != 0 ==> p in owner;
  }

  lemma DoubleGaps(fs: FS, owner: map<nat, Slot>, ip: nat)
    requires fs.Owned(owner) && ip < |fs.inodes|
    ensures NothingBetween(fs, ip, 1001, 2000) && NothingBetween(fs, ip, 2000 + 1000 * NINDIRECT, 1000000)
    ensures var p := fs.inodes[ip].addrs[NDIRECT + 1];
            && p == fs.Get(Slot.Addr(ip, NDIRECT + 1))
            && if p == 0 then NothingBetween(fs, ip, 1001, 1000001) else p in owner && p < |fs.blocks| && |fs.blocks[p]| == BSIZE
  {
    var p := fs.Get(Slot.Addr(ip, NDIRECT + 1));
    assert p != 0 ==> p in owner;
  }

  lemma RankInjective(s: Slot, t: Slot, n: nat)
    requires s.Valid(n) && t.Valid(n) && s.ip == t.ip && Rank(s) == Rank(t)
    ensures s == t
  {
  }

  /** The block in slot `s` is still in use when its turn comes, and freeing it is one step on. */
  lemma FreedOne(fs: FS, owner: map<nat, Slot>, used: seq<bool>, s: Slot)
    requires fs.Owned(owner) && s.Valid(|fs.inodes|) && FreedTo(fs, owner, s.ip, used, Rank(s))
    ensures fs.Get(s) == 0 ==> FreedTo(fs, owner, s.ip, used, Rank(s) + 1)
    ensures fs.Get(s) != 0 ==> fs.Get(s) < |used| && used[fs.Get(s)]
                               && FreedTo(fs, owner, s.ip, used[fs.Get(s) := false], Rank(s) + 1)
  {
    hide FS.Get, FS.Owned, Rank;
    OwnedSlot(fs, owner, s);
    forall b | b in owner && owner[b].ip == s.ip
      ensures b != 0 && (Rank(owner[b]) < Rank(s) + 1 <==> Rank(owner[b]) < Rank(s) || b == fs.Get(s))
    {
      RankNext(fs, owner, s, b);
    }
  }

  lemma OwnedSlot(fs: FS, owner: map<nat, Slot>, s: Slot)
    requires fs.Owned(owner) && s.Valid(|fs.inodes|)
    ensures fs.Shaped() && var x := fs.Get(s); x != 0 ==> x in owner && owner[x] == s && x < |fs.used| && fs.used[x]
  {
  }

  lemma RankNext(fs: FS, owner: map<nat, Slot>, s: Slot, b: nat)
    requires fs.Owned(owner) && s.Valid(|fs.inodes|) && b in owner && owner[b].ip == s.ip
    ensures fs.Shaped() && (Rank(owner[b]) < Rank(s) + 1 <==> Rank(owner[b]) < Rank(s) || b == fs.Get(s)) && b != 0
  {
    hide Rank, FS.Get;
    OwnedSlot(fs, owner, s);
    if Rank(owner[b]) == Rank(s) { RankInjective(owner[b], s, |fs.inodes|); }
  }

  /** What truncation leaves behind: file `ip` empty, its blocks free, and of all other blocks nothing changed. */
  ghost predicate Truncated(fs: FS, owner: map<nat, Slot>, ip: nat, fs': FS)
    requires fs.Shaped() && ip < |fs.inodes|
  {
    && fs'.first == fs.first && |fs'.blocks| == |fs.blocks|
    && FreedTo(fs, owner, ip, fs'.used, 1000001)
    && fs'.inodes == fs.inodes[ip := Inode(seq(NDIRECT + 2, _ => 0), 0)]
    && (forall b :: 0 <= b < |fs.blocks| ==> |fs'.blocks[b]| == BSIZE)
    && (forall b :: 0 <= b < |fs.blocks| && b != fs.inodes[ip].addrs[NDIRECT + 1] ==> fs'.blocks[b] == fs.blocks[b])
  }

  lemma {:induction false} GetAfterTruncate(fs: FS, owner: map<nat, Slot>, ip: nat, fs': FS, t: Slot)
    requires fs.Owned(owner) && ip < |fs.inodes| && Truncated(fs, owner, ip, fs') && t.Valid(|fs.inodes|)
    ensures fs'.Shaped() && fs'.Get(t) == if t.ip == ip then 0 else fs.Get(t)
    decreases t.Level()
  {
    assert fs'.Shaped();
    if !t.Addr? {
      GetAfterTruncate(fs, owner, ip, fs', t.Parent());
      var p, q := fs.Get(t.Parent()), fs.inodes[ip].addrs[NDIRECT + 1];
      assert q == fs.Get(Slot.Addr(ip, NDIRECT + 1));
      assert p != 0 ==> owner[p] == t.Parent();
    }
  }

  /** A truncated file owns nothing, all other files are untouched, and every used block still has one owner. */
  lemma TruncateConsistent(fs: FS, owner: map<nat, Slot>, ip: nat, fs': FS)
    requires Consistent(fs, owner) && ip < |fs.inodes| && Truncated(fs, owner, ip, fs')
    ensures Consistent(fs', map b | b in owner && owner[b].ip != ip :: owner[b])
    ensures forall ip' :: 0 <= ip' < |fs.inodes| && ip' != ip ==>
              NoHoles(fs, ip') && NoHoles(fs', ip') && Contents(fs', ip') == Contents(fs, ip')
    ensures NoHoles(fs', ip) && Contents(fs', ip) == [] && Emptied(fs, fs', ip)
  {
    hide FS.Get, FS.Owned, FreedTo, NoHoles, Contents;
    TruncateEmpties(fs, owner, ip, fs');
    OwnersKept(fs, owner, ip, fs');
    forall i | 0 <= i < |fs.inodes| ensures NoHoles(fs', i) {
      HolesKept(fs, owner, ip, fs', i);
    }
    NothingLeft(fs', ip);
    forall i | 0 <= i < |fs.inodes| && i != ip
      ensures NoHoles(fs, i) && NoHoles(fs', i) && fs'.inodes[i].size == fs.inodes[i].size <= MAXFILE * BSIZE
      ensures Contents(fs', i) == Contents(fs, i)
    {
      ContentsKept(fs, owner, ip, fs', i);
    }
  }

  lemma HolesKept(fs: FS, owner: map<nat, Slot>, ip: nat, fs': FS, i: nat)
    requires Consistent(fs, owner) && Emptied(fs, fs', ip) && i < |fs.inodes|
    ensures NoHoles(fs, i) && NoHoles(fs', i) && fs.inodes[i].size <= MAXFILE * BSIZE
  {
    hide FS.Get;
    assert NoHoles(fs, i);
    forall bn: nat | bn < MAXFILE && bn * BSIZE < fs'.inodes[i].size ensures BlockOf(fs', i, bn) != 0 {
      assert BlockOf(fs, i, bn) != 0;
    }
  }

  lemma NothingLeft(fs: FS, ip: nat)
    requires fs.Shaped() && ip < |fs.inodes| && fs.inodes[ip].size == 0
    ensures Contents(fs, ip) == []
  {
  }

  lemma ContentsKept(fs: FS, owner: map<nat, Slot>, ip: nat, fs': FS, i: nat)
    requires Consistent(fs, owner) && Emptied(fs, fs', ip) && Truncated(fs, owner, ip, fs') && i < |fs.inodes| && i != ip
    ensures NoHoles(fs, i) && NoHoles(fs', i) && fs'.inodes[i].size == fs.inodes[i].size <= MAXFILE * BSIZE
    ensures Contents(fs', i) == Contents(fs, i)
  {
    SizeKept(fs, fs', ip, i);
    HolesKept(fs, owner, ip, fs', i);
    hide FS.Get, NoHoles, Truncated, Emptied;
    forall o | 0 <= o < fs.inodes[i].size ensures ByteAt(fs', i, o) == ByteAt(fs, i, o) {
      ByteAfterTruncate(fs, owner, ip, fs', i, o);
    }
  }

  lemma SizeKept(fs: FS, fs': FS, ip: nat, i: nat)
    requires Emptied(fs, fs', ip) && i < |fs.inodes| && i != ip
    ensures fs.Shaped() && fs'.Shaped() && |fs'.inodes| == |fs.inodes| && fs'.inodes[i].size == fs.inodes[i].size
  {
  }

  /** File `ip` has no blocks any more, and the others have those they had. */
  ghost predicate Emptied(fs: FS, fs': FS, ip: nat) {
    && fs.Shaped() && fs'.Shaped() && ip < |fs.inodes| == |fs'.inodes| && fs'.first == fs.first && |fs'.used| == |fs.used|
    && (forall i :: 0 <= i < |fs.inodes| ==> fs'.inodes[i].size == if i == ip then 0 else fs.inodes[i].size)
    && forall t: Slot :: t.Valid(|fs.inodes|) ==> fs'.Get(t) == if t.ip == ip then 0 else fs.Get(t)
  }

  lemma TruncateEmpties(fs: FS, owner: map<nat, Slot>, ip: nat, fs': FS)
    requires fs.Owned(owner) && ip < |fs.inodes| && Truncated(fs, owner, ip, fs')
    ensures Emptied(fs, fs', ip)
  {
    GetAfterTruncate(fs, owner, ip, fs', Slot.Addr(ip, 0));
    forall t: Slot | t.Valid(|fs.inodes|) ensures fs'.Get(t) == if t.ip == ip then 0 else fs.Get(t) {
      GetAfterTruncate(fs, owner, ip, fs', t);
    }
  }

  lemma OwnersKept(fs: FS, owner: map<nat, Slot>, ip: nat, fs': FS)
    requires fs.Owned(owner) && Emptied(fs, fs', ip) && Truncated(fs, owner, ip, fs')
    ensures fs'.Owned(map b | b in owner && owner[b].ip != ip :: owner[b])
  {
    hide FS.Get;
    forall b | b in owner && fs'.used[b] ensures owner[b].ip != ip {
      assert Rank(owner[b]) < 1000001;
    }
  }

  lemma ByteAfterTruncate(fs: FS, owner: map<nat, Slot>, ip: nat, fs': FS, ip': nat, o: nat)
    requires fs.Owned(owner) && ip < |fs.inodes| && Truncated(fs, owner, ip, fs')
    requires ip' < |fs.inodes| && ip' != ip && o < MAXFILE * BSIZE
    ensures fs'.Shaped() && ByteAt(fs', ip', o) == ByteAt(fs, ip', o)
  {
    var t, q := SlotOf(ip', o / BSIZE), fs.inodes[ip].addrs[NDIRECT + 1];
    GetAfterTruncate(fs, owner, ip, fs', t);
    assert q == fs.Get(Slot.Addr(ip, NDIRECT + 1));
    assert q != 0 ==> owner[q] == Slot.Addr(ip, NDIRECT + 1);
    assert fs.Get(t) != 0 ==> owner[fs.Get(t)] == t;
  }

  // ----- the operations -----

  /** The part of the kernel that works on inode contents. Each operation may panic when the disk is full. */
  class FileSystem {
    var inodes: seq<Inode>
    var blocks: seq<seq<byte>>
    var used: seq<bool>
    const first: nat
    ghost var owner: map<nat, Slot>

    ghost function State(): FS
      reads this
    {
      FS(inodes, blocks, used, first)
    }

    ghost predicate Valid()
      reads this
    {
      Consistent(State(), owner)
    }

    constructor (inodes: seq<Inode>, blocks: seq<seq<byte>>, used: seq<bool>, first: nat, ghost owner: map<nat, Slot>)
      requires Consistent(FS(inodes, blocks, used, first), owner)
      ensures Valid() && State() == FS(inodes, blocks, used, first) && this.owner == owner
    {
      this.inodes, this.blocks, this.used, this.first, this.owner := inodes, blocks, used, first, owner;
    }

    ghost predicate Full()
      reads this
    {
      forall b :: 0 <= b < |used| ==> used[b]
    }

    /** Takes the first free block and zeroes it. */
    method Balloc() returns (ok: bool, r: nat)
      requires State().Shaped()
      modifies this`used, this`blocks
      ensures !ok <==> old(Full())
      ensures !ok ==> State() == old(State())
      ensures ok ==> r < |old(used)| && !old(used)[r] && (forall b :: 0 <= b < r ==> old(used)[b])
      ensures ok ==> State() == old(State()).Taken(r)
    {
      var b := 0;
      while b < |used|
        invariant 0 <= b && used == old(used) && blocks == old(blocks)
        invariant forall i :: 0 <= i < b && i < |used| ==> used[i]
        decreases |used| - b
      {
        var bi := 0;
        while bi < BSIZE * 8 && b + bi < |used|
          invariant 0 <= bi <= BSIZE * 8 && used == old(used) && blocks == old(blocks)
          invariant forall i :: 0 <= i < b + bi && i < |used| ==> used[i]
        {
          if !used[b + bi] {
            used := used[b + bi := true];
            blocks := blocks[b + bi := Zero()];
            return true, b + bi;
          }
          bi := bi + 1;
        }
        b := b + BSIZE * 8;
      }
      return false, 0;
    }

    /** Frees a block; the kernel panics if it is free already. */
    method Bfree(b: nat) returns (ok: bool)
      requires b < |used|
      modifies this`used
      ensures ok == old(used)[b] && used == old(used)[b := false]
    {
      ok := used[b];
      used := used[b := false];
    }

    /** The block number in slot `s`, which lies in block `p` or in the inode; an empty slot gets a fresh block. */
    method Fetch(s: Slot, p: nat) returns (ok: bool, r: nat)
      requires Valid() && s.Valid(|inodes|) && (!s.Addr? ==> p == State().Get(s.Parent()) && p != 0)
      modifies this`inodes, this`used, this`blocks, this`owner
      ensures ok ==> Valid() && Grown(old(State()), State()) && State().Get(s) == r && r != 0
      ensures ok ==> Filled(old(State()), State(), Missing(old(State()), {s}))
      ensures !ok ==> FreeCount(old(used)) < |Missing(old(State()), {s})|
      ensures old(State()).Get(s) != 0 ==> ok && State() == old(State())
    {
      ghost var fs := State();
      if fs.Get(s) != 0 { FilledItself(fs, {s}); }
      assert !s.Addr? ==> p in owner;
      r := if s.Addr? then inodes[s.ip].addrs[s.i] else Word(blocks[p], s.Index());
      ok := true;
      GrownItself(fs);
      if r == 0 {
        ok, r := Balloc();
        if !ok {
          FreeCountFull(used);
          assert s in Missing(fs, {s});
          return;
        }
        if s.Addr? {
          inodes := inodes[s.ip := inodes[s.ip].(addrs := inodes[s.ip].addrs[s.i := r])];
        } else {
          blocks := blocks[p := PutWord(blocks[p], s.Index(), r)];
          TakenKeepsGet(fs, owner, r, s.Parent());
        }
        assert State() == fs.Taken(r).Set(s, r);
        OwnedAfterAlloc(fs, owner, s, r);
        FilledByAlloc(fs, owner, s, r);
        GrownByAlloc(fs, owner, s, r);
        GrownConsistent(fs, owner, State(), owner[r := s]);
        owner := owner[r := s];
      }
    }

    /** The block with the data of block number `bn` of a file; missing blocks on the way are allocated. Beyond the
        greatest file size, and exactly if too few blocks are free, the kernel panics. */
    method Bmap(ip: nat, bn: nat) returns (ok: bool, addr: nat)
      requires Valid() && ip < |inodes|
      modifies this`inodes, this`used, this`blocks, this`owner
      ensures ok ==> bn < MAXFILE && Valid() && Grown(old(State()), State()) && BlockOf(State(), ip, bn) == addr != 0
      ensures ok ==> Filled(old(State()), State(), Missing(old(State()), Path(ip, bn)))
      ensures !ok ==> bn >= MAXFILE || FreeCount(old(used)) < |Missing(old(State()), Path(ip, bn))|
      ensures bn < MAXFILE && BlockOf(old(State()), ip, bn) != 0 ==> ok && State() == old(State())
    {
      hide Consistent, Grown, Filled, Missing, FreeCount;
      ghost var fs := State();
      ConsistentShaped(fs, owner);
      addr := 0;
      if bn < NDIRECT {
        ok, addr := Fetch(Slot.Addr(ip, bn), 0);
        return;
      }
      var n := bn - NDIRECT;
      if n < NINDIRECT {
        var p;
        var s, t := Slot.Addr(ip, NDIRECT), Slot.Ind(ip, n);
        assert Path(ip, bn) == {s} + {t};
        ok, p := Fetch(s, 0);
        if !ok {
          Fewer(fs, {s}, Path(ip, bn));
          return;
        }
        GrownShaped(fs, State());
        ok, addr := FetchNext(t, p, fs, {s}, Path(ip, bn));
        return;
      }
      n := n - NINDIRECT;
      if n < NINDIRECT * NINDIRECT {
        var p, q;
        var s, t, u := Slot.Addr(ip, NDIRECT + 1), Slot.Dbl(ip, n / NINDIRECT), Slot.Leaf(ip, n / NINDIRECT, n % NINDIRECT);
        assert Path(ip, bn) == {s} + {t} + {u};
        PathSet(fs, ip, n / NINDIRECT, n % NINDIRECT);
        ok, p := Fetch(s, 0);
        if !ok {
          Fewer(fs, {s}, Path(ip, bn));
          return;
        }
        GrownShaped(fs, State());
        ok, q := FetchNext(t, p, fs, {s}, Path(ip, bn));
        if !ok {
          return;
        }
        GrownShaped(fs, State());
        ok, addr := FetchNext(u, q, fs, {s} + {t}, Path(ip, bn));
        return;
      }
      ok := false;
    }

    /** The next block on the way, after those in the slots `before`. */
    method FetchNext(s: Slot, p: nat, ghost fs: FS, ghost before: set<Slot>, ghost all: set<Slot>) returns (ok: bool, r: nat)
      requires Valid() && s.Valid(|inodes|) && !s.Addr? && p == State().Get(s.Parent()) && p != 0
      requires Grown(fs, State()) && fs.Shaped() && Filled(fs, State(), Missing(fs, before)) && before + {s} <= all
      modifies this`inodes, this`used, this`blocks, this`owner
      ensures ok ==> Valid() && Grown(fs, State()) && State().Get(s) == r && r != 0
      ensures ok ==> Filled(fs, State(), Missing(fs, before + {s}))
      ensures !ok ==> FreeCount(fs.used) < |Missing(fs, all)|
      ensures old(State()).Get(s) != 0 ==> ok && State() == old(State())
    {
      hide Consistent, Grown, Filled, Missing, FreeCount;
      ghost var mid := State();
      ConsistentShaped(mid, owner);
      ok, r := Fetch(s, p);
      if ok {
        GrownTransitive(fs, mid, State());
        FilledThen(fs, mid, State(), before, {s});
      } else {
        TooFew(fs, mid, before, {s}, all);
      }
    }

    method ReadPart(ip: nat, at: nat, m: nat) returns (part: seq<byte>)
      requires Valid() && ip < |inodes| && 0 < m <= BSIZE - at % BSIZE && at + m <= inodes[ip].size
      modifies this`inodes, this`used, this`blocks, this`owner
      ensures Valid() && State() == old(State())
      ensures NoHoles(State(), ip) && part == Contents(State(), ip)[at..at + m]
    {
      hide Consistent, Contents;
      InBlock(State(), owner, ip, at, m);
      var ok, b := Bmap(ip, at / BSIZE);
      part := blocks[b][at % BSIZE..at % BSIZE + m];
    }

    /** Reads up to `n` bytes from offset `off`; a negative result is the error return. Reading never allocates and
        never panics. */
    method Readi(ip: nat, off: nat, n: nat) returns (res: int, dst: seq<byte>)
      requires Valid() && ip < |inodes| && off < UINT && n < UINT
      modifies this`inodes, this`used, this`blocks, this`owner
      ensures Valid() && State() == old(State())
      ensures res < 0 <==> off > inodes[ip].size || off + n >= UINT
      ensures res >= 0 ==> res == (if off + n > inodes[ip].size then inodes[ip].size - off else n)
      ensures NoHoles(State(), ip)
      ensures res >= 0 ==> dst == Contents(State(), ip)[off..off + res]
    {
      hide Consistent, Contents;
      ConsistentSizes(State(), owner, ip);
      var size := inodes[ip].size;
      if off > size || off + n >= UINT {
        return -1, [];
      }
      var want := if off + n > size then size - off else n;
      dst := ReadBlocks(ip, off, want);
      res := want;
    }

    /** The loop over the blocks that a read touches. */
    method ReadBlocks(ip: nat, off: nat, want: nat) returns (dst: seq<byte>)
      requires Valid() && ip < |inodes| && off + want <= inodes[ip].size
      modifies this`inodes, this`used, this`blocks, this`owner
      ensures Valid() && State() == old(State())
      ensures NoHoles(State(), ip) && dst == Contents(State(), ip)[off..off + want]
    {
      hide Consistent, NoHoles, Contents;
      ConsistentSizes(State(), owner, ip);
      ghost var fs := State();
      ghost var c := Contents(fs, ip);
      assert |c| == fs.inodes[ip].size by { ContentsSize(fs, ip); }
      var tot, at := 0, off;
      dst := [];
      while tot < want
        invariant 0 <= tot <= want && at == off + tot
        invariant Valid() && State() == fs
        invariant dst == c[off..at]
      {
        var m := if want - tot < BSIZE - at % BSIZE then want - tot else BSIZE - at % BSIZE;
        var part := ReadPart(ip, at, m);
        Extend(c, off, at, at + m);
        dst := dst + part;
        tot := tot + m;
        at := at + m;
      }
    }

    /** Writes within one block: the block is allocated if need be. */
    method WritePart(ip: nat, at: nat, part: seq<byte>) returns (ok: bool)
      requires Valid() && ip < |inodes| && 0 < |part| <= BSIZE - at % BSIZE && at + |part| <= MAXFILE * BSIZE
      modifies this`inodes, this`used, this`blocks, this`owner
      ensures ok ==> Valid() && Spliced(old(State()), State(), ip, at, part)
      ensures ok ==> BlockOf(State(), ip, at / BSIZE) != 0
      ensures ok ==> Filled(old(State()), State(), Missing(old(State()), Path(ip, at / BSIZE)))
      ensures !ok ==> FreeCount(old(used)) < |Missing(old(State()), Path(ip, at / BSIZE))|
    {
      hide Consistent, Grown, Spliced, Filled, Missing, FreeCount;
      ghost var fs := State();
      ConsistentShaped(fs, owner);
      var b;
      ok, b := Bmap(ip, at / BSIZE);
      if !ok {
        return;
      }
      ghost var fs1 := State();
      GrownShaped(fs, fs1);
      SplicedByWrite(fs, fs1, owner, ip, at, part);
      FilledByWrite(fs, fs1, owner, ip, at, part, Missing(fs, Path(ip, at / BSIZE)));
      blocks := blocks[b := blocks[b][..at % BSIZE] + part + blocks[b][at % BSIZE + |part|..]];
    }

    /** Writes the bytes `src` at offset `off`; a negative result is the error return. The kernel panics exactly if fewer blocks
        are free than the range lacks, data blocks and blocks that list others. */
    method Writei(ip: nat, off: nat, src: seq<byte>) returns (ok: bool, res: int)
      requires Valid() && ip < |inodes| && off < UINT && |src| < UINT
      modifies this`inodes, this`used, this`blocks, this`owner
      ensures !InRange(old(inodes[ip].size), off, |src|) ==> ok && res < 0 && State() == old(State()) && Valid()
      ensures InRange(old(inodes[ip].size), off, |src|) ==>
                var n := Needed(old(State()), ip, off, off + |src|);
                (ok <==> n <= FreeCount(old(used))) && (ok ==> FreeCount(used) == FreeCount(old(used)) - n)
      ensures ok && InRange(old(inodes[ip].size), off, |src|) ==>
                res == |src| && Valid() && FileWritten(old(State()), State(), ip, off, src)
                && Filled(old(State()), State(), Missing(old(State()), Touched(ip, off, off + |src|)))
    {
      hide Consistent, NoHoles, Spliced, Mapped, Filled, Missing, FreeCount, FileWritten;
      ConsistentShaped(State(), owner);
      var n := |src|;
      if off > inodes[ip].size || off + n >= UINT {
        return true, -1;
      }
      if off + n > MAXFILE * BSIZE {
        return true, -1;
      }
      ok := WriteInRange(ip, off, src);
      if !ok {
        return false, 0;
      }
      return true, n;
    }

    /** The writing, when the range has been checked. */
    method WriteInRange(ip: nat, off: nat, src: seq<byte>) returns (ok: bool)
      requires Valid() && ip < |inodes| && InRange(inodes[ip].size, off, |src|)
      modifies this`inodes, this`used, this`blocks, this`owner
      ensures old(State()).Shaped()
      ensures var n := Needed(old(State()), ip, off, off + |src|);
              (ok <==> n <= FreeCount(old(used))) && (ok ==> FreeCount(used) == FreeCount(old(used)) - n)
      ensures ok ==> Valid() && FileWritten(old(State()), State(), ip, off, src)
      ensures ok ==> Filled(old(State()), State(), Missing(old(State()), Touched(ip, off, off + |src|)))
    {
      hide Consistent, NoHoles, Spliced, Mapped, Filled, Missing, FreeCount, FileWritten;
      ghost var fs, owner0 := State(), owner;
      ConsistentShaped(fs, owner);
      ok := WriteBlocks(ip, off, src);
      if ok {
        FilledShaped(fs, State(), Missing(fs, Touched(ip, off, off + |src|)));
        SplicedShaped(fs, State(), ip, off, src);
        FileSpliced(fs, owner0, State(), owner, ip, off, src);
        FilledSized(fs, State(), Missing(fs, Touched(ip, off, off + |src|)), ip, NewSize(inodes[ip].size, off, |src|));
        SetSize(ip, off + |src|, |src|);
      }
    }

    /** The loop over the blocks that a write touches. */
    method WriteBlocks(ip: nat, off: nat, src: seq<byte>) returns (ok: bool)
      requires Valid() && ip < |inodes| && off + |src| <= MAXFILE * BSIZE
      modifies this`inodes, this`used, this`blocks, this`owner
      ensures ok ==> Valid() && Spliced(old(State()), State(), ip, off, src)
      ensures ok ==> Mapped(State(), ip, off, off + |src|)
      ensures old(State()).Shaped()
      ensures ok ==> Filled(old(State()), State(), Missing(old(State()), Touched(ip, off, off + |src|)))
      ensures !ok ==> FreeCount(old(used)) < Needed(old(State()), ip, off, off + |src|)
    {
      hide Consistent, NoHoles, Spliced, Mapped, Filled, Missing, Touched, Path, FreeCount;
      ghost var fs := State();
      ConsistentShaped(fs, owner);
      var n := |src|;
      var tot, at := 0, off;
      SplicedNone(fs, ip, off);
      TouchedNone(fs, ip, off);
      while tot < n
        invariant 0 <= tot <= n && at == off + tot
        invariant Valid() && Spliced(fs, State(), ip, off, src[..tot])
        invariant State().Shaped() && ip < |inodes| && Mapped(State(), ip, off, at)
        invariant Filled(fs, State(), Missing(fs, Touched(ip, off, at)))
      {
        var m := if n - tot < BSIZE - at % BSIZE then n - tot else BSIZE - at % BSIZE;
        ghost var before := State();
        ghost var p, q := Touched(ip, off, at), Path(ip, at / BSIZE);
        TouchedThen(ip, off, at, m);
        TouchedGrows(ip, off, at + m, off + n);
        ok := WritePart(ip, at, src[tot..tot + m]);
        if !ok {
          TooFew(fs, before, p, q, Touched(ip, off, off + n));
          return;
        }
        FilledThen(fs, before, State(), p, q);
        SplicedThen(fs, before, State(), ip, off, src[..tot], src[tot..tot + m]);
        assert src[..tot] + src[tot..tot + m] == src[..tot + m];
        SplicedShaped(fs, State(), ip, off, src[..tot + m]);
        MappedThen(before, State(), ip, off, at, src[tot..tot + m]);
        tot := tot + m;
        at := at + m;
      }
      assert src[..tot] == src;
      ok := true;
    }

    /** Frees the block in slot `s`, if there is one. It never is free already. */
    method FreeSlot(s: Slot, b: nat, ghost fs: FS, ghost owner0: map<nat, Slot>) returns (ok: bool)
      requires fs.Owned(owner0) && s.Valid(|fs.inodes|) && b == fs.Get(s)
      requires FreedTo(fs, owner0, s.ip, used, Rank(s))
      modifies this`used
      ensures ok && FreedTo(fs, owner0, s.ip, used, Rank(s) + 1)
    {
      hide FreedTo;
      FreedOne(fs, owner0, used, s);
      ok := true;
      if b != 0 {
        ok := Bfree(b);
      }
    }

    /** The direct blocks. */
    method FreeDirect(ip: nat, ghost fs: FS, ghost owner0: map<nat, Slot>)
      requires fs == State() && fs.Owned(owner0) && ip < |inodes|
      modifies this`inodes, this`used
      ensures State() == fs.(used := used, inodes := Cleared(fs, ip, NDIRECT)) && FreedTo(fs, owner0, ip, used, NDIRECT)
    {
      hide FreedTo;
      FreedNone(fs, owner0, ip);
      ClearedNone(fs, ip);
      var i := 0;
      while i < NDIRECT
        invariant 0 <= i <= NDIRECT && FreedTo(fs, owner0, ip, used, i)
        invariant State() == fs.(used := used, inodes := Cleared(fs, ip, i))
      {
        var b := inodes[ip].addrs[i];
        var ok := FreeSlot(Slot.Addr(ip, i), b, fs, owner0);
        if b != 0 {
          inodes := inodes[ip := inodes[ip].(addrs := inodes[ip].addrs[i := 0])];
        }
        ClearedNext(fs, ip, i);
        i := i + 1;
      }
    }

    /** The blocks listed in the indirect block, then the indirect block. */
    method FreeIndirect(ip: nat, ghost fs: FS, ghost owner0: map<nat, Slot>)
      requires fs.Owned(owner0) && ip < |fs.inodes| && FreedTo(fs, owner0, ip, used, NDIRECT)
      requires State() == fs.(used := used, inodes := Cleared(fs, ip, NDIRECT))
      modifies this`inodes, this`used
      ensures State() == fs.(used := used, inodes := Cleared(fs, ip, NDIRECT + 1)) && FreedTo(fs, owner0, ip, used, 1001)
    {
      IndirectGaps(fs, owner0, ip);
      hide FreedTo, NothingBetween, FS.Owned;
      var p := inodes[ip].addrs[NDIRECT];
      ClearedNext(fs, ip, NDIRECT);
      if p != 0 {
        FreedSkip(fs, owner0, ip, used, NDIRECT, 100);
        var j := 0;
        while j < NINDIRECT
          invariant 0 <= j <= NINDIRECT && FreedTo(fs, owner0, ip, used, 100 + j)
          invariant State() == fs.(used := used, inodes := Cleared(fs, ip, NDIRECT))
        {
          var ok := FreeSlot(Slot.Ind(ip, j), Word(blocks[p], j), fs, owner0);
          j := j + 1;
        }
        FreedSkip(fs, owner0, ip, used, 100 + NINDIRECT, 1000);
        var ok := FreeSlot(Slot.Addr(ip, NDIRECT), p, fs, owner0);
        inodes := inodes[ip := inodes[ip].(addrs := inodes[ip].addrs[NDIRECT := 0])];
      } else {
        FreedSkip(fs, owner0, ip, used, NDIRECT, 1001);
      }
    }

    /** The blocks listed in block `q`, which entry `i` of the double-indirect block names. */
    method FreeLeaves(ip: nat, i: nat, q: nat, ghost fs: FS, ghost owner0: map<nat, Slot>)
      requires fs.Owned(owner0) && ip < |fs.inodes| && i < NINDIRECT && q == fs.Get(Slot.Dbl(ip, i)) != 0
      requires FreedTo(fs, owner0, ip, used, 2000 + 1000 * i)
      requires q < |blocks| == |fs.blocks| && blocks[q] == fs.blocks[q]
      modifies this`used
      ensures FreedTo(fs, owner0, ip, used, 2000 + 1000 * i + NINDIRECT)
    {
      hide FreedTo;
      var j := 0;
      while j < NINDIRECT
        invariant 0 <= j <= NINDIRECT && FreedTo(fs, owner0, ip, used, 2000 + 1000 * i + j)
      {
        var ok := FreeSlot(Slot.Leaf(ip, i, j), Word(blocks[q], j), fs, owner0);
        j := j + 1;
      }
    }

    /** Clears entry `i` of block `p` in the cache. */
    method ClearWord(p: nat, i: nat)
      requires p < |blocks| && |blocks[p]| == BSIZE && i < NINDIRECT
      modifies this`blocks
      ensures |blocks| == |old(blocks)| && |blocks[p]| == BSIZE && blocks == old(blocks)[p := blocks[p]]
      ensures forall k :: 0 <= k < NINDIRECT && k != i ==> Word(blocks[p], k) == Word(old(blocks)[p], k)
    {
      ghost var before := blocks[p];
      forall k: nat | k < NINDIRECT
        ensures Word(PutWord(before, i, 0), k) == if k == i then 0 else Word(before, k)
      {
        WordPut(before, i, 0, k);
      }
      blocks := blocks[p := PutWord(blocks[p], i, 0)];
    }

    /** One entry of the double-indirect block: the blocks it leads to, then the block it names. */
    method FreeEntry(ip: nat, p: nat, i: nat, ghost fs: FS, ghost owner0: map<nat, Slot>)
      requires fs.Owned(owner0) && ip < |fs.inodes| && p == fs.Get(Slot.Addr(ip, NDIRECT + 1)) != 0 && i < NINDIRECT
      requires FreedTo(fs, owner0, ip, used, 2000 + 1000 * i)
      requires p < |blocks| == |fs.blocks| && |blocks[p]| == BSIZE && blocks == fs.blocks[p := blocks[p]]
      requires Word(blocks[p], i) == Word(fs.blocks[p], i)
      modifies this`used, this`blocks
      ensures FreedTo(fs, owner0, ip, used, 2000 + 1000 * (i + 1))
      ensures |blocks| == |fs.blocks| && |blocks[p]| == BSIZE && blocks == fs.blocks[p := blocks[p]]
      ensures forall k :: 0 <= k < NINDIRECT && k != i ==> Word(blocks[p], k) == Word(old(blocks)[p], k)
    {
      hide FreedTo, Word;
      var q := Word(blocks[p], i);
      assert q == fs.Get(Slot.Dbl(ip, i));
      if q != 0 {
        OtherBlock(fs, owner0, ip, i);
        FreeLeaves(ip, i, q, fs, owner0);
        EntryGap(fs, ip, i);
        FreedSkip(fs, owner0, ip, used, 2000 + 1000 * i + NINDIRECT, 2000 + 1000 * i + 500);
        var ok := FreeSlot(Slot.Dbl(ip, i), q, fs, owner0);
        FreedSkip(fs, owner0, ip, used, 2000 + 1000 * i + 501, 2000 + 1000 * (i + 1));
        ClearWord(p, i);
      } else {
        EntryGap(fs, ip, i);
        FreedSkip(fs, owner0, ip, used, 2000 + 1000 * i, 2000 + 1000 * (i + 1));
      }
    }

    /** Everything under the double-indirect block, then the double-indirect block. */
    method FreeDouble(ip: nat, ghost fs: FS, ghost owner0: map<nat, Slot>)
      requires fs.Owned(owner0) && ip < |fs.inodes| && FreedTo(fs, owner0, ip, used, 1001)
      requires State() == fs.(used := used, inodes := Cleared(fs, ip, NDIRECT + 1))
      modifies this`inodes, this`used, this`blocks
      ensures FreedTo(fs, owner0, ip, used, 1000001) && inodes == Cleared(fs, ip, NDIRECT + 2)
      ensures |blocks| == |fs.blocks| && forall b :: 0 <= b < |blocks| ==> |blocks[b]| == BSIZE
      ensures forall b :: 0 <= b < |blocks| && b != fs.inodes[ip].addrs[NDIRECT + 1] ==> blocks[b] == fs.blocks[b]
    {
      DoubleGaps(fs, owner0, ip);
      hide FreedTo, NothingBetween, FS.Owned;
      var p := inodes[ip].addrs[NDIRECT + 1];
      ClearedNext(fs, ip, NDIRECT + 1);
      if p != 0 {
        FreedSkip(fs, owner0, ip, used, 1001, 2000);
        var i := 0;
        while i < NINDIRECT
          invariant 0 <= i <= NINDIRECT && FreedTo(fs, owner0, ip, used, 2000 + 1000 * i)
          invariant |blocks| == |fs.blocks| && |blocks[p]| == BSIZE && blocks == fs.blocks[p := blocks[p]]
          invariant forall k :: i <= k < NINDIRECT ==> Word(blocks[p], k) == Word(fs.blocks[p], k)
          invariant inodes == Cleared(fs, ip, NDIRECT + 1)
        {
          FreeEntry(ip, p, i, fs, owner0);
          i := i + 1;
        }
        FreedSkip(fs, owner0, ip, used, 2000 + 1000 * NINDIRECT, 1000000);
        var ok := FreeSlot(Slot.Addr(ip, NDIRECT + 1), p, fs, owner0);
        inodes := inodes[ip := inodes[ip].(addrs := inodes[ip].addrs[NDIRECT + 1 := 0])];
      } else {
        FreedSkip(fs, owner0, ip, used, 1001, 1000001);
      }
    }

    /** Empties a file: its blocks and no others become free. Freeing never finds a block that is free already. */
    method Itrunc(ip: nat)
      requires Valid() && ip < |inodes|
      modifies this
      ensures Valid() && |inodes| == |old(inodes)| && |used| == |old(used)|
      ensures forall b :: 0 <= b < |used| ==> used[b] == (old(used)[b] && !(b in old(owner) && old(owner)[b].ip == ip))
      ensures NoHoles(State(), ip) && Contents(State(), ip) == [] && Emptied(old(State()), State(), ip)
      ensures forall i :: 0 <= i < |inodes| && i != ip ==>
                NoHoles(old(State()), i) && NoHoles(State(), i) && Contents(State(), i) == Contents(old(State()), i)
    {
      ghost var fs, owner0 := State(), owner;
      FreeDirect(ip, fs, owner0);
      FreeIndirect(ip, fs, owner0);
      FreeDouble(ip, fs, owner0);
      inodes := inodes[ip := inodes[ip].(size := 0)];
      ClearedAll(fs, ip);
      assert Truncated(fs, owner0, ip, State());
      TruncateConsistent(fs, owner0, ip, State());
      AllFreed(fs, owner0, ip, used);
      owner := map b | b in owner0 && owner0[b].ip != ip :: owner0[b];
    }

    method SetSize(ip: nat, at: nat, n: nat)
      requires ip < |inodes| && at >= n
      modifies this`inodes
      ensures State() == Sized(old(State()), ip, NewSize(old(inodes[ip].size), at - n, n))
    {
      if n > 0 && at > inodes[ip].size {
        inodes := inodes[ip := inodes[ip].(size := at)];
      }
    }
  }

  lemma Fewer(fs: FS, p: set<Slot>, q: set<Slot>)
    requires fs.Shaped() && p <= q
    ensures |Missing(fs, p)| <= |Missing(fs, q)|
  {
    SubsetSize(Missing(fs, p), Missing(fs, q));
  }

  lemma ConsistentSizes(fs: FS, owner: map<nat, Slot>, ip: nat)
    requires Consistent(fs, owner) && ip < |fs.inodes|
    ensures fs.Shaped() && NoHoles(fs, ip) && fs.inodes[ip].size <= MAXFILE * BSIZE
  {
    assert NoHoles(fs, ip);
  }

  lemma ContentsSize(fs: FS, ip: nat)
    requires fs.Shaped() && ip < |fs.inodes| && fs.inodes[ip].size <= MAXFILE * BSIZE
    ensures |Contents(fs, ip)| == fs.inodes[ip].size
  {
  }

  lemma Extend<T>(s: seq<T>, a: nat, b: nat, c: nat)
    requires a <= b <= c <= |s|
    ensures s[a..b] + s[b..c] == s[a..c]
  {
  }

  lemma PathSet(fs: FS, ip: nat, j: nat, k: nat)
    requires fs.Shaped() && ip < |fs.inodes| && j < NINDIRECT && k < NINDIRECT
    ensures fs.Get(Slot.Leaf(ip, j, k)) != 0 ==> fs.Get(Slot.Dbl(ip, j)) != 0 && fs.Get(Slot.Addr(ip, NDIRECT + 1)) != 0
  {
  }

  lemma ConsistentShaped(fs: FS, owner: map<nat, Slot>)
    requires Consistent(fs, owner)
    ensures fs.Shaped()
  {
  }

  lemma GrownShaped(fs: FS, fs': FS)
    requires Grown(fs, fs')
    ensures |fs'.inodes| == |fs.inodes| && fs'.Shaped()
  {
  }

  lemma BlockThere(fs: FS, owner: map<nat, Slot>, ip: nat, bn: nat)
    requires Consistent(fs, owner) && ip < |fs.inodes| && bn * BSIZE < fs.inodes[ip].size
    ensures NoHoles(fs, ip) && bn < MAXFILE && fs.inodes[ip].size <= MAXFILE * BSIZE
    ensures var b := BlockOf(fs, ip, bn); 0 < b < |fs.blocks| && |fs.blocks[b]| == BSIZE
  {
    assert NoHoles(fs, ip);
    assert BlockOf(fs, ip, bn) in owner;
  }

  /** A stretch of a file within one block. */
  lemma InBlock(fs: FS, owner: map<nat, Slot>, ip: nat, o: nat, m: nat)
    requires Consistent(fs, owner) && ip < |fs.inodes| && 0 < m <= BSIZE - o % BSIZE && o + m <= fs.inodes[ip].size
    ensures NoHoles(fs, ip) && o / BSIZE < MAXFILE
    ensures var b := BlockOf(fs, ip, o / BSIZE);
            0 < b < |fs.blocks| && fs.blocks[b][o % BSIZE..o % BSIZE + m] == Contents(fs, ip)[o..o + m]
  {
    hide FS.Get, FS.Owned, SlotOf, NoHoles, Consistent;
    ConsistentShaped(fs, owner);
    BlockThere(fs, owner, ip, o / BSIZE);
    var b := BlockOf(fs, ip, o / BSIZE);
    var part, whole := fs.blocks[b][o % BSIZE..o % BSIZE + m], Contents(fs, ip)[o..o + m];
    forall i | 0 <= i < m
      ensures part[i] == whole[i]
    {
      assert (o + i) / BSIZE == o / BSIZE && (o + i) % BSIZE == o % BSIZE + i;
    }
  }

  // ----- what a write does to the files -----

  /** `src` over the bytes of `c` from `off` on. */
  function Splice(c: seq<byte>, off: nat, src: seq<byte>): seq<byte>
    requires off <= |c|
  {
    c[..off] + src + if off + |src| < |c| then c[off + |src|..] else []
  }

  /** May `n` bytes be written at offset `off` of a file of this size? */
  predicate InRange(size: nat, off: nat, n: nat) {
    off <= size && off + n < UINT && off + n <= MAXFILE * BSIZE
  }

  /** File `ip` holds `src` at offset `off`, its other bytes are as before, and so are the other files. */
  ghost predicate FileWritten(fs: FS, fs': FS, ip: nat, off: nat, src: seq<byte>) {
    && fs.Shaped() && fs'.Shaped() && |fs'.inodes| == |fs.inodes| && ip < |fs.inodes| && off <= fs.inodes[ip].size
    && NoHoles(fs, ip) && NoHoles(fs', ip) && Contents(fs', ip) == Splice(Contents(fs, ip), off, src)
    && forall i :: 0 <= i < |fs.inodes| && i != ip ==>
         NoHoles(fs, i) && NoHoles(fs', i) && Contents(fs', i) == Contents(fs, i)
  }

  /** From `fs` to `fs'` file `ip` got the bytes `data` at offset `off`, sizes apart; no other file changed. */
  ghost predicate Spliced(fs: FS, fs': FS, ip: nat, off: nat, data: seq<byte>) {
    && fs.Shaped() && fs'.Shaped() && |fs'.inodes| == |fs.inodes| && ip < |fs.inodes|
    && (forall i :: 0 <= i < |fs.inodes| ==> fs'.inodes[i].size == fs.inodes[i].size)
    && (forall t: Slot :: t.Valid(|fs.inodes|) && fs.Get(t) != 0 ==> fs'.Get(t) == fs.Get(t))
    && forall i, o: nat :: 0 <= i < |fs.inodes| && o < MAXFILE * BSIZE ==>
         ByteAt(fs', i, o) == if i == ip && off <= o < off + |data| then data[o - off] else ByteAt(fs, i, o)
  }

  /** All blocks between two offsets are allocated. */
  ghost predicate Mapped(fs: FS, ip: nat, off: nat, end: nat)
    requires fs.Shaped() && ip < |fs.inodes|
  {
    forall bn: nat :: bn < MAXFILE && off < end && off / BSIZE <= bn && bn * BSIZE < end ==> BlockOf(fs, ip, bn) != 0
  }

  lemma SplicedShaped(fs: FS, fs': FS, ip: nat, off: nat, data: seq<byte>)
    requires Spliced(fs, fs', ip, off, data)
    ensures fs'.Shaped() && |fs'.inodes| == |fs.inodes| && fs'.inodes[ip].size == fs.inodes[ip].size
  {
  }

  lemma SplicedNone(fs: FS, ip: nat, off: nat)
    requires fs.Shaped() && ip < |fs.inodes|
    ensures Spliced(fs, fs, ip, off, []) && Mapped(fs, ip, off, off)
  {
  }

  lemma TouchedNone(fs: FS, ip: nat, off: nat)
    requires fs.Shaped() && off <= MAXFILE * BSIZE
    ensures Filled(fs, fs, Missing(fs, Touched(ip, off, off)))
  {
    FilledItself(fs, {});
  }

  lemma SplicedThen(fs: FS, mid: FS, fs': FS, ip: nat, off: nat, a: seq<byte>, b: seq<byte>)
    requires Spliced(fs, mid, ip, off, a) && Spliced(mid, fs', ip, off + |a|, b)
    ensures Spliced(fs, fs', ip, off, a + b)
  {
    forall i, o: nat | 0 <= i < |fs.inodes| && o < MAXFILE * BSIZE
      ensures ByteAt(fs', i, o) == if i == ip && off <= o < off + |a + b| then (a + b)[o - off] else ByteAt(fs, i, o)
    {
      assert ByteAt(mid, i, o) == if i == ip && off <= o < off + |a| then a[o - off] else ByteAt(fs, i, o);
    }
  }

  lemma MappedThen(fs: FS, fs': FS, ip: nat, off: nat, at: nat, part: seq<byte>)
    requires Spliced(fs, fs', ip, at, part) && off <= at && Mapped(fs, ip, off, at)
    requires 0 < |part| <= BSIZE - at % BSIZE && at + |part| <= MAXFILE * BSIZE && BlockOf(fs', ip, at / BSIZE) != 0
    ensures Mapped(fs', ip, off, at + |part|)
  {
    forall bn: nat | bn < MAXFILE && off / BSIZE <= bn && bn * BSIZE < at + |part|
      ensures BlockOf(fs', ip, bn) != 0
    {
      if bn < at / BSIZE {
        assert BlockOf(fs, ip, bn) != 0;
      }
    }
  }

  /** Writing into a block that was there or has just been allocated changes the file at that place only. */
  lemma SplicedByWrite(fs: FS, fs1: FS, owner: map<nat, Slot>, ip: nat, at: nat, part: seq<byte>)
    requires Grown(fs, fs1) && Consistent(fs1, owner) && ip < |fs.inodes|
    requires 0 < |part| <= BSIZE - at % BSIZE && at + |part| <= MAXFILE * BSIZE && BlockOf(fs1, ip, at / BSIZE) != 0
    ensures var b := BlockOf(fs1, ip, at / BSIZE);
            b < |fs1.blocks| && |fs1.blocks[b]| == BSIZE && Written(fs1, b, at % BSIZE, part).Shaped()
            && BlockOf(Written(fs1, b, at % BSIZE, part), ip, at / BSIZE) == b
            && Consistent(Written(fs1, b, at % BSIZE, part), owner)
            && Spliced(fs, Written(fs1, b, at % BSIZE, part), ip, at, part)
  {
    var d, b := SlotOf(ip, at / BSIZE), BlockOf(fs1, ip, at / BSIZE);
    OwnedAfterWrite(fs1, owner, d, at % BSIZE, part);
    var fs2 := Written(fs1, b, at % BSIZE, part);
    forall t: Slot | t.Valid(|fs.inodes|)
      ensures fs2.Get(t) == fs1.Get(t)
    {
      GetAfterWrite(fs1, owner, d, at % BSIZE, part, t);
    }
    forall i, o: nat | 0 <= i < |fs.inodes| && o < MAXFILE * BSIZE
      ensures ByteAt(fs2, i, o) == if i == ip && at <= o < at + |part| then part[o - at] else ByteAt(fs, i, o)
    {
      ByteAfterWrite(fs1, owner, ip, at / BSIZE, at % BSIZE, part, i, o);
    }
    SameSlots(fs1, owner, fs2);
  }

  lemma FilledByWrite(fs: FS, fs1: FS, owner: map<nat, Slot>, ip: nat, at: nat, part: seq<byte>, slots: set<Slot>)
    requires Filled(fs, fs1, slots) && Consistent(fs1, owner) && ip < |fs.inodes| == |fs1.inodes|
    requires 0 < |part| <= BSIZE - at % BSIZE && at + |part| <= MAXFILE * BSIZE && BlockOf(fs1, ip, at / BSIZE) != 0
    ensures var b := BlockOf(fs1, ip, at / BSIZE); b < |fs1.blocks| && Filled(fs, Written(fs1, b, at % BSIZE, part), slots)
  {
    var d := SlotOf(ip, at / BSIZE);
    OwnedAfterWrite(fs1, owner, d, at % BSIZE, part);
    var fs2 := Written(fs1, fs1.Get(d), at % BSIZE, part);
    forall t: Slot | t.Valid(|fs1.inodes|) ensures fs2.Get(t) == fs1.Get(t) {
      GetAfterWrite(fs1, owner, d, at % BSIZE, part, t);
    }
    FilledThenSame(fs, fs1, fs2, slots);
  }

  /** A file system in which all slots and sizes are the same is as consistent. */
  lemma SameSlots(fs: FS, owner: map<nat, Slot>, fs': FS)
    requires Consistent(fs, owner) && fs'.Owned(owner) && |fs'.inodes| == |fs.inodes|
    requires forall i :: 0 <= i < |fs.inodes| ==> fs'.inodes[i].size == fs.inodes[i].size
    requires forall t: Slot :: t.Valid(|fs.inodes|) ==> fs'.Get(t) == fs.Get(t)
    ensures Consistent(fs', owner)
  {
    forall ip | 0 <= ip < |fs.inodes|
      ensures NoHoles(fs', ip)
    {
      assert NoHoles(fs, ip);
      forall bn: nat | bn < MAXFILE && bn * BSIZE < fs.inodes[ip].size
        ensures BlockOf(fs', ip, bn) != 0
      {
        assert BlockOf(fs, ip, bn) != 0;
      }
    }
  }

  /** A new size changes no slot and no byte. */
  lemma {:induction false} GetIgnoresSize(fs: FS, ip: nat, size: nat, t: Slot)
    requires fs.Shaped() && ip < |fs.inodes| && t.Valid(|fs.inodes|)
    ensures var fs' := fs.(inodes := fs.inodes[ip := fs.inodes[ip].(size := size)]);
            fs'.Shaped() && fs'.Get(t) == fs.Get(t)
    decreases t.Level()
  {
    var fs' := fs.(inodes := fs.inodes[ip := fs.inodes[ip].(size := size)]);
    assert fs'.Shaped();
    if !t.Addr? {
      GetIgnoresSize(fs, ip, size, t.Parent());
    }
  }

  function Sized(fs: FS, ip: nat, size: nat): FS
    requires ip < |fs.inodes|
  {
    fs.(inodes := fs.inodes[ip := fs.inodes[ip].(size := size)])
  }

  lemma SizedFacts(fs: FS, owner: map<nat, Slot>, ip: nat, size: nat)
    requires Consistent(fs, owner) && ip < |fs.inodes| && size <= MAXFILE * BSIZE
    requires forall bn: nat :: bn < MAXFILE && bn * BSIZE < size ==> BlockOf(fs, ip, bn) != 0
    ensures Consistent(Sized(fs, ip, size), owner)
    ensures forall i, o: nat :: 0 <= i < |fs.inodes| && o < MAXFILE * BSIZE ==>
              ByteAt(Sized(fs, ip, size), i, o) == ByteAt(fs, i, o)
  {
    var fs' := Sized(fs, ip, size);
    assert fs'.Shaped();
    forall t: Slot | t.Valid(|fs.inodes|)
      ensures fs'.Get(t) == fs.Get(t)
    {
      GetIgnoresSize(fs, ip, size, t);
    }
    assert fs'.Owned(owner);
    forall i | 0 <= i < |fs.inodes|
      ensures NoHoles(fs', i)
    {
      assert NoHoles(fs, i);
      forall bn: nat | bn < MAXFILE && bn * BSIZE < fs'.inodes[i].size
        ensures BlockOf(fs', i, bn) != 0
      {
        assert BlockOf(fs, i, bn) != 0;
      }
    }
  }

  function NewSize(size: nat, off: nat, n: nat): nat {
    if n > 0 && off + n > size then off + n else size
  }

  lemma SplicedSize(fs: FS, owner: map<nat, Slot>, fs1: FS, owner1: map<nat, Slot>, ip: nat, off: nat, src: seq<byte>)
    requires Consistent(fs, owner) && Consistent(fs1, owner1) && Spliced(fs, fs1, ip, off, src)
    requires off <= fs.inodes[ip].size && off + |src| <= MAXFILE * BSIZE && Mapped(fs1, ip, off, off + |src|)
    ensures var size := NewSize(fs.inodes[ip].size, off, |src|);
            NoHoles(fs, ip) && size <= MAXFILE * BSIZE
            && forall bn: nat :: bn < MAXFILE && bn * BSIZE < size ==> BlockOf(fs1, ip, bn) != 0
  {
    var size := NewSize(fs.inodes[ip].size, off, |src|);
    assert NoHoles(fs, ip);
    forall bn: nat | bn < MAXFILE && bn * BSIZE < size
      ensures BlockOf(fs1, ip, bn) != 0
    {
      if bn * BSIZE < fs.inodes[ip].size {
        assert BlockOf(fs, ip, bn) != 0;
      } else {
        assert off / BSIZE <= bn;
      }
    }
  }

  lemma SplicedContents(fs: FS, fs1: FS, fs2: FS, ip: nat, off: nat, src: seq<byte>)
    requires Spliced(fs, fs1, ip, off, src) && fs2.Shaped() && |fs2.inodes| == |fs.inodes|
    requires off <= fs.inodes[ip].size <= MAXFILE * BSIZE && off + |src| <= MAXFILE * BSIZE
    requires fs2.inodes[ip].size == NewSize(fs.inodes[ip].size, off, |src|)
    requires forall o: nat :: o < MAXFILE * BSIZE ==> ByteAt(fs2, ip, o) == ByteAt(fs1, ip, o)
    ensures Contents(fs2, ip) == Splice(Contents(fs, ip), off, src)
  {
    var want := Splice(Contents(fs, ip), off, src);
    forall o: nat | o < fs2.inodes[ip].size
      ensures ByteAt(fs2, ip, o) == want[o]
    {
      assert ByteAt(fs1, ip, o) == if off <= o < off + |src| then src[o - off] else ByteAt(fs, ip, o);
    }
  }

  lemma SameContents(fs: FS, fs2: FS, i: nat)
    requires fs.Shaped() && fs2.Shaped() && i < |fs.inodes| == |fs2.inodes|
    requires fs.inodes[i].size == fs2.inodes[i].size <= MAXFILE * BSIZE
    requires forall o: nat :: o < MAXFILE * BSIZE ==> ByteAt(fs2, i, o) == ByteAt(fs, i, o)
    ensures Contents(fs2, i) == Contents(fs, i)
  {
  }

  /** With the size adjusted, the file holds what it should and no other file has changed. */
  lemma FileSpliced(fs: FS, owner: map<nat, Slot>, fs1: FS, owner1: map<nat, Slot>, ip: nat, off: nat, src: seq<byte>)
    requires Consistent(fs, owner) && Consistent(fs1, owner1) && Spliced(fs, fs1, ip, off, src)
    requires off <= fs.inodes[ip].size && off + |src| <= MAXFILE * BSIZE && Mapped(fs1, ip, off, off + |src|)
    ensures var fs2 := Sized(fs1, ip, NewSize(fs.inodes[ip].size, off, |src|));
            Consistent(fs2, owner1) && FileWritten(fs, fs2, ip, off, src)
  {
    hide ByteAt, Contents, Splice, Mapped;
    var size := NewSize(fs.inodes[ip].size, off, |src|);
    SplicedSize(fs, owner, fs1, owner1, ip, off, src);
    SizedFacts(fs1, owner1, ip, size);
    var fs2 := Sized(fs1, ip, size);
    assert NoHoles(fs2, ip);
    SplicedContents(fs, fs1, fs2, ip, off, src);
    forall i | 0 <= i < |fs.inodes| && i != ip
      ensures NoHoles(fs, i) && NoHoles(fs2, i) && Contents(fs2, i) == Contents(fs, i)
    {
      assert NoHoles(fs, i) && NoHoles(fs2, i);
      SameContents(fs, fs2, i);
    }
  }

  lemma FreedNone(fs: FS, owner: map<nat, Slot>, ip: nat)
    ensures FreedTo(fs, owner, ip, fs.used, 0)
  {
  }

  /** The inodes with the first `i` entries of file `ip` cleared. */
  function Cleared(fs: FS, ip: nat, i: nat): (inodes: seq<Inode>)
    requires fs.Shaped() && ip < |fs.inodes|
    ensures |inodes| == |fs.inodes| && |inodes[ip].addrs| == NDIRECT + 2
    ensures forall k :: i <= k < NDIRECT + 2 ==> inodes[ip].addrs[k] == fs.inodes[ip].addrs[k]
  {
    var addrs := fs.inodes[ip].addrs;
    fs.inodes[ip := fs.inodes[ip].(addrs := seq(NDIRECT + 2, k requires 0 <= k < NDIRECT + 2 => if k < i then 0 else addrs[k]))]
  }

  lemma ClearedNone(fs: FS, ip: nat)
    requires fs.Shaped() && ip < |fs.inodes|
    ensures Cleared(fs, ip, 0) == fs.inodes
  {
    assert Cleared(fs, ip, 0)[ip].addrs == fs.inodes[ip].addrs;
  }

  lemma ClearedAll(fs: FS, ip: nat)
    requires fs.Shaped() && ip < |fs.inodes|
    ensures var c := Cleared(fs, ip, NDIRECT + 2);
            c[ip := c[ip].(size := 0)] == fs.inodes[ip := Inode(seq(NDIRECT + 2, _ => 0), 0)]
  {
    assert Cleared(fs, ip, NDIRECT + 2)[ip].addrs == seq(NDIRECT + 2, _ => 0);
  }

  lemma ClearedNext(fs: FS, ip: nat, i: nat)
    requires fs.Shaped() && ip < |fs.inodes| && i < NDIRECT + 2
    ensures var c := Cleared(fs, ip, i); Cleared(fs, ip, i + 1) == c[ip := c[ip].(addrs := c[ip].addrs[i := 0])]
    ensures fs.inodes[ip].addrs[i] == 0 ==> Cleared(fs, ip, i + 1) == Cleared(fs, ip, i)
  {
    var c := Cleared(fs, ip, i);
    assert Cleared(fs, ip, i + 1)[ip].addrs == c[ip].addrs[i := 0];
    assert fs.inodes[ip].addrs[i] == 0 ==> c[ip].addrs[i := 0] == c[ip].addrs;
  }

  /** The block that an entry of the double-indirect block names is another block. */
  lemma OtherBlock(fs: FS, owner: map<nat, Slot>, ip: nat, i: nat)
    requires fs.Owned(owner) && ip < |fs.inodes| && i < NINDIRECT && fs.Get(Slot.Dbl(ip, i)) != 0
    ensures var q := fs.Get(Slot.Dbl(ip, i));
            q < |fs.blocks| && |fs.blocks[q]| == BSIZE && q != fs.Get(Slot.Addr(ip, NDIRECT + 1))
  {
    var q := fs.Get(Slot.Dbl(ip, i));
    assert q in owner && owner[q] == Slot.Dbl(ip, i);
  }

  lemma AllFreed(fs: FS, owner: map<nat, Slot>, ip: nat, used: seq<bool>)
    requires fs.Owned(owner) && FreedTo(fs, owner, ip, used, 1000001)
    ensures |used| == |fs.used|
    ensures forall b :: 0 <= b < |used| ==> used[b] == (fs.used[b] && !(b in owner && owner[b].ip == ip))
  {
    forall b | 0 <= b < |used| && b in owner
      ensures Rank(owner[b]) < 1000001
    {
    }
  }

  /** No slot has a rank between those of an entry's blocks and that of the entry, or between the entry and the next. */
  lemma EntryGap(fs: FS, ip: nat, i: nat)
    requires fs.Shaped() && ip < |fs.inodes| && i < NINDIRECT
    ensures NothingBetween(fs, ip, 2000 + 1000 * i + NINDIRECT, 2000 + 1000 * i + 500)
    ensures NothingBetween(fs, ip, 2000 + 1000 * i + 501, 2000 + 1000 * (i + 1))
    ensures fs.Get(Slot.Dbl(ip, i)) == 0 ==> NothingBetween(fs, ip, 2000 + 1000 * i, 2000 + 1000 * (i + 1))
  {
    hide Word;
    forall s: Slot | s.Valid(|fs.inodes|) && s.ip == ip && 2000 + 1000 * i <= Rank(s) < 2000 + 1000 * (i + 1)
      ensures s == Slot.Dbl(ip, i) || (s.Leaf? && s.Parent() == Slot.Dbl(ip, i))
    {
    }
  }
}
