/** How many blocks files take by their sizes, and whole runs of operations: blocks on a disk do what byte sequences do, until
    the disk is too small for the files. */
module InodeSpace {
  import opened Common
  import opened InodeBlocks

  // ----- how many blocks the files take -----

  /** A file of `size` bytes has exactly the blocks on the way to its bytes. */
  ghost predicate TightAt(fs: FS, s: Slot)
    requires fs.Shaped() && s.Valid(|fs.inodes|)
  {
    fs.inodes[s.ip].size <= MAXFILE * BSIZE && (fs.Get(s) != 0 <==> s in Touched(s.ip, 0, fs.inodes[s.ip].size))
  }

  ghost predicate Tight(fs: FS) {
    fs.Shaped() && forall s: Slot :: s.Valid(|fs.inodes|) ==> TightAt(fs, s)
  }

  /** The blocks of a file of `d` data blocks: one more with an indirect block, and with the double-indirect block that one and
      one for every 128 data blocks behind it. */
  function BlocksFor(d: nat): nat {
    d + (if d > NDIRECT then 1 else 0)
      + if d > NDIRECT + NINDIRECT then 1 + (d - NDIRECT - 1) / NINDIRECT else 0
  }

  /** The blocks of a file of `size` bytes. */
  function Cost(size: nat): nat {
    BlocksFor((size + BSIZE - 1) / BSIZE)
  }

  function TotalCost(files: seq<seq<byte>>): nat {
    if files == [] then 0 else TotalCost(files[..|files| - 1]) + Cost(|files[|files| - 1]|)
  }

  /** The slots on the way to the first `d` data blocks. */
  predicate OnTheWay(s: Slot, ip: nat, d: nat) {
    && s.ip == ip
    && match s
       case Addr(_, i) => i < NDIRECT + 2 && d > (if i <= NDIRECT then i else NDIRECT + NINDIRECT)
       case Ind(_, j) => j < NINDIRECT && d > NDIRECT + j
       case Dbl(_, j) => d > NDIRECT + NINDIRECT + NINDIRECT * j
       case Leaf(_, j, k) => k < NINDIRECT && d > NDIRECT + NINDIRECT + NINDIRECT * j + k
  }

  lemma WayNext(s: Slot, ip: nat, bn: nat)
    requires bn < MAXFILE
    ensures OnTheWay(s, ip, bn + 1) <==> OnTheWay(s, ip, bn) || s in Path(ip, bn)
  {
    var n := bn - NDIRECT - NINDIRECT;
    if n >= 0 { assert n == NINDIRECT * (n / NINDIRECT) + n % NINDIRECT; }
  }

  lemma {:induction false} PathsAre(s: Slot, ip: nat, d: nat)
    requires d <= MAXFILE
    ensures s in Paths(ip, 0, d) <==> OnTheWay(s, ip, d)
  {
    if d > 0 {
      PathsAre(s, ip, d - 1);
      WayNext(s, ip, d - 1);
    }
  }

  /** Those on the way to block `bn` that are not on the way to any block before it. */
  function NewOnTheWay(ip: nat, bn: nat): (slots: set<Slot>)
    requires bn < MAXFILE
    ensures |slots| == BlocksFor(bn + 1) - BlocksFor(bn)
  {
    var s := SlotOf(ip, bn);
    if bn == NDIRECT then
      assert |{s.Parent(), s}| == 2;
      {s.Parent(), s}
    else if bn == NDIRECT + NINDIRECT then
      assert |{s.Parent().Parent(), s.Parent(), s}| == 3;
      {s.Parent().Parent(), s.Parent(), s}
    else if s.Leaf? && s.k == 0 then
      assert |{s.Parent(), s}| == 2;
      {s.Parent(), s}
    else
      {s}
  }

  lemma NewOnTheWayAre(s: Slot, ip: nat, bn: nat)
    requires bn < MAXFILE
    ensures s in NewOnTheWay(ip, bn) <==> s in Path(ip, bn) && !OnTheWay(s, ip, bn)
  {
    var n := bn - NDIRECT - NINDIRECT;
    if n >= 0 { assert n == NINDIRECT * (n / NINDIRECT) + n % NINDIRECT; }
  }

  lemma PathsStep(ip: nat, d: nat)
    requires d < MAXFILE
    ensures Paths(ip, 0, d + 1) == Paths(ip, 0, d) + NewOnTheWay(ip, d) && Paths(ip, 0, d) !! NewOnTheWay(ip, d)
  {
    hide NewOnTheWay, Paths, OnTheWay, Path;
    forall s ensures s in Paths(ip, 0, d + 1) <==> s in Paths(ip, 0, d) || s in NewOnTheWay(ip, d)
             ensures !(s in Paths(ip, 0, d) && s in NewOnTheWay(ip, d)) {
      PathsAre(s, ip, d);
      PathsAre(s, ip, d + 1);
      WayNext(s, ip, d);
      NewOnTheWayAre(s, ip, d);
    }
  }

  /** The slots on the way to the first `d` data blocks are as many as the arithmetic says. */
  lemma {:induction false} PathsCount(ip: nat, d: nat)
    requires d <= MAXFILE
    ensures |Paths(ip, 0, d)| == BlocksFor(d)
  {
    if d > 0 {
      hide Paths, NewOnTheWay;
      PathsCount(ip, d - 1);
      PathsStep(ip, d - 1);
    } else {
      assert Paths(ip, 0, 0) == {};
    }
  }

  lemma TouchedCount(ip: nat, size: nat)
    requires size <= MAXFILE * BSIZE
    ensures |Touched(ip, 0, size)| == Cost(size)
  {
    if size > 0 { PathsCount(ip, (size - 1) / BSIZE + 1); }
    assert size > 0 ==> (size + BSIZE - 1) / BSIZE == (size - 1) / BSIZE + 1;
  }
 
  lemma TouchedIs(s: Slot, ip: nat, size: nat)
    requires size <= MAXFILE * BSIZE
    ensures s in Touched(ip, 0, size) <==> OnTheWay(s, ip, (size + BSIZE - 1) / BSIZE)
  {
    if size > 0 { PathsAre(s, ip, (size - 1) / BSIZE + 1); }
    assert size > 0 ==> (size + BSIZE - 1) / BSIZE == (size - 1) / BSIZE + 1;
  }

  // ----- every used block belongs to a file -----

  /** All slots on the way to the bytes of all files. */
  function SlotsOf(files: seq<seq<byte>>): set<Slot>
    requires forall i :: 0 <= i < |files| ==> |files[i]| <= MAXFILE * BSIZE
  {
    if files == [] then {} else
    var n := |files| - 1;
    SlotsOf(files[..n]) + Touched(n, 0, |files[n]|)
  }

  lemma {:induction false} SlotsOfAre(files: seq<seq<byte>>, s: Slot)
    requires forall i :: 0 <= i < |files| ==> |files[i]| <= MAXFILE * BSIZE
    ensures s in SlotsOf(files) <==> s.ip < |files| && s in Touched(s.ip, 0, |files[s.ip]|)
  {
    if files != [] {
      var n := |files| - 1;
      SlotsOfAre(files[..n], s);
      TouchedIs(s, n, |files[n]|);
      if s.ip < n { TouchedIs(s, s.ip, |files[s.ip]|); }
    }
  }

  lemma {:induction false} SlotsOfCount(files: seq<seq<byte>>)
    requires forall i :: 0 <= i < |files| ==> |files[i]| <= MAXFILE * BSIZE
    ensures |SlotsOf(files)| == TotalCost(files)
  {
    if files != [] {
      var n := |files| - 1;
      SlotsOfCount(files[..n]);
      TouchedCount(n, |files[n]|);
      forall s | s in SlotsOf(files[..n]) ensures s !in Touched(n, 0, |files[n]|) {
        SlotsOfAre(files[..n], s);
        TouchedIs(s, n, |files[n]|);
      }
      assert SlotsOf(files[..n]) !! Touched(n, 0, |files[n]|);
    }
  }

  function UsedData(used: seq<bool>, first: nat): set<nat> {
    set b: nat | first <= b < |used| && used[b]
  }

  lemma {:induction false} FreeAndUsed(used: seq<bool>, first: nat)
    requires forall b :: 0 <= b < first && b < |used| ==> used[b]
    ensures FreeCount(used) + |UsedData(used, first)| == if |used| > first then |used| - first else 0
  {
    if used == [] {
      assert UsedData(used, first) == {};
    } else {
      var n := |used| - 1;
      FreeAndUsed(used[..n], first);
      assert UsedData(used, first) == UsedData(used[..n], first) + if n >= first && used[n] then {n} else {};
    }
  }

  lemma {:induction false} OwnersCount(owner: map<nat, Slot>)
    requires forall b, c :: b in owner && c in owner && b != c ==> owner[b] != owner[c]
    ensures |owner.Keys| == |owner.Values|
  {
    if b :| b in owner {
      OwnersCount(owner - {b});
      OwnerWithout(owner, b);
    } else {
      assert owner == map[];
    }
  }

  lemma OwnerWithout(owner: map<nat, Slot>, b: nat)
    requires b in owner && forall c :: c in owner && c != b ==> owner[c] != owner[b]
    ensures var rest := owner - {b};
            && owner.Keys == rest.Keys + {b} && b !in rest.Keys
            && owner.Values == rest.Values + {owner[b]} && owner[b] !in rest.Values
  {
    var rest := owner - {b};
    forall s ensures s in owner.Values <==> s in rest.Values || s == owner[b] {
      if s in owner.Values {
        var c :| c in owner && owner[c] == s;
        assert c != b ==> rest[c] == s;
      }
    }
  }

  /** The number of data blocks of the disk. */
  function Capacity(fs: FS): nat {
    if |fs.used| > fs.first then |fs.used| - fs.first else 0
  }

  /** The free blocks and the blocks that the files take by their sizes are all data blocks of the disk. */
  lemma SpaceLeft(fs: FS, owner: map<nat, Slot>, files: seq<seq<byte>>)
    requires Consistent(fs, owner) && Tight(fs) && Abstracts(fs, files)
    ensures FreeCount(fs.used) + TotalCost(files) == Capacity(fs)
  {
    hide FS.Get, Contents, SlotsOf, FreeCount, TotalCost, UsedData, Touched, TightAt;
    AbstractShaped(fs, files);
    SizesAre(fs, files);
    FreeAndUsed(fs.used, fs.first);
    KeysAreUsed(fs, owner);
    OwnersCount(owner);
    SlotsOfCount(files);
    forall s ensures s in owner.Values <==> s in SlotsOf(files) {
      SlotsOfAre(files, s);
      ValuesAreTouched(fs, owner, files, s);
    }
    assert owner.Values == SlotsOf(files);
  }

  lemma SizesAre(fs: FS, files: seq<seq<byte>>)
    requires Abstracts(fs, files)
    ensures |files| == |fs.inodes| && forall ip :: 0 <= ip < |files| ==> |files[ip]| == fs.inodes[ip].size <= MAXFILE * BSIZE
  {
    forall ip | 0 <= ip < |files| ensures |files[ip]| == fs.inodes[ip].size <= MAXFILE * BSIZE {
      AbstractSize(fs, files, ip);
    }
  }

  lemma KeysAreUsed(fs: FS, owner: map<nat, Slot>)
    requires fs.Owned(owner)
    ensures UsedData(fs.used, fs.first) == owner.Keys
  {
  }

  lemma ValuesAreTouched(fs: FS, owner: map<nat, Slot>, files: seq<seq<byte>>, s: Slot)
    requires fs.Owned(owner) && Tight(fs) && |files| == |fs.inodes|
    requires forall ip :: 0 <= ip < |files| ==> |files[ip]| == fs.inodes[ip].size <= MAXFILE * BSIZE
    ensures s in owner.Values <==> s.ip < |files| && s in Touched(s.ip, 0, |files[s.ip]|)
  {
    if s.ip < |files| {
      TouchedIs(s, s.ip, |files[s.ip]|);
      if s.Valid(|files|) {
        assert TightAt(fs, s);
        if fs.Get(s) != 0 { assert owner[fs.Get(s)] == s; }
      }
    }
    if s in owner.Values {
      var b :| b in owner && owner[b] == s;
    }
  }

  // ----- the operations keep files tight -----

  lemma {:induction false} PathsSplit(ip: nat, a: nat, b: nat)
    requires a <= b <= MAXFILE
    ensures Paths(ip, 0, b) == Paths(ip, 0, a) + Paths(ip, a, b)
  {
    if a < b { PathsSplit(ip, a, b - 1); }
  }

  lemma PathsJoin(ip: nat, a: nat, b: nat, c: nat)
    requires a <= b <= MAXFILE && a <= c <= MAXFILE
    ensures Paths(ip, 0, c) + Paths(ip, a, b) == Paths(ip, 0, if b <= c then c else b)
  {
    hide Paths;
    PathsSplit(ip, a, b);
    if b <= c {
      PathsGrow(ip, 0, b, c);
    } else {
      PathsGrow(ip, 0, a, c);
      PathsGrow(ip, 0, c, b);
    }
  }

  /** What a write touches, and what the file had: together what the file has afterwards. */
  lemma TouchedJoin(ip: nat, size: nat, off: nat, n: nat)
    requires InRange(size, off, n) && size <= MAXFILE * BSIZE
    ensures Touched(ip, 0, NewSize(size, off, n)) == Touched(ip, 0, size) + Touched(ip, off, off + n)
  {
    if n > 0 {
      var a, b := off / BSIZE, (off + n - 1) / BSIZE + 1;
      var c := if size == 0 then 0 else (size - 1) / BSIZE + 1;
      NoPaths(ip);
      PathsJoin(ip, a, b, c);
      hide Paths;
      assert off + n > size ==> b >= c;
      assert off + n <= size ==> b <= c;
    }
  }

  lemma NoPaths(ip: nat)
    ensures Paths(ip, 0, 0) == {}
  {
  }

  /** A write keeps the files tight, and takes as many blocks as the file takes more. */
  lemma TightWritten(fs: FS, fs': FS, ip: nat, off: nat, n: nat)
    requires Tight(fs) && ip < |fs.inodes| && InRange(fs.inodes[ip].size, off, n)
    requires Filled(fs, fs', Missing(fs, Touched(ip, off, off + n)))
    requires forall i :: 0 <= i < |fs.inodes| ==>
               fs'.inodes[i].size == if i == ip then NewSize(fs.inodes[ip].size, off, n) else fs.inodes[i].size
    ensures Tight(fs')
  {
    var size := fs.inodes[ip].size;
    assert TightAt(fs, Slot.Addr(ip, 0));
    TouchedJoin(ip, size, off, n);
    hide Touched;
    forall t: Slot | t.Valid(|fs'.inodes|) ensures TightAt(fs', t) {
      assert TightAt(fs, t);
      if t.ip != ip { OtherFile(t, ip, off, off + n); }
    }
  }

  lemma OtherFile(s: Slot, ip: nat, off: nat, end: nat)
    requires off <= end <= MAXFILE * BSIZE && s.ip != ip
    ensures s !in Touched(ip, off, end)
  {
    if off < end {
      var a, b := off / BSIZE, (end - 1) / BSIZE + 1;
      PathsSplit(ip, a, b);
      PathsAre(s, ip, b);
    }
  }

  lemma NeededIs(fs: FS, ip: nat, off: nat, n: nat)
    requires Tight(fs) && ip < |fs.inodes| && InRange(fs.inodes[ip].size, off, n)
    ensures Needed(fs, ip, off, off + n) + Cost(fs.inodes[ip].size) == Cost(NewSize(fs.inodes[ip].size, off, n))
  {
    var size := fs.inodes[ip].size;
    assert TightAt(fs, Slot.Addr(ip, 0));
    var had, all := Touched(ip, 0, size), Touched(ip, 0, NewSize(size, off, n));
    var missing := Missing(fs, Touched(ip, off, off + n));
    TouchedJoin(ip, size, off, n);
    TouchedCount(ip, size);
    TouchedCount(ip, NewSize(size, off, n));
    forall t ensures t in missing <==> t in all && t !in had {
      TouchedIs(t, ip, NewSize(size, off, n));
      if t.ip == ip && t.Valid(|fs.inodes|) { assert TightAt(fs, t); }
    }
    hide Touched;
    assert had + missing == all && had !! missing;
  }

  lemma TightEmptied(fs: FS, fs': FS, ip: nat)
    requires Tight(fs) && Emptied(fs, fs', ip)
    ensures Tight(fs')
  {
    forall t: Slot | t.Valid(|fs'.inodes|) ensures TightAt(fs', t) {
      assert TightAt(fs, t);
    }
  }
 /** A new file system: empty files, and all blocks after the metadata free. */
  function Fresh(n: nat, size: nat, first: nat): FS {
    FS(seq(n, _ => Inode(seq(NDIRECT + 2, _ => 0), 0)), seq(size, _ => Zero()), seq(size, b => b < first), first)
  }

  lemma FreshConsistent(n: nat, size: nat, first: nat)
    requires 1 <= first && size < UINT
    ensures Consistent(Fresh(n, size, first), map[])
    ensures Abstracts(Fresh(n, size, first), seq(n, _ => [])) && Tight(Fresh(n, size, first))
  {
    var fs := Fresh(n, size, first);
    assert fs.Shaped();
    forall s: Slot | s.Valid(n) ensures fs.Get(s) == 0 && TightAt(fs, s) {
      FreshEmpty(n, size, first, s);
    }
  }

  lemma {:induction false} FreshEmpty(n: nat, size: nat, first: nat, s: Slot)
    requires 1 <= first && size < UINT && s.Valid(n) && Fresh(n, size, first).Shaped()
    ensures Fresh(n, size, first).Get(s) == 0
    decreases s.Level()
  {
    if !s.Addr? { FreshEmpty(n, size, first, s.Parent()); }
  }

  datatype Op = Write(ip: nat, off: nat, src: seq<byte>) | Read(ip: nat, off: nat, n: nat) | Truncate(ip: nat)
  {
    /** What the kernel passes on: an inode that exists, and unsigned numbers. */
    predicate Proper(files: nat) {
      && ip < files
      && (Write? ==> off < UINT && |src| < UINT)
      && (Read? ==> off < UINT && n < UINT)
    }
  }

  /** What an operation answers: a number, and the bytes read. */
  datatype Answer = Answer(res: int, bytes: seq<byte>)

  /** A file system stands for these files. */
  ghost predicate Abstracts(fs: FS, files: seq<seq<byte>>) {
    && fs.Shaped() && |files| == |fs.inodes|
    && forall ip :: 0 <= ip < |files| ==> NoHoles(fs, ip) && Contents(fs, ip) == files[ip]
  }

  /** The files after an operation. */
  function Effect(files: seq<seq<byte>>, op: Op): (r: seq<seq<byte>>)
    ensures |r| == |files|
  {
    if op.ip >= |files| then files else
    match op
    case Write(ip, off, src) => if InRange(|files[ip]|, off, |src|) then files[ip := Splice(files[ip], off, src)] else files
    case Read(_, _, _) => files
    case Truncate(ip) => files[ip := []]
  }

  /** What an operation answers when the files are these. */
  function Answered(files: seq<seq<byte>>, op: Op): Answer {
    if op.ip >= |files| then Answer(-1, []) else
    match op
    case Write(ip, off, src) => Answer(if InRange(|files[ip]|, off, |src|) then |src| else -1, [])
    case Read(ip, off, n) =>
      var f := files[ip];
      if off > |f| || off + n >= UINT then Answer(-1, [])
      else if off + n > |f| then Answer(|f| - off, f[off..]) else Answer(n, f[off..off + n])
    case Truncate(_) => Answer(0, [])
  }

  /** Are too few blocks free for this write? */
  ghost predicate Short(fs: FS, op: Op)
    requires fs.Shaped()
  {
    && op.Write? && op.ip < |fs.inodes| && InRange(fs.inodes[op.ip].size, op.off, |op.src|)
    && FreeCount(fs.used) < Needed(fs, op.ip, op.off, op.off + |op.src|)
  }

  lemma AbstractWrite(fs: FS, files: seq<seq<byte>>, fs': FS, ip: nat, off: nat, src: seq<byte>)
    requires Abstracts(fs, files) && ip < |files| && InRange(|files[ip]|, off, |src|) && FileWritten(fs, fs', ip, off, src)
    ensures Abstracts(fs', Effect(files, Write(ip, off, src)))
  {
    hide NoHoles, Contents, Splice;
    var files' := Effect(files, Write(ip, off, src));
    forall i | 0 <= i < |files| ensures NoHoles(fs', i) && fs'.inodes[i].size <= MAXFILE * BSIZE && Contents(fs', i) == files'[i] {
      SizeBound(fs', i);
      AbstractSize(fs, files, i);
    }
  }

  lemma SizeBound(fs: FS, ip: nat)
    requires fs.Shaped() && ip < |fs.inodes| && NoHoles(fs, ip)
    ensures fs.inodes[ip].size <= MAXFILE * BSIZE
  {
  }

  lemma AbstractSize(fs: FS, files: seq<seq<byte>>, ip: nat)
    requires Abstracts(fs, files) && ip < |files|
    ensures fs.Shaped() && ip < |fs.inodes| && fs.inodes[ip].size <= MAXFILE * BSIZE
    ensures NoHoles(fs, ip) && Contents(fs, ip) == files[ip] && |files[ip]| == fs.inodes[ip].size
  {
    assert NoHoles(fs, ip);
    ContentsSize(fs, ip);
  }

  /** Do the files take more blocks after this operation than the disk has? */
  predicate Overflows(capacity: nat, files: seq<seq<byte>>, op: Op) {
    TotalCost(Effect(files, op)) > capacity
  }

  /** Too few blocks are free for a write exactly if the files would take more than the disk has. */
  lemma ShortIff(fs: FS, owner: map<nat, Slot>, files: seq<seq<byte>>, op: Op)
    requires Consistent(fs, owner) && Tight(fs) && Abstracts(fs, files) && op.Proper(|files|)
    ensures Short(fs, op) <==> Overflows(Capacity(fs), files, op)
  {
    hide Consistent, Tight, Abstracts, Contents, NoHoles, FreeCount, Needed, Cost, TotalCost, Capacity;
    SpaceLeft(fs, owner, files);
    AbstractSize(fs, files, op.ip);
    match op
    case Write(ip, off, src) =>
      if InRange(|files[ip]|, off, |src|) { WriteCosts(fs, files, ip, off, src); }
    case Read(_, _, _) =>
    case Truncate(ip) =>
      CostChanged(files, ip, []);
      NothingCosts();
  }

  lemma WriteCosts(fs: FS, files: seq<seq<byte>>, ip: nat, off: nat, src: seq<byte>)
    requires Tight(fs) && ip < |fs.inodes| && ip < |files| && |files[ip]| == fs.inodes[ip].size
    requires InRange(|files[ip]|, off, |src|)
    ensures TotalCost(Effect(files, Write(ip, off, src))) == TotalCost(files) + Needed(fs, ip, off, off + |src|)
  {
    hide Tight, Needed, Cost, TotalCost, Splice;
    NeededIs(fs, ip, off, |src|);
    SpliceSize(files[ip], off, src);
    CostChanged(files, ip, Splice(files[ip], off, src));
  }

  lemma NothingCosts()
    ensures Cost(0) == 0
  {
  }

  lemma SpliceSize(c: seq<byte>, off: nat, src: seq<byte>)
    requires off <= |c|
    ensures |Splice(c, off, src)| == NewSize(|c|, off, |src|)
  {
  }

  lemma {:induction false} CostChanged(files: seq<seq<byte>>, ip: nat, c: seq<byte>)
    requires ip < |files|
    ensures TotalCost(files[ip := c]) + Cost(|files[ip]|) == TotalCost(files) + Cost(|c|)
  {
    var n := |files| - 1;
    if ip < n {
      CostChanged(files[..n], ip, c);
      assert files[ip := c][..n] == files[..n][ip := c];
    } else {
      assert files[ip := c][..n] == files[..n];
    }
  }

  /** The size of each file, and of the disk, after a write. */
  lemma SizesWritten(fs: FS, files: seq<seq<byte>>, fs': FS, ip: nat, off: nat, src: seq<byte>)
    requires Abstracts(fs, files) && ip < |files| && InRange(|files[ip]|, off, |src|) && FileWritten(fs, fs', ip, off, src)
    ensures |files[ip]| == fs.inodes[ip].size
    ensures forall i :: 0 <= i < |fs.inodes| ==>
              fs'.inodes[i].size == if i == ip then NewSize(fs.inodes[ip].size, off, |src|) else fs.inodes[i].size
  {
    AbstractWrite(fs, files, fs', ip, off, src);
    AbstractSize(fs, files, ip);
    SpliceSize(files[ip], off, src);
    forall i | 0 <= i < |files|
      ensures fs'.inodes[i].size == if i == ip then NewSize(fs.inodes[ip].size, off, |src|) else fs.inodes[i].size {
      AbstractSize(fs, files, i);
      AbstractSize(fs', Effect(files, Write(ip, off, src)), i);
    }
  }

  /** One operation on the blocks does to the files what it should; the kernel panics exactly if too few blocks are free, and that
      is exactly if the files would take more blocks than the disk has. */
  method Perform(f: FileSystem, op: Op, ghost files: seq<seq<byte>>) returns (ok: bool, answer: Answer)
    requires f.Valid() && Tight(f.State()) && Abstracts(f.State(), files) && op.Proper(|files|)
    modifies f
    ensures old(f.State()).Shaped() && (ok <==> !Short(old(f.State()), op))
    ensures ok <==> !Overflows(Capacity(old(f.State())), files, op)
    ensures ok ==> f.Valid() && Tight(f.State()) && Capacity(f.State()) == Capacity(old(f.State()))
    ensures ok ==> Abstracts(f.State(), Effect(files, op)) && answer == Answered(files, op)
  {
    hide Consistent, Contents, NoHoles, Abstracts, FileWritten, FreeCount, Needed, Tight, Overflows, Filled, Emptied, Missing, Touched;
    ghost var fs := f.State();
    AbstractShaped(fs, files);
    AbstractSize(fs, files, op.ip);
    ShortIff(fs, f.owner, files, op);
    match op {
      case Write(ip, off, src) =>
        var res;
        ok, res := f.Writei(ip, off, src);
        answer := Answer(if res < 0 then -1 else res, []);
        if ok && InRange(|files[ip]|, off, |src|) {
          AbstractWrite(fs, files, f.State(), ip, off, src);
          StaysTight(fs, files, f.State(), ip, off, src);
        }
      case Read(ip, off, n) =>
        var res, dst := f.Readi(ip, off, n);
        answer := Answer(if res < 0 then -1 else res, if res < 0 then [] else dst);
        ok := true;
      case Truncate(ip) =>
        f.Itrunc(ip);
        ConsistentShaped(f.State(), f.owner);
        AbstractTruncate(fs, files, f.State(), ip);
        TightEmptied(fs, f.State(), ip);
        SameDisk(fs, f.State(), ip);
        ok, answer := true, Answer(0, []);
    }
  }

  lemma StaysTight(fs: FS, files: seq<seq<byte>>, fs': FS, ip: nat, off: nat, src: seq<byte>)
    requires Tight(fs) && Abstracts(fs, files) && ip < |files| && InRange(|files[ip]|, off, |src|)
    requires FileWritten(fs, fs', ip, off, src) && Filled(fs, fs', Missing(fs, Touched(ip, off, off + |src|)))
    ensures Tight(fs') && Capacity(fs') == Capacity(fs)
  {
    hide Tight, Abstracts, FileWritten, Missing, Touched;
    AbstractShaped(fs, files);
    SizesWritten(fs, files, fs', ip, off, src);
    TightWritten(fs, fs', ip, off, |src|);
  }

  lemma SameDisk(fs: FS, fs': FS, ip: nat)
    requires Emptied(fs, fs', ip)
    ensures Capacity(fs') == Capacity(fs)
  {
  }

  lemma AbstractShaped(fs: FS, files: seq<seq<byte>>)
    requires Abstracts(fs, files)
    ensures fs.Shaped() && |files| == |fs.inodes|
  {
  }

  lemma AbstractTruncate(fs: FS, files: seq<seq<byte>>, fs': FS, ip: nat)
    requires Abstracts(fs, files) && ip < |files| && fs'.Shaped() && |fs'.inodes| == |fs.inodes|
    requires NoHoles(fs', ip) && Contents(fs', ip) == []
    requires forall i :: 0 <= i < |fs.inodes| && i != ip ==>
               NoHoles(fs, i) && NoHoles(fs', i) && Contents(fs', i) == Contents(fs, i)
    ensures Abstracts(fs', Effect(files, Truncate(ip)))
  {
    hide NoHoles, Contents;
    var files' := Effect(files, Truncate(ip));
    forall i | 0 <= i < |files| ensures NoHoles(fs', i) && fs'.inodes[i].size <= MAXFILE * BSIZE && Contents(fs', i) == files'[i] {
      SizeBound(fs', i);
      AbstractSize(fs, files, i);
    }
  }

  /** The files after these operations. */
  function FilesAfter(files: seq<seq<byte>>, ops: seq<Op>): (r: seq<seq<byte>>)
    ensures |r| == |files|
  {
    if ops == [] then files else Effect(FilesAfter(files, ops[..|ops| - 1]), ops[|ops| - 1])
  }

  lemma FilesNext(files: seq<seq<byte>>, ops: seq<Op>, k: nat)
    requires k < |ops|
    ensures FilesAfter(files, ops[..k + 1]) == Effect(FilesAfter(files, ops[..k]), ops[k])
  {
    assert ops[..k + 1][..k] == ops[..k];
  }

  /** Makes a file system with nothing in it. */
  method Format(n: nat, size: nat, first: nat) returns (f: FileSystem)
    requires 1 <= first && size < UINT
    ensures fresh(f) && f.Valid() && f.State() == Fresh(n, size, first)
    ensures Tight(f.State()) && Abstracts(f.State(), seq(n, _ => []))
  {
    FreshConsistent(n, size, first);
    f := new FileSystem(seq(n, _ => Inode(seq(NDIRECT + 2, _ => 0), 0)), seq(size, _ => Zero()), seq(size, b => b < first), first, map[]);
  }

  /** Any sequence of operations on the blocks gives the answers that the same operations give on byte sequences, and every block
      in use belongs to exactly one place of one file. The run stops early exactly at the first operation after which the files
      would take more blocks, by their sizes, than the disk has. */
  method Run(f: FileSystem, ghost files: seq<seq<byte>>, ops: seq<Op>) returns (answers: seq<Answer>)
    requires f.Valid() && Tight(f.State()) && Abstracts(f.State(), files)
    requires forall i :: 0 <= i < |ops| ==> ops[i].Proper(|files|)
    modifies f
    ensures |answers| <= |ops|
    ensures forall i :: 0 <= i < |answers| ==> answers[i] == Answered(FilesAfter(files, ops[..i]), ops[i])
    ensures forall i :: 0 <= i < |answers| ==> !Overflows(Capacity(old(f.State())), FilesAfter(files, ops[..i]), ops[i])
    ensures |answers| < |ops| ==> Overflows(Capacity(old(f.State())), FilesAfter(files, ops[..|answers|]), ops[|answers|])
    ensures |answers| == |ops| ==> f.Valid() && Tight(f.State()) && Abstracts(f.State(), FilesAfter(files, ops))
  {
    hide Consistent, Abstracts, Short, FilesAfter, Answered, Effect, Tight, Overflows, Capacity;
    answers := [];
    ghost var capacity := Capacity(f.State());
    assert FilesAfter(files, ops[..0]) == files by { NoneAfter(files, ops); }
    while |answers| < |ops|
      invariant |answers| <= |ops| && f.Valid() && Tight(f.State()) && Capacity(f.State()) == capacity
      invariant Abstracts(f.State(), FilesAfter(files, ops[..|answers|]))
      invariant forall i :: 0 <= i < |answers| ==> answers[i] == Answered(FilesAfter(files, ops[..i]), ops[i])
      invariant forall i :: 0 <= i < |answers| ==> !Overflows(capacity, FilesAfter(files, ops[..i]), ops[i])
    {
      var k := |answers|;
      var ok, answer := Perform(f, ops[k], FilesAfter(files, ops[..k]));
      if !ok {
        return;
      }
      FilesNext(files, ops, k);
      answers := answers + [answer];
    }
    assert ops[..|ops|] == ops;
  }

  lemma NoneAfter(files: seq<seq<byte>>, ops: seq<Op>)
    ensures FilesAfter(files, ops[..0]) == files
  {
  }
}
