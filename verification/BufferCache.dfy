/** The buffer cache: block buffers in most-recently-used order over a disk that takes one block write at a time. */
module BufferCache {
  import opened Common

  /** What a block holds: data, or the header of the log with the numbers of the logged blocks. */
  datatype Content = Plain(bytes: seq<byte>) | Header(blocks: seq<int>)

  type Disk = seq<Content>

  /** `blockno` is -1 for a buffer that was never used. */
  datatype Buf = Buf(blockno: int, valid: bool, dirty: bool, refcnt: nat, data: Content)

  /** The position of block `b` in the cache, -1 if it is not cached. */
  function Find(bufs: seq<Buf>, b: int): (i: int)
    ensures -1 <= i < |bufs|
    ensures i >= 0 ==> bufs[i].blockno == b
    ensures i == -1 ==> forall j :: 0 <= j < |bufs| ==> bufs[j].blockno != b
  {
    if bufs == [] then -1
    else if bufs[0].blockno == b then 0
    else var i := Find(bufs[1..], b); if i < 0 then -1 else i + 1
  }

  /** No block is cached twice; a buffer that is not in use holds what the disk holds, or is marked dirty. */
  ghost predicate Coherent(disk: Disk, bufs: seq<Buf>) {
    && (forall i, j :: 0 <= i < j < |bufs| && bufs[i].blockno != -1 ==> bufs[i].blockno != bufs[j].blockno)
    && (forall i :: 0 <= i < |bufs| ==> -1 <= bufs[i].blockno < |disk|)
    && (forall i :: 0 <= i < |bufs| && (bufs[i].dirty || bufs[i].valid || bufs[i].refcnt > 0) ==> bufs[i].blockno != -1)
    && (forall i :: 0 <= i < |bufs| && bufs[i].dirty ==> bufs[i].valid)
    && (forall i :: 0 <= i < |bufs| && bufs[i].valid && !bufs[i].dirty && bufs[i].refcnt == 0
                    ==> bufs[i].data == disk[bufs[i].blockno])
  }

  /** Every held buffer but that of block `but` has been read in. */
  ghost predicate Loaded(bufs: seq<Buf>, but: int) {
    forall i :: 0 <= i < |bufs| && bufs[i].refcnt > 0 && bufs[i].blockno != but ==> bufs[i].valid
  }

  /** What a reader of block `b` would see. */
  function CurrentAt(disk: Disk, bufs: seq<Buf>, b: nat): Content
    requires b < |disk|
  {
    var i := Find(bufs, b);
    if i >= 0 && bufs[i].valid then bufs[i].data else disk[b]
  }

  function DirtyAt(bufs: seq<Buf>, b: nat): bool {
    var i := Find(bufs, b);
    i >= 0 && bufs[i].dirty
  }

  function RefsAt(bufs: seq<Buf>, b: nat): nat {
    var i := Find(bufs, b);
    if i >= 0 then bufs[i].refcnt else 0
  }

  /** The cache as its users see it, block by block. */
  datatype View = View(disk: Disk, cur: seq<Content>, dirty: seq<bool>, refs: seq<nat>) {
    ghost predicate Shaped() {
      |cur| == |dirty| == |refs| == |disk|
    }
  }

  function ViewOf(disk: Disk, bufs: seq<Buf>): (v: View)
    ensures v.Shaped() && v.disk == disk
  {
    View(disk,
         seq(|disk|, b requires 0 <= b < |disk| => CurrentAt(disk, bufs, b)),
         seq(|disk|, b requires 0 <= b < |disk| => DirtyAt(bufs, b)),
         seq(|disk|, b requires 0 <= b < |disk| => RefsAt(bufs, b)))
  }

  /** The blocks whose buffers cannot be given to another block. */
  function Busy(v: View): set<int>
    requires v.Shaped()
  {
    set b | 0 <= b < |v.disk| && (v.dirty[b] || v.refs[b] > 0)
  }

  /** In a cache of `n` buffers: is there one for block `b`? */
  predicate Room(v: View, n: nat, b: nat)
    requires v.Shaped()
  {
    b in Busy(v) || |Busy(v)| < n
  }

  predicate InUse(buf: Buf) {
    buf.refcnt > 0 || buf.dirty
  }

  function UsedNos(bufs: seq<Buf>): set<int> {
    set i | 0 <= i < |bufs| && InUse(bufs[i]) :: bufs[i].blockno
  }

  ghost predicate AllInUse(bufs: seq<Buf>) {
    forall i :: 0 <= i < |bufs| ==> InUse(bufs[i])
  }

  /** No block is there twice, and every buffer in use has one. */
  ghost predicate Numbered(bufs: seq<Buf>) {
    && (forall i, j :: 0 <= i < j < |bufs| && bufs[i].blockno != -1 ==> bufs[i].blockno != bufs[j].blockno)
    && (forall i :: 0 <= i < |bufs| && InUse(bufs[i]) ==> bufs[i].blockno != -1)
  }

  lemma {:induction false} UsedCount(bufs: seq<Buf>)
    requires Numbered(bufs)
    ensures |UsedNos(bufs)| <= |bufs|
    ensures |UsedNos(bufs)| == |bufs| <==> AllInUse(bufs)
  {
    hide AllInUse, UsedNos, InUse, Numbered;
    NoneUsed();
    if bufs != [] {
      UsedSplit(bufs);
      UsedCount(bufs[..|bufs| - 1]);
    }
  }

  lemma NoneUsed()
    ensures UsedNos([]) == {} && AllInUse([])
  {
  }

  lemma UsedSplit(bufs: seq<Buf>)
    requires bufs != [] && Numbered(bufs)
    ensures Numbered(bufs[..|bufs| - 1])
    ensures AllInUse(bufs) <==> AllInUse(bufs[..|bufs| - 1]) && InUse(bufs[|bufs| - 1])
    ensures var rest, last := bufs[..|bufs| - 1], bufs[|bufs| - 1];
            && UsedNos(bufs) == UsedNos(rest) + (if InUse(last) then {last.blockno} else {})
            && (InUse(last) ==> last.blockno !in UsedNos(rest))
  {
    hide InUse;
    var n := |bufs| - 1;
    assert forall i :: 0 <= i < n ==> bufs[..n][i] == bufs[i];
    forall x ensures x in UsedNos(bufs) <==> x in UsedNos(bufs[..n]) || (InUse(bufs[n]) && x == bufs[n].blockno) {
      if x in UsedNos(bufs) {
        var i :| 0 <= i < |bufs| && InUse(bufs[i]) && bufs[i].blockno == x;
        if i < n { assert bufs[..n][i] == bufs[i]; }
      }
      if x in UsedNos(bufs[..n]) {
        var i :| 0 <= i < n && InUse(bufs[..n][i]) && bufs[..n][i].blockno == x;
        assert bufs[i] == bufs[..n][i];
      }
    }
  }

  /** A block that is not cached finds a buffer exactly if not all buffers are busy. */
  lemma RoomIff(disk: Disk, bufs: seq<Buf>, b: nat)
    requires Coherent(disk, bufs) && b < |disk|
    ensures Room(ViewOf(disk, bufs), |bufs|, b) <==> !forall i :: 0 <= i < |bufs| ==> bufs[i].blockno != b && InUse(bufs[i])
  {
    var v := ViewOf(disk, bufs);
    UsedCount(bufs);
    forall x ensures x in Busy(v) <==> x in UsedNos(bufs) {
      if 0 <= x < |disk| && Find(bufs, x) >= 0 { assert bufs[Find(bufs, x)].blockno == x; }
      if x in UsedNos(bufs) {
        var i :| 0 <= i < |bufs| && InUse(bufs[i]) && bufs[i].blockno == x;
        FoundAt(disk, bufs, i);
      }
    }
    assert Busy(v) == UsedNos(bufs);
    if forall i :: 0 <= i < |bufs| ==> InUse(bufs[i]) {
      if i :| 0 <= i < |bufs| && bufs[i].blockno == b { assert b in UsedNos(bufs); }
    }
  }

  lemma FoundAt(disk: Disk, bufs: seq<Buf>, i: nat)
    requires Coherent(disk, bufs) && i < |bufs| && bufs[i].blockno != -1
    ensures Find(bufs, bufs[i].blockno) == i
  {
    var k := Find(bufs, bufs[i].blockno);
    assert k >= 0 && bufs[k].blockno == bufs[i].blockno;
  }

  /** Where block `b` is found when one buffer is replaced by another. */
  lemma FindReplaced(disk: Disk, bufs: seq<Buf>, i: nat, buf: Buf, b: nat)
    requires Coherent(disk, bufs) && i < |bufs| && Coherent(disk, bufs[i := buf])
    ensures Find(bufs[i := buf], b)
         == if buf.blockno == b then i else if bufs[i].blockno == b then -1 else Find(bufs, b)
  {
    var bufs' := bufs[i := buf];
    var k := Find(bufs, b);
    if buf.blockno == b {
      FoundAt(disk, bufs', i);
    } else if k >= 0 && k != i {
      assert bufs'[k] == bufs[k];
      FoundAt(disk, bufs', k);
    } else {
      forall j | 0 <= j < |bufs'|
        ensures bufs'[j].blockno != b
      {
        if j != i && k >= 0 {
          assert bufs[j].blockno != bufs[i].blockno;
        }
      }
    }
  }

  function Rest<T>(s: seq<T>, i: nat): seq<T>
    requires i < |s|
  {
    s[..i] + s[i + 1..]
  }

  /** The same buffers in another order hold the same. */
  lemma SameBuffers(disk: Disk, bufs: seq<Buf>, bufs': seq<Buf>)
    requires Coherent(disk, bufs) && Coherent(disk, bufs')
    requires forall k :: 0 <= k < |bufs| ==> bufs[k] in bufs'
    requires forall k :: 0 <= k < |bufs'| ==> bufs'[k] in bufs
    ensures ViewOf(disk, bufs) == ViewOf(disk, bufs')
  {
    hide Coherent;
    forall b: nat | b < |disk|
      ensures CurrentAt(disk, bufs', b) == CurrentAt(disk, bufs, b)
      ensures DirtyAt(bufs', b) == DirtyAt(bufs, b) && RefsAt(bufs', b) == RefsAt(bufs, b)
    {
      var k := Find(bufs, b);
      if k >= 0 {
        var k' :| 0 <= k' < |bufs'| && bufs'[k'] == bufs[k];
        FoundAt(disk, bufs', k');
      } else {
        assert forall j :: 0 <= j < |bufs'| ==> bufs'[j].blockno != b;
      }
    }
  }

  /** Where the buffer at position `k` came from when the one at `i` was moved to the front. */
  function Source(i: nat, k: nat): nat {
    if k == 0 then i else if k <= i then k - 1 else k
  }

  /** Moving a buffer to the front of the list does not change what the cache holds. */
  lemma MovedToFront(disk: Disk, bufs: seq<Buf>, i: nat)
    requires Coherent(disk, bufs) && i < |bufs|
    ensures Coherent(disk, [bufs[i]] + Rest(bufs, i))
    ensures ViewOf(disk, [bufs[i]] + Rest(bufs, i)) == ViewOf(disk, bufs)
  {
    hide ViewOf;
    var bufs' := [bufs[i]] + Rest(bufs, i);
    SourceOf(bufs, i);
    forall k: nat | k < |bufs|
      ensures bufs[k] in bufs'
    {
      assert bufs[k] == bufs'[if k == i then 0 else if k < i then k + 1 else k];
    }
    FrontCoherent(disk, bufs, i);
    hide Coherent;
    SameBuffers(disk, bufs, bufs');
  }

  lemma SourceOf(bufs: seq<Buf>, i: nat)
    requires i < |bufs|
    ensures var bufs' := [bufs[i]] + Rest(bufs, i);
            |bufs'| == |bufs| && forall k: nat :: k < |bufs| ==> Source(i, k) < |bufs| && bufs'[k] == bufs[Source(i, k)]
  {
  }

  lemma FrontCoherent(disk: Disk, bufs: seq<Buf>, i: nat)
    requires Coherent(disk, bufs) && i < |bufs|
    ensures Coherent(disk, [bufs[i]] + Rest(bufs, i))
  {
    var bufs' := [bufs[i]] + Rest(bufs, i);
    SourceOf(bufs, i);
    forall j: nat, k: nat | j < k < |bufs'| && bufs'[j].blockno != -1
      ensures bufs'[j].blockno != bufs'[k].blockno
    {
      assert Source(i, j) != Source(i, k);
    }
  }

  /** Block `b` is given the buffer at `i`: the one it has, or the least recently used one of those that are free. */
  ghost predicate GotAt(bufs: seq<Buf>, b: nat, i: nat, bufs': seq<Buf>) {
    && i < |bufs|
    && if bufs[i].blockno == b then bufs' == bufs[i := bufs[i].(refcnt := bufs[i].refcnt + 1)]
       else
         && (forall j :: 0 <= j < |bufs| ==> bufs[j].blockno != b)
         && !InUse(bufs[i]) && (forall j :: i < j < |bufs| ==> InUse(bufs[j]))
         && bufs' == bufs[i := Buf(b, false, false, 1, bufs[i].data)]
  }

  /** The buffer of block `b`, at `i`, has one holder less; when it was the last, the buffer is the most recently used. */
  ghost predicate ReleasedAt(bufs: seq<Buf>, b: nat, i: nat, bufs': seq<Buf>) {
    && i < |bufs| && bufs[i].blockno == b && bufs[i].refcnt > 0
    && var buf := bufs[i].(refcnt := bufs[i].refcnt - 1);
       bufs' == if buf.refcnt > 0 then bufs[i := buf] else [buf] + bufs[..i] + bufs[i + 1..]
  }

  class Cache {
    var disk: Disk
    var bufs: seq<Buf>     // most recently used first
    var images: seq<Disk>  // the disk after each block write: where a crash may leave it

    ghost predicate Valid()
      reads this
    {
      Coherent(disk, bufs) && Loaded(bufs, -1)
    }

    ghost function Sees(): View
      reads this
    {
      ViewOf(disk, bufs)
    }

    /** A cache of `nbuf` unused buffers over a disk. */
    constructor (disk: Disk, nbuf: nat)
      ensures Valid() && this.disk == disk && |bufs| == nbuf && images == []
      ensures Sees() == View(disk, disk, seq(|disk|, _ => false), seq(|disk|, _ => 0))
    {
      this.disk := disk;
      bufs := seq(nbuf, _ => Buf(-1, false, false, 0, Plain([])));
      images := [];
    }

    /** Finds the buffer of block `b` or recycles one that is neither in use nor dirty. Without such a
        buffer the kernel panics. */
    method Bget(b: nat) returns (ok: bool)
      requires Valid() && b < |disk|
      modifies this`bufs
      ensures Coherent(disk, bufs) && Loaded(bufs, b) && |bufs| == old(|bufs|)
      ensures !ok ==> bufs == old(bufs)
      ensures !ok <==> forall i :: 0 <= i < |old(bufs)| ==>
                         old(bufs)[i].blockno != b && InUse(old(bufs)[i])
      ensures ok ==> Find(bufs, b) >= 0 && Sees() == old(Sees()).(refs := old(Sees()).refs[b := old(Sees()).refs[b] + 1])
      ensures ok ==> exists i :: GotAt(old(bufs), b, i, bufs)
    {
      hide ViewOf, Coherent;
      ghost var was := bufs;
      LoadedBut(disk, bufs, b);
      var i := 0;
      while i < |bufs|
        invariant 0 <= i <= |bufs|
        invariant forall j :: 0 <= j < i ==> bufs[j].blockno != b
      {
        if bufs[i].blockno == b {
          RefsChanged(disk, bufs, i, b, bufs[i].refcnt + 1);
          bufs := bufs[i := bufs[i].(refcnt := bufs[i].refcnt + 1)];
          assert GotAt(was, b, i, bufs);
          return true;
        }
        i := i + 1;
      }
      while i > 0
        invariant 0 <= i <= |bufs|
        invariant forall j :: i <= j < |bufs| ==> bufs[j].refcnt > 0 || bufs[j].dirty
      {
        i := i - 1;
        if bufs[i].refcnt == 0 && !bufs[i].dirty {
          Recycled(disk, bufs, i, b);
          bufs := bufs[i := Buf(b, false, false, 1, bufs[i].data)];
          assert GotAt(was, b, i, bufs);
          return true;
        }
      }
      ok := false;
    }

    /** Returns block `b` in a buffer held by the caller. */
    method Bread(b: nat) returns (ok: bool)
      requires Valid() && b < |disk|
      modifies this`bufs
      ensures Valid() && |bufs| == old(|bufs|)
      ensures !ok ==> bufs == old(bufs)
      ensures ok <==> Room(old(Sees()), |bufs|, b)
      ensures ok ==> Sees() == old(Sees()).(refs := old(Sees()).refs[b := old(Sees()).refs[b] + 1])
    {
      RoomIff(disk, bufs, b);
      ok := Bget(b);
      if ok {
        var i := Find(bufs, b);
        if !bufs[i].valid {
          ReadIn(disk, bufs, i, b);
          bufs := bufs[i := bufs[i].(valid := true, data := disk[b])];
        }
        assert Loaded(bufs, -1);
      }
    }

    /** The contents of a held buffer. */
    method Data(b: nat) returns (c: Content)
      requires Valid() && b < |disk| && Sees().refs[b] > 0
      ensures c == Sees().cur[b]
    {
      c := bufs[Find(bufs, b)].data;
    }

    /** The holder changes the contents of the buffer of block `b`. */
    method SetData(b: nat, c: Content)
      requires Valid() && b < |disk| && Sees().refs[b] > 0
      modifies this`bufs
      ensures Valid() && |bufs| == old(|bufs|)
      ensures Sees() == old(Sees()).(cur := old(Sees()).cur[b := c])
    {
      var i := Find(bufs, b);
      Replaced(disk, bufs, i, bufs[i].(valid := true, data := c));
      bufs := bufs[i := bufs[i].(valid := true, data := c)];
    }

    /** Marks the buffer of block `b` as not to be recycled. */
    method SetDirty(b: nat)
      requires Valid() && b < |disk| && Sees().refs[b] > 0
      modifies this`bufs
      ensures Valid() && |bufs| == old(|bufs|)
      ensures Sees() == old(Sees()).(dirty := old(Sees()).dirty[b := true])
    {
      var i := Find(bufs, b);
      Replaced(disk, bufs, i, bufs[i].(dirty := true));
      bufs := bufs[i := bufs[i].(dirty := true)];
    }

    /** Writes the held buffer of block `b` to the disk: one block write. */
    method Bwrite(b: nat)
      requires Valid() && b < |disk| && Sees().refs[b] > 0
      modifies this
      ensures Valid() && |bufs| == old(|bufs|)
      ensures var c := old(Sees()).cur[b];
              Sees() == old(Sees()).(disk := old(disk)[b := c], dirty := old(Sees()).dirty[b := false])
      ensures images == old(images) + [disk]
    {
      var i := Find(bufs, b);
      Written(disk, bufs, i, b);
      disk := disk[b := bufs[i].data];
      bufs := bufs[i := bufs[i].(dirty := false)];
      images := images + [disk];
    }

    /** Releases a held buffer; an unchanged or a dirty one may become unused. */
    method Brelse(b: nat)
      requires Valid() && b < |disk| && Sees().refs[b] > 0
      requires Sees().dirty[b] || Sees().cur[b] == disk[b]
      modifies this`bufs
      ensures Valid() && |bufs| == old(|bufs|)
      ensures Sees() == old(Sees()).(refs := old(Sees()).refs[b := old(Sees()).refs[b] - 1])
      ensures exists i :: ReleasedAt(old(bufs), b, i, bufs)
    {
      hide Coherent, ViewOf;
      ghost var was := bufs;
      HeldFound(disk, bufs, b);
      var i := Find(bufs, b);
      var buf := bufs[i].(refcnt := bufs[i].refcnt - 1);
      RefsChanged(disk, bufs, i, b, buf.refcnt);
      bufs := bufs[i := buf];
      if buf.refcnt == 0 {
        MovedToFront(disk, bufs, i);
        bufs := [buf] + Rest(bufs, i);
      }
      assert ReleasedAt(was, b, i, bufs);
    }
  }

  /** One buffer of block `b` changes; every other block looks as before. */
  lemma Replaced(disk: Disk, bufs: seq<Buf>, i: nat, buf: Buf)
    requires Coherent(disk, bufs) && i < |bufs| && buf.blockno == bufs[i].blockno != -1
    requires buf.dirty ==> buf.valid
    requires buf.valid && !buf.dirty && buf.refcnt == 0 ==> buf.data == disk[buf.blockno]
    ensures Coherent(disk, bufs[i := buf])
    ensures var b := buf.blockno; var v := ViewOf(disk, bufs);
            ViewOf(disk, bufs[i := buf]) == View(disk, v.cur[b := if buf.valid then buf.data else disk[b]],
                                                 v.dirty[b := buf.dirty], v.refs[b := buf.refcnt])
    ensures Find(bufs[i := buf], buf.blockno) == i && Find(bufs, buf.blockno) == i
  {
    var bufs' := bufs[i := buf];
    assert Coherent(disk, bufs');
    FoundAt(disk, bufs, i);
    FoundAt(disk, bufs', i);
    hide Coherent, Find;
    forall b: nat | b < |disk| && b != buf.blockno
      ensures CurrentAt(disk, bufs', b) == CurrentAt(disk, bufs, b)
      ensures DirtyAt(bufs', b) == DirtyAt(bufs, b) && RefsAt(bufs', b) == RefsAt(bufs, b)
    {
      FindReplaced(disk, bufs, i, buf, b);
    }
  }

  /** A clean buffer that nobody uses can be given to another block: its own block is on the disk as it was. */
  lemma Recycled(disk: Disk, bufs: seq<Buf>, i: nat, b: nat)
    requires Coherent(disk, bufs) && i < |bufs| && b < |disk| && Find(bufs, b) == -1
    requires bufs[i].refcnt == 0 && !bufs[i].dirty
    ensures var bufs' := bufs[i := Buf(b, false, false, 1, bufs[i].data)];
            Coherent(disk, bufs') && Find(bufs', b) == i
            && ViewOf(disk, bufs') == ViewOf(disk, bufs).(refs := ViewOf(disk, bufs).refs[b := 1])
    ensures ViewOf(disk, bufs).refs[b] == 0
  {
    var buf := Buf(b, false, false, 1, bufs[i].data);
    var bufs' := bufs[i := buf];
    RecycledCoherent(disk, bufs, i, b);
    if bufs[i].blockno != -1 {
      FoundAt(disk, bufs, i);
    }
    hide Coherent, Find;
    forall x: nat | x < |disk|
      ensures Find(bufs', x) == if x == b then i else if bufs[i].blockno == x then -1 else Find(bufs, x)
      ensures CurrentAt(disk, bufs', x) == CurrentAt(disk, bufs, x)
      ensures DirtyAt(bufs', x) == DirtyAt(bufs, x) && RefsAt(bufs', x) == if x == b then 1 else RefsAt(bufs, x)
    {
      FindReplaced(disk, bufs, i, buf, x);
    }
  }

  lemma RecycledCoherent(disk: Disk, bufs: seq<Buf>, i: nat, b: nat)
    requires Coherent(disk, bufs) && i < |bufs| && b < |disk| && Find(bufs, b) == -1
    ensures Coherent(disk, bufs[i := Buf(b, false, false, 1, bufs[i].data)])
  {
    hide Find;
    assert forall j :: 0 <= j < |bufs| ==> bufs[j].blockno != b;
  }

  /** Holding or releasing a buffer changes its reference count only. */
  lemma RefsChanged(disk: Disk, bufs: seq<Buf>, i: nat, b: nat, r: nat)
    requires Coherent(disk, bufs) && i < |bufs| && b < |disk| && bufs[i].blockno == b
    requires r == 0 && bufs[i].valid && !bufs[i].dirty ==> bufs[i].data == disk[b]
    ensures var bufs', v := bufs[i := bufs[i].(refcnt := r)], ViewOf(disk, bufs);
            Coherent(disk, bufs') && ViewOf(disk, bufs') == v.(refs := v.refs[b := r]) && v.refs[b] == bufs[i].refcnt
    ensures Find(bufs[i := bufs[i].(refcnt := r)], b) == i
  {
    hide Coherent, Find, CurrentAt, DirtyAt, RefsAt;
    var v := ViewOf(disk, bufs);
    Held(disk, bufs, i, b);
    Replaced(disk, bufs, i, bufs[i].(refcnt := r));
    assert v.cur[b := v.cur[b]] == v.cur && v.dirty[b := v.dirty[b]] == v.dirty;
  }

  lemma LoadedBut(disk: Disk, bufs: seq<Buf>, b: int)
    requires Coherent(disk, bufs) && Loaded(bufs, -1)
    ensures Loaded(bufs, b)
  {
  }

  lemma ReadIn(disk: Disk, bufs: seq<Buf>, i: nat, b: nat)
    requires Coherent(disk, bufs) && i < |bufs| && b < |disk| && bufs[i].blockno == b && !bufs[i].valid
    ensures var bufs' := bufs[i := bufs[i].(valid := true, data := disk[b])];
            Coherent(disk, bufs') && ViewOf(disk, bufs') == ViewOf(disk, bufs)
  {
    hide Coherent, Find, CurrentAt, DirtyAt, RefsAt;
    var v := ViewOf(disk, bufs);
    Held(disk, bufs, i, b);
    Replaced(disk, bufs, i, bufs[i].(valid := true, data := disk[b]));
    assert v.cur[b := v.cur[b]] == v.cur && v.dirty[b := v.dirty[b]] == v.dirty && v.refs[b := v.refs[b]] == v.refs;
  }

  lemma Held(disk: Disk, bufs: seq<Buf>, i: nat, b: nat)
    requires Coherent(disk, bufs) && i < |bufs| && b < |disk| && bufs[i].blockno == b
    ensures Find(bufs, b) == i && bufs[i].dirty == DirtyAt(bufs, b) && bufs[i].refcnt == RefsAt(bufs, b)
    ensures CurrentAt(disk, bufs, b) == if bufs[i].valid then bufs[i].data else disk[b]
    ensures bufs[i].dirty ==> bufs[i].valid
  {
    FoundAt(disk, bufs, i);
  }

  lemma HeldFound(disk: Disk, bufs: seq<Buf>, b: nat)
    requires Coherent(disk, bufs) && b < |disk| && ViewOf(disk, bufs).refs[b] > 0
    ensures var i, v := Find(bufs, b), ViewOf(disk, bufs);
            && 0 <= i < |bufs| && bufs[i].blockno == b && bufs[i].refcnt == v.refs[b] && bufs[i].dirty == v.dirty[b]
            && (bufs[i].valid ==> bufs[i].data == v.cur[b]) && (bufs[i].dirty ==> bufs[i].valid)
  {
  }

  lemma Written(disk: Disk, bufs: seq<Buf>, i: nat, b: nat)
    requires Coherent(disk, bufs) && i < |bufs| && b < |disk| && bufs[i].blockno == b && bufs[i].valid
    ensures var disk', bufs', v := disk[b := bufs[i].data], bufs[i := bufs[i].(dirty := false)], ViewOf(disk, bufs);
            Coherent(disk', bufs') && ViewOf(disk', bufs') == v.(disk := disk', dirty := v.dirty[b := false])
    ensures CurrentAt(disk, bufs, b) == bufs[i].data
  {
    var disk' := disk[b := bufs[i].data];
    FoundAt(disk, bufs, i);
    assert Coherent(disk', bufs);
    assert ViewOf(disk', bufs).cur == ViewOf(disk, bufs).cur;
    assert ViewOf(disk', bufs).dirty == ViewOf(disk, bufs).dirty;
    assert ViewOf(disk', bufs).refs == ViewOf(disk, bufs).refs;
    Replaced(disk', bufs, i, bufs[i].(dirty := false));
    assert ViewOf(disk', bufs).cur[b] == bufs[i].data;
    assert ViewOf(disk, bufs).refs[b := bufs[i].refcnt] == ViewOf(disk, bufs).refs;
  }
}
