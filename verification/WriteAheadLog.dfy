/** The redo log over the buffer cache: group commit, and recovery after a crash at any block write. */
module WriteAheadLog {
  import opened Common
  import opened BufferCache

  const MAXOPBLOCKS := 10
  const LOGSIZE := 30

  /** The log takes `size` blocks from `start` on: a header and the logged blocks. */
  datatype Layout = Layout(start: nat, size: nat) {
    predicate Fits(n: nat) {
      size >= 1 && start + size <= n
    }

    predicate InLog(b: int) {
      start <= b < start + size
    }

    /** Block numbers that the log may hold: distinct, outside the log, and no more than there is room for. */
    ghost predicate Loggable(blocks: seq<int>, n: nat) {
      && |blocks| <= size - 1
      && (forall t :: 0 <= t < |blocks| ==> 0 <= blocks[t] < n && !InLog(blocks[t]))
      && (forall s, t :: 0 <= s < t < |blocks| ==> blocks[s] != blocks[t])
    }
  }

  function Index(blocks: seq<int>, b: int): (t: nat)
    requires b in blocks
    ensures t < |blocks| && blocks[t] == b
  {
    if blocks[0] == b then 0 else 1 + Index(blocks[1..], b)
  }

  lemma IndexUnique(g: Layout, blocks: seq<int>, n: nat, t: nat)
    requires g.Loggable(blocks, n) && t < |blocks|
    ensures Index(blocks, blocks[t]) == t
  {
    var k := Index(blocks, blocks[t]);
    assert blocks[k] == blocks[t];
  }

  lemma IndexBelow(g: Layout, blocks: seq<int>, n: nat, k: nat, b: int)
    requires g.Loggable(blocks, n) && 0 < k <= |blocks| && g.Fits(n)
    ensures 0 <= blocks[k - 1] < n && !g.InLog(blocks[k - 1]) && g.start + k < n && Index(blocks, blocks[k - 1]) == k - 1
    ensures b in blocks && Index(blocks, b) < k <==> b == blocks[k - 1] || (b in blocks && Index(blocks, b) < k - 1)
    ensures !(g.start + k in blocks)
  {
    IndexUnique(g, blocks, n, k - 1);
  }

  ghost predicate GoodHeader(g: Layout, d: Disk) {
    g.Fits(|d|) && d[g.start].Header? && g.Loggable(d[g.start].blocks, |d|)
  }

  /** What block `b` will hold once the log has been recovered. */
  function RecoveredAt(g: Layout, d: Disk, b: nat): Content
    requires GoodHeader(g, d) && b < |d|
  {
    var blocks := d[g.start].blocks;
    if b in blocks then d[g.start + 1 + Index(blocks, b)] else d[b]
  }

  /** Recovery of disk `d` yields the blocks of `want`, the log area apart. */
  ghost predicate Recovers(g: Layout, d: Disk, want: Disk) {
    && GoodHeader(g, d) && |want| == |d|
    && forall b: nat :: b < |d| && !g.InLog(b) ==> RecoveredAt(g, d, b) == want[b]
  }

  // ----- the two copying loops, on views -----

  /** After the first `k` changed blocks have been copied to the log. */
  function LoggedTo(g: Layout, v: View, blocks: seq<int>, k: nat): (v': View)
    requires v.Shaped() && g.Fits(|v.disk|) && g.Loggable(blocks, |v.disk|) && k <= |blocks|
    ensures v'.Shaped() && |v'.disk| == |v.disk| && v'.refs == v.refs
  {
    if k == 0 then v else
    var u := LoggedTo(g, v, blocks, k - 1);
    Copied(u, blocks[k - 1], g.start + k)
  }

  /** After the first `k` logged blocks have been installed. */
  function InstalledTo(g: Layout, v: View, blocks: seq<int>, k: nat): (v': View)
    requires v.Shaped() && g.Fits(|v.disk|) && g.Loggable(blocks, |v.disk|) && k <= |blocks|
    ensures v'.Shaped() && |v'.disk| == |v.disk| && v'.refs == v.refs
  {
    if k == 0 then v else
    var u := InstalledTo(g, v, blocks, k - 1);
    Copied(u, g.start + k, blocks[k - 1])
  }

  /** Block `from` has been copied to block `to` and written. */
  function Copied(v: View, from: nat, to: nat): (v': View)
    requires v.Shaped() && from < |v.disk| && to < |v.disk|
    ensures v'.Shaped() && |v'.disk| == |v.disk| && v'.refs == v.refs
  {
    View(v.disk[to := v.cur[from]], v.cur[to := v.cur[from]], v.dirty[to := false], v.refs)
  }

  function HeadWritten(g: Layout, v: View, blocks: seq<int>): (v': View)
    requires v.Shaped() && g.Fits(|v.disk|)
    ensures v'.Shaped() && |v'.disk| == |v.disk| && v'.refs == v.refs
  {
    View(v.disk[g.start := Header(blocks)], v.cur[g.start := Header(blocks)], v.dirty[g.start := false], v.refs)
  }

  /** The log area in the cache is what is on the disk. */
  ghost predicate LogSynced(g: Layout, v: View)
    requires v.Shaped()
  {
    forall b :: 0 <= b < |v.disk| && g.InLog(b) ==> v.cur[b] == v.disk[b] && !v.dirty[b]
  }

  /** Between commits: the header is empty and the dirty buffers are exactly the blocks to be logged. */
  ghost predicate Quiet(g: Layout, v: View, blocks: seq<int>) {
    && v.Shaped() && g.Fits(|v.disk|) && g.Loggable(blocks, |v.disk|)
    && v.disk[g.start] == Header([])
    && (forall b :: 0 <= b < |v.disk| ==> (v.dirty[b] <==> b in blocks))
    && (forall b :: 0 <= b < |v.disk| && !v.dirty[b] ==> v.cur[b] == v.disk[b])
    && (forall b :: 0 <= b < |v.disk| ==> v.refs[b] == 0)
  }

  /** Copying to the log changes log blocks only, and puts each changed block into its place. */
  lemma {:induction false} LoggedAt(g: Layout, v: View, blocks: seq<int>, k: nat, b: nat)
    requires v.Shaped() && g.Fits(|v.disk|) && g.Loggable(blocks, |v.disk|) && k <= |blocks| && b < |v.disk|
    ensures var u := LoggedTo(g, v, blocks, k);
            if g.start < b <= g.start + k then u.disk[b] == u.cur[b] == v.cur[blocks[b - g.start - 1]] && !u.dirty[b]
            else u.disk[b] == v.disk[b] && u.cur[b] == v.cur[b] && u.dirty[b] == v.dirty[b]
    decreases k
  {
    if k > 0 {
      LoggedAt(g, v, blocks, k - 1, b);
      LoggedAt(g, v, blocks, k - 1, blocks[k - 1]);
    }
  }

  /** Installing changes the logged blocks only, and gives each what the log holds for it. */
  lemma {:induction false} InstalledAt(g: Layout, v: View, blocks: seq<int>, k: nat, b: nat)
    requires v.Shaped() && g.Fits(|v.disk|) && g.Loggable(blocks, |v.disk|) && k <= |blocks| && b < |v.disk|
    requires LogSynced(g, v)
    ensures var u := InstalledTo(g, v, blocks, k);
            if b in blocks && Index(blocks, b) < k
            then u.disk[b] == u.cur[b] == v.disk[g.start + 1 + Index(blocks, b)] && !u.dirty[b]
            else u.disk[b] == v.disk[b] && u.cur[b] == v.cur[b] && u.dirty[b] == v.dirty[b]
    decreases k
  {
    if k > 0 {
      InstalledAt(g, v, blocks, k - 1, b);
      InstalledAt(g, v, blocks, k - 1, g.start + k);
      IndexBelow(g, blocks, |v.disk|, k, b);
      hide Index, Layout.Loggable;
    }
  }

  /** With an empty header the disk recovers to itself. */
  lemma EmptyHeader(g: Layout, d: Disk, want: Disk)
    requires g.Fits(|d|) && d[g.start] == Header([]) && |want| == |d|
    requires forall b :: 0 <= b < |d| && !g.InLog(b) ==> d[b] == want[b]
    ensures Recovers(g, d, want)
  {
  }

  /** The header lists these blocks, the log area is in step, nothing is held, and the disk recovers to `want`. */
  ghost predicate Installable(g: Layout, v: View, blocks: seq<int>, want: Disk) {
    && v.Shaped() && g.Fits(|v.disk|) && v.disk[g.start] == Header(blocks) && LogSynced(g, v) && BusyAs(v, blocks)
    && (forall b :: 0 <= b < |v.disk| ==> v.refs[b] == 0)
    && Recovers(g, v.disk, want)
  }

  lemma InstalledStart(g: Layout, v: View, blocks: seq<int>, want: Disk)
    requires Installable(g, v, blocks, want)
    ensures v.Shaped() && g.Fits(|v.disk|) && g.Loggable(blocks, |v.disk|)
    ensures InstalledTo(g, v, blocks, 0) == v && (blocks == [] ==> InstallNeeds(v, blocks) == 0)
  {
  }

  /** Everything that one step of the installation relies on. */
  lemma InstallStep(g: Layout, v: View, blocks: seq<int>, k: nat, n: nat, want: Disk)
    requires Installable(g, v, blocks, want) && k < |blocks|
    ensures v.Shaped() && g.Fits(|v.disk|) && g.Loggable(blocks, |v.disk|)
    ensures 0 <= blocks[k] < |v.disk| && g.start + k + 1 < |v.disk| && blocks[k] != g.start + k + 1
    ensures var u, from := InstalledTo(g, v, blocks, k), g.start + k + 1;
            && u.cur[from] == u.disk[from]
            && InstalledTo(g, v, blocks, k + 1) == Copied(u, from, blocks[k]) && Recovers(g, Copied(u, from, blocks[k]).disk, want)
            && (n >= InstallNeeds(v, blocks) ==> CanCopy(u, n, from, blocks[k]))
            && (k == 0 && CanCopy(u, n, from, blocks[k]) ==> n >= InstallNeeds(v, blocks))
  {
    InstalledNext(g, v, blocks, k);
    LogSlot(g, blocks, |v.disk|, k);
    hide InstalledTo, Copied, CanCopy, BusyAs, InstallNeeds, Layout.Loggable, LogSynced;
    InstallKeeps(g, v, blocks, k + 1, want);
    InstallReadsSynced(g, v, blocks, k);
    CanInstall(g, v, blocks, k, n);
  }

  lemma InstalledNext(g: Layout, v: View, blocks: seq<int>, k: nat)
    requires v.Shaped() && g.Fits(|v.disk|) && g.Loggable(blocks, |v.disk|) && k < |blocks|
    ensures 0 <= blocks[k] < |v.disk| && g.start + k + 1 < |v.disk|
    ensures InstalledTo(g, v, blocks, k + 1) == Copied(InstalledTo(g, v, blocks, k), g.start + k + 1, blocks[k])
  {
  }

  /** Blocks to be logged, over a disk that holds `want`. */
  ghost predicate Pending(g: Layout, v: View, blocks: seq<int>, want: Disk) {
    && Quiet(g, v, blocks) && |want| == |v.disk|
    && forall b :: 0 <= b < |v.disk| && !g.InLog(b) ==> v.disk[b] == want[b]
  }

  /** Everything that one step of the copying to the log relies on. */
  lemma LogStep(g: Layout, v: View, blocks: seq<int>, k: nat, n: nat, want: Disk)
    requires Pending(g, v, blocks, want) && k < |blocks|
    ensures v.Shaped() && g.Fits(|v.disk|) && g.Loggable(blocks, |v.disk|)
    ensures 0 <= blocks[k] < |v.disk| && g.start + k + 1 < |v.disk| && blocks[k] != g.start + k + 1
    ensures var u, to := LoggedTo(g, v, blocks, k), g.start + k + 1;
            && u.dirty[blocks[k]]
            && LoggedTo(g, v, blocks, k + 1) == Copied(u, blocks[k], to) && Recovers(g, Copied(u, blocks[k], to).disk, want)
            && (CanCopy(u, n, blocks[k], to) <==> |blocks| < n)
  {
    hide LoggedTo, Copied, CanCopy, Recovers, Quiet, Layout.Loggable;
    LoggedStart(g, v, blocks, want);
    LogSlot(g, blocks, |v.disk|, k);
    LoggedNext(g, v, blocks, k);
    LoggingKeeps(g, v, blocks, k + 1, want);
    StillDirty(g, v, blocks, k);
    CanLog(g, v, blocks, k, n);
  }

  lemma LoggedNext(g: Layout, v: View, blocks: seq<int>, k: nat)
    requires v.Shaped() && g.Fits(|v.disk|) && g.Loggable(blocks, |v.disk|) && k < |blocks|
    ensures 0 <= blocks[k] < |v.disk| && g.start + k + 1 < |v.disk|
    ensures LoggedTo(g, v, blocks, k + 1) == Copied(LoggedTo(g, v, blocks, k), blocks[k], g.start + k + 1)
  {
  }

  lemma LoggedStart(g: Layout, v: View, blocks: seq<int>, want: Disk)
    requires Pending(g, v, blocks, want)
    ensures v.Shaped() && g.Fits(|v.disk|) && g.Loggable(blocks, |v.disk|)
    ensures LoggedTo(g, v, blocks, 0) == v
  {
  }

  lemma InstallReadsSynced(g: Layout, v: View, blocks: seq<int>, k: nat)
    requires v.Shaped() && g.Fits(|v.disk|) && g.Loggable(blocks, |v.disk|) && LogSynced(g, v) && k < |blocks|
    ensures var u, b := InstalledTo(g, v, blocks, k), g.start + k + 1; u.cur[b] == u.disk[b]
  {
    InstalledAt(g, v, blocks, k, g.start + k + 1);
  }

  /** While blocks are copied to the log the disk still recovers to what it held. */
  lemma LoggingKeeps(g: Layout, v: View, blocks: seq<int>, k: nat, want: Disk)
    requires Quiet(g, v, blocks) && k <= |blocks| && |want| == |v.disk|
    requires forall b :: 0 <= b < |v.disk| && !g.InLog(b) ==> v.disk[b] == want[b]
    ensures Recovers(g, LoggedTo(g, v, blocks, k).disk, want)
  {
    hide LoggedTo;
    var d := LoggedTo(g, v, blocks, k).disk;
    LoggedAt(g, v, blocks, k, g.start);
    forall b: nat | b < |d| && !g.InLog(b)
      ensures d[b] == want[b]
    {
      LoggedAt(g, v, blocks, k, b);
    }
    EmptyHeader(g, d, want);
  }

  /** The header write is the commit point: from then on recovery yields the new contents. */
  lemma CommitPoint(g: Layout, v: View, blocks: seq<int>)
    requires Quiet(g, v, blocks)
    ensures Recovers(g, HeadWritten(g, LoggedTo(g, v, blocks, |blocks|), blocks).disk, v.cur)
  {
    hide LoggedTo;
    var d := HeadWritten(g, LoggedTo(g, v, blocks, |blocks|), blocks).disk;
    assert GoodHeader(g, d);
    forall b: nat | b < |d| && !g.InLog(b)
      ensures RecoveredAt(g, d, b) == v.cur[b]
    {
      LoggedAt(g, v, blocks, |blocks|, b);
      if b in blocks {
        LoggedAt(g, v, blocks, |blocks|, g.start + 1 + Index(blocks, b));
      }
    }
  }

  /** Installing some of the logged blocks does not change what the disk recovers to. */
  lemma InstallKeeps(g: Layout, v: View, blocks: seq<int>, k: nat, want: Disk)
    requires v.Shaped() && g.Fits(|v.disk|) && k <= |blocks| && v.disk[g.start] == Header(blocks) && LogSynced(g, v)
    requires Recovers(g, v.disk, want)
    ensures Recovers(g, InstalledTo(g, v, blocks, k).disk, want)
  {
    hide InstalledTo;
    var d := InstalledTo(g, v, blocks, k).disk;
    InstalledAt(g, v, blocks, k, g.start);
    assert GoodHeader(g, d);
    forall b: nat | b < |d| && !g.InLog(b)
      ensures RecoveredAt(g, d, b) == want[b]
    {
      assert RecoveredAt(g, v.disk, b) == want[b];
      InstalledAt(g, v, blocks, k, b);
      if b in blocks {
        InstalledAt(g, v, blocks, k, g.start + 1 + Index(blocks, b));
      }
    }
  }

  /** Once all logged blocks are installed, erasing the header leaves every block where it recovers to. */
  lemma InstallCompletes(g: Layout, v: View, blocks: seq<int>, want: Disk)
    requires v.Shaped() && g.Fits(|v.disk|) && v.disk[g.start] == Header(blocks) && LogSynced(g, v)
    requires Recovers(g, v.disk, want)
    requires forall b :: 0 <= b < |v.disk| && b !in blocks ==> v.cur[b] == v.disk[b] && !v.dirty[b]
    requires forall b :: 0 <= b < |v.disk| ==> v.refs[b] == 0
    ensures var u := HeadWritten(g, InstalledTo(g, v, blocks, |blocks|), []);
            Quiet(g, u, []) && Recovers(g, u.disk, want)
            && forall b :: 0 <= b < |u.disk| && !g.InLog(b) ==> u.disk[b] == want[b]
  {
    hide InstalledTo;
    var w := InstalledTo(g, v, blocks, |blocks|);
    forall b: nat | b < |v.disk|
      ensures w.cur[b] == w.disk[b] && !w.dirty[b] && (!g.InLog(b) ==> w.disk[b] == want[b])
    {
      InstalledAt(g, v, blocks, |blocks|, b);
      if !g.InLog(b) {
        assert RecoveredAt(g, v.disk, b) == want[b];
      }
    }
    HeadErased(g, w, want);
  }

  lemma HeadErased(g: Layout, w: View, want: Disk)
    requires w.Shaped() && g.Fits(|w.disk|) && |want| == |w.disk|
    requires forall b :: 0 <= b < |w.disk| ==> w.cur[b] == w.disk[b] && !w.dirty[b]
    requires forall b :: 0 <= b < |w.disk| && !g.InLog(b) ==> w.disk[b] == want[b]
    requires forall b :: 0 <= b < |w.disk| ==> w.refs[b] == 0
    ensures var u := HeadWritten(g, w, []);
            Quiet(g, u, []) && Recovers(g, u.disk, want)
            && forall b :: 0 <= b < |u.disk| && !g.InLog(b) ==> u.disk[b] == want[b]
  {
    EmptyHeader(g, HeadWritten(g, w, []).disk, want);
  }

  // ----- is there a buffer to spare? -----

  function Nos(blocks: seq<int>): set<int> {
    set t | 0 <= t < |blocks| :: blocks[t]
  }

  lemma {:induction false} NosCount(blocks: seq<int>)
    requires forall s, t :: 0 <= s < t < |blocks| ==> blocks[s] != blocks[t]
    ensures |Nos(blocks)| == |blocks|
  {
    if blocks != [] {
      var n := |blocks| - 1;
      NosCount(blocks[..n]);
      assert Nos(blocks) == Nos(blocks[..n]) + {blocks[n]};
    }
  }

  /** Between commits the busy blocks are exactly those to be logged. */
  lemma QuietBusy(g: Layout, v: View, blocks: seq<int>)
    requires Quiet(g, v, blocks)
    ensures v.Shaped() && Busy(v) == Nos(blocks) && |Busy(v)| == |blocks|
  {
    NosCount(blocks);
  }

  lemma QuietRoom(g: Layout, v: View, blocks: seq<int>, b: nat, n: nat)
    requires Quiet(g, v, blocks)
    ensures v.Shaped() && (Room(v, n, b) <==> b in blocks || |blocks| < n)
  {
    QuietBusy(g, v, blocks);
  }

  function Holding(v: View, b: nat): (v': View)
    requires v.Shaped() && b < |v.disk|
    ensures v'.Shaped()
  {
    v.(refs := v.refs[b := v.refs[b] + 1])
  }

  lemma HoldingBusy(v: View, b: nat)
    requires v.Shaped() && b < |v.disk|
    ensures Busy(Holding(v, b)) == Busy(v) + {b}
  {
  }

  /** In a cache of `n` buffers there is one for `to` and then one for `from`. */
  predicate CanCopy(v: View, n: nat, from: nat, to: nat)
    requires v.Shaped() && from < |v.disk| && to < |v.disk|
  {
    Room(v, n, to) && Room(Holding(v, to), n, from)
  }

  /** Copying to the log: every step finds its buffers exactly if there is one more than there are blocks to be logged. */
  lemma CanLog(g: Layout, v: View, blocks: seq<int>, k: nat, n: nat)
    requires Quiet(g, v, blocks) && k <= |blocks|
    ensures var u := LoggedTo(g, v, blocks, k); u.Shaped() && Busy(u) == Nos(blocks) && |Busy(u)| == |blocks|
    ensures Room(LoggedTo(g, v, blocks, k), n, g.start) <==> |blocks| < n
    ensures k < |blocks| ==> 0 <= blocks[k] < |v.disk| && g.start + k + 1 < |v.disk|
                             && (CanCopy(LoggedTo(g, v, blocks, k), n, blocks[k], g.start + k + 1) <==> |blocks| < n)
  {
    hide LoggedTo;
    var u := LoggedTo(g, v, blocks, k);
    forall b | 0 <= b < |v.disk| ensures u.dirty[b] == v.dirty[b] {
      LoggedAt(g, v, blocks, k, b);
    }
    NosCount(blocks);
    assert Busy(u) == Nos(blocks);
    if k < |blocks| { HoldingBusy(u, g.start + k + 1); }
  }

  /** Before the installation nothing is busy, as at boot, or exactly the logged blocks are, as in a commit. */
  ghost predicate BusyAs(v: View, blocks: seq<int>) {
    v.Shaped() && (Busy(v) == {} || Busy(v) == Nos(blocks))
  }

  /** The buffers that an installation takes. */
  function InstallNeeds(v: View, blocks: seq<int>): nat
    requires v.Shaped()
  {
    if blocks == [] then 0 else if Busy(v) == {} then 2 else |blocks| + 1
  }

  lemma InstalledBusy(g: Layout, v: View, blocks: seq<int>, k: nat)
    requires v.Shaped() && g.Fits(|v.disk|) && g.Loggable(blocks, |v.disk|) && k <= |blocks| && LogSynced(g, v)
    requires BusyAs(v, blocks) && forall b :: 0 <= b < |v.disk| ==> v.refs[b] == 0
    ensures var u := InstalledTo(g, v, blocks, k); u.Shaped() && Busy(u) == if Busy(v) == {} then {} else Nos(blocks[k..])
  {
    hide InstalledTo;
    var u := InstalledTo(g, v, blocks, k);
    forall b | 0 <= b < |v.disk|
      ensures u.dirty[b] <==> v.dirty[b] && !(b in blocks && Index(blocks, b) < k)
      ensures v.dirty[b] <==> b in Busy(v)
      ensures b in Nos(blocks[k..]) <==> b in blocks && Index(blocks, b) >= k
    {
      InstalledAt(g, v, blocks, k, b);
      if b in blocks { assert blocks[Index(blocks, b)] == b; }
      if b in Nos(blocks[k..]) {
        var t :| 0 <= t < |blocks[k..]| && blocks[k..][t] == b;
        IndexUnique(g, blocks, |v.disk|, k + t);
      }
      if b in blocks && Index(blocks, b) >= k { assert blocks[k..][Index(blocks, b) - k] == b; }
    }
  }

  /** Installing: the first step finds its buffers exactly if there are as many as needed, and then all steps do. */
  lemma CanInstall(g: Layout, v: View, blocks: seq<int>, k: nat, n: nat)
    requires v.Shaped() && g.Fits(|v.disk|) && g.Loggable(blocks, |v.disk|) && k < |blocks| && LogSynced(g, v)
    requires BusyAs(v, blocks) && forall b :: 0 <= b < |v.disk| ==> v.refs[b] == 0
    ensures 0 <= blocks[k] < |v.disk| && g.start + k + 1 < |v.disk|
    ensures var can := CanCopy(InstalledTo(g, v, blocks, k), n, g.start + k + 1, blocks[k]);
            (n >= InstallNeeds(v, blocks) ==> can) && (k == 0 ==> (can <==> n >= InstallNeeds(v, blocks)))
  {
    InstalledBusy(g, v, blocks, k);
    hide InstalledTo, Busy, LogSynced, BusyAs;
    var u := InstalledTo(g, v, blocks, k);
    NosCount(blocks);
    NosCount(blocks[k..]);
    HoldingBusy(u, blocks[k]);
    assert blocks[k..][0] == blocks[k];
    if Busy(v) == {} {
      assert |Busy(u) + {blocks[k]}| == 1;
    } else {
      assert Busy(u) + {blocks[k]} == Busy(u);
    }
  }

  // ----- the log itself -----

  /** The disk images written so far, the number of commits each of them recovers to, and the states committed. */
  datatype Trail = Trail(images: seq<Disk>, groups: seq<nat>, history: seq<Disk>)

  ghost predicate Extends(a: Trail, b: Trail) {
    && a.images <= b.images && a.groups <= b.groups && a.history <= b.history
    && forall i :: |a.groups| <= i < |b.groups| ==> b.groups[i] >= |a.history| - 1
  }

  /** Of the disk images added, the first `n` recover to the state committed last, and the others, at least one, to the next. */
  ghost predicate Marks(a: Trail, b: Trail, n: nat) {
    && |b.history| == |a.history| + 1 && |b.groups| > |a.groups| + n
    && forall i :: |a.groups| <= i < |b.groups| ==> b.groups[i] == if i < |a.groups| + n then |a.history| - 1 else |a.history|
  }

  lemma ExtendsItself(a: Trail)
    requires |a.groups| == |a.images|
    ensures Extends(a, a)
  {
  }

  lemma ExtendsByOne(a: Trail, d: Disk)
    requires |a.groups| == |a.images| && |a.history| > 0
    ensures Extends(a, Trail(a.images + [d], a.groups + [|a.history| - 1], a.history))
  {
  }

  /** The log is written, then the header, then the rest of a commit. */
  lemma MarksSet(a: Trail, b: Trail, c: Trail, d: Trail, n: nat)
    requires Extends(a, b) && Extends(c, d) && |a.history| > 0
    requires b.history == a.history && |b.groups| == |a.groups| + n && forall i :: 0 <= i < |b.groups| ==> b.groups[i] < |b.history|
    requires c.groups == b.groups + [|c.history| - 1] && |c.history| == |a.history| + 1
    requires d.history == c.history && forall i :: 0 <= i < |d.groups| ==> d.groups[i] < |d.history|
    ensures Marks(a, d, n)
  {
  }

  lemma ExtendsTransitive(a: Trail, b: Trail, c: Trail)
    requires Extends(a, b) && Extends(b, c)
    ensures Extends(a, c)
  {
  }

  class Log {
    const g: Layout
    const cache: Cache
    var lh: seq<int>             // blocks to be logged at the next commit
    var outstanding: int
    var committing: bool
    ghost var history: seq<Disk> // what was on the disk at first, and after each commit since
    ghost var groups: seq<nat>   // for each disk image written: how many commits it recovers to

    /** Whatever block write was the last before a crash, the disk recovers to the state after some of the commits. */
    ghost predicate Safe()
      reads this, cache
    {
      && |groups| == |cache.images| && |history| > 0
      && forall i :: 0 <= i < |groups| ==> groups[i] < |history| && Recovers(g, cache.images[i], history[groups[i]])
    }

    ghost predicate Sound()
      reads this, cache
    {
      cache.Valid() && g.Fits(|cache.disk|) && Safe()
    }

    /** Everything committed is on the disk; what has been written since is dirty in the cache. */
    ghost predicate Settled()
      reads this, cache
    {
      && Sound() && Quiet(g, cache.Sees(), lh)
      && |history[|history| - 1]| == |cache.disk|
      && forall b :: 0 <= b < |cache.disk| && !g.InLog(b) ==> cache.disk[b] == history[|history| - 1][b]
    }

    /** Between the calls of the log's functions. */
    ghost predicate Idle()
      reads this, cache
    {
      Settled() && !committing && outstanding >= 0 && (outstanding == 0 ==> lh == [])
    }

    ghost function Record(): Trail
      reads this, cache
    {
      Trail(cache.images, groups, history)
    }

    /** A call only adds disk images, and none that recovers to less than was committed before. */
    twostate predicate Advances()
      reads this, cache
    {
      Extends(old(Record()), Record())
    }

    constructor (g: Layout, cache: Cache, ghost before: seq<Disk>)
      ensures this.g == g && this.cache == cache && lh == [] && outstanding == 0 && !committing
      ensures history == before && groups == []
    {
      this.g := g;
      this.cache := cache;
      lh, outstanding, committing := [], 0, false;
      history, groups := before, [];
    }

    /** Copies one block to another and writes it: one disk image. The kernel panics if the cache has no buffer to
        spare. */
    method CopyBlock(from: nat, to: nat) returns (ok: bool)
      requires Sound() && from < |cache.disk| && to < |cache.disk| && from != to
      requires var v := cache.Sees(); v.dirty[from] || v.cur[from] == v.disk[from]
      requires Recovers(g, Copied(cache.Sees(), from, to).disk, history[|history| - 1])
      modifies this`groups, cache
      ensures Sound() && Advances() && |cache.bufs| == old(|cache.bufs|)
      ensures ok <==> CanCopy(old(cache.Sees()), |cache.bufs|, from, to)
      ensures ok ==> cache.Sees() == Copied(old(cache.Sees()), from, to) && |groups| == |old(groups)| + 1
    {
      hide ViewOf, Recovers, Extends, Coherent, Loaded, CanCopy;
      ghost var v, start := cache.Sees(), Record();
      ExtendsItself(start);
      ok := HoldBoth(from, to);
      if !ok {
        return;
      }
      var c := cache.Data(from);
      cache.SetData(to, c);
      cache.Bwrite(to);
      groups := groups + [|history| - 1];
      ExtendsByOne(start, cache.disk);
      RefsRestored(v.refs, from, to);
      cache.Brelse(from);
      cache.Brelse(to);
    }

    /** Gets buffers for two blocks. */
    method HoldBoth(from: nat, to: nat) returns (ok: bool)
      requires cache.Valid() && from < |cache.disk| && to < |cache.disk| && from != to
      modifies cache`bufs
      ensures cache.Valid() && |cache.bufs| == old(|cache.bufs|)
      ensures ok <==> CanCopy(old(cache.Sees()), |cache.bufs|, from, to)
      ensures ok ==> cache.Sees() == Holding(Holding(old(cache.Sees()), to), from)
    {
      hide ViewOf, Coherent, Loaded, Room;
      ok := cache.Bread(to);
      if !ok {
        return;
      }
      ok := cache.Bread(from);
    }

    /** Writes the in-memory header to the disk. `after` is the history once that is done. */
    method WriteHead(ghost after: seq<Disk>) returns (ok: bool)
      requires Sound() && history <= after && |after| <= |history| + 1
      requires Recovers(g, HeadWritten(g, cache.Sees(), lh).disk, after[|after| - 1])
      modifies this`groups, this`history, cache
      ensures Sound() && Advances() && |cache.bufs| == old(|cache.bufs|)
      ensures ok <==> Room(old(cache.Sees()), |cache.bufs|, g.start)
      ensures if ok then history == after else history == old(history)
      ensures ok ==> cache.Sees() == HeadWritten(g, old(cache.Sees()), lh) && groups == old(groups) + [|history| - 1]
    {
      hide ViewOf, Recovers, Room, Coherent, Loaded;
      ghost var v := cache.Sees();
      ok := cache.Bread(g.start);
      if !ok {
        return;
      }
      cache.SetData(g.start, Header(lh));
      cache.Bwrite(g.start);
      history := after;
      groups := groups + [|history| - 1];
      cache.Brelse(g.start);
      assert cache.Sees().refs == v.refs;
    }

    /** Copies the changed blocks from the cache to the log. */
    method WriteLog() returns (ok: bool)
      requires Sound() && Pending(g, cache.Sees(), lh, history[|history| - 1])
      modifies this`groups, cache
      ensures Sound() && Advances() && |cache.bufs| == old(|cache.bufs|)
      ensures g.Loggable(lh, old(|cache.disk|))
      ensures ok <==> lh == [] || |lh| < |cache.bufs|
      ensures ok ==> cache.Sees() == LoggedTo(g, old(cache.Sees()), lh, |lh|) && |groups| == |old(groups)| + |lh|
    {
      hide ViewOf, Recovers, Pending, Extends, Coherent, Loaded, LoggedTo, Copied, CanCopy, Layout.Loggable;
      ghost var v, want := cache.Sees(), history[|history| - 1];
      LoggedStart(g, v, lh, want);
      ghost var start := Record();
      ExtendsItself(start);
      var tail := 0;
      ok := true;
      while tail < |lh|
        invariant 0 <= tail <= |lh| && Sound() && Extends(start, Record()) && want == history[|history| - 1]
        invariant |cache.bufs| == old(|cache.bufs|) && (tail > 0 ==> |lh| < |cache.bufs|)
        invariant cache.Sees() == LoggedTo(g, v, lh, tail) && |groups| == |start.groups| + tail
      {
        LogStep(g, v, lh, tail, |cache.bufs|, want);
        ghost var before := Record();
        ok := CopyBlock(lh[tail], g.start + tail + 1);
        ExtendsTransitive(start, before, Record());
        if !ok {
          return;
        }
        tail := tail + 1;
      }
    }

    /** Copies the logged blocks to where they belong. */
    method InstallTrans() returns (ok: bool)
      requires Sound() && Installable(g, cache.Sees(), lh, history[|history| - 1])
      modifies this`groups, cache
      ensures Sound() && Advances() && |cache.bufs| == old(|cache.bufs|)
      ensures g.Loggable(lh, old(|cache.disk|))
      ensures ok <==> |cache.bufs| >= InstallNeeds(old(cache.Sees()), lh)
      ensures ok ==> cache.Sees() == InstalledTo(g, old(cache.Sees()), lh, |lh|)
    {
      hide ViewOf, Recovers, Extends, Coherent, Loaded, InstalledTo, Copied, CanCopy, InstallNeeds, Installable, Layout.Loggable;
      ghost var v, want := cache.Sees(), history[|history| - 1];
      InstalledStart(g, v, lh, want);
      ghost var start := Record();
      ExtendsItself(start);
      var tail := 0;
      ok := true;
      while tail < |lh|
        invariant 0 <= tail <= |lh| && Sound() && Extends(start, Record()) && want == history[|history| - 1]
        invariant |cache.bufs| == old(|cache.bufs|) && (tail > 0 ==> |cache.bufs| >= InstallNeeds(v, lh))
        invariant cache.Sees() == InstalledTo(g, v, lh, tail)
      {
        InstallStep(g, v, lh, tail, |cache.bufs|, want);
        ghost var before := Record();
        ok := CopyBlock(g.start + tail + 1, lh[tail]);
        ExtendsTransitive(start, before, Record());
        if !ok {
          return;
        }
        tail := tail + 1;
      }
    }

    /** Installs the logged blocks and erases the header. */
    method InstallAndErase() returns (ok: bool)
      requires Sound() && Installable(g, cache.Sees(), lh, history[|history| - 1])
      requires var v := cache.Sees(); forall b :: 0 <= b < |v.disk| && b !in lh ==> v.cur[b] == v.disk[b] && !v.dirty[b]
      modifies this`lh, this`groups, this`history, cache
      ensures Sound() && Advances() && history == old(history)
      ensures |cache.bufs| == old(|cache.bufs|)
      ensures ok <==> |cache.bufs| >= InstallNeeds(old(cache.Sees()), old(lh)) && |cache.bufs| > 0
      ensures ok ==> Settled() && lh == []
    {
      hide ViewOf, Extends, Coherent, Loaded, Recovers, BusyAs, InstallNeeds;
      ghost var v, want, start := cache.Sees(), history[|history| - 1], Record();
      FitsWhenGood(g, cache.disk, want);
      ok := InstallTrans();
      if !ok {
        return;
      }
      ghost var middle := Record();
      InstallCompletes(g, v, lh, want);
      NothingBusy(g, v, lh);
      lh := [];
      ok := WriteHead(history);
      ExtendsTransitive(start, middle, Record());
    }

    /** Commits the group: log, header, installation, erased header. The kernel panics exactly if the blocks of the group take
        all buffers, and then before anything has been committed. */
    method Commit() returns (ok: bool)
      requires Settled()
      modifies this`lh, this`groups, this`history, cache
      ensures Sound() && Advances()
      ensures |cache.bufs| == old(|cache.bufs|) && (ok <==> old(lh) == [] || |old(lh)| < |cache.bufs|)
      ensures ok ==> Settled() && lh == []
      ensures ok && old(lh) != [] ==> Marks(old(Record()), Record(), |old(lh)|)
      ensures history == if old(lh) == [] || !ok then old(history) else old(history) + [old(cache.Sees()).cur]
    {
      hide ViewOf, Recovers, Quiet, Extends, BusyAs, InstallNeeds, Room, Coherent, Loaded;
      ok := true;
      ghost var v, blocks, start := cache.Sees(), lh, Record();
      ExtendsItself(start);
      if |lh| > 0 {
        ok := WriteLog();
        if !ok {
          return;
        }
        ghost var logged := Record();
        CanLog(g, v, blocks, |blocks|, |cache.bufs|);
        CommitPoint(g, v, blocks);
        ok := WriteHead(history + [v.cur]);
        ghost var committed := Record();
        ExtendsTransitive(start, logged, committed);
        if !ok {
          return;
        }
        LoggedEnds(g, v, blocks);
        HeadBusy(g, v, blocks);
        CommitPoint(g, v, blocks);
        ok := InstallAndErase();
        ExtendsTransitive(start, committed, Record());
        MarksSet(start, logged, committed, Record(), |blocks|);
      }
    }

    /** Starts an operation, or says that the caller has to wait. */
    method BeginOp() returns (granted: bool)
      requires Idle()
      modifies this`outstanding
      ensures Idle() && outstanding == old(outstanding) + (if granted then 1 else 0)
      ensures granted <==> |lh| + (old(outstanding) + 1) * 10 <= 30
    {
      if committing {
        return false;
      }
      if |lh| + (outstanding + 1) * MAXOPBLOCKS > LOGSIZE {
        return false;
      }
      outstanding := outstanding + 1;
      granted := true;
    }

    /** Ends an operation; the last one commits the group. */
    method EndOp() returns (ok: bool)
      requires Idle() && outstanding > 0
      modifies this, cache
      ensures Sound() && Advances()
      ensures !ok ==> history == old(history)
      ensures |cache.bufs| == old(|cache.bufs|)
      ensures ok <==> old(outstanding) > 1 || old(lh) == [] || |old(lh)| < |cache.bufs|
      ensures if ok then Idle() && outstanding == old(outstanding) - 1 else old(outstanding) == 1
      ensures ok && outstanding == 0 ==>
                history == if old(lh) == [] then old(history) else old(history) + [old(cache.Sees()).cur]
      ensures ok && outstanding == 0 && old(lh) != [] ==> Marks(old(Record()), Record(), |old(lh)|)
      ensures ok && outstanding > 0 ==> history == old(history) && lh == old(lh) && cache.Sees() == old(cache.Sees())
    {
      hide ViewOf, Recovers, Quiet, Extends, Room, Coherent, Loaded, Marks;
      ExtendsItself(Record());
      var doCommit := false;
      outstanding := outstanding - 1;
      if outstanding == 0 {
        doCommit := true;
        committing := true;
      }
      ok := true;
      if doCommit {
        ok := Commit();
        if ok {
          committing := false;
        }
      }
    }

    /** Changes block `b` as part of an operation: read it, modify it, register it with the log, release it. The kernel
        panics if the group is too big, if no operation is in progress, or for want of a buffer. */
    method LogWrite(b: nat, c: Content) returns (ok: bool)
      requires Idle() && b < |cache.disk| && !g.InLog(b)
      modifies this`lh, cache`bufs
      ensures Sound() && history == old(history) && groups == old(groups) && cache.images == old(cache.images)
      ensures cache.disk == old(cache.disk)
      ensures ok ==> Idle() && lh == if b in old(lh) then old(lh) else old(lh) + [b]
      ensures ok ==> var v := old(cache.Sees()); cache.Sees() == v.(cur := v.cur[b := c], dirty := v.dirty[b := true])
      ensures |cache.bufs| == old(|cache.bufs|) && outstanding == old(outstanding)
      ensures ok <==> |old(lh)| < LOGSIZE && |old(lh)| < g.size - 1 && outstanding >= 1 && (b in old(lh) || |old(lh)| < |cache.bufs|)
    {
      hide ViewOf, Recovers, Coherent, Loaded, Quiet, Room, Extends;
      QuietRoom(g, cache.Sees(), lh, b, |cache.bufs|);
      ghost var v, blocks := cache.Sees(), lh;
      QuietRefs(g, v, lh, b);
      ok := cache.Bread(b);
      if !ok {
        return;
      }
      cache.SetData(b, c);
      if |lh| >= LOGSIZE || |lh| >= g.size - 1 {
        return false;
      }
      if outstanding < 1 {
        return false;
      }
      Register(b);
      cache.SetDirty(b);
      cache.Brelse(b);
      assert cache.Sees().refs == v.refs;
      StaysQuiet(g, v, blocks, b, c, lh);
    }

    /** Adds block `b` to the blocks to be logged unless it is among them. */
    method Register(b: nat)
      modifies this`lh
      ensures lh == if b in old(lh) then old(lh) else old(lh) + [b]
    {
      var i := 0;
      while i < |lh|
        invariant 0 <= i <= |lh| && forall k :: 0 <= k < i ==> lh[k] != b
      {
        if lh[i] == b {
          break;
        }
        i := i + 1;
      }
      if i == |lh| {
        lh := lh + [b];
      }
    }

    /** Reads block `b` as any process may: nothing changes. */
    method ReadBlock(b: nat) returns (ok: bool, c: Content)
      requires Idle() && b < |cache.disk|
      modifies cache`bufs
      ensures Sound() && cache.images == old(cache.images) && cache.disk == old(cache.disk)
      ensures |cache.bufs| == old(|cache.bufs|) && (ok <==> b in lh || |lh| < |cache.bufs|)
      ensures ok ==> Idle() && cache.Sees() == old(cache.Sees()) && c == cache.Sees().cur[b]
    {
      hide ViewOf, Recovers, Coherent, Loaded, Quiet, Room;
      QuietRoom(g, cache.Sees(), lh, b, |cache.bufs|);
      ghost var v := cache.Sees();
      ok := cache.Bread(b);
      if !ok {
        return false, Plain([]);
      }
      c := cache.Data(b);
      ReadIsClean(g, v, lh, b);
      cache.Brelse(b);
      assert cache.Sees().refs == v.refs;
    }

    /** Recovery at boot: reads the header, installs what it lists, erases it. */
    method RecoverFromLog() returns (ok: bool)
      requires Sound() && !committing && outstanding == 0
      requires cache.Sees() == Fresh(cache.disk) && Recovers(g, cache.disk, history[|history| - 1])
      modifies this`lh, this`groups, this`history, cache
      ensures Sound() && Advances() && history == old(history)
      ensures |cache.bufs| == old(|cache.bufs|)
      ensures old(cache.disk)[g.start].Header?
      ensures ok <==> |old(cache.bufs)| > if old(cache.disk)[g.start].blocks == [] then 0 else 1
      ensures ok ==> Idle() && lh == []
    {
      hide ViewOf, Recovers, Extends, Coherent, Loaded, Room, BusyAs, InstallNeeds, Installable, Quiet;
      ghost var v := cache.Sees();
      ExtendsItself(Record());
      FreshInstallable(g, cache.disk, history[|history| - 1]);
      FreshBusy(cache.disk, cache.disk[g.start].blocks);
      ok := cache.Bread(g.start);
      if !ok {
        return;
      }
      var header := cache.Data(g.start);
      lh := header.blocks;
      cache.Brelse(g.start);
      assert cache.Sees().refs == v.refs;
      ok := InstallAndErase();
    }
  }

  lemma HeadBusy(g: Layout, v: View, blocks: seq<int>)
    requires Quiet(g, v, blocks) && blocks != []
    ensures var u := HeadWritten(g, LoggedTo(g, v, blocks, |blocks|), blocks);
            BusyAs(u, blocks) && InstallNeeds(u, blocks) == |blocks| + 1
  {
    CanLog(g, v, blocks, |blocks|, 0);
    hide LoggedTo;
    var w := LoggedTo(g, v, blocks, |blocks|);
    assert Busy(HeadWritten(g, w, blocks)) == Busy(w);
  }

  /** After the installation nothing is busy. */
  lemma NothingBusy(g: Layout, v: View, blocks: seq<int>)
    requires v.Shaped() && g.Fits(|v.disk|) && g.Loggable(blocks, |v.disk|) && LogSynced(g, v) && BusyAs(v, blocks)
    requires forall b :: 0 <= b < |v.disk| ==> v.refs[b] == 0
    ensures forall n :: Room(InstalledTo(g, v, blocks, |blocks|), n, g.start) <==> n > 0
    ensures blocks != [] ==> InstallNeeds(v, blocks) > 0
  {
    InstalledBusy(g, v, blocks, |blocks|);
    assert Nos(blocks[|blocks|..]) == {};
  }

  lemma FreshBusy(d: Disk, blocks: seq<int>)
    ensures BusyAs(Fresh(d), blocks) && InstallNeeds(Fresh(d), blocks) == (if blocks == [] then 0 else 2)
    ensures forall n, b: nat :: Room(Fresh(d), n, b) <==> n > 0
  {
    assert Busy(Fresh(d)) == {};
  }

  lemma FreshInstallable(g: Layout, d: Disk, want: Disk)
    requires g.Fits(|d|) && Recovers(g, d, want)
    ensures d[g.start].Header? && Installable(g, Fresh(d), d[g.start].blocks, want)
  {
    FreshBusy(d, d[g.start].blocks);
  }

  /** A cache that holds nothing yet. */
  function Fresh(d: Disk): View {
    View(d, d, seq(|d|, _ => false), seq(|d|, _ => 0))
  }

  /** At the commit point everything but the logged blocks is on the disk. */
  lemma LoggedEnds(g: Layout, v: View, blocks: seq<int>)
    requires Quiet(g, v, blocks)
    ensures var u := HeadWritten(g, LoggedTo(g, v, blocks, |blocks|), blocks);
            && u.disk[g.start] == Header(blocks) && LogSynced(g, u)
            && (forall b :: 0 <= b < |u.disk| && b !in blocks ==> u.cur[b] == u.disk[b] && !u.dirty[b])
            && (forall b :: 0 <= b < |u.disk| ==> u.refs[b] == 0)
  {
    hide LoggedTo;
    var u := HeadWritten(g, LoggedTo(g, v, blocks, |blocks|), blocks);
    forall b: nat | b < |u.disk| && b !in blocks
      ensures u.cur[b] == u.disk[b] && !u.dirty[b]
    {
      LoggedAt(g, v, blocks, |blocks|, b);
    }
  }

  lemma StaysQuiet(g: Layout, v: View, blocks: seq<int>, b: nat, c: Content, blocks': seq<int>)
    requires Quiet(g, v, blocks) && b < |v.disk| && !g.InLog(b) && |blocks| < g.size - 1
    requires blocks' == if b in blocks then blocks else blocks + [b]
    ensures Quiet(g, v.(cur := v.cur[b := c], dirty := v.dirty[b := true]), blocks')
  {
    assert g.Loggable(blocks', |v.disk|);
  }

  lemma QuietRefs(g: Layout, v: View, blocks: seq<int>, b: nat)
    requires Quiet(g, v, blocks) && b < |v.disk|
    ensures v.Shaped() && v.refs[b] == 0
  {
  }

  lemma ReadIsClean(g: Layout, v: View, blocks: seq<int>, b: nat)
    requires Quiet(g, v, blocks) && b < |v.disk|
    ensures v.dirty[b] || v.cur[b] == v.disk[b]
    ensures v.refs[b] == 0
  {
  }


  lemma LogSlot(g: Layout, blocks: seq<int>, n: nat, k: nat)
    requires g.Fits(n) && g.Loggable(blocks, n) && k < |blocks|
    ensures 0 <= blocks[k] < n && g.start + k + 1 < n && blocks[k] != g.start + k + 1
  {
  }

  /** Holding two buffers and releasing them leaves the counts as they were. */
  lemma RefsRestored(refs: seq<nat>, from: nat, to: nat)
    requires from < |refs| && to < |refs| && from != to
    ensures var held := refs[to := refs[to] + 1][from := refs[from] + 1];
            held[from := held[from] - 1][to := held[to] - 1] == refs
  {
  }

  lemma StillDirty(g: Layout, v: View, blocks: seq<int>, k: nat)
    requires Quiet(g, v, blocks) && k < |blocks|
    ensures LoggedTo(g, v, blocks, k).dirty[blocks[k]]
  {
    LoggedAt(g, v, blocks, k, blocks[k]);
  }

  // ----- runs with crashes -----

  datatype Call = Begin | Write(b: nat, c: Content) | End | Read(b: nat)

  /** `crash`: the machine stops after that many of the block writes that belong to the call or to the recovery. */
  datatype Event = Do(call: Call, crash: Crash) | Boot(crash: Crash)

  datatype Crash = NoCrash | CrashAfter(writes: nat)

  datatype Change = Change(b: nat, c: Content)

  function Apply(d: Disk, changes: seq<Change>): (d': Disk)
    ensures |d'| == |d|
  {
    if changes == [] then d else
    var u := Apply(d, changes[..|changes| - 1]);
    var last := changes[|changes| - 1];
    if last.b < |d| then u[last.b := last.c] else u
  }

  /** The two disks agree outside the log. */
  ghost predicate SameFiles(g: Layout, d: Disk, e: Disk) {
    |d| == |e| && forall b :: 0 <= b < |d| && !g.InLog(b) ==> d[b] == e[b]
  }

  /** Each committed state is the one before with all changes of one group applied. */
  ghost predicate Chain(g: Layout, states: seq<Disk>, groups: seq<seq<Change>>) {
    && |states| == |groups| + 1
    && forall i :: 0 <= i < |groups| ==> SameFiles(g, states[i + 1], Apply(states[i], groups[i]))
  }

  /** The disk that a crash leaves after `k` of the block writes made since the log's trail was `start`, and the states
      that were committed by then. */
  method PowerOff(log: Log, disk0: Disk, n0: nat, ghost start: Trail, k: nat) returns (disk: Disk, ghost states: seq<Disk>)
    requires log.Sound() && n0 == |start.images| && Extends(start, log.Record())
    requires |start.groups| == n0 && |start.history| > 0
    requires Recovers(log.g, disk0, start.history[|start.history| - 1])
    ensures var m := |log.cache.images| - n0;
            m >= 0 && |states| == if m == 0 || k == 0 then |start.history| else log.groups[n0 + (if k < m then k else m) - 1] + 1
    ensures start.history <= states <= log.history
    ensures Recovers(log.g, disk, states[|states| - 1])
  {
    var m := |log.cache.images| - n0;
    if k < m {
      m := k;
    }
    if m == 0 {
      disk, states := disk0, start.history;
    } else {
      disk := log.cache.images[n0 + m - 1];
      states := log.history[..log.groups[n0 + m - 1] + 1];
    }
  }

  lemma ChainPrefix(g: Layout, states: seq<Disk>, groups: seq<seq<Change>>, n: nat)
    requires Chain(g, states, groups) && n <= |groups|
    ensures Chain(g, states[..n + 1], groups[..n])
  {
  }

  lemma ApplyOne(d: Disk, changes: seq<Change>, b: nat, c: Content)
    requires b < |d|
    ensures Apply(d, changes + [Change(b, c)]) == Apply(d, changes)[b := c]
  {
    assert (changes + [Change(b, c)])[..|changes|] == changes;
  }

  /** What can be said about a machine from outside: whether it is up, how many operations are open, what has been changed
      since the last commit, the groups committed and, of these, the ones whose commit returned. */
  datatype Book = Book(up: bool, open: int, pending: seq<Change>, groups: seq<seq<Change>>, acked: seq<seq<Change>>)

  /** The blocks changed since the last commit. */
  function Dirtied(changes: seq<Change>): set<int> {
    set i | 0 <= i < |changes| :: changes[i].b
  }

  /** A call that returned has done what it should; one that is not legal has done nothing. `n` is the size of the disk. */
  ghost predicate Returned(g: Layout, n: nat, call: Call, a: Book, b: Book) {
    match call
    case Begin => b == if |Dirtied(a.pending)| + (a.open + 1) * 10 <= 30 then a.(open := a.open + 1) else a
    case Read(_) => b == a
    case Write(x, c) =>
      if x < n && !g.InLog(x) then a.open >= 1 && b == a.(pending := a.pending + [Change(x, c)]) else b == a
    case End =>
      if a.open <= 0 then b == a
      else if a.open > 1 then b == a.(open := a.open - 1)
      else
        var groups := if a.pending == [] then a.groups else a.groups + [a.pending];
        b == Book(a.up, 0, [], groups, groups)
  }

  /** Does this call make the kernel panic? A block that has not been changed since the last commit needs a buffer besides those
      of the blocks that have been; so does a commit. A group must fit into the log. */
  ghost predicate Panics(g: Layout, n: nat, nbuf: nat, call: Call, a: Book) {
    var d := Dirtied(a.pending);
    match call
    case Begin => false
    case Read(x) => x < n && x !in d && |d| >= nbuf
    case Write(x, c) =>
      x < n && !g.InLog(x) && ((x !in d && |d| >= nbuf) || |d| >= 30 || |d| >= g.size - 1 || a.open < 1)
    case End => a.open == 1 && a.pending != [] && |d| >= nbuf
  }

  /** With at least as many buffers as the log has blocks, no call panics for want of one. */
  lemma EnoughBuffers(g: Layout, n: nat, nbuf: nat, call: Call, a: Book)
    requires nbuf >= g.size >= 1 && |Dirtied(a.pending)| <= g.size - 1
    ensures Panics(g, n, nbuf, call, a) <==>
              call.Write? && call.b < n && !g.InLog(call.b)
              && (|Dirtied(a.pending)| >= 30 || |Dirtied(a.pending)| == g.size - 1 || a.open < 1)
  {
  }

  /** With the return of a commit its caller knows that everything committed so far is on the disk. */
  ghost function Known(call: Call, a: Book, b: Book): Book {
    if call.End? && a.open == 1 then b.(acked := b.groups) else b
  }

  /** One event: a call that returns, if the machine does not stop in it; a call in which it stops, by a crash, which has
      committed the group that it was to commit exactly if more blocks have been written than the group has, and nothing else, or
      by a panic, which commits nothing; or a new start, which
      loses what was not committed and nothing else, and succeeds with two buffers or more unless the machine crashes again. */
  ghost predicate Moves(g: Layout, n: nat, nbuf: nat, e: Event, a: Book, b: Book) {
    match e
    case Boot(crash) =>
      b == Book(b.up, 0, [], a.groups, a.acked) && (crash.NoCrash? && nbuf >= 2 ==> b.up) && (b.up ==> crash.NoCrash? && nbuf >= 1)
    case Do(call, crash) =>
      if !a.up then b == a
      else
        var stops := Panics(g, n, nbuf, call, a);
        if crash.NoCrash? && !stops then b.up && Returned(g, n, call, a, b)
        else
          && !b.up && b.open == 0 && b.pending == [] && b.acked == a.acked
          && b.groups == if !stops && call.End? && a.open == 1 && a.pending != [] && crash.writes > |Dirtied(a.pending)|
                         then a.groups + [a.pending] else a.groups
  }

  /** The books of a run, before the first event and after each. */
  ghost predicate Books(g: Layout, n: nat, nbuf: nat, events: seq<Event>, books: seq<Book>) {
    && |books| == |events| + 1 && books[0] == Book(false, 0, [], [], [])
    && forall i :: 0 <= i < |events| ==> Moves(g, n, nbuf, events[i], books[i], books[i + 1])
  }

  /** No later event, and so no crash, undoes a commit that returned, or any commit at all. */
  lemma {:induction false} CommittedForever(g: Layout, n: nat, nbuf: nat, events: seq<Event>, books: seq<Book>, i: nat, j: nat)
    requires Books(g, n, nbuf, events, books) && i <= j < |books|
    ensures books[i].acked <= books[j].acked <= books[j].groups && books[i].groups <= books[j].groups
    decreases j
  {
    if j > 0 {
      CommittedForever(g, n, nbuf, events, books, if i < j then i else i - 1, j - 1);
      assert Moves(g, n, nbuf, events[j - 1], books[j - 1], books[j]);
    }
  }

  // ----- operations of at most ten blocks -----

  ghost function Sum(left: map<nat, nat>): nat {
    if left == map[] then 0 else
    var k := PickKey(left.Keys);
    left[k] + Sum(left - {k})
  }

  ghost function PickKey(keys: set<nat>): (k: nat)
    requires keys != {}
    ensures k in keys
  {
    var k :| k in keys;
    k
  }

  lemma {:induction false} SumWithout(left: map<nat, nat>, id: nat)
    requires id in left
    ensures Sum(left) == left[id] + Sum(left - {id})
    decreases |left|
  {
    var k := PickKey(left.Keys);
    if k != id {
      SumWithout(left - {k}, id);
      var rest := left - {id};
      SumWithout(rest, k);
      assert left - {k} - {id} == rest - {k};
    }
  }

  lemma SumSet(left: map<nat, nat>, id: nat, v: nat)
    ensures Sum(left[id := v]) == v + Sum(left - {id})
  {
    SumWithout(left[id := v], id);
    assert left[id := v] - {id} == left - {id};
  }

  lemma {:induction false} SumAtMost(left: map<nat, nat>)
    requires forall id :: id in left ==> left[id] <= 10
    ensures Sum(left) <= |left| * 10
    decreases |left|
  {
    if left != map[] {
      var k := PickKey(left.Keys);
      SumAtMost(left - {k});
      OneKeyLess(left, k);
    }
  }

  lemma OneKeyLess(left: map<nat, nat>, k: nat)
    requires k in left
    ensures |left| == |left - {k}| + 1
  {
    assert left.Keys == (left - {k}).Keys + {k};
    assert |left| == |left.Keys| && |left - {k}| == |(left - {k}).Keys|;
  }

  function Blocks(s: seq<int>): set<int> {
    set x | x in s
  }

  lemma {:induction false} BlocksAtMost(s: seq<int>)
    ensures |Blocks(s)| <= |s|
  {
    if s != [] {
      var n := |s| - 1;
      BlocksAtMost(s[..n]);
      BlocksMore(s[..n], s[n]);
      assert s == s[..n] + [s[n]];
    }
  }

  lemma BlocksMore(s: seq<int>, x: int)
    ensures Blocks(s + [x]) == Blocks(s) + {x}
    ensures |Blocks(s + [x])| == |Blocks(s)| + if x in s then 0 else 1
  {
    assert Blocks(s + [x]) == Blocks(s) + {x};
    assert x in Blocks(s) <==> x in s;
    if x in s { assert Blocks(s) + {x} == Blocks(s); }
  }

  /** For each open operation the blocks that it has written, in order. Operation `id` takes part in the event. */
  function WrittenAfter(a: Book, b: Book, e: Event, id: nat, w: map<nat, seq<int>>): map<nat, seq<int>> {
    if e.Boot? || !b.up then map[]
    else match e.call
      case Begin => if b.open > a.open then w[id := []] else w
      case Write(x, _) => if id in w then w[id := w[id] + [x]] else w
      case End => w - {id}
      case Read(_) => w
  }

  function WrittenAt(events: seq<Event>, ids: seq<nat>, books: seq<Book>, i: nat): map<nat, seq<int>>
    requires i <= |events| == |ids| && |books| == |events| + 1
  {
    if i == 0 then map[] else WrittenAfter(books[i - 1], books[i], events[i - 1], ids[i - 1], WrittenAt(events, ids, books, i - 1))
  }

  /** Every write belongs to an open operation that writes at most ten blocks, and lies outside the log; only open operations end,
      and each begins once. */
  ghost predicate TenBlocks(g: Layout, n: nat, events: seq<Event>, ids: seq<nat>, books: seq<Book>) {
    && |ids| == |events| && |books| == |events| + 1
    && forall i :: 0 <= i < |events| && events[i].Do? && books[i].up ==>
         TenBlocksAt(g, n, events[i].call, ids[i], WrittenAt(events, ids, books, i))
  }

  predicate TenBlocksAt(g: Layout, n: nat, call: Call, id: nat, w: map<nat, seq<int>>) {
    match call
    case Begin => id !in w
    case Write(x, _) => id in w && |Blocks(w[id] + [x])| <= 10 && x < n && !g.InLog(x)
    case End => id in w
    case Read(_) => true
  }

  /** The blocks that an operation may still write, of ten. */
  function Spare(s: seq<int>): nat {
    if |Blocks(s)| <= 10 then 10 - |Blocks(s)| else 0
  }

  function Left(w: map<nat, seq<int>>): map<nat, nat> {
    map id | id in w :: Spare(w[id])
  }

  /** The changed blocks and those that may still be written fit into the log. */
  ghost predicate Fitting(a: Book, w: map<nat, seq<int>>) {
    && a.open == |w| && |Dirtied(a.pending)| + Sum(Left(w)) <= 30 && (w == map[] ==> a.pending == [])
    && forall id :: id in w ==> |Blocks(w[id])| <= 10 && Blocks(w[id]) <= Dirtied(a.pending)
  }

  lemma FittingNext(g: Layout, n: nat, nbuf: nat, e: Event, a: Book, b: Book, id: nat, w: map<nat, seq<int>>)
    requires Moves(g, n, nbuf, e, a, b) && Fitting(a, w) && (e.Do? && a.up ==> TenBlocksAt(g, n, e.call, id, w))
    requires !a.up ==> w == map[]
    ensures Fitting(b, WrittenAfter(a, b, e, id, w)) && (!b.up ==> WrittenAfter(a, b, e, id, w) == map[])
  {
    hide Dirtied, Sum, Panics, Blocks, Left;
    FittingNothing(b);
    if e.Do? && a.up && b.up {
      match e.call
      case Begin => FittingBegin(a, b, id, w);
      case Write(x, c) => FittingWrite(a, id, w, x, c);
      case End => FittingEnd(a, id, w);
      case Read(_) => assert b == a;
    }
  }

  lemma FittingNothing(b: Book)
    ensures b.open == 0 && b.pending == [] ==> Fitting(b, map[])
  {
    assert Left(map[]) == map[];
    assert Dirtied([]) == {};
  }

  lemma FittingBegin(a: Book, b: Book, id: nat, w: map<nat, seq<int>>)
    requires Fitting(a, w) && id !in w
    requires b == if |Dirtied(a.pending)| + (a.open + 1) * 10 <= 30 then a.(open := a.open + 1) else a
    ensures Fitting(b, if b.open > a.open then w[id := []] else w)
  {
    hide Dirtied, Sum, Blocks, Left;
    LeftAtMost(w[id := []]);
    OneMore(w, id);
    assert Blocks([]) == {} by { BlocksAtMost([]); }
  }

  lemma LeftAtMost(w: map<nat, seq<int>>)
    ensures Sum(Left(w)) <= |w| * 10
  {
    hide Sum, Blocks;
    SumAtMost(Left(w));
    assert Left(w).Keys == w.Keys && |Left(w)| == |Left(w).Keys| && |w| == |w.Keys|;
  }

  lemma OneMore(w: map<nat, seq<int>>, id: nat)
    requires id !in w
    ensures |w[id := []]| == |w| + 1
  {
    assert w[id := []].Keys == w.Keys + {id};
    assert |w[id := []]| == |w[id := []].Keys| && |w| == |w.Keys|;
  }

  lemma FittingWrite(a: Book, id: nat, w: map<nat, seq<int>>, x: nat, c: Content)
    requires Fitting(a, w) && id in w && |Blocks(w[id] + [x])| <= 10
    ensures Fitting(a.(pending := a.pending + [Change(x, c)]), w[id := w[id] + [x]])
  {
    hide Sum, Dirtied, Blocks, Left;
    var w', d := w[id := w[id] + [x]], Dirtied(a.pending);
    BlocksMore(w[id], x);
    BlocksOf(w[id]);
    DirtiedOne(a.pending, x, c);
    LeftLess(w, id, w'[id]);
    assert w'.Keys == w.Keys;
    assert |w'| == |w'.Keys| && |w| == |w.Keys|;
    if x in d { assert d + {x} == d; }
  }

  lemma BlocksOf(s: seq<int>)
    ensures forall x :: x in s <==> x in Blocks(s)
  {
  }

  lemma LeftLess(w: map<nat, seq<int>>, id: nat, s: seq<int>)
    requires id in w
    ensures Sum(Left(w[id := s])) + Spare(w[id]) == Sum(Left(w)) + Spare(s)
  {
    hide Sum, Spare;
    SumWithout(Left(w), id);
    SumSet(Left(w), id, Spare(s));
    assert Left(w[id := s]) == Left(w)[id := Spare(s)];
  }

  lemma FittingEnd(a: Book, id: nat, w: map<nat, seq<int>>)
    requires Fitting(a, w) && id in w
    ensures a.open >= 1 && (a.open > 1 ==> Fitting(a.(open := a.open - 1), w - {id})) && (a.open == 1 ==> w - {id} == map[])
  {
    hide Dirtied, Sum, Blocks;
    SumWithout(Left(w), id);
    assert Left(w - {id}) == Left(w) - {id};
    assert w.Keys == (w - {id}).Keys + {id};
    assert |w| == |w.Keys| && |w - {id}| == |(w - {id}).Keys|;
    assert |w - {id}| > 0 <==> w - {id} != map[];
  }

  lemma DirtiedOne(changes: seq<Change>, b: nat, c: Content)
    ensures Dirtied(changes + [Change(b, c)]) == Dirtied(changes) + {b}
  {
    var more := changes + [Change(b, c)];
    assert more[|changes|].b == b;
    assert forall i :: 0 <= i < |changes| ==> more[i] == changes[i];
  }

  lemma {:induction false} FittingAt(g: Layout, n: nat, nbuf: nat, events: seq<Event>, ids: seq<nat>, books: seq<Book>, i: nat)
    requires Books(g, n, nbuf, events, books) && TenBlocks(g, n, events, ids, books) && i <= |events|
    ensures Fitting(books[i], WrittenAt(events, ids, books, i)) && (!books[i].up ==> WrittenAt(events, ids, books, i) == map[])
  {
    hide Fitting;
    if i == 0 {
      FittingNothing(books[0]);
    } else {
      FittingAt(g, n, nbuf, events, ids, books, i - 1);
      assert Moves(g, n, nbuf, events[i - 1], books[i - 1], books[i - 1 + 1]);
      FittingNext(g, n, nbuf, events[i - 1], books[i - 1], books[i], ids[i - 1], WrittenAt(events, ids, books, i - 1));
    }
  }

  /** With a log and a cache of more than 30 blocks, operations that write at most ten blocks each make the kernel panic exactly by
      writing when 30 blocks are changed already; then the block is one that the operation has written before, and it is at least
      its eleventh write. */
  lemma PanicsIffFull(g: Layout, n: nat, nbuf: nat, events: seq<Event>, ids: seq<nat>, books: seq<Book>, i: nat)
    requires Books(g, n, nbuf, events, books) && TenBlocks(g, n, events, ids, books) && g.size >= 31 && nbuf >= 31
    requires i < |events| && events[i].Do? && books[i].up
    ensures Panics(g, n, nbuf, events[i].call, books[i]) <==> events[i].call.Write? && |Dirtied(books[i].pending)| == 30
    ensures var w := WrittenAt(events, ids, books, i);
            Panics(g, n, nbuf, events[i].call, books[i]) ==> ids[i] in w && events[i].call.b in w[ids[i]] && |w[ids[i]]| >= 10
  {
    FittingAt(g, n, nbuf, events, ids, books, i);
    hide Books, TenBlocks, Dirtied, Sum, Blocks, WrittenAt;
    var w, call, id := WrittenAt(events, ids, books, i), events[i].call, ids[i];
    assert TenBlocksAt(g, n, call, id, w) by { TenBlocksHere(g, n, events, ids, books, i); }
    if call.Write? {
      SumWithout(Left(w), id);
      BlocksMore(w[id], call.b);
      BlocksAtMost(w[id]);
      assert |w| > 0;
    }
  }

  lemma TenBlocksHere(g: Layout, n: nat, events: seq<Event>, ids: seq<nat>, books: seq<Book>, i: nat)
    requires TenBlocks(g, n, events, ids, books) && i < |events| && events[i].Do? && books[i].up
    ensures TenBlocksAt(g, n, events[i].call, ids[i], WrittenAt(events, ids, books, i))
  {
  }

  // A run in which it happens: three operations write ten blocks each, and the first then writes its first block again. The test
  // for room comes before the search for the block.

  function FullEvent(i: nat): Event {
    if i == 0 then Boot(NoCrash) else Do(if i < 4 then Begin else Write(if i < 34 then 96 + i else 100, Plain([])), NoCrash)
  }

  function FullBook(i: nat): Book {
    if i == 0 || i > 34 then Book(false, 0, [], [], []) else Book(true, if i <= 4 then i - 1 else 3, Changes(if i <= 4 then 0 else i - 4), [], [])
  }

  function FullId(i: nat): nat {
    if i == 0 || i >= 34 then 0 else if i < 4 then i - 1 else (i - 4) / 10
  }

  /** The first `k` of the changes. */
  function Changes(k: nat): seq<Change> {
    seq(k, j requires 0 <= j < k => Change(100 + j, Plain([])))
  }

  lemma {:induction false} ChangesCount(k: nat)
    ensures |Dirtied(Changes(k))| == k && forall x :: x in Dirtied(Changes(k)) <==> 100 <= x < 100 + k
  {
    if k == 0 {
      assert Dirtied(Changes(0)) == {};
    } else {
      ChangesCount(k - 1);
      assert Changes(k) == Changes(k - 1) + [Change(100 + k - 1, Plain([]))];
      DirtiedOne(Changes(k - 1), 100 + k - 1, Plain([]));
    }
  }

  function FullEvents(): seq<Event> {
    seq(35, i requires 0 <= i < 35 => FullEvent(i))
  }

  function FullIds(): seq<nat> {
    seq(35, i requires 0 <= i < 35 => FullId(i))
  }

  function FullBooks(): seq<Book> {
    seq(36, i requires 0 <= i < 36 => FullBook(i))
  }

  lemma FullMoves(i: nat)
    requires i < 35
    ensures Moves(Layout(2, 31), 1000, 31, FullEvent(i), FullBook(i), FullBook(i + 1))
  {
    hide Dirtied, Changes;
    ChangesCount(if i <= 4 then 0 else i - 4);
    ChangesNext(if i <= 4 then 0 else i - 4);
  }

  lemma ChangesNext(k: nat)
    ensures Changes(0) == [] && Changes(k + 1) == Changes(k) + [Change(100 + k, Plain([]))]
  {
  }

  /** What operation `id` has written when `k` blocks have been. */
  function Tenth(id: nat, k: nat): seq<int> {
    seq(if k <= 10 * id then 0 else if k >= 10 * id + 10 then 10 else k - 10 * id, j => 100 + 10 * id + j)
  }

  function Begun(i: nat, k: nat): map<nat, seq<int>> {
    map id: nat | id < i :: Tenth(id, k)
  }

  lemma {:induction false} FullWritten(i: nat)
    requires i < 35
    ensures WrittenAt(FullEvents(), FullIds(), FullBooks(), i) == Begun(if i == 0 then 0 else if i <= 4 then i - 1 else 3, if i <= 4 then 0 else i - 4)
  {
    if i > 0 {
      FullWritten(i - 1);
      FullNext(i - 1);
    }
  }

  lemma FullNext(i: nat)
    requires i < 34
    ensures WrittenAfter(FullBook(i), FullBook(i + 1), FullEvent(i), FullId(i),
                         Begun(if i == 0 then 0 else if i <= 4 then i - 1 else 3, if i <= 4 then 0 else i - 4))
         == Begun(if i < 4 then i else 3, if i < 4 then 0 else i - 3)
  {
    hide Changes, Tenth, Begun;
    BegunNext(if 0 < i < 4 then i - 1 else 0);
    if i >= 4 { TenthNext(i - 4); }
  }

  lemma BegunNext(i: nat)
    ensures Begun(0, 0) == map[] && Begun(i, 0)[i := []] == Begun(i + 1, 0)
    ensures forall k: nat, id: nat :: id < 3 ==> id in Begun(3, k) && Begun(3, k)[id] == Tenth(id, k)
  {
    assert Tenth(i, 0) == [];
  }

  lemma TenthNext(k: nat)
    requires k < 30
    ensures Begun(3, k)[k / 10 := Tenth(k / 10, k) + [100 + k]] == Begun(3, k + 1)
  {
    var id := k / 10;
    assert Tenth(id, k + 1) == Tenth(id, k) + [100 + k];
    forall x: nat | x < 3 && x != id ensures Tenth(x, k) == Tenth(x, k + 1) {
    }
  }

  lemma FullAllowed(i: nat)
    requires 0 < i < 35
    ensures TenBlocksAt(Layout(2, 31), 1000, FullEvent(i).call, FullId(i), WrittenAt(FullEvents(), FullIds(), FullBooks(), i))
  {
    FullWritten(i);
    hide WrittenAt, FullEvents, FullIds, FullBooks, Changes, Blocks, Tenth, Begun;
    if i >= 4 {
      BegunNext(0);
      TenthRoom(i - 4);
    } else {
      NotBegun(i);
    }
  }

  lemma NotBegun(i: nat)
    requires 0 < i
    ensures i - 1 !in Begun(i - 1, 0)
  {
  }

  lemma TenthRoom(k: nat)
    requires k <= 30
    ensures if k < 30 then |Blocks(Tenth(k / 10, k) + [100 + k])| <= 10 else |Blocks(Tenth(0, k) + [100])| <= 10
  {
    hide Blocks;
    if k < 30 {
      BlocksAtMost(Tenth(k / 10, k) + [100 + k]);
    } else {
      BlocksAtMost(Tenth(0, k));
      BlocksMore(Tenth(0, k), 100);
      assert Tenth(0, k)[0] == 100;
    }
  }

  lemma FullRun()
    ensures var g, books := Layout(2, 31), FullBooks();
            && Books(g, 1000, 31, FullEvents(), books) && TenBlocks(g, 1000, FullEvents(), FullIds(), books)
            && Panics(g, 1000, 31, FullEvents()[34].call, books[34])
  {
    hide Moves, TenBlocksAt, WrittenAt, FullEvent, FullBook, FullId, Changes;
    var g, events, ids, books := Layout(2, 31), FullEvents(), FullIds(), FullBooks();
    forall i | 0 <= i < 35 ensures Moves(g, 1000, 31, events[i], books[i], books[i + 1]) {
      FullMoves(i);
    }
    forall i | 0 <= i < 35 && events[i].Do? && books[i].up
      ensures TenBlocksAt(g, 1000, events[i].call, ids[i], WrittenAt(events, ids, books, i))
    {
      FullFirst();
      FullAllowed(i);
    }
    FullFirst();
    ChangesCount(30);
  }

  lemma FullFirst()
    ensures FullEvent(0).Boot? && FullBook(0) == Book(false, 0, [], [], [])
    ensures FullEvent(34) == Do(Write(100, Plain([])), NoCrash) && FullBook(34) == Book(true, 3, Changes(30), [], [])
  {
  }

  /** A machine that runs operations, crashes and boots. */
  class Computer {
    const g: Layout
    const nbuf: nat
    var up: bool
    var disk: Disk  // while the machine is down
    var log: Log    // while it is up
    ghost var states: seq<Disk>          // the committed states
    ghost var groups: seq<seq<Change>>   // what each commit changed
    ghost var acked: seq<seq<Change>>    // the groups whose commit returned
    ghost var pending: seq<Change>       // what has been changed since the last commit

    ghost predicate Valid()
      reads this, log, log.cache
    {
      && log.g == g && Chain(g, states, groups) && acked <= groups
      && if up then
           && log.Idle() && log.history == states
           && SameFiles(g, log.cache.Sees().cur, Apply(states[|states| - 1], pending))
           && Nos(log.lh) == Dirtied(pending) && |log.cache.bufs| == nbuf
         else
           pending == [] && Recovers(g, disk, states[|states| - 1])
    }

    ghost function Account(): Book
      reads this, log
    {
      Book(up, if up then log.outstanding else 0, pending, groups, acked)
    }

    /** The number of blocks of the disk. */
    ghost function Size(): nat
      reads this
      requires |states| > 0
    {
      |states[0]|
    }

    /** A machine that is off, with a disk in any state that recovery can start from. */
    constructor (g: Layout, nbuf: nat, disk: Disk, ghost want: Disk)
      requires Recovers(g, disk, want)
      ensures Valid() && states == [want] && Account() == Book(false, 0, [], [], []) && this.g == g && this.nbuf == nbuf
      ensures Size() == |disk|
      ensures fresh(log) && fresh(log.cache)
    {
      this.g, this.nbuf, this.disk, up := g, nbuf, disk, false;
      states, groups, acked, pending := [want], [], [], [];
      var cache := new Cache(disk, nbuf);
      log := new Log(g, cache, [want]);
    }

    /** Starts the machine on the disk it was left with and recovers. The recovery may crash or panic as well. */
    method Start(crash: Crash)
      requires Valid() && !up
      modifies this
      ensures Valid() && fresh(log) && fresh(log.cache)
      ensures states == old(states) && Moves(g, Size(), nbuf, Boot(crash), old(Account()), Account()) && Size() == old(Size())
    {
      hide Recovers, Chain, ViewOf, Quiet, SameFiles, Coherent, Loaded, Extends, Nos, Dirtied, Apply;
      NothingDirty();
      ChainNonempty(g, states, groups);
      var cache := new Cache(disk, nbuf);
      log := new Log(g, cache, states);
      FitsWhenGood(g, disk, states[|states| - 1]);
      assert cache.Sees() == Fresh(disk);
      ghost var start := log.Record();
      var ok := log.RecoverFromLog();
      if ok && crash.NoCrash? {
        up := true;
        QuietFiles(g, log.cache.Sees(), states[|states| - 1]);
      } else {
        disk, states := PowerOff(log, disk, 0, start, if crash.NoCrash? then |log.cache.images| else crash.writes);
        assert states == states[..|states|] == start.history;
      }
    }

    /** Makes one call on the log. What is not legal for a caller, as ending an operation that was not begun or
        writing into the log, is not done. */
    method Issue(call: Call) returns (ok: bool)
      requires Valid() && up
      modifies this`states, this`groups, this`pending, log, log.cache
      ensures log.g == g && log.Sound() && Extends(old(log.Record()), log.Record())
      ensures log.history == states && Chain(g, states, groups)
      ensures groups == old(groups) || (ok && call.End? && old(log.outstanding) == 1 && groups == old(groups) + [old(pending)])
      ensures old(states) <= states
      ensures ok && call.End? && old(log.outstanding) == 1 && old(pending) != [] ==>
                Marks(old(log.Record()), log.Record(), |Dirtied(old(pending))|) && groups == old(groups) + [old(pending)]
      ensures !(ok && call.End? && old(log.outstanding) == 1 && old(pending) != []) ==> groups == old(groups)
      ensures ok <==> !Panics(g, Size(), nbuf, call, old(Account()))
      ensures ok ==> Valid() && up && Returned(g, Size(), call, old(Account()), Known(call, old(Account()), Account()))
    {
      hide Recovers, ViewOf, Quiet, Apply, Extends, SameFiles, Chain, Coherent, Loaded, Dirtied, Nos, Layout.Loggable;
      SizeOfDisk(g, states, groups, log.cache.disk);
      ExtendsItself(log.Record());
      Tally(g, log.cache.Sees(), log.lh, pending);
      match call {
        case Begin => ok := IssueBegin();
        case Write(b, c) => ok := IssueWrite(b, c);
        case End => ok := IssueEnd();
        case Read(b) => ok := IssueRead(b);
      }
    }

    method IssueBegin() returns (ok: bool)
      requires Valid() && up
      modifies log
      ensures ok && Valid() && log.Record() == old(log.Record())
      ensures log.outstanding == old(log.outstanding)
                + if |old(log.lh)| + (old(log.outstanding) + 1) * 10 <= 30 then 1 else 0
    {
      hide Recovers, ViewOf, Quiet, Apply, SameFiles;
      ok := true;
      var granted := log.BeginOp();
    }

    method IssueRead(b: nat) returns (ok: bool)
      requires Valid() && up
      modifies log.cache
      ensures log.Sound() && log.Record() == old(log.Record())
      ensures ok <==> b >= |old(log.cache.disk)| || b in old(log.lh) || |old(log.lh)| < nbuf
      ensures ok ==> Valid()
    {
      hide Recovers, ViewOf, Quiet, Apply, SameFiles;
      ok := true;
      if b < |log.cache.disk| {
        var c;
        ok, c := log.ReadBlock(b);
      }
    }

    method IssueWrite(b: nat, c: Content) returns (ok: bool)
      requires Valid() && up
      modifies this`pending, log, log.cache
      ensures log.g == g && log.Sound() && log.Record() == old(log.Record())
      ensures log.history == states && Chain(g, states, groups)
      ensures ok <==> b >= |old(log.cache.disk)| || g.InLog(b)
                      || (|old(log.lh)| < LOGSIZE && |old(log.lh)| < g.size - 1 && old(log.outstanding) >= 1
                          && (b in old(log.lh) || |old(log.lh)| < nbuf))
      ensures ok ==> Valid() && |log.cache.disk| == old(|log.cache.disk|) && log.outstanding == old(log.outstanding)
      ensures ok && b < |log.cache.disk| && !g.InLog(b) ==> pending == old(pending) + [Change(b, c)] && log.outstanding >= 1
      ensures b >= |old(log.cache.disk)| || g.InLog(b) ==> pending == old(pending)
    {
      hide Recovers, ViewOf, Quiet, Apply, Nos, Dirtied;
      ok := true;
      if b < |log.cache.disk| && !g.InLog(b) {
        ApplyOne(states[|states| - 1], pending, b, c);
        DirtiedMore(log.lh, pending, b, c);
        ok := log.LogWrite(b, c);
        pending := pending + [Change(b, c)];
      }
    }

    method IssueEnd() returns (ok: bool)
      requires Valid() && up
      modifies this`states, this`groups, this`pending, log, log.cache
      ensures log.g == g && log.Sound() && Extends(old(log.Record()), log.Record())
      ensures log.history == states && Chain(g, states, groups)
      ensures groups == old(groups) || (ok && old(log.outstanding) == 1 && groups == old(groups) + [old(pending)])
      ensures old(states) <= states
      ensures ok && old(log.outstanding) == 1 && old(pending) != [] ==> Marks(old(log.Record()), log.Record(), |Dirtied(old(pending))|)
      ensures ok <==> old(log.outstanding) != 1 || old(log.lh) == [] || |old(log.lh)| < nbuf
      ensures ok ==> Valid() && log.outstanding == old(log.outstanding) - if old(log.outstanding) > 0 then 1 else 0
      ensures ok && old(log.outstanding) == 1 ==>
                pending == [] && groups == if old(pending) == [] then old(groups) else old(groups) + [old(pending)]
      ensures ok && old(log.outstanding) != 1 ==> pending == old(pending) && groups == old(groups)
    {
      hide Recovers, ViewOf, Apply, Extends, SameFiles, Nos, Dirtied, Coherent, Loaded;
      ExtendsItself(log.Record());
      Tally(g, log.cache.Sees(), log.lh, pending);
      NothingDirty();
      ok := true;
      if log.outstanding > 0 {
        ghost var last := log.outstanding == 1;
        ok := log.EndOp();
        if log.history != states {
          states, groups, pending := log.history, groups + [pending], [];
        }
        if ok && last {
          QuietFiles(g, log.cache.Sees(), states[|states| - 1]);
        }
      }
    }

    /** One call, which the machine may not survive: it may crash, or the kernel may panic. Either way every group
        acknowledged so far stays committed. */
    method Perform(call: Call, crash: Crash)
      requires Valid() && up
      modifies this, log, log.cache
      ensures Valid() && log == old(log) && log.cache == old(log.cache)
      ensures old(states) <= states && Moves(g, Size(), nbuf, Do(call, crash), old(Account()), Account())
    {
      EmptyHeader(g, log.cache.disk, states[|states| - 1]);
      var n0, disk0 := |log.cache.images|, log.cache.disk;
      ghost var start := log.Record();
      assert |states| == |groups| + 1;
      hide Recovers, ViewOf, Quiet, Apply, Extends, SameFiles;
      var last := log.outstanding == 1;
      var ok := Issue(call);
      if ok && crash.NoCrash? {
        if call.End? && last {
          Acknowledge();
        }
      } else {
        ghost var all := groups;
        Halt(disk0, n0, start, if crash.NoCrash? then |log.cache.images| else crash.writes);
        assert groups == old(groups) || groups == all;
      }
    }

    /** The commit has returned. */
    method Acknowledge()
      requires Valid()
      modifies this`acked
      ensures Valid() && acked == groups
    {
      acked := groups;
    }

    /** The machine stops after `k` of the block writes made since the log's trail was `start`. */
    method Halt(disk0: Disk, n0: nat, ghost start: Trail, k: nat)
      requires log.g == g && log.Sound() && n0 == |start.images| == |start.groups| && Extends(start, log.Record())
      requires |start.history| > 0 && Recovers(g, disk0, start.history[|start.history| - 1])
      requires log.history == states && Chain(g, states, groups) && |acked| < |start.history| && acked <= groups
      modifies this`up, this`disk, this`states, this`groups, this`pending
      ensures var m := |log.cache.images| - n0;
              m >= 0 && |states| == if m == 0 || k == 0 then |start.history| else log.groups[n0 + (if k < m then k else m) - 1] + 1
      ensures Valid() && !up && start.history <= states && 1 <= |states| <= |old(groups)| + 1
      ensures groups == old(groups)[..|states| - 1]
    {
      hide Recovers, Extends, ViewOf;
      disk, states := PowerOff(log, disk0, n0, start, k);
      ChainPrefix(g, log.history, groups, |states| - 1);
      groups, pending, up := groups[..|states| - 1], [], false;
    }

    /** The power fails between two calls. */
    method PowerFailure()
      requires Valid() && up
      modifies this
      ensures Valid() && !up && log == old(log) && states == old(states)
      ensures Account() == Book(false, 0, [], old(groups), old(acked))
    {
      EmptyHeader(g, log.cache.disk, states[|states| - 1]);
      up, disk, pending := false, log.cache.disk, [];
    }
  }

  /** The blocks to be logged are those changed, each once. */
  lemma Tally(g: Layout, v: View, blocks: seq<int>, changes: seq<Change>)
    requires Quiet(g, v, blocks) && Nos(blocks) == Dirtied(changes)
    ensures |Dirtied(changes)| == |blocks| && (changes == [] <==> blocks == [])
    ensures forall b :: b in blocks <==> b in Dirtied(changes)
  {
    NosCount(blocks);
    assert changes != [] ==> changes[0].b in Dirtied(changes);
  }

  lemma NothingDirty()
    ensures Nos([]) == Dirtied([])
  {
  }

  lemma DirtiedMore(blocks: seq<int>, changes: seq<Change>, b: nat, c: Content)
    requires Nos(blocks) == Dirtied(changes)
    ensures Nos(if b in blocks then blocks else blocks + [b]) == Dirtied(changes + [Change(b, c)])
  {
    var more := changes + [Change(b, c)];
    assert Dirtied(more) == Dirtied(changes) + {b} by {
      assert more[|changes|].b == b;
      assert forall i :: 0 <= i < |changes| ==> more[i] == changes[i];
    }
    if b !in blocks {
      assert (blocks + [b])[|blocks|] == b;
      assert forall i :: 0 <= i < |blocks| ==> (blocks + [b])[i] == blocks[i];
      assert Nos(blocks + [b]) == Nos(blocks) + {b};
    }
  }

  lemma ChainNonempty(g: Layout, states: seq<Disk>, groups: seq<seq<Change>>)
    requires Chain(g, states, groups)
    ensures |states| == |groups| + 1
  {
  }

  /** All committed states, and the disk, are of one size. */
  lemma {:induction false} ChainSizes(g: Layout, states: seq<Disk>, groups: seq<seq<Change>>, i: nat)
    requires Chain(g, states, groups) && i < |states|
    ensures |states[i]| == |states[0]|
  {
    if i > 0 {
      ChainSizes(g, states, groups, i - 1);
      assert SameFiles(g, states[i - 1 + 1], Apply(states[i - 1], groups[i - 1]));
    }
  }

  lemma SizeOfDisk(g: Layout, states: seq<Disk>, groups: seq<seq<Change>>, disk: Disk)
    requires Chain(g, states, groups) && |states[|states| - 1]| == |disk|
    ensures |disk| == |states[0]|
  {
    ChainSizes(g, states, groups, |states| - 1);
  }

  function Flatten(groups: seq<seq<Change>>): seq<Change> {
    if groups == [] then [] else Flatten(groups[..|groups| - 1]) + groups[|groups| - 1]
  }

  lemma {:induction false} ApplySameFiles(g: Layout, d: Disk, e: Disk, changes: seq<Change>)
    requires SameFiles(g, d, e)
    ensures SameFiles(g, Apply(d, changes), Apply(e, changes))
  {
    if changes != [] {
      ApplySameFiles(g, d, e, changes[..|changes| - 1]);
    }
  }

  lemma {:induction false} ApplyConcat(d: Disk, a: seq<Change>, b: seq<Change>)
    ensures Apply(d, a + b) == Apply(Apply(d, a), b)
  {
    if b == [] {
      assert a + b == a;
    } else {
      assert (a + b)[..|a + b| - 1] == a + b[..|b| - 1];
      ApplyConcat(d, a, b[..|b| - 1]);
    }
  }

  /** The last committed state is the first one with all committed groups applied in order. */
  lemma {:induction false} ChainMeaning(g: Layout, states: seq<Disk>, groups: seq<seq<Change>>)
    requires Chain(g, states, groups)
    ensures SameFiles(g, states[|groups|], Apply(states[0], Flatten(groups)))
  {
    if groups != [] {
      var n := |groups| - 1;
      ChainPrefix(g, states, groups, n);
      ChainMeaning(g, states[..n + 1], groups[..n]);
      ApplySameFiles(g, states[n], Apply(states[0], Flatten(groups[..n])), groups[n]);
      ApplyConcat(states[0], Flatten(groups[..n]), groups[n]);
    }
  }

  /** Crash atomicity over whole runs: after any calls, crashes and reboots, with each crash after any number of block
      writes, the changes that recovery yields are those of whole groups in the order of their commits, and among them
      are all groups whose commit returned. */
  method Run(g: Layout, nbuf: nat, disk: Disk, ghost want: Disk, events: seq<Event>)
    returns (c: Computer, ghost books: seq<Book>)
    requires Recovers(g, disk, want)
    ensures fresh(c) && c.Valid() && c.g == g && c.nbuf == nbuf
    ensures Books(g, |want|, nbuf, events, books) && books[|events|] == c.Account()
    ensures c.acked <= c.groups
    ensures !c.up ==> Recovers(g, c.disk, Apply(want, Flatten(c.groups)))
    ensures c.up ==> SameFiles(g, c.log.cache.Sees().cur, Apply(want, Flatten(c.groups + [c.pending])))
  {
    hide Recovers, Apply, ViewOf, Quiet, Moves;
    c := new Computer(g, nbuf, disk, want);
    books := [c.Account()];
    for i := 0 to |events|
      invariant fresh(c) && fresh(c.log) && fresh(c.log.cache)
      invariant c.Valid() && c.g == g && c.nbuf == nbuf && |c.states| > 0 && c.states[0] == want
      invariant Books(g, |want|, nbuf, events[..i], books) && books[i] == c.Account()
    {
      ghost var before := c.Account();
      match events[i] {
        case Do(call, crash) =>
          if c.up {
            c.Perform(call, crash);
          } else {
            NothingMoves(g, |want|, nbuf, events[i], before);
          }
        case Boot(crash) =>
          if c.up {
            c.PowerFailure();
          }
          ghost var off := c.Account();
          c.Start(crash);
          BootFromOff(g, |want|, nbuf, crash, before, off, c.Account());
      }
      BooksNext(g, |want|, nbuf, events, i, books, c.Account());
      books := books + [c.Account()];
    }
    assert events[..|events|] == events;
    RunMeaning(g, c.states, c.groups, c.pending, c.up, c.disk, c.log.cache.Sees().cur);
  }

  lemma NothingMoves(g: Layout, n: nat, nbuf: nat, e: Event, a: Book)
    requires e.Do? && !a.up
    ensures Moves(g, n, nbuf, e, a, a)
  {
  }

  lemma BootFromOff(g: Layout, n: nat, nbuf: nat, crash: Crash, a: Book, off: Book, b: Book)
    requires (if a.up then off == Book(false, 0, [], a.groups, a.acked) else off == a) && Moves(g, n, nbuf, Boot(crash), off, b)
    ensures Moves(g, n, nbuf, Boot(crash), a, b)
  {
  }

  lemma BooksNext(g: Layout, n: nat, nbuf: nat, events: seq<Event>, i: nat, books: seq<Book>, b: Book)
    requires i < |events| && Books(g, n, nbuf, events[..i], books) && Moves(g, n, nbuf, events[i], books[i], b)
    ensures Books(g, n, nbuf, events[..i + 1], books + [b])
  {
    hide Moves;
  }

  lemma RunMeaning(g: Layout, states: seq<Disk>, groups: seq<seq<Change>>, pending: seq<Change>, up: bool, disk: Disk,
                   cur: Disk)
    requires Chain(g, states, groups)
    ensures !up && Recovers(g, disk, states[|groups|]) ==> Recovers(g, disk, Apply(states[0], Flatten(groups)))
    ensures SameFiles(g, cur, Apply(states[|groups|], pending)) ==>
              SameFiles(g, cur, Apply(states[0], Flatten(groups + [pending])))
  {
    ChainMeaning(g, states, groups);
    ApplySameFiles(g, states[|groups|], Apply(states[0], Flatten(groups)), pending);
    ApplyConcat(states[0], Flatten(groups), pending);
    assert (groups + [pending])[..|groups|] == groups;
  }

  lemma FitsWhenGood(g: Layout, d: Disk, want: Disk)
    requires Recovers(g, d, want)
    ensures g.Fits(|d|) && |want| == |d|
  {
  }

  /** With nothing left to log, the cache shows what has been committed. */
  lemma QuietFiles(g: Layout, v: View, want: Disk)
    requires Quiet(g, v, []) && |want| == |v.disk|
    requires forall b :: 0 <= b < |v.disk| && !g.InLog(b) ==> v.disk[b] == want[b]
    ensures SameFiles(g, v.cur, Apply(want, []))
  {
  }
}
