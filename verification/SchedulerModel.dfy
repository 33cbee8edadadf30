/** The process table, the three feedback queues and the stride passes of the scheduler, as values, and what each kernel
    entry does to them. There are no threads and one processor. */
module SchedulerModel {
  const NPROC := 64
  const STRIDENUM := 10000.0
  const PASS_LIMIT := 10000000.0
  const INIT := 0

  datatype PState = UNUSED | EMBRYO | SLEEPING | RUNNABLE | RUNNING | ZOMBIE

  datatype Mode = MLFQ | STRIDE

  /** Was the running process taken from a queue or for its pass value? */
  datatype Via = ByQueue | ByPass

  datatype Proc = Proc(state: PState, pid: int, parent: int, chan: int, killed: bool, level: nat, slice: seq<int>,
                       wasRun: bool, share: real, stride: real, pass: real, isStride: bool)

  const NOBODY := Proc(UNUSED, 0, -1, 0, false, 0, [0, 0, 0], false, 0.0, 0.0, 0.0, false)

  /** `mlfq[l][i]` is a process or -1 for an empty slot; `current` is the running process or -1; the channel of process p is
      p itself. */
  datatype Kernel = Kernel(procs: seq<Proc>, mlfq: seq<seq<int>>, head: int, ticksCount: nat, nextpid: int,
                           current: int, via: Via, mode: Mode, check: bool, inStride: bool,
                           mlfqStride: real, mlfqPass: real)

  predicate Shaped(k: Kernel) {
    && |k.procs| == NPROC && |k.mlfq| == 3 && -1 <= k.current < NPROC
    && (forall l :: 0 <= l < 3 ==> |k.mlfq[l]| == NPROC)
    && (forall l, i :: 0 <= l < 3 && 0 <= i < NPROC ==> -1 <= k.mlfq[l][i] < NPROC)
    && (forall p :: 0 <= p < NPROC ==> k.procs[p].level < 3 && |k.procs[p].slice| == 3)
  }

  type Kern = k: Kernel | Shaped(k)
    witness Kernel(seq(NPROC, _ => NOBODY), seq(3, _ => seq(NPROC, _ => -1)), 0, 0, 1, -1, ByQueue, MLFQ, false, false, 0.0, 0.0)

  type Slot = p: int | 0 <= p < NPROC

  predicate Good(x: Proc) {
    x.level < 3 && |x.slice| == 3
  }

  // ----- queues -----

  /** The first place of `x` in a queue from `i` on, -1 if there is none. */
  function FindFrom(row: seq<int>, x: int, i: nat): (r: int)
    requires i <= |row|
    ensures r == -1 || (i <= r < |row| && row[r] == x && x !in row[i..r])
    ensures r == -1 ==> x !in row[i..]
    decreases |row| - i
  {
    if i == |row| then -1 else if row[i] == x then i else FindFrom(row, x, i + 1)
  }

  function SetProc(k: Kern, p: Slot, x: Proc): Kern
    requires Good(x)
  {
    k.(procs := k.procs[p := x])
  }

  /** Puts `p` into the first empty slot of level `l`. */
  function Inserted(k: Kern, l: nat, p: Slot): Kern
    requires l < 3
  {
    var i := FindFrom(k.mlfq[l], -1, 0);
    if i < 0 then k else k.(mlfq := k.mlfq[l := k.mlfq[l][i := p]])
  }

  function Deleted(k: Kern, l: nat, p: Slot): Kern
    requires l < 3
  {
    var i := FindFrom(k.mlfq[l], p, 0);
    if i < 0 then k else k.(mlfq := k.mlfq[l := k.mlfq[l][i := -1]])
  }

  // ----- what the kernel does -----

  /** Wakes those of the first `n` processes that sleep on `chan`. A process that wakes up has lost its share. */
  function Woken(k: Kern, chan: int, n: nat): Kern
    requires n <= NPROC
  {
    if n == 0 then k else
    var u := Woken(k, chan, n - 1);
    var x := u.procs[n - 1];
    if x.state.SLEEPING? && x.chan == chan then WokenOne(u, n - 1) else u
  }

  function WokenOne(k: Kern, p: Slot): Kern {
    var x := k.procs[p];
    Inserted(SetProc(k, p, x.(state := RUNNABLE, isStride := false)), x.level, p)
  }

  /** Raises those of the first `n` processes that wait for the processor and have run to the highest level. */
  function Boosted(k: Kern, n: nat): Kern
    requires n <= NPROC
  {
    if n == 0 then k else BoostedOne(Boosted(k, n - 1), n - 1)
  }

  function BoostedOne(k: Kern, p: Slot): Kern {
    var x := k.procs[p];
    if x.state.RUNNABLE? && x.wasRun then
      var u := if x.level > 0 then Inserted(SetProc(Deleted(k, x.level, p), p, x.(level := 0)), 0, p) else k;
      SetProc(u, p, u.procs[p].(slice := [0, 0, 0]))
    else SetProc(k, p, x.(wasRun := false))
  }

  function SliceLimit(level: nat): int {
    if level == 0 then 5 else if level == 1 then 10 else 20
  }

  /** One clock tick of the running process: count it, boost if it is time, and demote the process if its slice is used up. */
  function Ticked(k: Kern): Kern
    requires k.current != -1
  {
    var k1 := Counted(k);
    var k2 := if k1.ticksCount == 100 then Boosted(k1, NPROC).(ticksCount := 0) else k1;
    BoostFields(k1, NPROC);
    Demoted(k2)
  }

  function Counted(k: Kern): (u: Kern)
    requires k.current != -1
    ensures u.current == k.current
  {
    var x := k.procs[k.current];
    SetProc(k, k.current, x.(slice := x.slice[x.level := x.slice[x.level] + 1]))
  }

  /** Boosting changes the process table and the queues only. */
  lemma {:induction false} BoostFields(k: Kern, n: nat)
    requires n <= NPROC
    ensures Boosted(k, n) == k.(procs := Boosted(k, n).procs, mlfq := Boosted(k, n).mlfq)
  {
    if n > 0 { BoostFields(k, n - 1); }
  }

  function Demoted(k: Kern): Kern
    requires k.current != -1
  {
    var p, x := k.current, k.procs[k.current];
    if x.slice[x.level] != SliceLimit(x.level) then k
    else if x.level < 2 then
      Inserted(SetProc(Deleted(k, x.level, p), p, x.(level := x.level + 1, slice := x.slice[x.level + 1 := 0])), x.level + 1, p)
    else SetProc(k, p, x.(slice := x.slice[2 := 0])).(head := (k.head + 1) % NPROC)
  }

  /** A process that has used up its slice on the lowest level is put in again, and the head of the queue is taken out. */
  function Requeued(k: Kern, p: Slot): (v: Kern)
    ensures v.current == k.current
  {
    var u := HeadDeleted(Inserted(k, 2, p));
    SetProc(u, p, u.procs[p].(slice := u.procs[p].slice[2 := 0]))
  }

  function HeadDeleted(k: Kern): Kern {
    if 0 <= k.head < NPROC then k.(mlfq := k.mlfq[2 := k.mlfq[2][k.head := -1]], head := (k.head + 1) % NPROC) else k
  }

  /** The search of one level from slot `i` on: the process to run, or -1, and what the search changes. */
  function SelectFrom(k: Kern, l: nat, i: nat): (r: (Kern, int))
    requires l < 3 && i <= NPROC
    ensures -1 <= r.1 < NPROC
    decreases NPROC - i
  {
    if i == NPROC then (k, -1) else
    var p := k.mlfq[l][i];
    if p != -1 && k.procs[p].state.RUNNABLE? then
      if k.procs[p].isStride then SelectFrom(k, l, i + 1)
      else if l == 2 && k.procs[p].slice[2] == 20 then
        var u := Requeued(k.(check := true), p);
        SelectFrom(u.(head := (u.head + 1) % NPROC), l, i + 1)
      else (SetProc(k.(check := true), p, k.procs[p].(wasRun := true)), p)
    else SelectFrom(if l == 2 then k.(head := (k.head + 1) % NPROC) else k, l, i + 1)
  }

  /** One step of the search. */
  lemma SelectUnfolds(k: Kern, l: nat, i: nat)
    requires l < 3 && i < NPROC
    ensures var p := k.mlfq[l][i];
            SelectFrom(k, l, i) ==
              if p != -1 && k.procs[p].state.RUNNABLE? then
                if k.procs[p].isStride then SelectFrom(k, l, i + 1)
                else if l == 2 && k.procs[p].slice[2] == 20 then
                  var u := Requeued(k.(check := true), p);
                  SelectFrom(u.(head := (u.head + 1) % NPROC), l, i + 1)
                else (SetProc(k.(check := true), p, k.procs[p].(wasRun := true)), p)
              else SelectFrom(if l == 2 then k.(head := (k.head + 1) % NPROC) else k, l, i + 1)
  {
    hide Requeued;
  }

  lemma SelectEnds(k: Kern, l: nat)
    requires l < 3
    ensures SelectFrom(k, l, NPROC) == (k, -1)
  {
  }

  /** The search of the levels from `l` on. */
  function SelectLevels(k: Kern, l: nat): (r: (Kern, int))
    requires l <= 3
    ensures -1 <= r.1 < NPROC
    decreases 3 - l
  {
    if l == 3 then (k, -1) else
    var r := SelectFrom(k, l, 0);
    if r.1 != -1 then r else SelectLevels(r.0, l + 1)
  }

  function Select(k: Kern): (Kern, int) {
    SelectLevels(k.(check := false), 0)
  }

  /** The processor goes to the process that the queues give, if they give one. */
  function QueueTurn(k: Kern): Kern {
    var r := Select(k.(inStride := false));
    if r.1 == -1 then r.0 else Dispatched(r.0, r.1, ByQueue)
  }

  function Dispatched(k: Kern, p: Slot, via: Via): Kern {
    SetProc(k, p, k.procs[p].(state := RUNNING)).(current := p, via := via)
  }

  /** What the scan of the process table finds out about the stride processes that wait for the processor. */
  datatype Scan = Scan(minpass: real, index: int, strideSum: real, shares: real)

  function Scanned(procs: seq<Proc>, n: nat): (s: Scan)
    requires n <= |procs|
    ensures 0 <= s.index && (n > 0 ==> s.index < n)
  {
    if n == 0 then Scan(PASS_LIMIT, 0, 0.0, 0.0) else
    var s, x := Scanned(procs, n - 1), procs[n - 1];
    if !Waiting(x) then s else
    var t := if x.pass < s.minpass then s.(minpass := x.pass, index := n - 1) else s;
    t.(strideSum := t.strideSum + x.stride, shares := t.shares + ShareOf(x.stride))
  }

  /** A stride process that waits for the processor. */
  predicate Waiting(x: Proc) {
    x.isStride && x.state.RUNNABLE?
  }

  function ShareOf(stride: real): real {
    if stride == 0.0 then 0.0 else STRIDENUM / stride
  }

  /** The stride of the queues together. (Shares never add up to 100.) */
  function QueueStride(shares: real): real {
    if shares == 100.0 then 0.0 else STRIDENUM / (100.0 - shares)
  }

  /** One round of the scheduler. */
  function Decided(k: Kern): Kern {
    if k.mode.MLFQ? then QueueTurn(k) else
    var s, k1 := Scanned(k.procs, NPROC), k.(inStride := true);
    if s.strideSum == 0.0 then QueueTurn(k1.(mlfqStride := 0.0, mlfqPass := 0.0, mode := MLFQ))
    else if k.mlfqPass < (if s.minpass == PASS_LIMIT then 0.0 else s.minpass) then
      var k2 := k1.(mlfqStride := QueueStride(s.shares));
      if k.check then QueueTurn(k2) else k2.(mlfqPass := k2.mlfqPass + k2.mlfqStride)
    else Dispatched(k1, s.index, ByPass)
  }

  /** The running process has given up the processor: it, or the queues, are charged for the turn. */
  function Charged(k: Kern): Kern
    requires k.current != -1
  {
    var x := k.procs[k.current];
    if k.via.ByPass? then SetProc(k, k.current, x.(pass := x.pass + x.stride)).(current := -1)
    else k.(mlfqPass := k.mlfqPass + k.mlfqStride, current := -1)
  }

  function Yielded(k: Kern): Kern
    requires k.current != -1
  {
    Charged(SetProc(k, k.current, k.procs[k.current].(state := RUNNABLE)))
  }

  /** The clock interrupts the running process. */
  function Interrupted(k: Kern): (r: Kern)
    requires k.current != -1
  {
    if k.inStride then Yielded(k) else
    var u := Ticked(k.(ticksCount := k.ticksCount + 1));
    TickKeepsCurrent(k.(ticksCount := k.ticksCount + 1));
    Yielded(u)
  }

  lemma TickKeepsCurrent(k: Kern)
    requires k.current != -1
    ensures Ticked(k).current == k.current
  {
    hide Counted, Boosted;
    BoostFields(Counted(k), NPROC);
  }

  /** The running process leaves its queue. */
  function Left(k: Kern, state: PState): Kern
    requires k.current != -1
  {
    var p := k.current;
    var u := SetProc(k, p, k.procs[p].(state := state));
    Charged(Deleted(u, u.procs[p].level, p))
  }

  function Slept(k: Kern, chan: int): Kern
    requires k.current != -1
  {
    Left(SetProc(k, k.current, k.procs[k.current].(chan := chan)), SLEEPING)
  }

  /** The children among the first `n` processes are given to the first process, which is woken for those that have ended. */
  function Reparented(k: Kern, parent: int, n: nat): Kern
    requires n <= NPROC
  {
    if n == 0 then k else ReparentedOne(Reparented(k, parent, n - 1), parent, n - 1)
  }

  function ReparentedOne(k: Kern, parent: int, p: Slot): Kern {
    var x := k.procs[p];
    if x.parent != parent then k else
    var u := SetProc(k, p, x.(parent := INIT));
    if x.state.ZOMBIE? then Woken(u, INIT, NPROC) else u
  }

  lemma {:induction false} WokenFields(k: Kern, chan: int, n: nat)
    requires n <= NPROC
    ensures Woken(k, chan, n) == k.(procs := Woken(k, chan, n).procs, mlfq := Woken(k, chan, n).mlfq)
  {
    if n > 0 { WokenFields(k, chan, n - 1); }
  }

  lemma {:induction false} ReparentedFields(k: Kern, parent: int, n: nat)
    requires n <= NPROC
    ensures Reparented(k, parent, n) == k.(procs := Reparented(k, parent, n).procs, mlfq := Reparented(k, parent, n).mlfq)
  {
    if n > 0 {
      ReparentedFields(k, parent, n - 1);
      var u := Reparented(k, parent, n - 1);
      WokenFields(SetProc(u, n - 1, u.procs[n - 1].(parent := INIT)), INIT, NPROC);
    }
  }

  /** The running process ends. (The first process may not.) */
  function Exited(k: Kern): Kern
    requires k.current != -1
  {
    var p := k.current;
    if p == INIT then k else
    var u := Reparented(Woken(k, k.procs[p].parent, NPROC), p, NPROC);
    WokenFields(k, k.procs[p].parent, NPROC);
    ReparentedFields(Woken(k, k.procs[p].parent, NPROC), p, NPROC);
    Left(u, ZOMBIE)
  }

  /** The first process from `i` on that satisfies the state, -1 if there is none. */
  function FirstUnused(procs: seq<Proc>, i: nat): (r: int)
    requires i <= |procs|
    ensures if r == -1 then forall j :: i <= j < |procs| ==> !procs[j].state.UNUSED?
            else i <= r < |procs| && procs[r].state.UNUSED? && forall j :: i <= j < r ==> !procs[j].state.UNUSED?
    decreases |procs| - i
  {
    if i == |procs| then -1 else if procs[i].state.UNUSED? then i else FirstUnused(procs, i + 1)
  }

  predicate EndedChild(x: Proc, parent: int) {
    x.state.ZOMBIE? && x.parent == parent
  }

  /** The first process from `i` on that is an ended child, -1 if there is none. */
  function FirstZombie(procs: seq<Proc>, parent: int, i: nat): (r: int)
    requires i <= |procs|
    ensures if r == -1 then forall j :: i <= j < |procs| ==> !EndedChild(procs[j], parent)
            else i <= r < |procs| && EndedChild(procs[r], parent) && forall j :: i <= j < r ==> !EndedChild(procs[j], parent)
    decreases |procs| - i
  {
    if i == |procs| then -1
    else if EndedChild(procs[i], parent) then i
    else FirstZombie(procs, parent, i + 1)
  }

  function FirstPid(procs: seq<Proc>, pid: int, i: nat): (r: int)
    requires i <= |procs|
    ensures if r == -1 then forall j :: i <= j < |procs| ==> procs[j].pid != pid
            else i <= r < |procs| && procs[r].pid == pid && forall j :: i <= j < r ==> procs[j].pid != pid
    decreases |procs| - i
  {
    if i == |procs| then -1 else if procs[i].pid == pid then i else FirstPid(procs, pid, i + 1)
  }

  predicate HasChild(procs: seq<Proc>, parent: int) {
    exists i :: 0 <= i < |procs| && procs[i].parent == parent
  }

  /** Waits for a child to end: takes the process that has, or sleeps if there are children. */
  function Waited(k: Kern): Kern
    requires k.current != -1
  {
    var z := FirstZombie(k.procs, k.current, 0);
    if z != -1 then
      SetProc(k, z, k.procs[z].(pid := 0, parent := -1, killed := false, stride := 0.0, share := 0.0, pass := 0.0, state := UNUSED))
    else if !HasChild(k.procs, k.current) || k.procs[k.current].killed then k
    else Slept(k, k.current)
  }

  /** A process as it comes from the allocation. */
  function Allocated(x: Proc): Proc {
    x.(level := 0, slice := [0, 0, 0], wasRun := false, share := 0.0, stride := 0.0, pass := 0.0, isStride := false)
  }

  /** A process that is being created. */
  function Embryo(x: Proc, pid: int): (y: Proc)
    ensures Good(y)
  {
    Allocated(x).(state := EMBRYO, pid := pid)
  }

  /** Creates a child of the running process; the memory for its stack or for its image may be short. */
  function Forked(k: Kern, stackOk: bool, imageOk: bool): Kern
    requires k.current != -1
  {
    var p := FirstUnused(k.procs, 0);
    if p == -1 then k else
    var x := k.procs[p].(pid := k.nextpid);
    var k1 := k.(nextpid := k.nextpid + 1);
    if !stackOk then SetProc(k1, p, x)
    else if !imageOk then SetProc(k1, p, Allocated(x))
    else Inserted(SetProc(k1, p, Allocated(x).(parent := k.current, state := RUNNABLE)), 0, p)
  }

  /** Forking goes on from the process that is being created. */
  lemma EmbryoForked(k: Kern, p: Slot, imageOk: bool)
    requires k.current != -1 && p == FirstUnused(k.procs, 0)
    ensures var k1 := SetProc(k.(nextpid := k.nextpid + 1), p, Embryo(k.procs[p], k.nextpid));
            var x := k1.procs[p];
            x.pid == k.nextpid && Forked(k, true, imageOk) ==
              if imageOk then Inserted(SetProc(k1, p, x.(parent := k.current, state := RUNNABLE)), x.level, p)
              else SetProc(k1, p, x.(state := UNUSED))
  {
    hide Inserted, FirstUnused;
    var k1 := SetProc(k.(nextpid := k.nextpid + 1), p, Embryo(k.procs[p], k.nextpid));
    var y := k1.procs[p].(state := UNUSED);
    assert k1.procs[p := y] == k.procs[p := y];
    var z := k1.procs[p].(parent := k.current, state := RUNNABLE);
    assert k1.procs[p := z] == k.procs[p := z];
  }

  function KilledProc(k: Kern, pid: int): Kern {
    var p := FirstPid(k.procs, pid, 0);
    if p == -1 then k else
    var u := SetProc(k, p, k.procs[p].(killed := true));
    if u.procs[p].state.SLEEPING? then WokenOne(u, p) else u
  }

  /** The shares of the stride processes. */
  function Total(procs: seq<Proc>): real {
    if procs == [] then 0.0 else Total(procs[..|procs| - 1]) + Part(procs[|procs| - 1])
  }

  function Part(x: Proc): real {
    if x.isStride then x.share else 0.0
  }

  function PassReset(x: Proc): Proc {
    if x.isStride then x.(pass := 0.0) else x
  }

  /** Every stride process starts again from zero. */
  function AllReset(procs: seq<Proc>): (r: seq<Proc>)
    ensures |r| == |procs| && forall p :: 0 <= p < |procs| ==> r[p] == PassReset(procs[p])
  {
    seq(|procs|, p requires 0 <= p < |procs| => PassReset(procs[p]))
  }

  /** The running process asks for `share` percent of the processor. */
  function ShareSet(k: Kern, share: int): Kern
    requires k.current != -1
  {
    var k1 := k.(procs := AllReset(k.procs), mlfqPass := 0.0);
    if Total(k.procs) + share as real > 80.0 then k1 else
    var x := k1.procs[k.current];
    var stride := if share == 0 then x.stride else STRIDENUM / share as real;
    SetProc(k1, k.current, x.(share := share as real, stride := stride, pass := 0.0, isStride := true)).(mode := STRIDE)
  }

  // ----- runs -----

  datatype Event =
    | Round                 // of the scheduler, when no process runs
    | Wakeup(chan: int)     // by the running process or by an interrupt
    | Tick | Yield | Sleep(chan: int) | Fork(stackOk: bool, imageOk: bool) | Exit | Wait | Kill(pid: int)
    | SetShare(share: int)  // all of these by or in the running process

  function Next(k: Kern, e: Event): Kern {
    if e.Wakeup? then Woken(k, e.chan, NPROC)
    else if e.Round? then if k.current == -1 then Decided(k) else k
    else if k.current == -1 then k
    else match e
      case Tick => Interrupted(k)
      case Yield => Yielded(k)
      case Sleep(chan) => Slept(k, chan)
      case Fork(stackOk, imageOk) => Forked(k, stackOk, imageOk)
      case Exit => Exited(k)
      case Wait => Waited(k)
      case Kill(pid) => KilledProc(k, pid)
      case SetShare(share) => ShareSet(k, share)
  }

  /** The kernel when the first process has been set up. */
  function Booted(): Kern {
    var k: Kern := Kernel(seq(NPROC, _ => NOBODY), seq(3, _ => seq(NPROC, _ => -1)), 0, 0, 2, -1, ByQueue, MLFQ, false, false, 0.0, 0.0);
    Inserted(SetProc(k, INIT, NOBODY.(pid := 1, state := RUNNABLE)), 0, INIT)
  }

  function Steps(k: Kern, events: seq<Event>): Kern
    decreases |events|
  {
    if events == [] then k else Next(Steps(k, events[..|events| - 1]), events[|events| - 1])
  }
}
