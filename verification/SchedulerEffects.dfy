/** What each kernel entry does to every process, and that no parent sleeps on beside a child that has ended. */
module SchedulerEffects {
  import opened SchedulerModel
  import opened SchedulerQueues
  import opened SchedulerShares

  // ----- the clock -----

  lemma {:induction false} BoostedProcs(k: Kern, n: nat)
    requires n <= NPROC
    ensures forall q :: 0 <= q < NPROC ==>
              Boosted(k, n).procs[q] == if q < n then BoostedOneProc(k.procs[q]) else k.procs[q]
  {
    if n > 0 {
      BoostedProcs(k, n - 1);
      BoostedOneProcs(Boosted(k, n - 1), n - 1);
    }
  }

  lemma BoostedOneProcs(k: Kern, p: Slot)
    ensures BoostedOne(k, p).procs == k.procs[p := BoostedOneProc(k.procs[p])]
  {
  }

  /** A process that waits for the processor and has run since the last boost is on the highest level with new slices, in its
      queue; any other has not run since. */
  predicate Raised(x: Proc, y: Proc, queued: bool) {
    if x.state.RUNNABLE? && x.wasRun then y == x.(level := 0, slice := [0, 0, 0]) && queued
    else y == x.(wasRun := false)
  }

  /** What a tick of the running process does to the others: every hundredth raises those that wait and have run. */
  predicate TickEffect(k: Kern, u: Kern) {
    if k.ticksCount == 100 then
      && u.ticksCount == 0
      && forall q :: 0 <= q < 64 && q != k.current ==> Raised(k.procs[q], u.procs[q], q in u.mlfq[0])
    else
      && u.ticksCount == k.ticksCount
      && forall q :: 0 <= q < 64 && q != k.current ==> u.procs[q] == k.procs[q]
  }

  lemma TickedEffect(k: Kern)
    requires k.current != -1 && QueuesRight(k)
    ensures TickEffect(k, Ticked(k))
  {
    hide QueuesRight, Boosted, Counted, Demoted, Raised;
    TickedKeeps(k);
    var k1, u := Counted(k), Ticked(k);
    CountedOnly(k);
    BoostedProcs(k1, NPROC);
    BoostFields(k1, NPROC);
    DemotedOnly(if k1.ticksCount == 100 then Boosted(k1, NPROC).(ticksCount := 0) else k1);
    if k.ticksCount == 100 {
      forall q | 0 <= q < NPROC && q != k.current ensures Raised(k.procs[q], u.procs[q], q in u.mlfq[0]) {
        assert u.procs[q] == BoostedOneProc(k.procs[q]);
        RaisedQueued(u, q, k.procs[q]);
      }
    }
  }

  lemma RaisedQueued(u: Kern, q: Slot, x: Proc)
    requires QueuesRight(u) && u.procs[q] == BoostedOneProc(x)
    ensures Raised(x, u.procs[q], q in u.mlfq[0])
  {
    if x.state.RUNNABLE? && x.wasRun { ActiveQueued(u, q); }
  }

  lemma CountedOnly(k: Kern)
    requires k.current != -1
    ensures var u := Counted(k); u.ticksCount == k.ticksCount && forall q :: 0 <= q < NPROC && q != k.current ==> u.procs[q] == k.procs[q]
  {
  }

  lemma DemotedOnly(k: Kern)
    requires k.current != -1
    ensures var u := Demoted(k); u.ticksCount == k.ticksCount && forall q :: 0 <= q < NPROC && q != k.current ==> u.procs[q] == k.procs[q]
  {
  }

  // ----- the end of a process -----

  /** Is a child among the first `n` processes that has ended? */
  predicate EndedBelow(procs: seq<Proc>, parent: int, n: nat)
    requires n <= |procs|
  {
    exists r :: 0 <= r < n && EndedChild(procs[r], parent)
  }

  /** A child of `parent` becomes a child of the first process. */
  function HandedOver(x: Proc, parent: int): Proc {
    if x.parent == parent then x.(parent := INIT) else x
  }

  lemma {:induction false} ReparentedEffect(k: Kern, parent: int, n: nat)
    requires n <= NPROC && parent != INIT
    ensures forall q :: 0 <= q < NPROC ==>
              var y := if q < n then HandedOver(k.procs[q], parent) else k.procs[q];
              Reparented(k, parent, n).procs[q] == if EndedBelow(k.procs, parent, n) then WokenProc(y, INIT) else y
  {
    if n > 0 {
      ReparentedEffect(k, parent, n - 1);
      hide Woken, Reparented, EndedBelow;
      ReparentedStep(k, Reparented(k, parent, n - 1), parent, n);
      EndedNext(k.procs, parent, n);
      ReparentedUnfolds(k, parent, n);
    }
  }

  lemma ReparentedUnfolds(k: Kern, parent: int, n: nat)
    requires 0 < n <= NPROC
    ensures Reparented(k, parent, n) == ReparentedOne(Reparented(k, parent, n - 1), parent, n - 1)
  {
  }

  lemma EndedNext(procs: seq<Proc>, parent: int, n: nat)
    requires 0 < n <= |procs|
    ensures EndedBelow(procs, parent, n) <==> EndedBelow(procs, parent, n - 1) || EndedChild(procs[n - 1], parent)
  {
  }

  lemma ReparentedStep(k: Kern, u: Kern, parent: int, n: nat)
    requires 0 < n <= NPROC && parent != INIT
    requires forall q :: 0 <= q < NPROC ==>
               var y := if q < n - 1 then HandedOver(k.procs[q], parent) else k.procs[q];
               u.procs[q] == if EndedBelow(k.procs, parent, n - 1) then WokenProc(y, INIT) else y
    ensures forall q :: 0 <= q < NPROC ==>
              var y := if q < n then HandedOver(k.procs[q], parent) else k.procs[q];
              ReparentedOne(u, parent, n - 1).procs[q]
                == if EndedBelow(k.procs, parent, n - 1) || EndedChild(k.procs[n - 1], parent) then WokenProc(y, INIT) else y
  {
    hide Woken, EndedBelow;
    WokenProcs(SetProc(u, n - 1, u.procs[n - 1].(parent := INIT)), INIT, NPROC);
  }

  /** What becomes of process `q` when process `p` ends, whose parent is `parent`. */
  predicate ExitEffectOn(procs: seq<Proc>, p: int, q: int, y: Proc)
    requires 0 <= p < |procs| == 64 && 0 <= q < 64
  {
    var x, parent := procs[q], procs[p].parent;
    var woken := x.state.SLEEPING? && (x.chan == parent || (x.chan == 0 && EndedBelow(procs, p, 64)));
    && y.parent == (if x.parent == p then 0 else x.parent)
    && y.state == (if q == p then ZOMBIE else if woken then RUNNABLE else x.state)
    && (q != p ==> y == x.(state := y.state, parent := y.parent, isStride := if woken then false else x.isStride))
  }

  /** The parent, if it waits, wakes up, and so does the first process if it gets a child that has ended. Children get the first
      process as their parent, and nothing else changes. */
  lemma ExitedEffect(k: Kern)
    requires k.current != -1 && k.current != 0 && k.procs[k.current].state.RUNNING?
    ensures forall q :: 0 <= q < 64 ==> ExitEffectOn(k.procs, k.current, q, Exited(k).procs[q])
  {
    hide Woken, Reparented, Left, EndedBelow;
    var p := k.current;
    var pp := k.procs[p].parent;
    WokenProcs(k, pp, NPROC);
    WokenFields(k, pp, NPROC);
    var v := Woken(k, pp, NPROC);
    ReparentedEffect(v, p, NPROC);
    ReparentedFields(v, p, NPROC);
    SameEnded(k, v, pp, p);
    LeftEffect(Reparented(v, p, NPROC), ZOMBIE);
    forall q | 0 <= q < 64 ensures ExitEffectOn(k.procs, p, q, Exited(k).procs[q]) {
      ExitSteps(k.procs, p, q, v.procs[q], Reparented(v, p, NPROC).procs[q], Exited(k).procs[q]);
    }
  }

  /** The three steps of an exit put together for one process. */
  lemma ExitSteps(procs: seq<Proc>, p: int, q: int, v: Proc, w: Proc, y: Proc)
    requires 0 <= p < |procs| == 64 && p != 0 && 0 <= q < 64 && procs[p].state.RUNNING?
    requires v == WokenProc(procs[q], procs[p].parent)
    requires w == if EndedBelow(procs, p, 64) then WokenProc(HandedOver(v, p), INIT) else HandedOver(v, p)
    requires if q == p then y == w.(state := ZOMBIE, pass := y.pass) else y == w
    ensures ExitEffectOn(procs, p, q, y)
  {
    hide EndedBelow;
  }

  /** Waking up changes nothing about children that have ended. */
  lemma SameEnded(k: Kern, v: Kern, chan: int, p: int)
    requires forall q :: 0 <= q < NPROC ==> v.procs[q] == WokenProc(k.procs[q], chan)
    ensures EndedBelow(v.procs, p, NPROC) <==> EndedBelow(k.procs, p, NPROC)
  {
    forall q | 0 <= q < NPROC ensures EndedChild(v.procs[q], p) <==> EndedChild(k.procs[q], p) {
    }
  }

  lemma LeftEffect(k: Kern, state: PState)
    requires k.current != -1
    ensures var u, x := Left(k, state), k.procs[k.current];
            && (forall q :: 0 <= q < NPROC && q != k.current ==> u.procs[q] == k.procs[q])
            && u.procs[k.current] == x.(state := state, pass := u.procs[k.current].pass)
            && u.current == -1
  {
  }

  lemma CurrentRuns(k: Kern)
    requires QueuesRight(k) && k.current != -1
    ensures k.procs[k.current].state.RUNNING?
  {
  }

  // ----- the other entries -----

  /** The processor is given up: the process, or the queues, pay for the turn. */
  predicate Paid(k: Kern, u: Kern)
    requires k.current != -1
  {
    && u.current == -1
    && if k.via.ByPass? then u.mlfqPass == k.mlfqPass && u.procs[k.current].pass == k.procs[k.current].pass + k.procs[k.current].stride
       else u.mlfqPass == k.mlfqPass + k.mlfqStride && u.procs[k.current].pass == k.procs[k.current].pass
  }

  predicate OthersSame(procs: seq<Proc>, procs': seq<Proc>, p: int) {
    |procs'| == |procs| && forall q :: 0 <= q < |procs| && q != p ==> procs'[q] == procs[q]
  }

  lemma YieldedEffect(k: Kern)
    requires k.current != -1
    ensures var u, p := Yielded(k), k.current;
            && Paid(k, u) && OthersSame(k.procs, u.procs, p) && u.mlfq == k.mlfq
            && u.procs[p] == k.procs[p].(state := RUNNABLE, pass := u.procs[p].pass)
  {
  }

  lemma SleptPays(k: Kern, chan: int)
    requires k.current != -1
    ensures var u, p := Slept(k, chan), k.current;
            && Paid(k, u) && OthersSame(k.procs, u.procs, p)
            && u.procs[p] == k.procs[p].(state := SLEEPING, chan := chan, pass := u.procs[p].pass)
  {
  }

  /** Waiting takes the first child that has ended; else it sleeps on itself if there are children and it has not been killed. */
  predicate WaitEffect(k: Kern, u: Kern, pid: int, asleep: bool)
    requires k.current != -1
  {
    if exists z :: 0 <= z < 64 && EndedChild(k.procs[z], k.current) then
      exists z :: 0 <= z < 64 && EndedChild(k.procs[z], k.current) && (forall q :: 0 <= q < z ==> !EndedChild(k.procs[q], k.current))
        && !asleep && pid == k.procs[z].pid && OthersSame(k.procs, u.procs, z) && u.current == k.current && u.mlfq == k.mlfq
        && u.procs[z].state.UNUSED? && u.procs[z].pid == 0 && u.procs[z].parent == -1 && !u.procs[z].killed
        && u.procs[z].share == 0.0 && u.procs[z].stride == 0.0 && u.procs[z].pass == 0.0
    else
      && pid == -1 && (asleep <==> !k.procs[k.current].killed && exists c :: 0 <= c < 64 && k.procs[c].parent == k.current)
      && if asleep then u.procs[k.current].state.SLEEPING? && u.procs[k.current].chan == k.current && Paid(k, u)
                        && OthersSame(k.procs, u.procs, k.current)
         else u == k
  }

  lemma WaitedEffect(k: Kern)
    requires k.current != -1
    ensures var z := FirstZombie(k.procs, k.current, 0);
            WaitEffect(k, Waited(k), if z != -1 then k.procs[z].pid else -1,
                       z == -1 && HasChild(k.procs, k.current) && !k.procs[k.current].killed)
  {
    var z := FirstZombie(k.procs, k.current, 0);
    if z == -1 {
      SleptPays(k, k.current);
      hide Slept;
    } else {
      assert EndedChild(k.procs[z], k.current);
    }
  }

  /** Killing marks the first process with the number, and wakes it if it sleeps; without one nothing happens. */
  predicate KillEffect(procs: seq<Proc>, procs': seq<Proc>, pid: int, found: bool) {
    if found then
      exists p :: 0 <= p < |procs| && procs[p].pid == pid && (forall q :: 0 <= q < p ==> procs[q].pid != pid)
        && OthersSame(procs, procs', p)
        && procs'[p] == if procs[p].state.SLEEPING? then procs[p].(killed := true, state := RUNNABLE, isStride := false)
                        else procs[p].(killed := true)
    else procs' == procs && forall q :: 0 <= q < |procs| ==> procs[q].pid != pid
  }

  lemma KilledEffect(k: Kern, pid: int)
    ensures KillEffect(k.procs, KilledProc(k, pid).procs, pid, FirstPid(k.procs, pid, 0) != -1)
  {
    var p := FirstPid(k.procs, pid, 0);
    if p != -1 { assert k.procs[p].pid == pid; }
  }

  /** A fork changes one unused entry, if there is any, and the next number; the child runs only if all memory was there. */
  predicate ForkEffect(k: Kern, u: Kern, memory: bool) {
    if forall q :: 0 <= q < 64 ==> !k.procs[q].state.UNUSED? then u == k
    else
      exists p :: 0 <= p < 64 && k.procs[p].state.UNUSED? && OthersSame(k.procs, u.procs, p) && u.nextpid == k.nextpid + 1
        && u.procs[p].pid == k.nextpid && u.current == k.current
        && if memory then
             u.procs[p] == k.procs[p].(state := RUNNABLE, pid := k.nextpid, parent := k.current, level := 0, slice := [0, 0, 0],
                                       wasRun := false, share := 0.0, stride := 0.0, pass := 0.0, isStride := false)
           else u.procs[p].state.UNUSED? && u.mlfq == k.mlfq
  }

  lemma ForkedEffect(k: Kern, stackOk: bool, imageOk: bool)
    requires k.current != -1
    ensures ForkEffect(k, Forked(k, stackOk, imageOk), stackOk && imageOk)
  {
    var p := FirstUnused(k.procs, 0);
    if p != -1 { assert k.procs[p].state.UNUSED?; }
  }

  /** A request for a share of `n` percent: every stride process starts again from zero; if granted the process has `n` percent and
      the stride 10000 / n, and the mode is with shares. */
  predicate ShareEffect(k: Kern, u: Kern, n: int, granted: bool)
    requires k.current != -1
  {
    && u.mlfqPass == 0.0
    && (forall q :: 0 <= q < 64 && q != k.current ==> u.procs[q] == if k.procs[q].isStride then k.procs[q].(pass := 0.0) else k.procs[q])
    && var x, y := k.procs[k.current], u.procs[k.current];
       if granted then
         && y.isStride && y.share == n as real && y.pass == 0.0 && u.mode.STRIDE? && y.state == x.state
         && if n == 0 then y.stride == x.stride else y.stride * n as real == 10000.0
       else u.mode == k.mode && y == if x.isStride then x.(pass := 0.0) else x
  }

  lemma ShareSetEffect(k: Kern, n: int)
    requires k.current != -1
    ensures ShareEffect(k, ShareSet(k, n), n, Total(k.procs) + n as real <= 80.0)
  {
    hide Total;
    if n != 0 { assert STRIDENUM / n as real * n as real == 10000.0; }
  }

  /** The queues give the processor to a process of the best level among those without a share that wait for it, and leave it idle
      exactly if there is none. */
  ghost predicate GivenByQueues(k: Kern, u: Kern) {
    && !u.inStride && (u.check <==> u.current != -1) && u.ticksCount == k.ticksCount && u.nextpid == k.nextpid && u.mlfq == k.mlfq
    && if forall q :: 0 <= q < 64 ==> !Eligible(k.procs[q]) then u.current == -1 && u.procs == k.procs
       else
         && 0 <= u.current < 64 && u.via.ByQueue? && Eligible(k.procs[u.current])
         && u.procs == k.procs[u.current := k.procs[u.current].(wasRun := true, state := RUNNING)]
         && forall q :: 0 <= q < 64 && Eligible(k.procs[q]) ==> k.procs[u.current].level <= k.procs[q].level
  }

  /** A round: in the feedback mode the queues give the processor away. In the mode with shares they do so if no stride adds up, and
      that mode ends, or if they are behind the least pass value; if the last search found nobody they pay for the turn instead.
      Otherwise the stride process found goes on. */
  ghost predicate RoundEffect(k: Kern, u: Kern) {
    var s := Scanned(k.procs, 64);
    if k.mode.MLFQ? then GivenByQueues(k, u) && u.mode.MLFQ? && u.mlfqPass == k.mlfqPass && u.mlfqStride == k.mlfqStride
    else if s.strideSum == 0.0 then GivenByQueues(k, u) && u.mode.MLFQ? && u.mlfqPass == 0.0 == u.mlfqStride
    else if k.mlfqPass < (if s.minpass == 10000000.0 then 0.0 else s.minpass) then
      && u.mode.STRIDE? && (s.shares != 100.0 ==> u.mlfqStride * (100.0 - s.shares) == 10000.0)
      && if k.check then GivenByQueues(k, u) && u.mlfqPass == k.mlfqPass
         else u.current == -1 && u.procs == k.procs && u.inStride && u.mlfqPass == k.mlfqPass + u.mlfqStride
    else
      && u.mode.STRIDE? && u.inStride && u.via.ByPass? && u.current == s.index && u.mlfqPass == k.mlfqPass
      && u.procs == k.procs[s.index := k.procs[s.index].(state := RUNNING)]
  }

  lemma QueueTurnGives(k: Kern)
    requires QueuesRight(k) && k.current == -1
    ensures var u := QueueTurn(k);
            GivenByQueues(k, u) && u.mode == k.mode && u.mlfqPass == k.mlfqPass && u.mlfqStride == k.mlfqStride
  {
    hide QueuesRight, SelectLevels;
    var k1 := k.(inStride := false);
    SameQueues(k, k1);
    SelectRight(k1);
    var (u, p) := Select(k1);
    if p == -1 {
      assert forall q :: 0 <= q < 64 ==> !Eligible(k.procs[q]);
    } else {
      assert Eligible(k.procs[p]);
    }
  }

  lemma DecidedEffect(k: Kern)
    requires QueuesRight(k) && k.current == -1
    ensures RoundEffect(k, Decided(k))
  {
    hide QueuesRight, QueueTurn, Scanned, GivenByQueues, QueueStride;
    var s, k1 := Scanned(k.procs, NPROC), k.(inStride := true);
    if k.mode.MLFQ? {
      QueueTurnGives(k);
    } else if s.strideSum == 0.0 {
      var u := k1.(mlfqStride := 0.0, mlfqPass := 0.0, mode := MLFQ);
      SameQueues(k, u);
      QueueTurnGives(u);
      GivenFrom(k, u, Decided(k));
    } else {
      var u := k1.(mlfqStride := QueueStride(s.shares));
      if s.shares != 100.0 { QueueStrideMeans(s.shares); }
      SameQueues(k, u);
      QueueTurnGives(u);
      GivenFrom(k, u, QueueTurn(u));
    }
  }

  lemma GivenFrom(k: Kern, k1: Kern, u: Kern)
    requires k1 == k.(inStride := k1.inStride, mlfqStride := k1.mlfqStride, mlfqPass := k1.mlfqPass, mode := k1.mode)
    requires GivenByQueues(k1, u)
    ensures GivenByQueues(k, u)
  {
  }

  /** The clock: a tick is counted only while the queues have the processor, and after a hundred the count starts again. */
  predicate ClockEffect(k: Kern, u: Kern) {
    && u.current == -1
    && u.ticksCount == if k.inStride then k.ticksCount else if k.ticksCount + 1 == 100 then 0 else k.ticksCount + 1
  }

  /** After the tick the state is `u`; then the processor is given up. */
  predicate TickThenPay(k: Kern, u: Kern, v: Kern)
    requires k.current != -1
  {
    && u.current == k.current && TickEffect(k, u) && Paid(u, v) && OthersSame(u.procs, v.procs, k.current)
    && TickMoves(k.procs[k.current], u.procs[k.current]) && v.procs[k.current].state.RUNNABLE?
  }

  ghost predicate TicksAndPays(k: Kern, v: Kern)
    requires k.current != -1
  {
    exists u :: TickThenPay(k, u, v)
  }

  lemma InterruptedEffect(k: Kern)
    requires k.current != -1 && QueuesRight(k)
    ensures ClockEffect(k, Interrupted(k))
    ensures if k.inStride then Paid(k, Interrupted(k)) else TicksAndPays(k.(ticksCount := k.ticksCount + 1), Interrupted(k))
  {
    hide QueuesRight, Ticked, TickEffect, Yielded, TickMoves;
    if !k.inStride { TickPays(k.(ticksCount := k.ticksCount + 1), k); }
    var k1 := k.(ticksCount := k.ticksCount + 1);
    SameQueues(k, k1);
    TickKeepsCurrent(k1);
    TickedEffect(k1);
    TickCounts(k1, Ticked(k1));
    YieldedEffect(k);
    YieldedEffect(Ticked(k1));
    YieldTicks(k);
    YieldTicks(Ticked(k1));
  }

  lemma TickPays(k1: Kern, k: Kern)
    requires k.current != -1 && QueuesRight(k) && k1 == k.(ticksCount := k.ticksCount + 1)
    ensures Ticked(k1).current == k1.current && TickThenPay(k1, Ticked(k1), Yielded(Ticked(k1)))
  {
    hide QueuesRight, Ticked, TickEffect, Yielded, TickMoves;
    SameQueues(k, k1);
    TickedKeeps(k1);
    TickedEffect(k1);
    YieldedEffect(Ticked(k1));
  }

  lemma TickCounts(k: Kern, u: Kern)
    requires TickEffect(k, u)
    ensures u.ticksCount == if k.ticksCount == 100 then 0 else k.ticksCount
  {
  }

  lemma YieldTicks(k: Kern)
    requires k.current != -1
    ensures Yielded(k).ticksCount == k.ticksCount
  {
  }

  // ----- no parent sleeps on -----

  /** No process sleeps in a wait for its children while one of them has ended. The first process has no parent and does not end,
      and nobody is its own parent. */
  ghost predicate NobodyMissed(k: Kern) {
    && (forall p :: 0 <= p < NPROC && k.procs[p].state.SLEEPING? && k.procs[p].chan == p ==> !EndedBelow(k.procs, p, NPROC))
    && k.procs[0].parent == -1 && Alive(k.procs[0])
    && forall p :: 0 <= p < NPROC ==> k.procs[p].parent != p
  }

  predicate Alive(x: Proc) {
    !x.state.UNUSED? && !x.state.ZOMBIE?
  }

  /** Process `p` does not fall asleep and does not end, and if it gets another parent it is not the first process. */
  predicate Tamer(p: int, x: Proc, y: Proc) {
    && (y.state.SLEEPING? ==> x.state.SLEEPING? && y.chan == x.chan)
    && (y.state.ZOMBIE? ==> x.state.ZOMBIE? && y.parent == x.parent)
    && (y.parent == x.parent || (p != 0 && y.parent != p)) && (p == 0 && Alive(x) ==> Alive(y))
  }

  ghost predicate AllTamer(k: Kern, u: Kern) {
    forall p :: 0 <= p < NPROC ==> Tamer(p, k.procs[p], u.procs[p])
  }

  lemma TamerKeeps(k: Kern, u: Kern)
    requires NobodyMissed(k) && AllTamer(k, u)
    ensures NobodyMissed(u)
  {
    forall p | 0 <= p < NPROC ensures u.procs[p].parent != p {
      assert Tamer(p, k.procs[p], u.procs[p]);
    }
    forall p, r | 0 <= p < NPROC && 0 <= r < NPROC && u.procs[p].state.SLEEPING? && u.procs[p].chan == p
      ensures !EndedChild(u.procs[r], p) {
      assert Tamer(p, k.procs[p], u.procs[p]) && Tamer(r, k.procs[r], u.procs[r]);
      assert !EndedChild(k.procs[r], p);
    }
  }

  lemma TamerThen(k: Kern, u: Kern, v: Kern)
    requires AllTamer(k, u) && AllTamer(u, v)
    ensures AllTamer(k, v)
  {
  }

  lemma {:induction false} SelectFromTamer(k: Kern, l: nat, i: nat)
    requires l < 3 && i <= NPROC
    ensures AllTamer(k, SelectFrom(k, l, i).0)
    decreases NPROC - i
  {
    hide AllTamer, Requeued;
    SameTamer(k, k);
    if i < NPROC {
      SelectUnfolds(k, l, i);
      var p := k.mlfq[l][i];
      if p != -1 && k.procs[p].state.RUNNABLE? && !k.procs[p].isStride {
        var k1 := k.(check := true);
        SameTamer(k, k1);
        OneTamer(k1, p, k.procs[p].(wasRun := true), SetProc(k1, p, k.procs[p].(wasRun := true)));
        TamerThen(k, k1, SetProc(k1, p, k.procs[p].(wasRun := true)));
        RequeuedTamer(k1, p);
        var u := Requeued(k1, p);
        var u' := u.(head := (u.head + 1) % NPROC);
        SameTamer(u, u');
        SelectFromTamer(u', l, i + 1);
        TamerThen(k, k1, u);
        TamerThen(k, u, u');
        TamerThen(k, u', SelectFrom(u', l, i + 1).0);
      } else {
        var k1 := k.(head := (k.head + 1) % NPROC);
        SameTamer(k, k1);
        SelectFromTamer(k1, l, i + 1);
        SelectFromTamer(k, l, i + 1);
        TamerThen(k, k1, SelectFrom(k1, l, i + 1).0);
      }
    }
  }

  lemma SameTamer(k: Kern, u: Kern)
    requires u.procs == k.procs
    ensures AllTamer(k, u)
  {
  }

  lemma OneTamer(k: Kern, p: Slot, x: Proc, u: Kern)
    requires u.procs == k.procs[p := x] && Tamer(p, k.procs[p], x)
    ensures AllTamer(k, u)
  {
  }

  lemma RequeuedTamer(k: Kern, p: Slot)
    ensures AllTamer(k, Requeued(k, p))
  {
    var x := k.procs[p];
    OneTamer(k, p, x.(slice := x.slice[2 := 0]), Requeued(k, p));
  }

  lemma {:induction false} SelectLevelsTamer(k: Kern, l: nat)
    requires l <= 3
    ensures AllTamer(k, SelectLevels(k, l).0)
    decreases 3 - l
  {
    hide AllTamer, SelectFrom;
    SameTamer(k, k);
    if l < 3 {
      SelectFromTamer(k, l, 0);
      var (u, p) := SelectFrom(k, l, 0);
      SelectLevelsTamer(u, l + 1);
      TamerThen(k, u, SelectLevels(u, l + 1).0);
    }
  }

  lemma QueueTurnTamer(k: Kern)
    ensures AllTamer(k, QueueTurn(k))
  {
    hide AllTamer, SelectLevels;
    var k1 := k.(inStride := false);
    SameTamer(k, k1.(check := false));
    SelectLevelsTamer(k1.(check := false), 0);
    var (u, p) := Select(k1);
    TamerThen(k, k1.(check := false), u);
    if p != -1 {
      OneTamer(u, p, u.procs[p].(state := RUNNING), Dispatched(u, p, ByQueue));
      TamerThen(k, u, Dispatched(u, p, ByQueue));
    }
  }

  lemma DecidedTamer(k: Kern)
    ensures AllTamer(k, Decided(k))
  {
    hide AllTamer, QueueTurn, Scanned;
    var s, k1 := Scanned(k.procs, NPROC), k.(inStride := true);
    QueueTurnTamer(k);
    var k2 := k1.(mlfqStride := 0.0, mlfqPass := 0.0, mode := MLFQ);
    SameTamer(k, k2);
    QueueTurnTamer(k2);
    TamerThen(k, k2, QueueTurn(k2));
    var k3 := k1.(mlfqStride := QueueStride(s.shares));
    SameTamer(k, k3);
    QueueTurnTamer(k3);
    TamerThen(k, k3, QueueTurn(k3));
    SameTamer(k, k3.(mlfqPass := k3.mlfqPass + k3.mlfqStride));
    OneTamer(k, s.index, k1.procs[s.index].(state := RUNNING), Dispatched(k1, s.index, ByPass));
  }

  lemma TickedTamer(k: Kern)
    requires k.current != -1
    ensures AllTamer(k, Ticked(k)) && Ticked(k).current == k.current
  {
    hide Boosted, Demoted, Counted;
    TickKeepsCurrent(k);
    var k1 := Counted(k);
    CountedOnly(k);
    CountedOne(k);
    BoostedProcs(k1, NPROC);
    BoostFields(k1, NPROC);
    var k2 := if k1.ticksCount == 100 then Boosted(k1, NPROC).(ticksCount := 0) else k1;
    DemotedOnly(k2);
    DemotedFamily(k2);
  }

  lemma DemotedFamily(k: Kern)
    requires k.current != -1
    ensures var x, y := k.procs[k.current], Demoted(k).procs[k.current]; y.state == x.state && y.chan == x.chan && y.parent == x.parent
  {
  }

  lemma YieldedTamer(k: Kern)
    requires k.current != -1
    ensures AllTamer(k, Yielded(k))
  {
  }

  lemma InterruptedTamer(k: Kern)
    requires k.current != -1
    ensures AllTamer(k, Interrupted(k))
  {
    hide AllTamer, Ticked, Yielded;
    if k.inStride {
      YieldedTamer(k);
    } else {
      var k1 := k.(ticksCount := k.ticksCount + 1);
      SameTamer(k, k1);
      TickedTamer(k1);
      YieldedTamer(Ticked(k1));
      TamerThen(k, k1, Ticked(k1));
      TamerThen(k, Ticked(k1), Yielded(Ticked(k1)));
    }
  }

  lemma ForkedTamer(k: Kern, stackOk: bool, imageOk: bool)
    requires NobodyMissed(k) && k.current != -1 && k.procs[k.current].state.RUNNING?
    ensures AllTamer(k, Forked(k, stackOk, imageOk))
  {
    SameTamer(k, k);
    var p := FirstUnused(k.procs, 0);
    if p != -1 {
      var u := Forked(k, stackOk, imageOk);
      OneTamer(k, p, u.procs[p], u);
    }
  }

  lemma KilledTamer(k: Kern, pid: int)
    ensures AllTamer(k, KilledProc(k, pid))
  {
    SameTamer(k, k);
    var p := FirstPid(k.procs, pid, 0);
    if p != -1 {
      var u := KilledProc(k, pid);
      OneTamer(k, p, u.procs[p], u);
    }
  }

  lemma ShareSetTamer(k: Kern, share: int)
    requires k.current != -1
    ensures AllTamer(k, ShareSet(k, share))
  {
    hide Total;
  }

  lemma WokenTamer(k: Kern, chan: int)
    ensures AllTamer(k, Woken(k, chan, NPROC))
  {
    WokenProcs(k, chan, NPROC);
    hide Woken;
  }

  /** A process that ends wakes its parent in time, and its own ended children find the first process awake. */
  lemma ExitedMisses(k: Kern)
    requires NobodyMissed(k) && k.current != -1 && k.procs[k.current].state.RUNNING?
    ensures NobodyMissed(Exited(k))
  {
    if k.current != INIT {
      ExitedEffect(k);
      var p, u := k.current, Exited(k);
      hide Exited;
      forall q | 0 <= q < NPROC ensures u.procs[q].parent != q && (q == 0 ==> u.procs[q].parent == -1 && Alive(u.procs[q])) {
        assert ExitEffectOn(k.procs, p, q, u.procs[q]);
      }
      forall q, r | 0 <= q < NPROC && 0 <= r < NPROC && u.procs[q].state.SLEEPING? && u.procs[q].chan == q
        ensures !EndedChild(u.procs[r], q) {
        assert ExitEffectOn(k.procs, p, q, u.procs[q]) && ExitEffectOn(k.procs, p, r, u.procs[r]);
        ExitCase(k.procs, p, q, u.procs[q], r, u.procs[r]);
      }
    }
  }

  /** A process `q` that sleeps on after an exit has no ended child `r`. */
  lemma ExitCase(procs: seq<Proc>, p: int, q: int, y: Proc, r: int, z: Proc)
    requires 0 <= p < |procs| == 64 && 0 <= q < 64 && 0 <= r < 64 && procs[p].state.RUNNING? && procs[p].parent != p
    requires ExitEffectOn(procs, p, q, y) && ExitEffectOn(procs, p, r, z)
    requires y.state.SLEEPING? && y.chan == q
    requires procs[q].state.SLEEPING? && procs[q].chan == q ==> !EndedBelow(procs, q, 64)
    ensures !EndedChild(z, q)
  {
    assert q != p && procs[q].state.SLEEPING? && procs[q].chan == q;
    assert !EndedChild(procs[r], q);
    assert EndedChild(procs[r], p) ==> EndedBelow(procs, p, 64);
  }

  /** A process waits for its children only while none has ended. */
  lemma WaitedMisses(k: Kern)
    requires NobodyMissed(k) && k.current != -1 && k.procs[k.current].state.RUNNING?
    ensures NobodyMissed(Waited(k))
  {
    var z := FirstZombie(k.procs, k.current, 0);
    var u := Waited(k);
    if z != -1 {
      OneTamer(k, z, u.procs[z], u);
      TamerKeeps(k, u);
    } else if HasChild(k.procs, k.current) && !k.procs[k.current].killed {
      SleptEffect(k, k.current);
      SleptMisses(k, u, k.current);
    }
  }

  lemma SleptEffect(k: Kern, chan: int)
    requires k.current != -1
    ensures var u, x := Slept(k, chan), k.procs[k.current];
            && (forall q :: 0 <= q < NPROC && q != k.current ==> u.procs[q] == k.procs[q])
            && u.procs[k.current] == x.(state := SLEEPING, chan := chan, pass := u.procs[k.current].pass)
  {
    LeftEffect(SetProc(k, k.current, k.procs[k.current].(chan := chan)), SLEEPING);
  }

  lemma SleptMisses(k: Kern, u: Kern, chan: int)
    requires NobodyMissed(k) && k.current != -1 && (chan == k.current ==> !EndedBelow(k.procs, k.current, NPROC))
    requires forall q :: 0 <= q < NPROC && q != k.current ==> u.procs[q] == k.procs[q]
    requires u.procs[k.current].state.SLEEPING? && u.procs[k.current].chan == chan && u.procs[k.current].parent == k.procs[k.current].parent
    ensures NobodyMissed(u)
  {
    forall p, r | 0 <= p < NPROC && 0 <= r < NPROC && u.procs[p].state.SLEEPING? && u.procs[p].chan == p
      ensures !EndedChild(u.procs[r], p) {
      assert p == k.current || !EndedBelow(k.procs, p, NPROC);
      assert !EndedChild(k.procs[r], p);
    }
  }

  /** The channels of the other sleeps are not processes. */
  predicate Apart(e: Event) {
    e.Sleep? ==> !(0 <= e.chan < NPROC)
  }

  lemma NextMisses(k: Kern, e: Event)
    requires NobodyMissed(k) && Apart(e) && Runs(k)
    ensures NobodyMissed(Next(k, e))
  {
    hide NobodyMissed, AllTamer, Woken, Decided, Interrupted, Yielded, Slept, Forked, Exited, Waited, KilledProc, ShareSet;
    if e.Wakeup? {
      WokenTamer(k, e.chan);
      TamerKeeps(k, Next(k, e));
    } else if e.Round? {
      if k.current == -1 {
        DecidedTamer(k);
        TamerKeeps(k, Next(k, e));
      }
    } else if k.current != -1 {
      match e
      case Tick =>
        InterruptedTamer(k);
        TamerKeeps(k, Next(k, e));
      case Yield =>
        YieldedTamer(k);
        TamerKeeps(k, Next(k, e));
      case Sleep(chan) =>
        SleptEffect(k, chan);
        SleptMisses(k, Slept(k, chan), chan);
      case Fork(stackOk, imageOk) =>
        ForkedTamer(k, stackOk, imageOk);
        TamerKeeps(k, Next(k, e));
      case Exit => ExitedMisses(k);
      case Wait => WaitedMisses(k);
      case Kill(pid) =>
        KilledTamer(k, pid);
        TamerKeeps(k, Next(k, e));
      case SetShare(share) =>
        ShareSetTamer(k, share);
        TamerKeeps(k, Next(k, e));
    }
  }

  // ----- whoever has the processor runs -----

  predicate Runs(k: Kern) {
    k.current != -1 ==> k.procs[k.current].state.RUNNING?
  }

  lemma {:induction false} SelectFromCurrent(k: Kern, l: nat, i: nat)
    requires l < 3 && i <= NPROC
    ensures SelectFrom(k, l, i).0.current == k.current
    decreases NPROC - i
  {
    hide Requeued;
    if i < NPROC {
      SelectUnfolds(k, l, i);
      var p := k.mlfq[l][i];
      if p != -1 && k.procs[p].state.RUNNABLE? && !k.procs[p].isStride {
        var u := Requeued(k.(check := true), p);
        SelectFromCurrent(u.(head := (u.head + 1) % NPROC), l, i + 1);
      } else {
        SelectFromCurrent(k.(head := (k.head + 1) % NPROC), l, i + 1);
        SelectFromCurrent(k, l, i + 1);
      }
    }
  }

  lemma {:induction false} SelectLevelsCurrent(k: Kern, l: nat)
    requires l <= 3
    ensures SelectLevels(k, l).0.current == k.current
    decreases 3 - l
  {
    hide SelectFrom;
    if l < 3 {
      SelectFromCurrent(k, l, 0);
      SelectLevelsCurrent(SelectFrom(k, l, 0).0, l + 1);
    }
  }

  lemma QueueTurnRuns(k: Kern)
    requires k.current == -1
    ensures Runs(QueueTurn(k))
  {
    hide SelectLevels;
    SelectLevelsCurrent(k.(inStride := false, check := false), 0);
  }

  lemma DecidedRuns(k: Kern)
    requires k.current == -1
    ensures Runs(Decided(k))
  {
    hide QueueTurn, Scanned;
    var s, k1 := Scanned(k.procs, NPROC), k.(inStride := true);
    QueueTurnRuns(k);
    QueueTurnRuns(k1.(mlfqStride := 0.0, mlfqPass := 0.0, mode := MLFQ));
    QueueTurnRuns(k1.(mlfqStride := QueueStride(s.shares)));
  }

  lemma NextRuns(k: Kern, e: Event)
    requires Runs(k)
    ensures Runs(Next(k, e))
  {
    hide Decided, Woken, Interrupted, Yielded, Slept, Forked, Exited, Waited, KilledProc, ShareSet;
    if e.Wakeup? {
      WokenProcs(k, e.chan, NPROC);
      WokenFields(k, e.chan, NPROC);
    } else if e.Round? {
      if k.current == -1 { DecidedRuns(k); }
    } else if k.current != -1 {
      match e
      case Tick => NobodyAfterTick(k);
      case Yield => NobodyAfterYield(k);
      case Sleep(chan) => SleptFacts(k, chan);
      case Fork(stackOk, imageOk) => ForkedRuns(k, stackOk, imageOk);
      case Exit => NobodyAfterExit(k);
      case Wait => WaitedRuns(k);
      case Kill(pid) => KilledRuns(k, pid);
      case SetShare(share) => ShareSetRuns(k, share);
    }
  }

  lemma NobodyAfterYield(k: Kern)
    requires k.current != -1
    ensures Yielded(k).current == -1
  {
  }

  lemma NobodyAfterTick(k: Kern)
    requires k.current != -1
    ensures Interrupted(k).current == -1
  {
    hide Ticked, Yielded;
    NobodyAfterYield(k);
    TickKeepsCurrent(k.(ticksCount := k.ticksCount + 1));
    NobodyAfterYield(Ticked(k.(ticksCount := k.ticksCount + 1)));
  }

  lemma NobodyAfterExit(k: Kern)
    requires k.current != -1 && Runs(k)
    ensures if k.current == INIT then Exited(k) == k else Exited(k).current == -1
  {
    if k.current != INIT {
      hide Woken, Reparented, Left;
      var v := Woken(k, k.procs[k.current].parent, NPROC);
      WokenFields(k, k.procs[k.current].parent, NPROC);
      ReparentedFields(v, k.current, NPROC);
      LeftEffect(Reparented(v, k.current, NPROC), ZOMBIE);
    }
  }

  lemma ForkedRuns(k: Kern, stackOk: bool, imageOk: bool)
    requires k.current != -1 && Runs(k)
    ensures Runs(Forked(k, stackOk, imageOk))
  {
  }

  lemma WaitedRuns(k: Kern)
    requires k.current != -1 && Runs(k)
    ensures Runs(Waited(k))
  {
    hide Slept;
    SleptFacts(k, k.current);
  }

  lemma KilledRuns(k: Kern, pid: int)
    requires Runs(k)
    ensures Runs(KilledProc(k, pid))
  {
  }

  lemma ShareSetRuns(k: Kern, share: int)
    requires k.current != -1 && Runs(k)
    ensures Runs(ShareSet(k, share))
  {
    hide Total;
  }

  lemma BootedMisses()
    ensures NobodyMissed(Booted()) && Runs(Booted())
  {
  }

  /** In every run nobody sleeps on in a wait for children beside one that has ended. */
  lemma {:induction false} NobodyEverMissed(events: seq<Event>)
    requires forall e :: e in events ==> Apart(e)
    ensures NobodyMissed(Steps(Booted(), events)) && Runs(Steps(Booted(), events))
    decreases |events|
  {
    hide NobodyMissed, Runs, Next, Apart;
    if events == [] {
      BootedMisses();
    } else {
      var before := events[..|events| - 1];
      NobodyEverMissed(before);
      var k := Steps(Booted(), before);
      assert events[|events| - 1] in events;
      NextRuns(k, events[|events| - 1]);
      NextMisses(k, events[|events| - 1]);
    }
  }
}
