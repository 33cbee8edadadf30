/** The kernel entries that touch the scheduler, on state changed in place. Each does what its function in SchedulerModel
    says. */
module Scheduler {
  import opened SchedulerModel
  import opened SchedulerQueues
  import opened SchedulerShares
  import opened SchedulerEffects

  class Machine {
    var procs: seq<Proc>
    var mlfq: seq<seq<int>>
    var head: int
    var ticksCount: nat
    var nextpid: int
    var current: int
    var via: Via
    var schedMode: Mode
    var check: bool
    var inStride: bool
    var mlfqStride: real
    var mlfqPass: real

    ghost predicate Valid()
      reads this
    {
      Shaped(Kernel(procs, mlfq, head, ticksCount, nextpid, current, via, schedMode, check, inStride, mlfqStride, mlfqPass))
    }

    ghost function State(): Kern
      reads this
      requires Valid()
    {
      Kernel(procs, mlfq, head, ticksCount, nextpid, current, via, schedMode, check, inStride, mlfqStride, mlfqPass)
    }

    /** Empty queues, and the first process in the first of them. */
    constructor ()
      ensures Valid() && State() == Booted()
    {
      procs := seq(NPROC, _ => NOBODY);
      mlfq := seq(3, _ => seq(NPROC, _ => -1));
      head, ticksCount, nextpid := 0, 0, 2;
      current, via, schedMode := -1, ByQueue, MLFQ;
      check, inStride := false, false;
      mlfqStride, mlfqPass := 0.0, 0.0;
      new;
      procs := procs[INIT := procs[INIT].(pid := 1, state := RUNNABLE)];
      var i := InsertIntoPQueue(0, INIT);
    }

    method InsertIntoPQueue(plevel: nat, p: Slot) returns (i: int)
      requires Valid() && plevel < 3
      modifies this`mlfq
      ensures Valid() && State() == Inserted(old(State()), plevel, p)
      ensures i == FindFrom(old(mlfq)[plevel], -1, 0)
    {
      i := 0;
      while i < NPROC
        invariant 0 <= i <= NPROC && mlfq == old(mlfq)
        invariant FindFrom(mlfq[plevel], -1, 0) == FindFrom(mlfq[plevel], -1, i)
      {
        if mlfq[plevel][i] == -1 {
          mlfq := mlfq[plevel := mlfq[plevel][i := p]];
          return;
        }
        i := i + 1;
      }
      i := -1;
    }

    method DeleteFromQueue(plevel: nat, p: Slot) returns (i: int)
      requires Valid() && plevel < 3
      modifies this`mlfq
      ensures Valid() && State() == Deleted(old(State()), plevel, p)
      ensures i == FindFrom(old(mlfq)[plevel], p, 0)
    {
      i := 0;
      while i < NPROC
        invariant 0 <= i <= NPROC && mlfq == old(mlfq)
        invariant FindFrom(mlfq[plevel], p, 0) == FindFrom(mlfq[plevel], p, i)
      {
        if mlfq[plevel][i] == p {
          mlfq := mlfq[plevel := mlfq[plevel][i := -1]];
          return;
        }
        i := i + 1;
      }
      i := -1;
    }

    method DeleteHeadFromPQueue(plevel: nat)
      requires Valid() && plevel == 2
      modifies this`mlfq, this`head
      ensures Valid() && State() == HeadDeleted(old(State()))
    {
      if 0 <= head < NPROC {
        mlfq := mlfq[2 := mlfq[2][head := -1]];
        head := (head + 1) % NPROC;
      }
    }

    method Requeue(p: Slot)
      requires Valid()
      modifies this`procs, this`mlfq, this`head
      ensures Valid() && State() == Requeued(old(State()), p)
    {
      hide Inserted, HeadDeleted;
      var i := InsertIntoPQueue(2, p);
      DeleteHeadFromPQueue(2);
      procs := procs[p := procs[p].(slice := procs[p].slice[2 := 0])];
    }

    method GetHighPriorityProcForLevel(plevel: nat) returns (p: int)
      requires Valid() && plevel < 3
      modifies this`procs, this`mlfq, this`head, this`check
      ensures Valid() && -1 <= p < NPROC && (State(), p) == SelectFrom(old(State()), plevel, 0)
    {
      hide Requeued, SelectFrom;
      var i := 0;
      while i < NPROC
        invariant 0 <= i <= NPROC && Valid() && SelectFrom(old(State()), plevel, 0) == SelectFrom(State(), plevel, i)
      {
        SelectUnfolds(State(), plevel, i);
        p := mlfq[plevel][i];
        i := i + 1;
        if p != -1 && procs[p].state.RUNNABLE? {
          if procs[p].isStride {
            continue;
          }
          check := true;
          if plevel == 2 && procs[p].slice[2] == 20 {
            Requeue(p);
          } else {
            procs := procs[p := procs[p].(wasRun := true)];
            return;
          }
        }
        if plevel == 2 {
          head := (head + 1) % NPROC;
        }
      }
      SelectEnds(State(), plevel);
      p := -1;
    }

    method GetHighestPriorityProc() returns (p: int)
      requires Valid()
      modifies this`procs, this`mlfq, this`head, this`check
      ensures Valid() && -1 <= p < NPROC && (State(), p) == Select(old(State()))
    {
      hide SelectFrom;
      check := false;
      var plevel := 0;
      while plevel < 3
        invariant 0 <= plevel <= 3 && Valid() && SelectLevels(old(State()).(check := false), 0) == SelectLevels(State(), plevel)
      {
        p := GetHighPriorityProcForLevel(plevel);
        if p != -1 {
          return;
        }
        plevel := plevel + 1;
      }
      p := -1;
    }

    method BoostPriority()
      requires Valid()
      modifies this`procs, this`mlfq
      ensures Valid() && State() == Boosted(old(State()), NPROC)
      ensures forall q :: 0 <= q < 64 ==> procs[q] == BoostedOneProc(old(procs)[q])
    {
      BoostedProcs(State(), NPROC);
      for p := 0 to NPROC
        invariant Valid() && State() == Boosted(old(State()), p)
      {
        Boost(p);
      }
    }

    method Boost(p: Slot)
      requires Valid()
      modifies this`procs, this`mlfq
      ensures Valid() && State() == BoostedOne(old(State()), p)
    {
      hide Inserted, Deleted, FindFrom;
      if procs[p].state.RUNNABLE? && procs[p].wasRun {
        if procs[p].level > 0 {
          var i := DeleteFromQueue(procs[p].level, p);
          procs := procs[p := procs[p].(level := 0)];
          i := InsertIntoPQueue(procs[p].level, p);
        }
        procs := procs[p := procs[p].(slice := [0, 0, 0])];
      } else {
        procs := procs[p := procs[p].(wasRun := false)];
      }
    }

    /** A tick of the clock: the running process moves down if it has used up its slice, and every hundred ticks all others that
        wait and have run move up. */
    method HandlePriorityLevel()
      requires Valid() && current != -1
      modifies this`procs, this`mlfq, this`head, this`ticksCount
      ensures Valid() && State() == Ticked(old(State()))
      ensures old(QueuesRight(State())) ==> QueuesRight(State()) && TickMoves(old(procs)[current], procs[current])
      ensures old(QueuesRight(State())) ==> TickEffect(old(State()), State())
    {
      hide Boosted, Demoted, QueuesRight, TickMoves, TickEffect;
      ghost var k := State();
      var x := procs[current];
      procs := procs[current := x.(slice := x.slice[x.level := x.slice[x.level] + 1])];
      assert State() == Counted(k);
      BoostFields(State(), NPROC);
      if ticksCount == 100 {
        BoostPriority();
        ticksCount := 0;
      }
      Demote();
      if QueuesRight(k) {
        TickedKeeps(k);
        TickedEffect(k);
      }
    }

    method Demote()
      requires Valid() && current != -1
      modifies this`procs, this`mlfq, this`head
      ensures Valid() && State() == Demoted(old(State()))
    {
      hide Inserted, Deleted, FindFrom;
      match procs[current].level {
        case 0 =>
          if procs[current].slice[0] == 5 {
            Lower();
          }
        case 1 =>
          if procs[current].slice[1] == 10 {
            Lower();
          }
        case _ =>
          if procs[current].slice[2] == 20 {
            procs := procs[current := procs[current].(slice := procs[current].slice[2 := 0])];
            head := (head + 1) % NPROC;
          }
      }
    }

    /** The running process goes down one level. */
    method Lower()
      requires Valid() && current != -1 && procs[current].level < 2
      modifies this`procs, this`mlfq
      ensures Valid()
      ensures var k, p := old(State()), current; var x := k.procs[p];
              State() == Inserted(SetProc(Deleted(k, x.level, p), p, x.(level := x.level + 1, slice := x.slice[x.level + 1 := 0])),
                                  x.level + 1, p)
    {
      hide Inserted, Deleted, FindFrom;
      var p, l := current, procs[current].level;
      var i := DeleteFromQueue(l, p);
      procs := procs[p := procs[p].(level := l + 1, slice := procs[p].slice[l + 1 := 0])];
      i := InsertIntoPQueue(l + 1, p);
    }

    method Wakeup1(chan: int)
      requires Valid()
      modifies this`procs, this`mlfq
      ensures Valid() && State() == Woken(old(State()), chan, NPROC)
      ensures forall p :: 0 <= p < NPROC ==> procs[p] == WokenProc(old(procs)[p], chan)
    {
      hide WokenOne;
      WokenProcs(State(), chan, NPROC);
      for p := 0 to NPROC
        invariant Valid() && State() == Woken(old(State()), chan, p)
      {
        if procs[p].state.SLEEPING? && procs[p].chan == chan {
          MakeRunnable(p);
        }
      }
    }

    method MakeRunnable(p: Slot)
      requires Valid()
      modifies this`procs, this`mlfq
      ensures Valid() && State() == WokenOne(old(State()), p)
    {
      procs := procs[p := procs[p].(state := RUNNABLE, isStride := false)];
      var i := InsertIntoPQueue(procs[p].level, p);
    }

    /** One round of the scheduler's loop, up to the switch to a process. */
    method ScheduleRound()
      requires Valid() && current == -1
      modifies this
      ensures Valid() && State() == Decided(old(State()))
      ensures old(QueuesRight(State())) ==> (QueuesRight(State()) <==> !old(Astray(State()))) && RoundEffect(old(State()), State())
    {
      hide QueueTurn, Dispatched, Scanned, QueuesRight, Astray, RoundEffect;
      if QueuesRight(State()) {
        DecidedIff(State());
        DecidedEffect(State());
      }
      if schedMode.STRIDE? {
        inStride := true;
        var minpass, index, strideSum, sumOfShare := ScanTable();
        if strideSum == 0.0 {
          mlfqStride, mlfqPass, schedMode := 0.0, 0.0, MLFQ;
          RunQueues();
          return;
        }
        if minpass == PASS_LIMIT {
          minpass := 0.0;
        }
        if mlfqPass < minpass {
          mlfqStride := QueueStride(sumOfShare);
          if !check {
            mlfqPass := mlfqPass + mlfqStride;
          } else {
            RunQueues();
          }
        } else {
          SwitchTo(index, ByPass);
        }
      } else {
        RunQueues();
      }
    }

    /** The scan of the process table. */
    method ScanTable() returns (minpass: real, index: Slot, strideSum: real, sumOfShare: real)
      requires Valid()
      ensures Scanned(procs, NPROC) == Scan(minpass, index, strideSum, sumOfShare)
    {
      minpass, index, strideSum, sumOfShare := PASS_LIMIT, 0, 0.0, 0.0;
      for i := 0 to NPROC
        invariant Scanned(procs, i) == Scan(minpass, index, strideSum, sumOfShare)
      {
        if procs[i].state.RUNNABLE? && procs[i].isStride {
          if procs[i].pass < minpass {
            minpass, index := procs[i].pass, i;
          }
          strideSum := strideSum + procs[i].stride;
          if procs[i].stride != 0.0 {
            sumOfShare := sumOfShare + STRIDENUM / procs[i].stride;
          }
        }
      }
    }

    method RunQueues()
      requires Valid()
      modifies this
      ensures Valid() && State() == QueueTurn(old(State()))
    {
      hide Select;
      inStride := false;
      var p := GetHighestPriorityProc();
      if p != -1 {
        SwitchTo(p, ByQueue);
      }
    }

    method SwitchTo(p: Slot, how: Via)
      requires Valid()
      modifies this`procs, this`current, this`via
      ensures Valid() && State() == Dispatched(old(State()), p, how)
    {
      current, via := p, how;
      procs := procs[p := procs[p].(state := RUNNING)];
    }

    /** Back in the scheduler. */
    method Sched()
      requires Valid() && current != -1
      modifies this`procs, this`current, this`mlfqPass
      ensures Valid() && State() == Charged(old(State())) && Paid(old(State()), State())
    {
      if via.ByPass? {
        procs := procs[current := procs[current].(pass := procs[current].pass + procs[current].stride)];
      } else {
        mlfqPass := mlfqPass + mlfqStride;
      }
      current := -1;
    }

    method YieldCpu()
      requires Valid() && current != -1
      modifies this`procs, this`current, this`mlfqPass
      ensures Valid() && State() == Yielded(old(State()))
      ensures Paid(old(State()), State()) && OthersSame(old(procs), procs, old(current)) && procs[old(current)].state.RUNNABLE?
    {
      YieldedEffect(State());
      procs := procs[current := procs[current].(state := RUNNABLE)];
      Sched();
    }

    method TimerInterrupt()
      requires Valid() && current != -1
      modifies this
      ensures Valid() && State() == Interrupted(old(State()))
      ensures old(QueuesRight(State())) ==> ClockEffect(old(State()), State())
      ensures old(QueuesRight(State())) && !old(inStride) ==>
                TicksAndPays(old(State()).(ticksCount := old(ticksCount) + 1), State())
    {
      hide Ticked, QueuesRight, ClockEffect, TicksAndPays, Paid;
      if QueuesRight(State()) { InterruptedEffect(State()); }
      if !inStride {
        ticksCount := ticksCount + 1;
        TickKeepsCurrent(State());
        HandlePriorityLevel();
      }
      YieldCpu();
    }

    /** The running process sleeps, and is in no queue while it does. */
    method Sleep(chan: int)
      requires Valid() && current != -1
      modifies this`procs, this`mlfq, this`current, this`mlfqPass
      ensures Valid() && State() == Slept(old(State()), chan)
      ensures old(QueuesRight(State())) ==> QueuesRight(State()) && InNoQueue(State(), old(current))
      ensures procs[old(current)].state.SLEEPING? && procs[old(current)].chan == chan && current == -1
    {
      hide QueuesRight, InNoQueue, Deleted, Charged, FindFrom;
      ghost var k := State();
      SleptFacts(k, chan);
      procs := procs[current := procs[current].(chan := chan)];
      procs := procs[current := procs[current].(state := SLEEPING)];
      var i := DeleteFromQueue(procs[current].level, current);
      Sched();
      if QueuesRight(k) { SleptKeeps(k, chan); }
    }

    method Reparent(parent: int)
      requires Valid()
      modifies this`procs, this`mlfq
      ensures Valid() && State() == Reparented(old(State()), parent, NPROC)
    {
      hide ReparentedOne;
      for p := 0 to NPROC
        invariant Valid() && State() == Reparented(old(State()), parent, p)
      {
        ReparentChild(parent, p);
      }
    }

    method ReparentChild(parent: int, p: Slot)
      requires Valid()
      modifies this`procs, this`mlfq
      ensures Valid() && State() == ReparentedOne(old(State()), parent, p)
    {
      hide Woken;
      if procs[p].parent == parent {
        var ended := procs[p].state.ZOMBIE?;
        procs := procs[p := procs[p].(parent := INIT)];
        if ended {
          Wakeup1(INIT);
        }
      }
    }

    /** The first process may not exit: the kernel panics. Any other gives its children away and leaves its queue. */
    method Exit() returns (ok: bool)
      requires Valid() && current != -1
      modifies this`procs, this`mlfq, this`current, this`mlfqPass
      ensures ok == (old(current) != INIT)
      ensures Valid() && State() == Exited(old(State()))
      ensures old(QueuesRight(State())) ==> QueuesRight(State())
      ensures ok && old(QueuesRight(State())) ==> forall q :: 0 <= q < 64 ==> ExitEffectOn(old(procs), old(current), q, procs[q])
      ensures ok && old(QueuesRight(State())) ==> procs[old(current)].state.ZOMBIE? && InNoQueue(State(), old(current))
                                                  && !HasChild(procs, old(current))
    {
      hide Woken, Reparented, QueuesRight, HasChild, InNoQueue, ExitEffectOn;
      if current == INIT {
        return false;
      }
      ok := true;
      ghost var k := State();
      WokenFields(k, procs[current].parent, NPROC);
      Wakeup1(procs[current].parent);
      ReparentedFields(State(), current, NPROC);
      Reparent(current);
      procs := procs[current := procs[current].(state := ZOMBIE)];
      var i := DeleteFromQueue(procs[current].level, current);
      Sched();
      if QueuesRight(k) {
        ExitedKeeps(k);
        CurrentRuns(k);
        ExitedEffect(k);
      }
    }

    /** The child that has ended, -1 without children to wait for, and nothing yet if it sleeps. */
    method Wait() returns (pid: int, asleep: bool)
      requires Valid() && current != -1
      modifies this`procs, this`mlfq, this`current, this`mlfqPass
      ensures Valid() && State() == Waited(old(State()))
      ensures var k := old(State()); var z := FirstZombie(k.procs, k.current, 0);
              && pid == (if z != -1 then k.procs[z].pid else -1)
              && asleep == (z == -1 && HasChild(k.procs, k.current) && !k.procs[k.current].killed)
      ensures WaitEffect(old(State()), State(), pid, asleep)
    {
      hide WaitEffect;
      WaitedEffect(State());
      var havekids := false;
      var p := 0;
      while p < NPROC
        invariant 0 <= p <= NPROC && Valid() && State() == old(State())
        invariant FirstZombie(procs, current, 0) == FirstZombie(procs, current, p)
        invariant havekids == exists i :: 0 <= i < p && procs[i].parent == current
      {
        if procs[p].parent == current {
          havekids := true;
          if procs[p].state.ZOMBIE? {
            pid, asleep := procs[p].pid, false;
            procs := procs[p := procs[p].(pid := 0, parent := -1, killed := false, stride := 0.0, share := 0.0, pass := 0.0,
                                          state := UNUSED)];
            return;
          }
        }
        p := p + 1;
      }
      pid := -1;
      asleep := havekids && !procs[current].killed;
      if asleep {
        Sleep(current);
      }
    }

    /** A free entry of the process table with a new number, -1 if there is none or the memory for its stack is short. */
    method AllocProc(stackOk: bool) returns (p: int)
      requires Valid()
      modifies this`procs, this`nextpid
      ensures Valid()
      ensures p == if stackOk then FirstUnused(old(procs), 0) else -1
      ensures var k, q := old(State()), FirstUnused(old(procs), 0);
              State() == if q == -1 then k
                         else SetProc(k.(nextpid := k.nextpid + 1), q,
                                      if stackOk then Embryo(k.procs[q], k.nextpid) else k.procs[q].(pid := k.nextpid))
    {
      p := 0;
      while p < NPROC && !procs[p].state.UNUSED?
        invariant 0 <= p <= NPROC && FirstUnused(procs, 0) == FirstUnused(procs, p)
      {
        p := p + 1;
      }
      if p == NPROC {
        return -1;
      }
      hide FirstUnused;
      procs := procs[p := procs[p].(state := EMBRYO, pid := nextpid)];
      nextpid := nextpid + 1;
      if !stackOk {
        procs := procs[p := procs[p].(state := UNUSED)];
        assert procs == old(procs)[p := old(procs)[p].(pid := old(nextpid))];
        return -1;
      }
      procs := procs[p := Allocated(procs[p])];
    }

    /** The pid of the child, -1 without a free entry of the table or without memory. The child is in the highest queue. */
    method Fork(stackOk: bool, imageOk: bool) returns (pid: int)
      requires Valid() && current != -1
      modifies this`procs, this`mlfq, this`nextpid
      ensures Valid() && State() == Forked(old(State()), stackOk, imageOk)
      ensures pid == if FirstUnused(old(procs), 0) != -1 && stackOk && imageOk then old(nextpid) else -1
      ensures ForkEffect(old(State()), State(), stackOk && imageOk)
      ensures old(QueuesRight(State())) ==> QueuesRight(State())
      ensures var p := FirstUnused(old(procs), 0);
              old(QueuesRight(State())) && p != -1 && stackOk && imageOk ==> p in mlfq[0] && ChildOf(procs[p], current, pid)
    {
      hide Inserted, FindFrom, FirstUnused, QueuesRight, ChildOf, ForkEffect;
      ForkedEffect(State(), stackOk, imageOk);
      ghost var k := State();
      if QueuesRight(k) { ForkedKeeps(k, stackOk, imageOk); }
      var p := AllocProc(stackOk);
      if p == -1 {
        return -1;
      }
      EmbryoForked(k, p, imageOk);
      pid := Populate(p, imageOk);
    }

    /** The new process gets a copy of the image of the running one, and enters its queue. */
    method Populate(p: Slot, imageOk: bool) returns (pid: int)
      requires Valid()
      modifies this`procs, this`mlfq
      ensures Valid() && pid == if imageOk then old(procs)[p].pid else -1
      ensures var k, x := old(State()), old(procs)[p];
              State() == if imageOk then Inserted(SetProc(k, p, x.(parent := current, state := RUNNABLE)), x.level, p)
                         else SetProc(k, p, x.(state := UNUSED))
    {
      hide Inserted, FindFrom;
      if !imageOk {
        procs := procs[p := procs[p].(state := UNUSED)];
        return -1;
      }
      procs := procs[p := procs[p].(parent := current)];
      pid := procs[p].pid;
      procs := procs[p := procs[p].(state := RUNNABLE)];
      assert procs == old(procs)[p := old(procs)[p].(parent := current, state := RUNNABLE)];
      var i := InsertIntoPQueue(procs[p].level, p);
    }

    method Kill(pid: int) returns (found: bool)
      requires Valid()
      modifies this`procs, this`mlfq
      ensures Valid() && State() == KilledProc(old(State()), pid)
      ensures found == (FirstPid(old(procs), pid, 0) != -1)
      ensures KillEffect(old(procs), procs, pid, found)
    {
      hide KillEffect;
      KilledEffect(State(), pid);
      var p := 0;
      while p < NPROC
        invariant 0 <= p <= NPROC && procs == old(procs) && mlfq == old(mlfq)
        invariant FirstPid(procs, pid, 0) == FirstPid(procs, pid, p)
      {
        if procs[p].pid == pid {
          procs := procs[p := procs[p].(killed := true)];
          if procs[p].state.SLEEPING? {
            MakeRunnable(p);
          }
          return true;
        }
        p := p + 1;
      }
      found := false;
    }

    method SetCpuShare(share: int) returns (ok: bool)
      requires Valid() && current != -1
      modifies this`procs, this`schedMode, this`mlfqPass
      ensures Valid() && State() == ShareSet(old(State()), share)
      ensures ok == (Total(old(procs)) + share as real <= 80.0)
      ensures ShareEffect(old(State()), State(), share, ok)
    {
      hide Total, ShareEffect;
      ShareSetEffect(State(), share);
      mlfqPass := 0.0;
      var totalShare := ResetPasses();
      if totalShare + share as real > 80.0 {
        return false;
      }
      var x := procs[current];
      x := x.(share := share as real);
      if share != 0 {
        x := x.(stride := STRIDENUM / x.share);
      }
      procs := procs[current := x.(pass := 0.0, isStride := true)];
      schedMode := STRIDE;
      ok := true;
    }

    /** Sets the pass values of all stride processes back and adds up their shares. */
    method ResetPasses() returns (totalShare: real)
      requires Valid()
      modifies this`procs
      ensures Valid() && State() == old(State()).(procs := AllReset(old(procs))) && totalShare == Total(old(procs))
    {
      totalShare := 0.0;
      for i := 0 to NPROC
        invariant |procs| == NPROC && totalShare == Total(old(procs)[..i])
        invariant forall p :: 0 <= p < NPROC ==> procs[p] == if p < i then PassReset(old(procs)[p]) else old(procs)[p]
      {
        assert old(procs)[..i + 1][..i] == old(procs)[..i];
        if procs[i].isStride {
          totalShare := totalShare + procs[i].share;
          procs := procs[i := procs[i].(pass := 0.0)];
        }
      }
      assert old(procs)[..NPROC] == old(procs);
      assert procs == AllReset(old(procs));
    }

    /** Whatever happens next: only a round of the scheduler that is astray upsets the queues. */
    method Handle(e: Event)
      requires Valid()
      modifies this
      ensures Valid() && State() == Next(old(State()), e)
      ensures old(QueuesRight(State())) ==> (QueuesRight(State()) <==> !(e.Round? && old(Astray(State()))))
    {
      hide QueuesRight, Astray;
      if QueuesRight(State()) { NextKeepsQueues(State(), e); }
      hide Woken, Decided, Interrupted, Yielded, Slept, Forked, Exited, Waited, KilledProc, ShareSet;
      if e.Wakeup? {
        Wakeup1(e.chan);
      } else if e.Round? {
        if current == -1 { ScheduleRound(); }
      } else if current != -1 {
        match e
        case Tick => TimerInterrupt();
        case Yield => YieldCpu();
        case Sleep(chan) => Sleep(chan);
        case Fork(stackOk, imageOk) => var pid := Fork(stackOk, imageOk);
        case Exit => var ok := Exit();
        case Wait => var pid, asleep := Wait();
        case Kill(pid) => var found := Kill(pid);
        case SetShare(share) => var ok := SetCpuShare(share);
      }
    }
  }

  /** A run of the kernel. All along the queues are right exactly if no round of the scheduler is astray, and the stride
      scheduler is fair as well exactly if no event upsets it. */
  method Run(events: seq<Event>) returns (m: Machine)
    ensures fresh(m) && m.Valid() && m.State() == Steps(Booted(), events)
    ensures QueuesStayRight(Booted(), events) <==> Timely(Booted(), events)
    ensures AllStayRight(Booted(), events) <==> Steady(Booted(), events)
  {
    hide Next, Timely, Steady, QueuesStayRight, AllStayRight;
    m := new Machine();
    for i := 0 to |events|
      invariant fresh(m) && m.Valid() && m.State() == Steps(Booted(), events[..i])
    {
      m.Handle(events[i]);
      assert events[..i + 1][..i] == events[..i];
    }
    assert events[..|events|] == events;
    AlwaysQueued(events);
    AlwaysFair(events);
  }
}
