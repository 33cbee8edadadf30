/** Stride scheduling is fair: pass values stay close together, and shares never add up to more than 80 percent. */
module SchedulerShares {
  import opened SchedulerModel
  import opened SchedulerQueues

  /** A stride process that has the processor or waits for it. */
  predicate Contender(x: Proc) {
    x.isStride && Active(x)
  }

  /** A stride process has a share of at least one percent, and the stride that goes with it. */
  ghost predicate Priced(x: Proc) {
    x.share >= 0.0 && (x.isStride && !x.state.UNUSED? ==> x.share >= 1.0 && x.stride == STRIDENUM / x.share)
  }

  ghost predicate SharesRight(k: Kern) {
    (forall p :: 0 <= p < NPROC ==> Priced(k.procs[p])) && Total(k.procs) <= 80.0
  }

  /** No contender is more than one of its own strides ahead of another, and the queues together are at most 500 ahead. */
  ghost predicate Fair(k: Kern) {
    && (forall p, q :: 0 <= p < NPROC && 0 <= q < NPROC && Contender(k.procs[p]) && Contender(k.procs[q]) ==>
          k.procs[p].pass <= k.procs[q].pass + k.procs[p].stride)
    && (forall q :: 0 <= q < NPROC && Contender(k.procs[q]) ==> k.mlfqPass <= k.procs[q].pass + 500.0)
  }

  /** Whoever runs was chosen because it was not ahead of any contender; and in the mode without shares there are none. */
  ghost predicate ChosenRight(k: Kern) {
    && 0.0 <= k.mlfqStride <= 500.0
    && (k.mode.MLFQ? ==> forall q :: 0 <= q < NPROC ==> !Contender(k.procs[q]))
    && (k.current != -1 && k.via.ByQueue? ==> forall q :: 0 <= q < NPROC && Contender(k.procs[q]) ==> k.mlfqPass <= k.procs[q].pass)
    && (k.current != -1 && k.via.ByPass? && Contender(k.procs[k.current]) ==>
          forall q :: 0 <= q < NPROC && Contender(k.procs[q]) ==> k.procs[k.current].pass <= k.procs[q].pass)
  }

  ghost predicate StrideRight(k: Kern) {
    SharesRight(k) && Fair(k) && ChosenRight(k)
  }

  // ----- arithmetic of shares -----

  lemma StrideOfShare(share: real)
    requires 1.0 <= share <= 80.0
    ensures STRIDENUM / share > 0.0 && ShareOf(STRIDENUM / share) == share
  {
    var s := STRIDENUM / share;
    assert s * share == STRIDENUM;
    assert s > 0.0;
  }

  lemma QueueStrideBounded(shares: real)
    requires 0.0 <= shares <= 80.0
    ensures 0.0 <= QueueStride(shares) <= 500.0
  {
    var d := 100.0 - shares;
    var q := STRIDENUM / d;
    assert q * d == STRIDENUM;
    if q > 500.0 { assert q * d > 500.0 * d >= 500.0 * 20.0; }
    if q < 0.0 { assert q * d < 0.0; }
  }

  lemma {:induction false} TotalAtMost(a: seq<Proc>, b: seq<Proc>)
    requires |a| == |b| && forall p :: 0 <= p < |a| ==> Part(b[p]) <= Part(a[p])
    ensures Total(b) <= Total(a)
  {
    if a != [] { TotalAtMost(a[..|a| - 1], b[..|b| - 1]); }
  }

  lemma {:induction false} TotalChanged(procs: seq<Proc>, p: nat, x: Proc)
    requires p < |procs|
    ensures Total(procs[p := x]) == Total(procs) - Part(procs[p]) + Part(x)
  {
    var n := |procs| - 1;
    if p < n {
      TotalChanged(procs[..n], p, x);
      assert procs[p := x][..n] == procs[..n][p := x];
    } else {
      assert procs[p := x][..n] == procs[..n];
    }
  }

  /** The total is what the stride processes have: none without any, and a process that becomes one adds its share. */
  lemma TotalMeans(procs: seq<Proc>, p: nat, x: Proc)
    requires p < |procs|
    ensures (forall q :: 0 <= q < |procs| ==> !procs[q].isStride) ==> Total(procs) == 0.0
    ensures Total(procs[p := x.(isStride := true)]) == Total(procs[p := x.(isStride := false)]) + x.share
  {
    if forall q :: 0 <= q < |procs| ==> !procs[q].isStride { NoShares(procs); }
    TotalChanged(procs, p, x.(isStride := true));
    TotalChanged(procs, p, x.(isStride := false));
  }

  /** The processes that do not wait, without their shares. */
  function OnlyWaiting(procs: seq<Proc>): (r: seq<Proc>)
    ensures |r| == |procs|
  {
    seq(|procs|, q requires 0 <= q < |procs| => if Waiting(procs[q]) then procs[q] else procs[q].(isStride := false))
  }

  /** The shares that the scan computes back from the strides are those of the processes that wait. */
  lemma {:induction false} ScanSum(procs: seq<Proc>, n: nat)
    requires n <= |procs| && forall p :: 0 <= p < |procs| ==> Priced(procs[p]) && (procs[p].isStride ==> procs[p].share <= 80.0)
    ensures Scanned(procs, n).shares == Total(OnlyWaiting(procs[..n]))
  {
    if n > 0 {
      ScanSum(procs, n - 1);
      assert OnlyWaiting(procs[..n])[..n - 1] == OnlyWaiting(procs[..n - 1]);
      if Waiting(procs[n - 1]) { StrideOfShare(procs[n - 1].share); }
    }
  }

  /** The stride of the queues belongs to the percentage that the waiting stride processes leave. */
  lemma QueueStrideMeans(shares: real)
    requires shares != 100.0
    ensures QueueStride(shares) * (100.0 - shares) == 10000.0
  {
  }

  lemma {:induction false} PartInTotal(procs: seq<Proc>, p: nat)
    requires p < |procs| && forall q :: 0 <= q < |procs| ==> Part(procs[q]) >= 0.0
    ensures Part(procs[p]) <= Total(procs)
  {
    var n := |procs| - 1;
    if p < n {
      PartInTotal(procs[..n], p);
    } else if n > 0 {
      PartInTotal(procs[..n], 0);
    }
  }

  /** What the scan adds up: the shares of the processes that wait are part of all shares, and the strides are positive. */
  lemma {:induction false} ScanShares(procs: seq<Proc>, n: nat)
    requires n <= |procs| && forall p :: 0 <= p < |procs| ==> Priced(procs[p]) && (procs[p].isStride ==> procs[p].share <= 80.0)
    ensures 0.0 <= Scanned(procs, n).shares <= Total(procs[..n])
    ensures Scanned(procs, n).strideSum >= 0.0
    ensures (exists p :: 0 <= p < n && Waiting(procs[p])) ==> Scanned(procs, n).strideSum > 0.0
  {
    if n > 0 {
      ScanShares(procs, n - 1);
      assert procs[..n][..n - 1] == procs[..n - 1];
      if Waiting(procs[n - 1]) { StrideOfShare(procs[n - 1].share); }
    }
  }

  lemma ShareAtMost80(k: Kern)
    requires SharesRight(k)
    ensures forall p :: 0 <= p < NPROC && k.procs[p].isStride ==> k.procs[p].share <= 80.0
  {
    forall p | 0 <= p < NPROC && k.procs[p].isStride ensures k.procs[p].share <= 80.0 {
      PartInTotal(k.procs, p);
    }
  }

  lemma StridesPositive(k: Kern)
    requires SharesRight(k)
    ensures forall p :: 0 <= p < NPROC && Contender(k.procs[p]) ==> k.procs[p].stride > 0.0
  {
    ShareAtMost80(k);
    forall p | 0 <= p < NPROC && Contender(k.procs[p]) ensures k.procs[p].stride > 0.0 {
      StrideOfShare(k.procs[p].share);
    }
  }

  // ----- changes that leave the contest alone -----

  /** No new claim on the processor comes from this change. */
  ghost predicate Calmer(x: Proc, y: Proc) {
    && 0.0 <= y.share && Part(y) <= Part(x)
    && (y.isStride && !y.state.UNUSED? ==> x.isStride && !x.state.UNUSED? && y.share == x.share && y.stride == x.stride)
    && (Contender(y) ==> Contender(x) && y.pass == x.pass)
  }

  ghost predicate Calm(k: Kern, u: Kern) {
    && u.current == k.current && u.via == k.via && u.mode == k.mode && u.mlfqStride == k.mlfqStride && u.mlfqPass == k.mlfqPass
    && forall p :: 0 <= p < NPROC ==> Calmer(k.procs[p], u.procs[p])
  }

  lemma CalmKeeps(k: Kern, u: Kern)
    requires StrideRight(k) && Calm(k, u)
    ensures StrideRight(u)
  {
    TotalAtMost(k.procs, u.procs);
  }

  lemma CalmThen(k: Kern, u: Kern, v: Kern)
    requires Calm(k, u) && Calm(u, v)
    ensures Calm(k, v)
  {
  }

  ghost predicate NoDebts(k: Kern) {
    forall p :: 0 <= p < NPROC ==> k.procs[p].share >= 0.0
  }

  lemma CalmItself(k: Kern)
    requires NoDebts(k)
    ensures Calm(k, k)
  {
  }

  /** One process changes calmly; the queues do not matter. */
  lemma CalmOne(k: Kern, p: Slot, x: Proc, u: Kern)
    requires NoDebts(k) && Calmer(k.procs[p], x) && Good(x)
    requires u == k.(procs := k.procs[p := x], mlfq := u.mlfq, check := u.check, head := u.head, ticksCount := u.ticksCount)
    ensures Calm(k, u) && NoDebts(u)
  {
  }

  lemma WokenOneCalm(k: Kern, p: Slot)
    requires NoDebts(k)
    ensures Calm(k, WokenOne(k, p)) && NoDebts(WokenOne(k, p))
  {
    var x := k.procs[p];
    CalmOne(k, p, x.(state := RUNNABLE, isStride := false), WokenOne(k, p));
  }

  lemma {:induction false} WokenCalm(k: Kern, chan: int, n: nat)
    requires n <= NPROC && NoDebts(k)
    ensures Calm(k, Woken(k, chan, n)) && NoDebts(Woken(k, chan, n))
  {
    hide Calm, NoDebts, WokenOne;
    if n == 0 {
      CalmItself(k);
    } else {
      WokenCalm(k, chan, n - 1);
      var u := Woken(k, chan, n - 1);
      WokenOneCalm(u, n - 1);
      CalmThen(k, u, WokenOne(u, n - 1));
    }
  }

  lemma BoostedOneCalm(k: Kern, p: Slot)
    requires NoDebts(k)
    ensures Calm(k, BoostedOne(k, p)) && NoDebts(BoostedOne(k, p))
  {
    var x := k.procs[p];
    var u := BoostedOne(k, p);
    CalmOne(k, p, u.procs[p], u);
  }

  lemma {:induction false} BoostedCalm(k: Kern, n: nat)
    requires n <= NPROC && NoDebts(k)
    ensures Calm(k, Boosted(k, n)) && NoDebts(Boosted(k, n))
  {
    hide Calm, NoDebts, BoostedOne;
    if n == 0 {
      CalmItself(k);
    } else {
      BoostedCalm(k, n - 1);
      BoostedOneCalm(Boosted(k, n - 1), n - 1);
      CalmThen(k, Boosted(k, n - 1), Boosted(k, n));
    }
  }

  lemma CountedCalm(k: Kern)
    requires NoDebts(k) && k.current != -1
    ensures Calm(k, Counted(k)) && NoDebts(Counted(k))
  {
    CalmOne(k, k.current, Counted(k).procs[k.current], Counted(k));
  }

  lemma DemotedCalm(k: Kern)
    requires NoDebts(k) && k.current != -1
    ensures Calm(k, Demoted(k)) && NoDebts(Demoted(k))
  {
    CalmOne(k, k.current, Demoted(k).procs[k.current], Demoted(k));
  }

  lemma TickedCalm(k: Kern)
    requires NoDebts(k) && k.current != -1
    ensures Calm(k, Ticked(k)) && NoDebts(Ticked(k))
  {
    hide Boosted, Demoted, Counted, Calm, NoDebts;
    CountedCalm(k);
    var k1 := Counted(k);
    BoostedCalm(k1, NPROC);
    BoostFields(k1, NPROC);
    var b := Boosted(k1, NPROC);
    CalmCount(b, 0);
    CalmThen(k, k1, b);
    CalmThen(k, b, b.(ticksCount := 0));
    var k2 := if k1.ticksCount == 100 then b.(ticksCount := 0) else k1;
    DemotedCalm(k2);
    CalmThen(k, k2, Demoted(k2));
  }

  lemma CalmCount(k: Kern, n: nat)
    requires NoDebts(k)
    ensures Calm(k, k.(ticksCount := n)) && NoDebts(k.(ticksCount := n))
  {
  }

  lemma ReparentedOneCalm(k: Kern, parent: int, p: Slot)
    requires NoDebts(k)
    ensures Calm(k, ReparentedOne(k, parent, p)) && NoDebts(ReparentedOne(k, parent, p))
  {
    var x := k.procs[p].(parent := INIT);
    var u := SetProc(k, p, x);
    CalmItself(k);
    CalmOne(k, p, x, u);
    hide Woken, Calm;
    WokenCalm(u, INIT, NPROC);
    CalmThen(k, u, Woken(u, INIT, NPROC));
  }

  lemma {:induction false} ReparentedCalm(k: Kern, parent: int, n: nat)
    requires n <= NPROC && NoDebts(k)
    ensures Calm(k, Reparented(k, parent, n)) && NoDebts(Reparented(k, parent, n))
  {
    hide Calm, NoDebts, ReparentedOne;
    if n == 0 {
      CalmItself(k);
    } else {
      ReparentedCalm(k, parent, n - 1);
      ReparentedOneCalm(Reparented(k, parent, n - 1), parent, n - 1);
      CalmThen(k, Reparented(k, parent, n - 1), Reparented(k, parent, n));
    }
  }

  // ----- every step keeps the stride scheduler right -----

  lemma ChargedShares(k: Kern)
    requires k.current != -1 && SharesRight(k)
    ensures SharesRight(Charged(k))
  {
    var u := Charged(k);
    TotalAtMost(k.procs, u.procs);
    forall q | 0 <= q < NPROC ensures Priced(u.procs[q]) {
      assert Priced(k.procs[q]);
    }
  }

  /** The process that has had its turn is charged its stride, or the queues are charged theirs. */
  lemma ChargedFair(k: Kern)
    requires k.current != -1 && StrideRight(k)
    ensures StrideRight(Charged(k))
  {
    ChargedShares(k);
    StridesPositive(k);
    hide SharesRight;
  }

  lemma YieldedFair(k: Kern)
    requires k.current != -1 && StrideRight(k) && k.procs[k.current].state.RUNNING?
    ensures StrideRight(Yielded(k))
  {
    var x := k.procs[k.current].(state := RUNNABLE);
    CalmOne(k, k.current, x, SetProc(k, k.current, x));
    CalmKeeps(k, SetProc(k, k.current, x));
    ChargedFair(SetProc(k, k.current, x));
  }

  lemma LeftFair(k: Kern, state: PState)
    requires k.current != -1 && StrideRight(k) && k.procs[k.current].state.RUNNING? && (state.SLEEPING? || state.ZOMBIE?)
    ensures StrideRight(Left(k, state))
  {
    var p, x := k.current, k.procs[k.current].(state := state);
    var u := Deleted(SetProc(k, p, x), x.level, p);
    CalmOne(k, p, x, u);
    CalmKeeps(k, u);
    ChargedFair(u);
  }

  lemma SleptFair(k: Kern, chan: int)
    requires k.current != -1 && StrideRight(k) && k.procs[k.current].state.RUNNING?
    ensures StrideRight(Slept(k, chan))
  {
    var x := k.procs[k.current].(chan := chan);
    CalmOne(k, k.current, x, SetProc(k, k.current, x));
    CalmKeeps(k, SetProc(k, k.current, x));
    LeftFair(SetProc(k, k.current, x), SLEEPING);
  }

  lemma ExitedFair(k: Kern)
    requires k.current != -1 && StrideRight(k) && QueuesRight(k)
    ensures StrideRight(Exited(k))
  {
    if k.current != INIT {
      var u := Woken(k, k.procs[k.current].parent, NPROC);
      var v := Reparented(u, k.current, NPROC);
      assert NoDebts(k);
      WokenCalm(k, k.procs[k.current].parent, NPROC);
      ReparentedCalm(u, k.current, NPROC);
      CalmThen(k, u, v);
      CalmKeeps(k, v);
      WokenKeeps(k, k.procs[k.current].parent, NPROC);
      ReparentedKeeps(u, k.current, NPROC);
      assert v.procs[k.current].state.RUNNING?;
      LeftFair(v, ZOMBIE);
    }
  }

  lemma WaitedFair(k: Kern)
    requires k.current != -1 && StrideRight(k) && k.procs[k.current].state.RUNNING?
    ensures StrideRight(Waited(k))
  {
    var z := FirstZombie(k.procs, k.current, 0);
    if z != -1 {
      assert Priced(k.procs[z]);
      CalmOne(k, z, Waited(k).procs[z], Waited(k));
      CalmKeeps(k, Waited(k));
    } else {
      SleptFair(k, k.current);
    }
  }

  lemma ForkedFair(k: Kern, stackOk: bool, imageOk: bool)
    requires k.current != -1 && StrideRight(k)
    ensures StrideRight(Forked(k, stackOk, imageOk))
  {
    hide StrideRight;
    var p := FirstUnused(k.procs, 0);
    if p != -1 { CalmOneKeeps(k, p, Forked(k, stackOk, imageOk)); }
  }

  /** One process changes calmly; the number of the next process does not matter either. */
  lemma CalmOneKeeps(k: Kern, p: Slot, u: Kern)
    requires StrideRight(k) && (Priced(k.procs[p]) ==> Calmer(k.procs[p], u.procs[p]))
    requires u == k.(procs := k.procs[p := u.procs[p]], mlfq := u.mlfq, nextpid := u.nextpid)
    ensures StrideRight(u)
  {
    assert forall q :: 0 <= q < NPROC ==> Priced(k.procs[q]);
    CalmKeeps(k, u);
  }

  lemma KilledFair(k: Kern, pid: int)
    requires StrideRight(k)
    ensures StrideRight(KilledProc(k, pid))
  {
    var p := FirstPid(k.procs, pid, 0);
    if p != -1 {
      assert NoDebts(k);
      var x := k.procs[p].(killed := true);
      var u := SetProc(k, p, x);
      CalmOne(k, p, x, u);
      WokenOneCalm(u, p);
      CalmThen(k, u, WokenOne(u, p));
      CalmKeeps(k, KilledProc(k, pid));
    }
  }

  lemma ResetTotal(k: Kern)
    ensures Total(AllReset(k.procs)) == Total(k.procs)
  {
    TotalAtMost(AllReset(k.procs), k.procs);
    TotalAtMost(k.procs, AllReset(k.procs));
  }

  /** A request for a share starts a new contest, whether it is granted or not: every pass value is zero. */
  lemma ResetFair(k: Kern)
    requires k.current != -1 && StrideRight(k)
    ensures StrideRight(k.(procs := AllReset(k.procs), mlfqPass := 0.0))
  {
    ResetTotal(k);
    StridesPositive(k);
    var u := k.(procs := AllReset(k.procs), mlfqPass := 0.0);
    forall q | 0 <= q < NPROC ensures Priced(u.procs[q]) {
      assert Priced(k.procs[q]);
    }
  }

  lemma GrantedShares(k: Kern, p: Slot, x: Proc)
    requires SharesRight(k) && Good(x) && x.isStride && x.share >= 1.0 && x.stride == STRIDENUM / x.share
    requires Total(k.procs) + x.share <= 80.0
    ensures SharesRight(SetProc(k, p, x))
  {
    TotalChanged(k.procs, p, x);
    assert Priced(k.procs[p]);
    assert forall q :: 0 <= q < NPROC && q != p ==> Priced(k.procs[q]);
  }

  /** A share that is granted; all pass values are zero. */
  lemma GrantedFair(k: Kern, p: Slot, x: Proc)
    requires Good(x) && SharesRight(SetProc(k, p, x)) && x.pass == 0.0 && k.mlfqPass == 0.0 && 0.0 <= k.mlfqStride <= 500.0
    requires forall q :: 0 <= q < NPROC && k.procs[q].isStride ==> k.procs[q].pass == 0.0
    ensures StrideRight(SetProc(k, p, x).(mode := STRIDE))
  {
    StridesPositive(SetProc(k, p, x));
    hide Total, Priced;
  }

  /** A request for at least one percent keeps the stride scheduler right. A smaller one is granted, and then there is a share of
      less than one percent, which is part of what is not right. */
  lemma ShareSetIff(k: Kern, share: int)
    requires k.current != -1 && StrideRight(k) && k.procs[k.current].state.RUNNING?
    ensures StrideRight(ShareSet(k, share)) <==> share >= 1
  {
    ResetFair(k);
    ResetTotal(k);
    var k1, u := k.(procs := AllReset(k.procs), mlfqPass := 0.0), ShareSet(k, share);
    var x := u.procs[k.current];
    assert share < 1 ==> !Priced(x);
    hide Fair, ChosenRight, Total, Priced;
    if share >= 1 && Total(k.procs) + share as real <= 80.0 {
      GrantedShares(k1, k.current, x);
      ChosenBounds(k);
      GrantedFair(k1, k.current, x);
    }
  }

  lemma ChosenBounds(k: Kern)
    requires ChosenRight(k)
    ensures 0.0 <= k.mlfqStride <= 500.0
  {
  }

  lemma SelectCalm(k: Kern)
    requires NoDebts(k) && QueuesRight(k)
    ensures Calm(k, Select(k).0)
  {
    SelectRight(k);
    var (u, p) := Select(k);
    if p == -1 { CalmItself(k); } else { CalmOne(k, p, u.procs[p], u.(mlfq := u.mlfq)); }
  }

  /** The processor goes to a process that waits for it, if the queues, or this process, are not ahead of any contender. */
  lemma DispatchedFair(k: Kern, p: Slot, via: Via)
    requires StrideRight(k) && k.procs[p].state.RUNNABLE?
    requires via.ByQueue? ==> Behind(k)
    requires via.ByPass? && k.procs[p].isStride ==>
               forall q :: 0 <= q < NPROC && Contender(k.procs[q]) ==> k.procs[p].pass <= k.procs[q].pass
    ensures StrideRight(Dispatched(k, p, via))
  {
    var x := k.procs[p].(state := RUNNING);
    var u, v := SetProc(k, p, x), Dispatched(k, p, via);
    assert NoDebts(k);
    CalmOne(k, p, x, u);
    CalmKeeps(k, u);
    assert SharesRight(v) && Fair(v);
  }

  /** The queues are not ahead of any contender. */
  ghost predicate Behind(k: Kern) {
    forall q :: 0 <= q < NPROC && Contender(k.procs[q]) ==> k.mlfqPass <= k.procs[q].pass
  }

  lemma CalmBehind(k: Kern, u: Kern)
    requires Calm(k, u) && Behind(k)
    ensures Behind(u)
  {
  }

  /** A turn of the queues when they are not ahead of any contender. */
  lemma QueueTurnFair(k: Kern)
    requires QueuesRight(k) && StrideRight(k) && k.current == -1 && Behind(k)
    ensures StrideRight(QueueTurn(k))
  {
    assert NoDebts(k);
    hide QueuesRight, Select, SharesRight, Fair, ChosenRight, Behind, Calm;
    var k1 := k.(inStride := false);
    SameQueues(k, k1);
    CalmFlag(k, false);
    SelectCalm(k1);
    var (u, p) := Select(k1);
    CalmThen(k, k1, u);
    CalmKeeps(k, u);
    CalmBehind(k, u);
    SelectedRunnable(k1);
    if p != -1 { DispatchedFair(u, p, ByQueue); }
  }

  lemma CalmFlag(k: Kern, b: bool)
    requires NoDebts(k)
    ensures Calm(k, k.(inStride := b)) && NoDebts(k.(inStride := b))
  {
  }

  lemma SelectedRunnable(k: Kern)
    requires QueuesRight(k)
    ensures var (u, p) := Select(k); p != -1 ==> u.procs[p].state.RUNNABLE?
  {
    SelectRight(k);
    var (u, p) := Select(k);
    if p != -1 { assert Eligible(k.procs[p]); }
  }

  /** With nobody running, the contenders are those that the scan sees. */
  lemma ContendersWait(k: Kern)
    requires OneRuns(k) && k.current == -1
    ensures forall p :: 0 <= p < NPROC ==> (Contender(k.procs[p]) <==> Waiting(k.procs[p]))
  {
  }

  /** In a turn that goes by pass values: the process that gets the processor has no share, or none that waits is behind it. */
  ghost predicate Unbeaten(k: Kern, p: Slot) {
    k.procs[p].isStride ==> LeastPass(k, p)
  }

  /** The process dispatched for its pass value is one that waits, and none that waits has a smaller one. */
  ghost predicate LeastPass(k: Kern, p: int) {
    && 0 <= p < NPROC && Waiting(k.procs[p])
    && forall q :: 0 <= q < NPROC && Waiting(k.procs[q]) ==> k.procs[p].pass <= k.procs[q].pass
  }

  /** Handing out the processor for a pass value is fair exactly if no process that waits is behind. */
  lemma PassTurnIff(k: Kern, p: Slot)
    requires QueuesRight(k) && StrideRight(k) && k.current == -1 && k.mode.STRIDE? && k.procs[p].state.RUNNABLE?
    ensures StrideRight(Dispatched(k, p, ByPass)) <==> Unbeaten(k, p)
  {
    ContendersWait(k);
    if Unbeaten(k, p) {
      DispatchedFair(k, p, ByPass);
    } else {
      var q :| 0 <= q < NPROC && Waiting(k.procs[q]) && k.procs[q].pass < k.procs[p].pass;
      var v := Dispatched(k, p, ByPass);
      assert Contender(v.procs[q]) && v.procs[q].pass < v.procs[p].pass;
    }
  }

  /** A round in which all processes that wait have reached the limit of pass values, and one is behind the first process. */
  ghost predicate Unfair(k: Kern) {
    PassTurn(k) && Overrun(k) && !Unbeaten(k, INIT)
  }

  /** The round falls on the least pass value as long as one is below the limit. */
  lemma GivenLeast(k: Kern)
    requires PassTurn(k) && !Overrun(k)
    ensures LeastPass(k, Scanned(k.procs, NPROC).index)
  {
    ScanRight(k.procs, NPROC);
  }

  /** The scan finds no stride process that waits: the queues go on without a contest. */
  lemma ContestOver(k: Kern)
    requires QueuesRight(k) && StrideRight(k) && k.current == -1 && k.mode.STRIDE? && Scanned(k.procs, NPROC).strideSum == 0.0
    ensures StrideRight(Decided(k))
  {
    ContendersWait(k);
    SharesScanned(k);
    hide QueuesRight, QueueTurn, Scanned;
    var u := k.(inStride := true, mlfqStride := 0.0, mlfqPass := 0.0, mode := MLFQ);
    SameQueues(k, u);
    NoContest(k, u);
    QueueTurnFair(u);
  }

  /** The queues are behind: it is their turn, or they catch up. */
  lemma CatchUp(k: Kern)
    requires QueuesRight(k) && StrideRight(k) && k.current == -1 && k.mode.STRIDE? && !PassTurn(k)
    requires Scanned(k.procs, NPROC).strideSum != 0.0
    ensures StrideRight(Decided(k))
  {
    ContendersWait(k);
    ScanRight(k.procs, NPROC);
    SharesScanned(k);
    hide QueuesRight, QueueTurn, Scanned;
    var s := Scanned(k.procs, NPROC);
    var u := k.(inStride := true, mlfqStride := QueueStride(s.shares));
    SameQueues(k, u);
    QueuesBehind(k, u, if s.minpass == PASS_LIMIT then 0.0 else s.minpass);
    QueueTurnFair(u);
  }

  lemma SharesScanned(k: Kern)
    requires SharesRight(k)
    ensures 0.0 <= QueueStride(Scanned(k.procs, NPROC).shares) <= 500.0
    ensures Scanned(k.procs, NPROC).strideSum == 0.0 ==> forall p :: 0 <= p < NPROC ==> !Waiting(k.procs[p])
  {
    ShareAtMost80(k);
    ScanShares(k.procs, NPROC);
    assert k.procs[..NPROC] == k.procs;
    QueueStrideBounded(Scanned(k.procs, NPROC).shares);
  }

  /** A round of the scheduler that is not astray is fair exactly if it is not such a round. */
  lemma DecidedFairIff(k: Kern)
    requires QueuesRight(k) && StrideRight(k) && k.current == -1 && !Astray(k)
    ensures StrideRight(Decided(k)) <==> !Unfair(k)
  {
    if PassTurn(k) {
      PassTurnGiven(k);
      var k1, p := k.(inStride := true), Scanned(k.procs, NPROC).index;
      SameQueues(k, k1);
      SameContest(k, k1);
      if !Overrun(k) { GivenLeast(k); }
      hide QueuesRight, Decided, StrideRight, Scanned, Overrun;
      PassTurnIff(k1, p);
      assert Unbeaten(k1, p) == Unbeaten(k, p);
    } else if k.mode.STRIDE? {
      if Scanned(k.procs, NPROC).strideSum == 0.0 { ContestOver(k); } else { CatchUp(k); }
    } else {
      FeedbackTurn(k);
      QueueTurnFair(k);
    }
  }

  lemma SameContest(k: Kern, u: Kern)
    requires StrideRight(k) && u == k.(inStride := u.inStride)
    ensures StrideRight(u)
  {
  }

  lemma NoContest(k: Kern, u: Kern)
    requires SharesRight(k) && u.procs == k.procs && u.current == -1 && u.mlfqStride == 0.0
    requires forall q :: 0 <= q < NPROC ==> !Contender(k.procs[q])
    ensures StrideRight(u) && Behind(u)
  {
  }

  lemma QueuesBehind(k: Kern, u: Kern, least: real)
    requires StrideRight(k) && k.current == -1 && k.mode.STRIDE? && 0.0 <= u.mlfqStride <= 500.0
    requires u == k.(mlfqStride := u.mlfqStride, inStride := u.inStride) && k.mlfqPass < least
    requires forall q :: 0 <= q < NPROC && Contender(k.procs[q]) ==> least <= k.procs[q].pass
    ensures StrideRight(u) && Behind(u) && StrideRight(u.(mlfqPass := u.mlfqPass + u.mlfqStride))
  {
  }

  /** Is this a round as above, or a request for less than one percent? */
  ghost predicate Upsets(k: Kern, e: Event) {
    (e.Round? && Unfair(k)) || (e.SetShare? && k.current != -1 && e.share < 1)
  }

  /** One event keeps the stride scheduler right, with shares of at least one percent, exactly if it is not one of these. */
  lemma NextKeepsFair(k: Kern, e: Event)
    requires QueuesRight(k) && StrideRight(k) && !(e.Round? && Astray(k))
    ensures StrideRight(Next(k, e)) <==> !Upsets(k, e)
  {
    assert NoDebts(k);
    var runs := k.current != -1;
    assert runs ==> k.procs[k.current].state.RUNNING?;
    assert runs ==> !Unfair(k);
    hide QueuesRight, StrideRight, NoDebts, Calm, Unfair, Astray;
    hide Decided, Woken, Interrupted, Yielded, Slept, Forked, Exited, Waited, KilledProc, ShareSet;
    if e.Wakeup? {
      WokenCalm(k, e.chan, NPROC);
      CalmKeeps(k, Woken(k, e.chan, NPROC));
    } else if e.Round? {
      if !runs { DecidedFairIff(k); }
    } else if runs {
      match e
      case Tick => InterruptedFair(k);
      case Yield => YieldedFair(k);
      case Sleep(chan) => SleptFair(k, chan);
      case Fork(stackOk, imageOk) => ForkedFair(k, stackOk, imageOk);
      case Exit => ExitedFair(k);
      case Wait => WaitedFair(k);
      case Kill(pid) => KilledFair(k, pid);
      case SetShare(share) => ShareSetIff(k, share);
    }
  }

  lemma InterruptedFair(k: Kern)
    requires k.current != -1 && StrideRight(k) && QueuesRight(k)
    ensures StrideRight(Interrupted(k))
  {
    assert NoDebts(k);
    hide StrideRight, Calm, NoDebts, Ticked, Yielded, QueuesRight;
    RunningRuns(k);
    if k.inStride {
      YieldedFair(k);
    } else {
      var u := k.(ticksCount := k.ticksCount + 1);
      SameQueues(k, u);
      CalmCount(k, k.ticksCount + 1);
      CalmKeeps(k, u);
      TickedCalm(u);
      CalmKeeps(u, Ticked(u));
      TickedKeeps(u);
      RunningRuns(Ticked(u));
      YieldedFair(Ticked(u));
    }
  }

  lemma RunningRuns(k: Kern)
    requires QueuesRight(k) && k.current != -1
    ensures k.procs[k.current].state.RUNNING?
  {
  }

  lemma {:induction false} NoShares(procs: seq<Proc>)
    requires forall p :: 0 <= p < |procs| ==> !procs[p].isStride
    ensures Total(procs) == 0.0
  {
    if procs != [] { NoShares(procs[..|procs| - 1]); }
  }

  lemma BootedFair()
    ensures StrideRight(Booted())
  {
    NoShares(Booted().procs);
  }

  /** All along a run the queues and the stride scheduler are right: every share is at least one percent and they add up to at
      most 80, no stride process that has the processor or waits for it is ahead of another by more than one of its own strides,
      the queues are at most 500 ahead of any, and whoever has the processor was not ahead of any when it was chosen. */
  ghost predicate AllStayRight(k: Kern, events: seq<Event>)
    decreases |events|
  {
    && QueuesRight(Steps(k, events)) && StrideRight(Steps(k, events))
    && (events != [] ==> AllStayRight(k, events[..|events| - 1]))
  }

  /** No round is astray or unfair, and no share of less than one percent is asked for. */
  ghost predicate Steady(k: Kern, events: seq<Event>)
    decreases |events|
  {
    events != [] ==>
      var before, e := events[..|events| - 1], events[|events| - 1];
      Steady(k, before) && !(e.Round? && Astray(Steps(k, before))) && !Upsets(Steps(k, before), e)
  }

  /** Over every run: all of it stays right exactly if it is steady. */
  lemma {:induction false} AlwaysFair(events: seq<Event>)
    ensures AllStayRight(Booted(), events) <==> Steady(Booted(), events)
    decreases |events|
  {
    hide QueuesRight, StrideRight, Astray, Upsets, Next;
    if events == [] {
      BootedRight();
      BootedFair();
    } else {
      var before, e := events[..|events| - 1], events[|events| - 1];
      AlwaysFair(before);
      if Steady(Booted(), before) {
        assert AllStayRight(Booted(), before);
        var k := Steps(Booted(), before);
        NextKeepsQueues(k, e);
        if !(e.Round? && Astray(k)) { NextKeepsFair(k, e); }
      }
    }
  }

  /** No round is astray or unfair. */
  ghost predicate RoundsFair(k: Kern, events: seq<Event>)
    decreases |events|
  {
    events != [] ==>
      var before := events[..|events| - 1];
      && RoundsFair(k, before)
      && (events[|events| - 1].Round? ==> !Astray(Steps(k, before)) && !Unfair(Steps(k, before)))
  }

  /** When at least one percent is asked for each time, everything depends on the rounds. */
  lemma {:induction false} FairIffRounds(events: seq<Event>)
    requires forall e :: e in events && e.SetShare? ==> e.share >= 1
    ensures AllStayRight(Booted(), events) <==> RoundsFair(Booted(), events)
  {
    AlwaysFair(events);
    SteadyIffRounds(Booted(), events);
  }

  lemma {:induction false} SteadyIffRounds(k: Kern, events: seq<Event>)
    requires forall e :: e in events && e.SetShare? ==> e.share >= 1
    ensures Steady(k, events) <==> RoundsFair(k, events)
    decreases |events|
  {
    hide Astray, Unfair, Steps;
    if events != [] {
      assert events[|events| - 1] in events;
      SteadyIffRounds(k, events[..|events| - 1]);
    }
  }

  // ----- the limit of pass values -----

  /** Such a turn goes to a right process exactly if some pass value is below the limit, or the first process, which the scan
      falls back on, happens to be right. */
  lemma RightIffBelowLimit(k: Kern)
    requires PassTurn(k)
    ensures Decided(k).current != -1 && Decided(k).via.ByPass?
    ensures LeastPass(k, Decided(k).current) <==> !Overrun(k) || LeastPass(k, INIT)
    ensures Overrun(k) ==> Decided(k).current == INIT
  {
    ScanRight(k.procs, NPROC);
  }
}
