/** The queues hold exactly the processes that are runnable or running, each once and at its own level. */
module SchedulerQueues {
  import opened Common
  import opened SchedulerModel

  predicate Active(x: Proc) {
    x.state.RUNNABLE? || x.state.RUNNING?
  }

  ghost predicate Entry(k: Kern, l: nat, p: int, but: int) {
    p == -1 || (0 <= p < NPROC && p != but && Active(k.procs[p]) && k.procs[p].level == l)
  }

  ghost predicate Distinct(row: seq<int>) {
    forall i, j :: 0 <= i < j < |row| && row[i] != -1 ==> row[i] != row[j]
  }

  /** The queues are right for all processes but `but`, which is in none. */
  ghost predicate Queued(k: Kern, but: int) {
    && (forall l, i :: 0 <= l < 3 && 0 <= i < NPROC ==> Entry(k, l, k.mlfq[l][i], but))
    && (forall l :: 0 <= l < 3 ==> Distinct(k.mlfq[l]))
    && (forall p :: 0 <= p < NPROC && p != but && Active(k.procs[p]) ==> p in k.mlfq[k.procs[p].level])
  }

  /** No process has used up its slice. */
  ghost predicate Slices(procs: seq<Proc>) {
    forall p :: 0 <= p < |procs| && Good(procs[p]) ==> 0 <= procs[p].slice[procs[p].level] < SliceLimit(procs[p].level)
  }

  ghost predicate OneRuns(k: Kern) {
    forall p :: 0 <= p < NPROC ==> (k.procs[p].state.RUNNING? <==> p == k.current)
  }

  /** The queue invariant. */
  ghost predicate QueuesRight(k: Kern) {
    Queued(k, -1) && Slices(k.procs) && OneRuns(k)
  }

  // ----- a queue always has room -----

  lemma {:induction false} SizeOfDistinct(s: seq<int>)
    requires forall i, j :: 0 <= i < j < |s| ==> s[i] != s[j]
    ensures |set x | x in s| == |s|
  {
    if s != [] {
      var rest := s[..|s| - 1];
      SizeOfDistinct(rest);
      assert (set x | x in s) == (set x | x in rest) + {s[|s| - 1]};
    }
  }

  /** The numbers below `n`. */
  function Below(n: nat): (s: set<int>)
    ensures |s| == n && forall x :: x in s <==> 0 <= x < n
  {
    if n == 0 then {} else Below(n - 1) + {n - 1}
  }

  /** A queue without process `p` has an empty slot. */
  lemma Room(k: Kern, l: nat, p: Slot)
    requires Queued(k, p) && l < 3
    ensures -1 in k.mlfq[l]
  {
    hide Below;
    var row := k.mlfq[l];
    if -1 !in row {
      forall i | 0 <= i < NPROC ensures 0 <= row[i] < NPROC && row[i] != p {
        assert Entry(k, l, k.mlfq[l][i], p);
      }
      SizeOfDistinct(row);
      var all, some := Below(NPROC), (set x | x in row);
      assert some <= all - {p};
      SubsetSize(some, all - {p});
      assert false;
    }
  }

  /** A queue with one slot changed. */
  ghost predicate Replaced(k: Kern, u: Kern, l: nat, i: nat, x: int) {
    l < 3 && i < NPROC && -1 <= x < NPROC && u == k.(mlfq := k.mlfq[l := k.mlfq[l][i := x]])
  }

  lemma ReplacedDistinct(k: Kern, u: Kern, l: nat, i: nat, x: int, but: int)
    requires Replaced(k, u, l, i, x) && Queued(k, but) && (x == -1 || x == but)
    ensures forall l' :: 0 <= l' < 3 ==> Distinct(u.mlfq[l'])
  {
    forall j | 0 <= j < NPROC ensures k.mlfq[l][j] == -1 || k.mlfq[l][j] != but {
      assert Entry(k, l, k.mlfq[l][j], but);
    }
    forall l', j, j' | 0 <= l' < 3 && 0 <= j < j' < NPROC && u.mlfq[l'][j] != -1
      ensures u.mlfq[l'][j] != u.mlfq[l'][j'] {
      assert Distinct(k.mlfq[l']);
    }
  }

  /** Whoever was in a queue still is, unless it was in the slot that changed. */
  lemma ReplacedFinds(k: Kern, u: Kern, l: nat, i: nat, x: int, but: int, q: Slot)
    requires Replaced(k, u, l, i, x) && Queued(k, but) && q != but && Active(k.procs[q]) && k.mlfq[l][i] != q
    ensures q in u.mlfq[u.procs[q].level]
  {
    var j :| 0 <= j < NPROC && k.mlfq[k.procs[q].level][j] == q;
    assert u.mlfq[u.procs[q].level][j] == q;
  }

  /** Insertion never reports a full queue, and a process put in at its level makes the queues right. */
  lemma InsertKeeps(k: Kern, p: Slot)
    requires Queued(k, p) && Active(k.procs[p])
    ensures FindFrom(k.mlfq[k.procs[p].level], -1, 0) >= 0
    ensures Queued(Inserted(k, k.procs[p].level, p), -1)
  {
    var l := k.procs[p].level;
    Room(k, l, p);
    var i := FindFrom(k.mlfq[l], -1, 0);
    assert k.mlfq[l][0..] == k.mlfq[l];
    var u := Inserted(k, l, p);
    ReplacedDistinct(k, u, l, i, p, p);
    forall l', i' | 0 <= l' < 3 && 0 <= i' < NPROC ensures Entry(u, l', u.mlfq[l'][i'], -1) {
      assert Entry(k, l', k.mlfq[l'][i'], p);
    }
    forall q | 0 <= q < NPROC && Active(u.procs[q]) ensures q in u.mlfq[u.procs[q].level] {
      if q == p {
        assert u.mlfq[l][i] == p;
      } else {
        ReplacedFinds(k, u, l, i, p, p, q);
      }
    }
  }

  /** A process taken out at its level is in no queue any more. */
  lemma DeleteKeeps(k: Kern, p: Slot)
    requires Queued(k, -1) && Active(k.procs[p])
    ensures Queued(Deleted(k, k.procs[p].level, p), p)
  {
    var l := k.procs[p].level;
    assert p in k.mlfq[l] && k.mlfq[l][0..] == k.mlfq[l];
    var i := FindFrom(k.mlfq[l], p, 0);
    var u := Deleted(k, l, p);
    ReplacedDistinct(k, u, l, i, -1, -1);
    forall l', i' | 0 <= l' < 3 && 0 <= i' < NPROC ensures Entry(u, l', u.mlfq[l'][i'], p) {
      assert Entry(k, l', k.mlfq[l'][i'], -1);
      assert Distinct(k.mlfq[l]);
    }
    forall q | 0 <= q < NPROC && q != p && Active(u.procs[q]) ensures q in u.mlfq[u.procs[q].level] {
      ReplacedFinds(k, u, l, i, -1, -1, q);
    }
  }

  lemma IdleKeeps(k: Kern, p: Slot)
    requires !Active(k.procs[p])
    ensures Queued(k, p) <==> Queued(k, -1)
  {
    if Queued(k, p) {
      forall l, i | 0 <= l < 3 && 0 <= i < NPROC ensures Entry(k, l, k.mlfq[l][i], -1) {
        assert Entry(k, l, k.mlfq[l][i], p);
      }
    }
    if Queued(k, -1) {
      forall l, i | 0 <= l < 3 && 0 <= i < NPROC ensures Entry(k, l, k.mlfq[l][i], p) {
        assert Entry(k, l, k.mlfq[l][i], -1);
      }
    }
  }

  /** A process that is in no queue may change in any way. */
  lemma ChangeKeeps(k: Kern, p: Slot, x: Proc)
    requires Queued(k, p) && Good(x)
    ensures Queued(SetProc(k, p, x), p)
  {
    var u := SetProc(k, p, x);
    forall l, i | 0 <= l < 3 && 0 <= i < NPROC ensures Entry(u, l, u.mlfq[l][i], p) {
      assert Entry(k, l, k.mlfq[l][i], p);
    }
  }

  /** A change that matters to no queue. */
  lemma TouchKeeps(k: Kern, p: Slot, x: Proc)
    requires Queued(k, -1) && Good(x) && Active(x) == Active(k.procs[p]) && (Active(x) ==> x.level == k.procs[p].level)
    ensures Queued(SetProc(k, p, x), -1)
  {
    var u := SetProc(k, p, x);
    forall l, i | 0 <= l < 3 && 0 <= i < NPROC ensures Entry(u, l, u.mlfq[l][i], -1) {
      assert Entry(k, l, k.mlfq[l][i], -1);
    }
  }

  lemma SameEntries(k: Kern, u: Kern)
    requires Queued(k, -1) && u.procs == k.procs && u.mlfq == k.mlfq
    ensures Queued(u, -1)
  {
    forall l, i | 0 <= l < 3 && 0 <= i < NPROC ensures Entry(u, l, u.mlfq[l][i], -1) {
      assert Entry(k, l, k.mlfq[l][i], -1);
    }
  }

  /** The queue invariant looks at the processes, the queues and who runs. */
  lemma SameQueues(k: Kern, u: Kern)
    requires QueuesRight(k) && u.procs == k.procs && u.mlfq == k.mlfq && u.current == k.current
    ensures QueuesRight(u)
  {
    SameEntries(k, u);
  }

  // ----- every step keeps the queues right -----

  /** A process that comes to life enters a queue. */
  lemma Enters(k: Kern, p: Slot, x: Proc)
    requires QueuesRight(k) && !Active(k.procs[p]) && Good(x) && x.state.RUNNABLE?
    requires 0 <= x.slice[x.level] < SliceLimit(x.level)
    ensures QueuesRight(Inserted(SetProc(k, p, x), x.level, p))
    ensures Inserted(SetProc(k, p, x), x.level, p).procs == k.procs[p := x]
    ensures Inserted(SetProc(k, p, x), x.level, p).current == k.current
  {
    IdleKeeps(k, p);
    ChangeKeeps(k, p, x);
    InsertKeeps(SetProc(k, p, x), p);
  }

  lemma {:induction false} WokenKeeps(k: Kern, chan: int, n: nat)
    requires QueuesRight(k) && n <= NPROC
    ensures QueuesRight(Woken(k, chan, n)) && Woken(k, chan, n).current == k.current
  {
    hide QueuesRight;
    if n > 0 {
      WokenKeeps(k, chan, n - 1);
      var u := Woken(k, chan, n - 1);
      var x := u.procs[n - 1];
      if x.state.SLEEPING? && x.chan == chan { WokenOneKeeps(u, n - 1); }
    }
  }

  lemma WokenOneKeeps(k: Kern, p: Slot)
    requires QueuesRight(k) && k.procs[p].state.SLEEPING?
    ensures QueuesRight(WokenOne(k, p)) && WokenOne(k, p).current == k.current
  {
    assert Good(k.procs[p]);
    Enters(k, p, k.procs[p].(state := RUNNABLE, isStride := false));
  }

  /** A running process whose slice may just have been used up. */
  ghost predicate SlicesBut(procs: seq<Proc>, but: int) {
    forall p :: 0 <= p < |procs| && p != but && Good(procs[p]) ==>
                  0 <= procs[p].slice[procs[p].level] < SliceLimit(procs[p].level)
  }

  /** A process that stays active moves to the queue of its new level. */
  lemma Moved(k: Kern, p: Slot, x: Proc)
    requires Queued(k, -1) && Active(k.procs[p]) && Active(x) && Good(x)
    ensures var u := Inserted(SetProc(Deleted(k, k.procs[p].level, p), p, x), x.level, p);
            Queued(u, -1) && u == k.(procs := k.procs[p := x], mlfq := u.mlfq)
  {
    hide Queued;
    DeleteKeeps(k, p);
    var d := Deleted(k, k.procs[p].level, p);
    ChangeKeeps(d, p, x);
    InsertKeeps(SetProc(d, p, x), p);
  }

  /** A process below the highest level is raised to it. */
  lemma RaisedKeeps(k: Kern, p: Slot)
    requires Queued(k, -1) && k.procs[p].state.RUNNABLE? && k.procs[p].level > 0 && k.procs[p].wasRun
    ensures BoostedOne(k, p) == k.(procs := k.procs[p := k.procs[p].(level := 0, slice := [0, 0, 0])], mlfq := BoostedOne(k, p).mlfq)
    ensures Queued(BoostedOne(k, p), -1)
  {
    hide Queued, Inserted, Deleted;
    var x := k.procs[p];
    Moved(k, p, x.(level := 0));
    var u := Inserted(SetProc(Deleted(k, x.level, p), p, x.(level := 0)), 0, p);
    TouchKeeps(u, p, u.procs[p].(slice := [0, 0, 0]));
  }

  lemma BoostedOneQueued(k: Kern, p: Slot)
    requires Queued(k, -1)
    ensures Queued(BoostedOne(k, p), -1)
    ensures BoostedOne(k, p) == k.(procs := k.procs[p := BoostedOneProc(k.procs[p])], mlfq := BoostedOne(k, p).mlfq)
  {
    hide Queued, Inserted, Deleted;
    var x := k.procs[p];
    if x.state.RUNNABLE? && x.wasRun && x.level > 0 {
      RaisedKeeps(k, p);
    } else {
      TouchKeeps(k, p, BoostedOneProc(x));
    }
  }

  /** What a boost does to a process. */
  function BoostedOneProc(x: Proc): Proc {
    if x.state.RUNNABLE? && x.wasRun then x.(level := 0, slice := [0, 0, 0]) else x.(wasRun := false)
  }

  lemma BoostedOneKeeps(k: Kern, p: Slot)
    requires Queued(k, -1) && SlicesBut(k.procs, k.current) && OneRuns(k)
    ensures var u := BoostedOne(k, p);
            && Queued(u, -1) && SlicesBut(u.procs, k.current) && OneRuns(u) && u.current == k.current
            && (k.current != -1 ==> SameButMark(k.procs[k.current], u.procs[k.current]))
  {
    hide Queued, BoostedOne;
    BoostedOneQueued(k, p);
  }

  ghost predicate SameButMark(x: Proc, y: Proc) {
    y == x || y == x.(wasRun := false)
  }

  lemma {:induction false} BoostedKeeps(k: Kern, n: nat)
    requires Queued(k, -1) && SlicesBut(k.procs, k.current) && OneRuns(k) && n <= NPROC
    ensures var u := Boosted(k, n);
            && Queued(u, -1) && SlicesBut(u.procs, k.current) && OneRuns(u) && u.current == k.current
            && (k.current != -1 ==> SameButMark(k.procs[k.current], u.procs[k.current]))
  {
    hide Queued, SlicesBut, OneRuns, BoostedOne;
    if n > 0 {
      BoostedKeeps(k, n - 1);
      BoostedOneKeeps(Boosted(k, n - 1), n - 1);
    }
  }

  /** A process that has used up its slice moves down one level. */
  lemma LoweredKeeps(k: Kern)
    requires Tallied(k)
    requires var x := k.procs[k.current]; x.level < 2 && x.slice[x.level] == SliceLimit(x.level)
    ensures QueuesRight(Demoted(k)) && Demoted(k).current == k.current
  {
    hide Queued, Inserted, Deleted;
    var x := k.procs[k.current];
    assert x.state.RUNNING?;
    Moved(k, k.current, x.(level := x.level + 1, slice := x.slice[x.level + 1 := 0]));
  }

  lemma DemotedKeeps(k: Kern)
    requires Tallied(k)
    ensures QueuesRight(Demoted(k)) && Demoted(k).current == k.current
  {
    hide Queued, Inserted, Deleted;
    var p, x := k.current, k.procs[k.current];
    if x.slice[x.level] == SliceLimit(x.level) {
      if x.level < 2 {
        LoweredKeeps(k);
      } else {
        TouchKeeps(k, p, x.(slice := x.slice[2 := 0]));
        var u := SetProc(k, p, x.(slice := x.slice[2 := 0]));
        SameQueues(u, u.(head := (k.head + 1) % NPROC));
      }
    }
  }

  lemma CountedKeeps(k: Kern)
    requires k.current != -1 && QueuesRight(k)
    ensures Tallied(Counted(k))
  {
    var x := k.procs[k.current];
    assert x.state.RUNNING? && Good(x);
    TouchKeeps(k, k.current, x.(slice := x.slice[x.level := x.slice[x.level] + 1]));
  }

  /** A running process that has been counted, and everything else as it should be. */
  ghost predicate Tallied(k: Kern) {
    && k.current != -1 && Queued(k, -1) && SlicesBut(k.procs, k.current) && OneRuns(k)
    && var x := k.procs[k.current]; 0 <= x.slice[x.level] <= SliceLimit(x.level)
  }

  lemma BoostKeepsTally(k: Kern)
    requires Tallied(k)
    ensures Tallied(Boosted(k, NPROC).(ticksCount := 0)) && Boosted(k, NPROC).current == k.current
    ensures SameButMark(k.procs[k.current], Boosted(k, NPROC).procs[k.current])
  {
    hide Queued, Boosted, SlicesBut, OneRuns;
    BoostedKeeps(k, NPROC);
    BoostFields(k, NPROC);
    SameCounts(Boosted(k, NPROC), 0);
  }

  /** After a tick the queues are right, and the running process is one level lower, with a new slice, exactly if it has used up
      its slice on one of the higher levels; on the lowest level it gets a new slice where it is. */
  lemma TickedKeeps(k: Kern)
    requires k.current != -1 && QueuesRight(k)
    ensures QueuesRight(Ticked(k)) && Ticked(k).current == k.current
    ensures TickMoves(k.procs[k.current], Ticked(k).procs[k.current])
  {
    hide Queued, Boosted, Demoted, Counted, QueuesRight, SlicesBut, OneRuns, Tallied;
    CountedKeeps(k);
    var k1 := Counted(k);
    BoostKeepsTally(k1);
    var k2 := if k1.ticksCount == 100 then Boosted(k1, NPROC).(ticksCount := 0) else k1;
    DemotedKeeps(k2);
    DemotedMoves(k2);
    CountedOne(k);
  }

  /** What a tick means for the running process. */
  predicate TickMoves(x: Proc, y: Proc)
    requires Good(x) && Good(y)
  {
    var full := x.slice[x.level] + 1 == SliceLimit(x.level);
    && y.state == x.state && y.level == (if full && x.level < 2 then x.level + 1 else x.level)
    && y.slice[y.level] == if full then 0 else x.slice[x.level] + 1
  }

  lemma CountedOne(k: Kern)
    requires k.current != -1
    ensures var x, y := k.procs[k.current], Counted(k).procs[k.current];
            y == x.(slice := x.slice[x.level := x.slice[x.level] + 1])
  {
  }

  lemma DemotedMoves(k: Kern)
    requires k.current != -1
    ensures var x, y := k.procs[k.current], Demoted(k).procs[k.current];
            var full := x.slice[x.level] == SliceLimit(x.level);
            && y.state == x.state && y.level == (if full && x.level < 2 then x.level + 1 else x.level)
            && y.slice[y.level] == if full then 0 else x.slice[x.level]
  {
  }

  lemma SameCounts(k: Kern, n: nat)
    requires Queued(k, -1) && OneRuns(k)
    ensures Queued(k.(ticksCount := n), -1) && OneRuns(k.(ticksCount := n))
  {
    SameEntries(k, k.(ticksCount := n));
  }

  /** Leaving the processor alone: the process stays in its queue. */
  lemma ChargedKeeps(k: Kern)
    requires k.current != -1 && Queued(k, -1) && Slices(k.procs)
    requires forall p :: 0 <= p < NPROC ==> !k.procs[p].state.RUNNING?
    ensures QueuesRight(Charged(k))
  {
    var x := k.procs[k.current];
    TouchKeeps(k, k.current, x.(pass := x.pass + x.stride));
    hide Queued;
    SameEntries(if k.via.ByPass? then SetProc(k, k.current, x.(pass := x.pass + x.stride)) else k, Charged(k));
  }

  lemma YieldedKeeps(k: Kern)
    requires k.current != -1 && QueuesRight(k)
    ensures QueuesRight(Yielded(k))
  {
    var x := k.procs[k.current];
    assert x.state.RUNNING?;
    TouchKeeps(k, k.current, x.(state := RUNNABLE));
    ChargedKeeps(SetProc(k, k.current, x.(state := RUNNABLE)));
  }

  lemma LeftKeeps(k: Kern, state: PState)
    requires k.current != -1 && QueuesRight(k) && !state.RUNNABLE? && !state.RUNNING?
    ensures QueuesRight(Left(k, state))
  {
    var p := k.current;
    var x := k.procs[p];
    assert x.state.RUNNING?;
    DeleteKeeps(k, p);
    var d := Deleted(k, x.level, p);
    ChangeKeeps(d, p, x.(state := state));
    var e := SetProc(d, p, x.(state := state));
    IdleKeeps(e, p);
    assert e == Deleted(SetProc(k, p, x.(state := state)), x.level, p);
    ChargedKeeps(e);
  }

  /** A process that sleeps is in no queue. */
  lemma SleptKeeps(k: Kern, chan: int)
    requires k.current != -1 && QueuesRight(k)
    ensures QueuesRight(Slept(k, chan)) && InNoQueue(Slept(k, chan), k.current)
  {
    var x := k.procs[k.current].(chan := chan);
    TouchKeeps(k, k.current, x);
    LeftKeeps(SetProc(k, k.current, x), SLEEPING);
    SleptFacts(k, chan);
    IdleUnqueued(Slept(k, chan), k.current);
  }

  lemma SleptFacts(k: Kern, chan: int)
    requires k.current != -1
    ensures var u := Slept(k, chan); u.procs[k.current].state.SLEEPING? && u.procs[k.current].chan == chan && u.current == -1
  {
  }

  ghost predicate InNoQueue(k: Kern, p: int) {
    forall l, i :: 0 <= l < 3 && 0 <= i < NPROC ==> k.mlfq[l][i] != p
  }

  lemma IdleUnqueued(k: Kern, p: Slot)
    requires QueuesRight(k) && !Active(k.procs[p])
    ensures InNoQueue(k, p)
  {
    forall l, i | 0 <= l < 3 && 0 <= i < NPROC ensures k.mlfq[l][i] != p {
      assert Entry(k, l, k.mlfq[l][i], -1);
    }
  }

  lemma {:induction false} ReparentedKeeps(k: Kern, parent: int, n: nat)
    requires QueuesRight(k) && n <= NPROC
    ensures QueuesRight(Reparented(k, parent, n)) && Reparented(k, parent, n).current == k.current
  {
    hide QueuesRight;
    if n > 0 {
      ReparentedKeeps(k, parent, n - 1);
      ReparentedOneKeeps(Reparented(k, parent, n - 1), parent, n - 1);
    }
  }

  lemma ReparentedOneKeeps(k: Kern, parent: int, p: Slot)
    requires QueuesRight(k)
    ensures QueuesRight(ReparentedOne(k, parent, p)) && ReparentedOne(k, parent, p).current == k.current
  {
    hide Queued, Woken;
    var x := k.procs[p].(parent := INIT);
    TouchKeeps(k, p, x);
    if k.procs[p].parent == parent { WokenKeeps(SetProc(k, p, x), INIT, NPROC); }
  }

  /** Exactly the processes that sleep on the channel wake up, without their shares. */
  lemma {:induction false} WokenProcs(k: Kern, chan: int, n: nat)
    requires n <= NPROC
    ensures forall p :: 0 <= p < NPROC ==>
              Woken(k, chan, n).procs[p] == if p < n then WokenProc(k.procs[p], chan) else k.procs[p]
  {
    if n > 0 { WokenProcs(k, chan, n - 1); }
  }

  function WokenProc(x: Proc, chan: int): Proc {
    if x.state.SLEEPING? && x.chan == chan then x.(state := RUNNABLE, isStride := false) else x
  }

  /** The children of a process get the first process as their parent. */
  lemma {:induction false} ReparentedProcs(k: Kern, parent: int, n: nat)
    requires n <= NPROC && parent != INIT
    ensures forall p :: 0 <= p < NPROC ==>
              Reparented(k, parent, n).procs[p].parent == (if p < n && k.procs[p].parent == parent then INIT else k.procs[p].parent)
  {
    hide Woken;
    if n > 0 {
      ReparentedProcs(k, parent, n - 1);
      var u := Reparented(k, parent, n - 1);
      WokenProcs(SetProc(u, n - 1, u.procs[n - 1].(parent := INIT)), INIT, NPROC);
    }
  }

  /** A process that has ended is in no queue and has no children. */
  lemma ExitedKeeps(k: Kern)
    requires k.current != -1 && QueuesRight(k)
    ensures QueuesRight(Exited(k))
    ensures k.current != INIT ==> Exited(k).procs[k.current].state.ZOMBIE? && InNoQueue(Exited(k), k.current)
    ensures k.current != INIT ==> !HasChild(Exited(k).procs, k.current)
  {
    hide QueuesRight, Woken, Reparented, HasChild;
    if k.current != INIT {
      WokenKeeps(k, k.procs[k.current].parent, NPROC);
      var u := Woken(k, k.procs[k.current].parent, NPROC);
      ReparentedKeeps(u, k.current, NPROC);
      ReparentedProcs(u, k.current, NPROC);
      LeftKeeps(Reparented(u, k.current, NPROC), ZOMBIE);
      LeftProcs(Reparented(u, k.current, NPROC), ZOMBIE);
      IdleUnqueued(Exited(k), k.current);
    }
  }

  lemma LeftProcs(k: Kern, state: PState)
    requires k.current != -1
    ensures Left(k, state).procs[k.current].state == state
    ensures (forall p :: 0 <= p < NPROC ==> k.procs[p].parent != k.current) ==> !HasChild(Left(k, state).procs, k.current)
  {
  }

  /** A process that is in no queue and stays out of them. */
  lemma AsideKeeps(k: Kern, p: Slot, x: Proc)
    requires QueuesRight(k) && !Active(k.procs[p]) && !Active(x) && Good(x) && 0 <= x.slice[x.level] < SliceLimit(x.level)
    ensures QueuesRight(SetProc(k, p, x))
  {
    TouchKeeps(k, p, x);
  }

  lemma WaitedKeeps(k: Kern)
    requires k.current != -1 && QueuesRight(k)
    ensures QueuesRight(Waited(k))
  {
    var z := FirstZombie(k.procs, k.current, 0);
    if z != -1 {
      var x := k.procs[z];
      assert Good(x);
      AsideKeeps(k, z, x.(pid := 0, parent := -1, killed := false, stride := 0.0, share := 0.0, pass := 0.0, state := UNUSED));
    } else {
      SleptKeeps(k, k.current);
    }
  }

  /** A new child is in the queue of the highest level, runnable and without a share. */
  lemma ForkedKeeps(k: Kern, stackOk: bool, imageOk: bool)
    requires k.current != -1 && QueuesRight(k)
    ensures QueuesRight(Forked(k, stackOk, imageOk))
    ensures var p, u := FirstUnused(k.procs, 0), Forked(k, stackOk, imageOk);
            p != -1 && stackOk && imageOk ==> p in u.mlfq[0] && ChildOf(u.procs[p], k.current, k.nextpid)
  {
    hide Queued, Inserted;
    var p := FirstUnused(k.procs, 0);
    if p != -1 {
      var k1 := k.(nextpid := k.nextpid + 1);
      SameQueues(k, k1);
      var x := k.procs[p].(pid := k.nextpid);
      assert Good(k.procs[p]);
      AsideKeeps(k1, p, x);
      AsideKeeps(k1, p, Allocated(x));
      Enters(k1, p, Allocated(x).(parent := k.current, state := RUNNABLE));
      var u := Forked(k, stackOk, imageOk);
      if stackOk && imageOk { ActiveQueued(u, p); }
    }
  }

  predicate ChildOf(x: Proc, parent: int, pid: int) {
    x.state.RUNNABLE? && x.parent == parent && x.pid == pid && x.level == 0 && x.slice == [0, 0, 0] && !x.isStride
  }

  lemma ActiveQueued(k: Kern, p: Slot)
    requires QueuesRight(k) && Active(k.procs[p])
    ensures p in k.mlfq[k.procs[p].level]
  {
  }

  lemma KilledKeeps(k: Kern, pid: int)
    requires QueuesRight(k)
    ensures QueuesRight(KilledProc(k, pid))
  {
    var p := FirstPid(k.procs, pid, 0);
    if p != -1 {
      TouchKeeps(k, p, k.procs[p].(killed := true));
      var u := SetProc(k, p, k.procs[p].(killed := true));
      if u.procs[p].state.SLEEPING? { WokenOneKeeps(u, p); }
    }
  }

  /** The queues see no difference. */
  ghost predicate QueuesAlike(k: Kern, u: Kern) {
    && u.mlfq == k.mlfq && u.current == k.current
    && forall p :: 0 <= p < NPROC ==> ProcAlike(k.procs[p], u.procs[p])
  }

  ghost predicate ProcAlike(x: Proc, y: Proc) {
    y.state == x.state && y.level == x.level && y.slice == x.slice
  }

  lemma AlikeKeeps(k: Kern, u: Kern)
    requires QueuesRight(k) && QueuesAlike(k, u)
    ensures QueuesRight(u)
  {
    forall l, i | 0 <= l < 3 && 0 <= i < NPROC ensures Entry(u, l, u.mlfq[l][i], -1) {
      assert Entry(k, l, k.mlfq[l][i], -1);
    }
  }

  lemma ShareSetKeeps(k: Kern, share: int)
    requires k.current != -1 && QueuesRight(k)
    ensures QueuesRight(ShareSet(k, share))
  {
    hide QueuesRight;
    AlikeKeeps(k, ShareSet(k, share));
  }

  // ----- the choice of a process -----

  /** Would the queues give the processor to this process? */
  predicate Eligible(x: Proc) {
    x.state.RUNNABLE? && !x.isStride
  }

  /** Does slot `j` of level `l` hold an eligible process? */
  predicate Hit(k: Kern, l: nat, j: nat)
    requires l < 3 && j < NPROC
  {
    k.mlfq[l][j] != -1 && Eligible(k.procs[k.mlfq[l][j]])
  }

  /** A search of level `l` from slot `i` on that ended with process `p` in state `u`: it has changed nothing but marks and
      counters, and `p` is the first eligible process there, -1 if there is none. */
  ghost predicate Searched(k: Kern, l: nat, i: nat, u: Kern, p: int)
    requires l < 3 && i <= NPROC && -1 <= p < NPROC
  {
    && u == k.(procs := u.procs, check := u.check, head := u.head)
    && if p == -1 then u.procs == k.procs && u.check == k.check && (forall j :: i <= j < NPROC ==> !Hit(k, l, j))
       else
         && u.check && u.procs == k.procs[p := k.procs[p].(wasRun := true)]
         && exists c :: i <= c < NPROC && Hit(k, l, c) && k.mlfq[l][c] == p && (forall j :: i <= j < c ==> !Hit(k, l, j))
  }

  lemma SearchMiss(k: Kern, h: int, l: nat, i: nat, u: Kern, p: int)
    requires l < 3 && i < NPROC && -1 <= p < NPROC && Searched(k.(head := h), l, i + 1, u, p) && !Hit(k, l, i)
    ensures Searched(k, l, i, u, p)
  {
    var k1 := k.(head := h);
    assert forall j :: 0 <= j < NPROC ==> (Hit(k1, l, j) <==> Hit(k, l, j));
  }

  lemma SearchHit(k: Kern, l: nat, i: nat)
    requires l < 3 && i < NPROC && Hit(k, l, i)
    ensures var p := k.mlfq[l][i]; Searched(k, l, i, SetProc(k.(check := true), p, k.procs[p].(wasRun := true)), p)
  {
  }

  /** The search never meets a process that has used up its slice. */
  lemma {:induction false} SearchRight(k: Kern, l: nat, i: nat)
    requires l < 3 && i <= NPROC && QueuesRight(k)
    ensures var (u, p) := SelectFrom(k, l, i); QueuesRight(u) && Searched(k, l, i, u, p)
    decreases NPROC - i
  {
    hide QueuesRight, Searched, Requeued, SetProc, SelectFrom;
    if i == NPROC {
      SearchEmpty(k, l);
    } else if Hit(k, l, i) {
      SearchStops(k, l, i);
      FoundKeeps(k, k.mlfq[l][i]);
      SearchHit(k, l, i);
    } else {
      var h := SearchGoesOn(k, l, i);
      SameQueues(k, k.(head := h));
      SearchRight(k.(head := h), l, i + 1);
      var (u, q) := SelectFrom(k.(head := h), l, i + 1);
      SearchMiss(k, h, l, i, u, q);
    }
  }

  /** The slice of the process found is not used up. */
  lemma SearchStops(k: Kern, l: nat, i: nat)
    requires l < 3 && i < NPROC && QueuesRight(k) && Hit(k, l, i)
    ensures var p := k.mlfq[l][i]; SelectFrom(k, l, i) == (SetProc(k.(check := true), p, k.procs[p].(wasRun := true)), p)
  {
    SliceAt(k, l, i);
  }

  lemma SearchGoesOn(k: Kern, l: nat, i: nat) returns (h: int)
    requires l < 3 && i < NPROC && !Hit(k, l, i)
    ensures SelectFrom(k, l, i) == SelectFrom(k.(head := h), l, i + 1)
  {
    var stays := k.mlfq[l][i] != -1 && k.procs[k.mlfq[l][i]].state.RUNNABLE?;
    h := if l == 2 && !stays then (k.head + 1) % NPROC else k.head;
    assert h == k.head ==> k.(head := h) == k;
  }

  lemma SearchEmpty(k: Kern, l: nat)
    requires l < 3
    ensures SelectFrom(k, l, NPROC) == (k, -1) && Searched(k, l, NPROC, k, -1)
  {
  }

  lemma SliceAt(k: Kern, l: nat, i: nat)
    requires QueuesRight(k) && l < 3 && i < NPROC && k.mlfq[l][i] != -1
    ensures k.procs[k.mlfq[l][i]].slice[l] < SliceLimit(l)
  {
    assert Entry(k, l, k.mlfq[l][i], -1);
  }

  lemma FoundKeeps(k: Kern, p: Slot)
    requires QueuesRight(k)
    ensures QueuesRight(SetProc(k.(check := true), p, k.procs[p].(wasRun := true)))
  {
    SameQueues(k, k.(check := true));
    TouchKeeps(k.(check := true), p, k.procs[p].(wasRun := true));
    assert Good(k.procs[p]);
  }

  /** No process at level `l` is eligible. */
  ghost predicate NoneAt(k: Kern, l: nat) {
    forall p :: 0 <= p < NPROC && Eligible(k.procs[p]) ==> k.procs[p].level != l
  }

  /** A search of the levels from `l` on that ended with process `p` in state `u`. */
  ghost predicate LevelsSearched(k: Kern, l: nat, u: Kern, p: int) {
    && u == k.(procs := u.procs, check := u.check, head := u.head)
    && (u.check <==> p != -1)
    && if p == -1 then u.procs == k.procs && forall m :: l <= m < 3 ==> NoneAt(k, m)
       else
         && 0 <= p < NPROC && Eligible(k.procs[p]) && u.procs == k.procs[p := k.procs[p].(wasRun := true)]
         && l <= k.procs[p].level && forall m :: l <= m < k.procs[p].level ==> NoneAt(k, m)
  }

  lemma LevelPassed(k: Kern, l: nat, u: Kern, v: Kern, p: int)
    requires l < 3 && QueuesRight(k) && Searched(k, l, 0, u, -1) && -1 <= p < NPROC && LevelsSearched(u, l + 1, v, p)
    ensures LevelsSearched(k, l, v, p)
  {
    NothingFound(k, l);
    hide QueuesRight;
    assert forall m :: l + 1 <= m < 3 ==> (NoneAt(u, m) <==> NoneAt(k, m));
  }

  lemma LevelFound(k: Kern, l: nat, u: Kern, p: int)
    requires l < 3 && QueuesRight(k) && 0 <= p < NPROC && Searched(k, l, 0, u, p)
    ensures LevelsSearched(k, l, u, p)
  {
    hide QueuesRight;
    var c :| 0 <= c < NPROC && Hit(k, l, c) && k.mlfq[l][c] == p;
    LevelOf(k, l, c);
  }

  lemma {:induction false} LevelsRight(k: Kern, l: nat)
    requires l <= 3 && QueuesRight(k) && !k.check
    ensures var (u, p) := SelectLevels(k, l); QueuesRight(u) && LevelsSearched(k, l, u, p)
    decreases 3 - l
  {
    hide QueuesRight, SelectFrom, Searched;
    if l < 3 {
      SearchRight(k, l, 0);
      var (u, p) := SelectFrom(k, l, 0);
      if p == -1 {
        SearchedCheck(k, l, u);
        LevelsRight(u, l + 1);
        var (v, q) := SelectLevels(u, l + 1);
        LevelPassed(k, l, u, v, q);
      } else {
        LevelFound(k, l, u, p);
      }
    }
  }

  lemma SearchedCheck(k: Kern, l: nat, u: Kern)
    requires l < 3 && Searched(k, l, 0, u, -1)
    ensures u.check == k.check
  {
  }

  lemma LevelOf(k: Kern, l: nat, c: nat)
    requires QueuesRight(k) && l < 3 && c < NPROC && k.mlfq[l][c] != -1
    ensures k.procs[k.mlfq[l][c]].level == l
  {
    assert Entry(k, l, k.mlfq[l][c], -1);
  }

  lemma NothingFound(k: Kern, l: nat)
    requires QueuesRight(k) && l < 3
    requires forall j :: 0 <= j < NPROC ==> !Hit(k, l, j)
    ensures NoneAt(k, l)
  {
    forall p | 0 <= p < NPROC && k.procs[p].level == l ensures !Eligible(k.procs[p]) {
      if Active(k.procs[p]) {
        var j :| 0 <= j < NPROC && k.mlfq[l][j] == p;
        assert !Hit(k, l, j);
      }
    }
  }

  /** The queues give the processor to an eligible process of the best level that has any; they give it to none exactly if no
      process is eligible. */
  lemma SelectRight(k: Kern)
    requires QueuesRight(k)
    ensures var (u, p) := Select(k);
            && QueuesRight(u) && u.current == k.current
            && u == k.(procs := u.procs, check := u.check, head := u.head)
            && (u.check <==> p != -1)
            && (p == -1 <==> forall q :: 0 <= q < NPROC ==> !Eligible(k.procs[q]))
            && (p != -1 ==> Eligible(k.procs[p]) && u.procs == k.procs[p := k.procs[p].(wasRun := true)]
                            && forall q :: 0 <= q < NPROC && Eligible(k.procs[q]) ==> k.procs[p].level <= k.procs[q].level)
            && (p == -1 ==> u.procs == k.procs)
  {
    var k1 := k.(check := false);
    SameQueues(k, k1);
    LevelsRight(k1, 0);
    var (u, p) := Select(k);
    forall q | 0 <= q < NPROC && (p == -1 || k.procs[q].level < k.procs[p].level) ensures !Eligible(k.procs[q]) {
      assert NoneAt(k1, k.procs[q].level);
    }
  }

  lemma DispatchedKeeps(k: Kern, p: Slot, via: Via)
    requires QueuesRight(k) && k.current == -1 && k.procs[p].state.RUNNABLE?
    ensures QueuesRight(Dispatched(k, p, via))
  {
    TouchKeeps(k, p, k.procs[p].(state := RUNNING));
    SameEntries(SetProc(k, p, k.procs[p].(state := RUNNING)), Dispatched(k, p, via));
    assert forall q :: 0 <= q < NPROC && q != p ==> !k.procs[q].state.RUNNING?;
  }

  lemma QueueTurnKeeps(k: Kern)
    requires QueuesRight(k) && k.current == -1
    ensures QueuesRight(QueueTurn(k))
  {
    SameQueues(k, k.(inStride := false));
    SelectRight(k.(inStride := false));
    var (u, p) := Select(k.(inStride := false));
    if p != -1 { DispatchedKeeps(u, p, ByQueue); }
  }

  /** Stride processes wait for the processor, and the pass value of each has reached the limit. Then the scan finds none. */
  ghost predicate Overrun(k: Kern) {
    && k.current == -1 && k.mode.STRIDE? && Scanned(k.procs, NPROC).strideSum != 0.0
    && forall p :: 0 <= p < NPROC && Waiting(k.procs[p]) ==> k.procs[p].pass >= PASS_LIMIT
  }

  /** What the scan finds: the least pass value of the stride processes that wait, and one that has it. */
  lemma {:induction false} ScanRight(procs: seq<Proc>, n: nat)
    requires n <= |procs|
    ensures var s := Scanned(procs, n);
            && (forall p :: 0 <= p < n && Waiting(procs[p]) ==> s.minpass <= procs[p].pass)
            && (if s.minpass == PASS_LIMIT then s.index == 0 && forall p :: 0 <= p < n && Waiting(procs[p]) ==> procs[p].pass >= PASS_LIMIT
                else s.minpass < PASS_LIMIT && s.index < n && Waiting(procs[s.index]) && procs[s.index].pass == s.minpass)
            && ((forall p :: 0 <= p < n ==> !Waiting(procs[p])) ==> s.strideSum == 0.0)
  {
    if n > 0 { ScanRight(procs, n - 1); }
  }

  /** The scheduler's guard for a turn that goes by pass values: the queues are not behind. */
  predicate PassTurn(k: Kern) {
    var s := Scanned(k.procs, NPROC);
    k.current == -1 && k.mode.STRIDE? && s.strideSum != 0.0 && k.mlfqPass >= if s.minpass == PASS_LIMIT then 0.0 else s.minpass
  }

  /** Such a turn when the scan has found none: the processor goes to the first process, which does not wait for it. */
  ghost predicate Astray(k: Kern) {
    PassTurn(k) && Overrun(k) && !k.procs[INIT].state.RUNNABLE?
  }

  /** In a turn that goes by pass values the processor goes to a process that waits for it, unless the turn is astray. */
  lemma PassTurnGiven(k: Kern)
    requires PassTurn(k)
    ensures var p := Scanned(k.procs, NPROC).index;
            && p < NPROC && Decided(k) == Dispatched(k.(inStride := true), p, ByPass)
            && (Overrun(k) ==> p == INIT) && (!Overrun(k) ==> Waiting(k.procs[p]))
  {
    hide Dispatched;
    ScanRight(k.procs, NPROC);
  }

  /** A turn of the queues in the mode with shares. */
  lemma OtherTurnKeeps(k: Kern)
    requires QueuesRight(k) && k.current == -1 && k.mode.STRIDE? && !PassTurn(k)
    ensures QueuesRight(Decided(k))
  {
    hide QueuesRight, QueueTurn, Scanned;
    var s, k1 := Scanned(k.procs, NPROC), k.(inStride := true);
    if s.strideSum == 0.0 {
      var u := k1.(mlfqStride := 0.0, mlfqPass := 0.0, mode := MLFQ);
      SameQueues(k, u);
      QueueTurnKeeps(u);
    } else {
      var u := k1.(mlfqStride := QueueStride(s.shares));
      SameQueues(k, u);
      SameQueues(k, u.(mlfqPass := u.mlfqPass + u.mlfqStride));
      QueueTurnKeeps(u);
    }
  }

  lemma FeedbackTurn(k: Kern)
    requires k.mode.MLFQ?
    ensures Decided(k) == QueueTurn(k)
  {
  }

  /** A process that runs without having waited for the processor is in no queue. */
  lemma DispatchedAstray(k: Kern, p: Slot, via: Via)
    requires QueuesRight(k) && k.current == -1 && !k.procs[p].state.RUNNABLE?
    ensures !QueuesRight(Dispatched(k, p, via)) && InNoQueue(Dispatched(k, p, via), p)
  {
    IdleUnqueued(k, p);
    var u := Dispatched(k, p, via);
    assert Active(u.procs[p]);
    assert p !in u.mlfq[u.procs[p].level];
  }

  /** A round of the scheduler keeps the queues right exactly if it is not astray. */
  lemma DecidedIff(k: Kern)
    requires QueuesRight(k) && k.current == -1
    ensures QueuesRight(Decided(k)) <==> !Astray(k)
  {
    hide QueuesRight, Decided, PassTurn, Overrun;
    if PassTurn(k) {
      PassTurnGiven(k);
      var k1, p := k.(inStride := true), Scanned(k.procs, NPROC).index;
      SameQueues(k, k1);
      if Astray(k) { DispatchedAstray(k1, p, ByPass); } else { DispatchedKeeps(k1, p, ByPass); }
    } else if k.mode.STRIDE? {
      OtherTurnKeeps(k);
    } else {
      FeedbackTurn(k);
      QueueTurnKeeps(k);
    }
  }

  /** One event keeps the queues right exactly if it is not a round of the scheduler that is astray. */
  lemma NextKeepsQueues(k: Kern, e: Event)
    requires QueuesRight(k)
    ensures QueuesRight(Next(k, e)) <==> !(e.Round? && Astray(k))
  {
    hide QueuesRight, Decided, Woken, Interrupted, Yielded, Slept, Forked, Exited, Waited, KilledProc, ShareSet;
    if e.Wakeup? {
      WokenKeeps(k, e.chan, NPROC);
    } else if e.Round? {
      if k.current == -1 { DecidedIff(k); }
    } else if k.current != -1 {
      match e
      case Tick => InterruptedKeeps(k);
      case Yield => YieldedKeeps(k);
      case Sleep(chan) => SleptKeeps(k, chan);
      case Fork(stackOk, imageOk) => ForkedKeeps(k, stackOk, imageOk);
      case Exit => ExitedKeeps(k);
      case Wait => WaitedKeeps(k);
      case Kill(pid) => KilledKeeps(k, pid);
      case SetShare(share) => ShareSetKeeps(k, share);
    }
  }

  lemma InterruptedKeeps(k: Kern)
    requires k.current != -1 && QueuesRight(k)
    ensures QueuesRight(Interrupted(k))
  {
    hide QueuesRight;
    if k.inStride {
      YieldedKeeps(k);
    } else {
      var u := k.(ticksCount := k.ticksCount + 1);
      SameQueues(k, u);
      TickedKeeps(u);
      YieldedKeeps(Ticked(u));
    }
  }

  /** No round of the scheduler is astray. */
  ghost predicate Timely(k: Kern, events: seq<Event>)
    decreases |events|
  {
    events != [] ==>
      && Timely(k, events[..|events| - 1])
      && !(events[|events| - 1].Round? && Astray(Steps(k, events[..|events| - 1])))
  }

  lemma BootedRight()
    ensures QueuesRight(Booted())
  {
    var k: Kern := Kernel(seq(NPROC, _ => NOBODY), seq(3, _ => seq(NPROC, _ => -1)), 0, 0, 2, -1, ByQueue, MLFQ, false, false, 0.0, 0.0);
    Enters(k, INIT, NOBODY.(pid := 1, state := RUNNABLE));
  }

  /** The queues are right all along a run. */
  ghost predicate QueuesStayRight(k: Kern, events: seq<Event>)
    decreases |events|
  {
    QueuesRight(Steps(k, events)) && (events != [] ==> QueuesStayRight(k, events[..|events| - 1]))
  }

  /** The queues are right in every state of a run exactly if no round of it is astray. */
  lemma {:induction false} AlwaysQueued(events: seq<Event>)
    ensures QueuesStayRight(Booted(), events) <==> Timely(Booted(), events)
    decreases |events|
  {
    hide QueuesRight, Astray, Next;
    if events == [] {
      BootedRight();
    } else {
      var before := events[..|events| - 1];
      AlwaysQueued(before);
      if Timely(Booted(), before) {
        assert QueuesRight(Steps(Booted(), before));
        NextKeepsQueues(Steps(Booted(), before), events[|events| - 1]);
      }
    }
  }
}
