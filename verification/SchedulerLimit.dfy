/** Two runs in which the pass values reach their limit: in one the first process gets the processor in its sleep, in the other it
    gets it although it is ahead. */
module SchedulerLimit {
  import opened SchedulerModel
  import opened SchedulerQueues
  import opened SchedulerShares

  // ----- how it begins: two processes, one after the other asking for one percent -----

  /** The first process, and one child, in these states. There are no other processes, and nobody has been charged yet. */
  ghost predicate Start(k: Kern, a: PState, b: PState, runs: int) {
    && k.current == runs && k.mlfqPass == 0.0 && (runs != -1 ==> k.check)
    && k.procs[0].state == a && k.procs[1].state == b && !k.procs[0].killed
    && forall p :: 2 <= p < NPROC ==> k.procs[p].state.UNUSED? && !k.procs[p].isStride
  }

  /** No shares so far. */
  ghost predicate Early(k: Kern, a: PState, b: PState, runs: int) {
    && Start(k, a, b, runs) && k.mode.MLFQ? && k.mlfqStride == 0.0 && (runs != -1 ==> k.via.ByQueue?)
    && !k.procs[0].isStride && !k.procs[1].isStride
  }

  predicate OnePercent(x: Proc) {
    x.isStride && x.share == 1.0 && x.stride == STRIDENUM
  }

  lemma EarlyBoot()
    ensures Early(Booted(), RUNNABLE, UNUSED, -1)
  {
  }

  /** If exactly one process is eligible the queues give the processor to it, if none is, to none. */
  lemma OnlyChoice(k: Kern, p: int)
    requires QueuesRight(k) && -1 <= p < NPROC && forall q :: 0 <= q < NPROC ==> (Eligible(k.procs[q]) <==> q == p)
    ensures var (u, r) := Select(k); r == p && u == k.(procs := u.procs, check := p != -1, head := u.head)
    ensures p == -1 ==> Select(k).0.procs == k.procs
    ensures p != -1 ==> Select(k).0.procs == k.procs[p := k.procs[p].(wasRun := true)]
  {
    SelectRight(k);
    hide QueuesRight, Select;
    var (u, r) := Select(k);
    assert p != -1 ==> Eligible(k.procs[p]);
    assert r != -1 ==> Eligible(k.procs[r]);
  }

  /** So a turn of the queues is a turn of that process. */
  lemma OnlyTurn(k: Kern, p: Slot)
    requires QueuesRight(k) && forall q :: 0 <= q < NPROC ==> (Eligible(k.procs[q]) <==> q == p)
    ensures var u := QueueTurn(k);
            u == k.(inStride := false, procs := k.procs[p := k.procs[p].(wasRun := true, state := RUNNING)], check := true,
                    head := u.head, current := p, via := ByQueue)
  {
    hide QueuesRight, Select;
    SameQueues(k, k.(inStride := false));
    OnlyChoice(k.(inStride := false), p);
  }

  lemma EarlyRound(k: Kern)
    requires QueuesRight(k) && Early(k, RUNNABLE, UNUSED, -1)
    ensures Early(Next(k, Round), RUNNING, UNUSED, 0) && !Astray(k) && !Unfair(k)
  {
    hide QueuesRight, QueueTurn;
    FeedbackTurn(k);
    OnlyTurn(k, 0);
  }

  lemma EarlyFork(k: Kern)
    requires Early(k, RUNNING, UNUSED, 0)
    ensures Early(Next(k, Fork(true, true)), RUNNING, RUNNABLE, 0) && Next(k, Fork(true, true)).procs[1].parent == 0
  {
    assert FirstUnused(k.procs, 0) == FirstUnused(k.procs, 1) == 1;
  }

  /** Asking for one percent when that is granted. */
  lemma Granted(k: Kern)
    requires k.current != -1 && Total(k.procs) <= 79.0
    ensures ShareSet(k, 1) == k.(procs := AllReset(k.procs)[k.current := PassReset(k.procs[k.current]).(
                                   share := 1.0, stride := STRIDENUM, pass := 0.0, isStride := true)],
                                 mlfqPass := 0.0, mode := STRIDE)
  {
    hide Total;
    assert STRIDENUM / 1.0 == STRIDENUM;
  }

  /** The shares of two processes are all the shares. */
  lemma SharesOfTwo(procs: seq<Proc>)
    requires |procs| == NPROC && forall p :: 2 <= p < NPROC ==> !procs[p].isStride
    ensures Total(procs) == Part(procs[0]) + Part(procs[1])
  {
    var a, b := procs[0], procs[1];
    var rest := procs[0 := a.(isStride := false)][1 := b.(isStride := false)];
    NoShares(rest);
    TotalChanged(rest, 0, a);
    TotalChanged(rest[0 := a], 1, b);
    assert rest[0 := a][1 := b] == procs;
  }

  /** The first process has one percent and waits, the child waits without a share, and the queues have not been charged. */
  ghost predicate Alone(k: Kern, pass: real) {
    && Start(k, RUNNABLE, RUNNABLE, -1) && k.mode.STRIDE? && k.check && k.procs[1].parent == 0
    && OnePercent(k.procs[0]) && k.procs[0].pass == pass && !k.procs[1].isStride
  }

  lemma FirstShare(k: Kern)
    requires Early(k, RUNNING, RUNNABLE, 0) && k.procs[1].parent == 0
    ensures Alone(Next(Next(k, SetShare(1)), Yield), 0.0)
  {
    SharesOfTwo(k.procs);
    Granted(k);
    hide Total, ShareSet;
  }

  /** The scan when the first process has one percent, and the child has one percent or no share. */
  lemma {:induction false} ScanOfTwo(procs: seq<Proc>, n: nat)
    requires n <= |procs| == NPROC && Waiting(procs[0]) && procs[0].stride == STRIDENUM
    requires Waiting(procs[1]) ==> procs[1].stride == STRIDENUM
    requires forall p :: 2 <= p < NPROC ==> !Waiting(procs[p])
    ensures var x, y := procs[0].pass, procs[1].pass;
            var least := if x < PASS_LIMIT then x else PASS_LIMIT;
            Scanned(procs, n) ==
              if n == 0 then Scan(PASS_LIMIT, 0, 0.0, 0.0)
              else if n == 1 || !Waiting(procs[1]) then Scan(least, 0, STRIDENUM, 1.0)
              else Scan(if y < least then y else least, if y < least then 1 else 0, STRIDENUM + STRIDENUM, 2.0)
  {
    if n > 0 {
      ScanOfTwo(procs, n - 1);
      assert STRIDENUM / STRIDENUM == 1.0;
    }
  }

  /** The first process has a turn; it is then ahead of the queues. */
  lemma AloneTurn(k: Kern)
    requires Alone(k, 0.0)
    ensures Alone(Next(Next(k, Round), Yield), STRIDENUM) && !Astray(k) && !Unfair(k)
  {
    ScanOfTwo(k.procs, NPROC);
    hide Scanned;
    assert Next(k, Round) == Dispatched(k.(inStride := true), 0, ByPass);
  }

  /** The child has the processor from the queues, and still no share. */
  ghost predicate ChildRuns(u: Kern) {
    && Start(u, RUNNABLE, RUNNING, 1) && u.mode.STRIDE? && u.via.ByQueue? && u.procs[1].parent == 0
    && OnePercent(u.procs[0]) && !u.procs[1].isStride && u.mlfqStride >= 0.0
  }

  /** The queues are behind, and give the processor to the child. */
  lemma ChildsFirstTurn(k: Kern)
    requires QueuesRight(k) && Alone(k, STRIDENUM)
    ensures ChildRuns(Next(k, Round)) && !Astray(k) && !Unfair(k)
  {
    hide QueuesRight, QueueTurn, Overrun, Astray, Unfair, Alone, ChildRuns, Next;
    AloneWaits(k);
    BelowLimit(k, 0);
    QueuesBehindOne(k);
    var k2 := k.(inStride := true, mlfqStride := STRIDENUM / 99.0);
    SameQueues(k, k2);
    OnlyTurn(k2, 1);
    ChildGiven(k, QueueTurn(k2));
  }

  lemma AloneWaits(k: Kern)
    requires Alone(k, STRIDENUM)
    ensures Waiting(k.procs[0]) && k.procs[0].pass < PASS_LIMIT && forall q :: 0 <= q < NPROC ==> (Eligible(k.procs[q]) <==> q == 1)
  {
  }

  lemma ChildGiven(k: Kern, u: Kern)
    requires Alone(k, STRIDENUM)
    requires u == k.(inStride := false, mlfqStride := STRIDENUM / 99.0, check := true, head := u.head, current := 1, via := ByQueue,
                     procs := k.procs[1 := k.procs[1].(wasRun := true, state := RUNNING)])
    ensures ChildRuns(u)
  {
  }

  lemma QueuesBehindOne(k: Kern)
    requires Alone(k, STRIDENUM)
    ensures Next(k, Round) == QueueTurn(k.(inStride := true, mlfqStride := STRIDENUM / 99.0))
  {
    ScanOfTwo(k.procs, NPROC);
    hide Scanned, QueueTurn;
    assert QueueStride(1.0) == STRIDENUM / 99.0;
  }

  // ----- both have one percent -----

  /** Both wait, with these pass values, and the queues with theirs. */
  ghost predicate Two(k: Kern, x: real, y: real, m: real) {
    && k.current == -1 && k.mode.STRIDE? && !k.procs[0].killed && k.procs[1].parent == 0
    && k.procs[0].state.RUNNABLE? && OnePercent(k.procs[0]) && k.procs[0].pass == x
    && k.procs[1].state.RUNNABLE? && OnePercent(k.procs[1]) && k.procs[1].pass == y
    && k.mlfqPass == m
    && forall p :: 2 <= p < NPROC ==> k.procs[p].state.UNUSED? && !k.procs[p].isStride
  }

  lemma SecondShare(k: Kern)
    requires ChildRuns(k)
    ensures k.mlfqStride >= 0.0 && Two(Next(Next(k, SetShare(1)), Yield), 0.0, 0.0, k.mlfqStride)
  {
    SharesOfTwo(k.procs);
    Granted(k);
    hide Total, ShareSet;
  }

  /** A round does no harm while a process that waits is below the limit. */
  lemma BelowLimit(k: Kern, p: Slot)
    requires Waiting(k.procs[p]) && k.procs[p].pass < PASS_LIMIT
    ensures !Astray(k) && !Unfair(k)
  {
    hide Scanned;
  }

  /** The first process has a turn and asks again: all pass values are zero, then it is charged. */
  lemma ThirdShare(k: Kern, m: real)
    requires Two(k, 0.0, 0.0, m) && m >= 0.0
    ensures Two(Next(Next(Next(k, Round), SetShare(1)), Yield), STRIDENUM, 0.0, 0.0) && !Astray(k) && !Unfair(k)
  {
    hide Two, Next, Overrun, FirstRuns;
    GoesTo(k, 0.0, 0.0, m);
    AsksAgain(k, m);
  }

  /** The first process runs for its pass value; both pass values are zero. */
  ghost predicate FirstRuns(k: Kern) {
    && k.current == 0 && k.via.ByPass? && k.procs[0].state.RUNNING? && k.mlfqPass == 0.0
    && Two(k.(current := -1, procs := k.procs[0 := k.procs[0].(state := RUNNABLE)]), 0.0, 0.0, 0.0)
  }

  lemma AsksAgain(k: Kern, m: real)
    requires Two(k, 0.0, 0.0, m)
    ensures Two(Next(Next(Dispatched(k.(inStride := true), 0, ByPass), SetShare(1)), Yield), STRIDENUM, 0.0, 0.0)
  {
    hide Two, Next, FirstRuns;
    Asks(k, m);
    YieldsAfter(Next(Dispatched(k.(inStride := true), 0, ByPass), SetShare(1)));
  }

  lemma Asks(k: Kern, m: real)
    requires Two(k, 0.0, 0.0, m)
    ensures FirstRuns(Next(Dispatched(k.(inStride := true), 0, ByPass), SetShare(1)))
  {
    var u := Dispatched(k.(inStride := true), 0, ByPass);
    SharesOfTwo(u.procs);
    Granted(u);
    hide Total, ShareSet;
  }

  lemma YieldsAfter(k: Kern)
    requires FirstRuns(k)
    ensures Two(Next(k, Yield), STRIDENUM, 0.0, 0.0)
  {
  }

  /** The processor goes to the one that is behind, or to the first process if they are level. */
  lemma GoesTo(k: Kern, x: real, y: real, m: real)
    requires Two(k, x, y, m) && m >= (if y < x then y else x) && (x < PASS_LIMIT || y < PASS_LIMIT)
    ensures Next(k, Round) == Dispatched(k.(inStride := true), if y < x then 1 else 0, ByPass)
    ensures !Astray(k) && !Unfair(k)
  {
    ScanOfTwo(k.procs, NPROC);
    BelowLimit(k, if y < x then 1 else 0);
    hide Scanned, Overrun, Astray, Unfair, QueueTurn;
  }

  /** A turn of that one. */
  lemma TurnOfTwo(k: Kern, x: real, y: real, m: real)
    requires Two(k, x, y, m) && m >= (if y < x then y else x) && (x < PASS_LIMIT || y < PASS_LIMIT)
    ensures Two(Next(Next(k, Round), Yield), if y < x then x else x + STRIDENUM, if y < x then y + STRIDENUM else y, m)
    ensures !Astray(k) && !Unfair(k)
  {
    GoesTo(k, x, y, m);
    GivesBack(k, x, y, m, if y < x then 1 else 0);
    hide Two, Decided, Overrun, Yielded;
  }

  lemma GivesBack(k: Kern, x: real, y: real, m: real, p: Slot)
    requires Two(k, x, y, m) && p <= 1
    ensures Two(Next(Dispatched(k.(inStride := true), p, ByPass), Yield), if p == 0 then x + STRIDENUM else x,
                if p == 1 then y + STRIDENUM else y, m)
  {
  }

  /** The queues are behind and have nobody to run. */
  lemma NobodyToRun(k: Kern, x: real, y: real, m: real)
    requires QueuesRight(k) && Two(k, x, y, m)
    ensures QueueTurn(k) == k.(inStride := false, check := false, head := QueueTurn(k).head)
  {
    hide QueuesRight, Select;
    SameQueues(k, k.(inStride := false));
    OnlyChoice(k.(inStride := false), -1);
  }

  /** They only catch up. */
  lemma QueuesCatchUp(k: Kern, x: real, m: real)
    requires QueuesRight(k) && Two(k, x, x, m) && m < x < PASS_LIMIT
    ensures Two(Next(k, Round), x, x, if k.check then m else m + STRIDENUM / 98.0) && !Next(k, Round).check
    ensures !Astray(k) && !Unfair(k)
  {
    BelowLimit(k, 0);
    hide Scanned, QueuesRight, QueueTurn, Overrun, Astray, Unfair;
    ScanOfTwo(k.procs, NPROC);
    var k2 := k.(inStride := true, mlfqStride := QueueStride(2.0));
    SameQueues(k, k2);
    NobodyToRun(k2, x, x, m);
    assert QueueStride(2.0) == STRIDENUM / 98.0;
  }

  // ----- the run -----

  /** A run that is steady so far. */
  lemma OneMore(events: seq<Event>, e: Event)
    ensures Steps(Booted(), events + [e]) == Next(Steps(Booted(), events), e)
    ensures Steady(Booted(), events + [e]) <==>
              var k := Steps(Booted(), events);
              Steady(Booted(), events) && !(e.Round? && Astray(k)) && !Upsets(k, e)
  {
    assert (events + [e])[..|events|] == events;
  }

  lemma More(events: seq<Event>, e: Event) returns (more: seq<Event>)
    requires Steady(Booted(), events) && (e.SetShare? ==> e.share >= 1)
    requires e.Round? ==> !Astray(Steps(Booted(), events)) && !Unfair(Steps(Booted(), events))
    ensures more == events + [e] && Steady(Booted(), more) && Steps(Booted(), more) == Next(Steps(Booted(), events), e)
  {
    more := events + [e];
    OneMore(events, e);
  }

  lemma RightAfter(events: seq<Event>)
    requires Steady(Booted(), events)
    ensures QueuesRight(Steps(Booted(), events))
  {
    AlwaysFair(events);
  }

  /** After these events the two have these pass values. */
  ghost predicate After(events: seq<Event>, x: real, y: real, m: real) {
    Steady(Booted(), events) && Two(Steps(Booted(), events), x, y, m)
  }

  lemma FirstEvents() returns (events: seq<Event>)
    ensures Steady(Booted(), events) && Alone(Steps(Booted(), events), STRIDENUM)
  {
    hide QueuesRight, Early, Alone, Astray, Unfair, Next, Booted, Steps;
    NoEvents();
    EarlyBoot();
    BootedRight();
    EarlyRound(Booted());
    events := More([], Round);
    EarlyFork(Steps(Booted(), events));
    events := More(events, Fork(true, true));
    FirstShare(Steps(Booted(), events));
    events := More(events, SetShare(1));
    events := More(events, Yield);
    AloneTurn(Steps(Booted(), events));
    events := More(events, Round);
    events := More(events, Yield);
  }

  lemma NoEvents()
    ensures Steady(Booted(), []) && Steps(Booted(), []) == Booted()
  {
  }

  lemma NextEvents() returns (events: seq<Event>)
    ensures After(events, STRIDENUM, 0.0, 0.0)
  {
    hide QueuesRight, Alone, ChildRuns, Two, Astray, Unfair, Next, Booted, Steps;
    events := FirstEvents();
    RightAfter(events);
    ChildsFirstTurn(Steps(Booted(), events));
    events := More(events, Round);
    var m := Steps(Booted(), events).mlfqStride;
    SecondShare(Steps(Booted(), events));
    events := More(events, SetShare(1));
    events := More(events, Yield);
    ThirdShare(Steps(Booted(), events), m);
    events := More(events, Round);
    events := More(events, SetShare(1));
    events := More(events, Yield);
  }

  /** The queues catch up with both, in steps of one 98th of a stride. */
  lemma {:induction false} Level(events: seq<Event>, n: nat, j: nat) returns (more: seq<Event>)
    requires After(events, n as real * STRIDENUM, n as real * STRIDENUM, (n - 1) as real * STRIDENUM + j as real * (STRIDENUM / 98.0))
    requires 0 < n < 1000 && j <= 98 && (Steps(Booted(), events).check ==> j == 0)
    ensures After(more, n as real * STRIDENUM, n as real * STRIDENUM, n as real * STRIDENUM)
    decreases 98 - j, Steps(Booted(), events).check
  {
    hide QueuesRight, Two, Astray, Unfair, Next, Booted, Steps, Steady;
    var k, x := Steps(Booted(), events), n as real * STRIDENUM;
    Below98(n, j);
    more := events;
    if j < 98 {
      RightAfter(events);
      QueuesCatchUp(k, x, (n - 1) as real * STRIDENUM + j as real * (STRIDENUM / 98.0));
      more := More(events, Round);
      more := Level(more, n, if k.check then j else j + 1);
    }
  }

  lemma Below98(n: nat, j: nat)
    requires 0 < n < 1000 && j <= 98
    ensures var step, m := STRIDENUM / 98.0, (n - 1) as real * STRIDENUM + j as real * (STRIDENUM / 98.0);
            && m + step == (n - 1) as real * STRIDENUM + (j + 1) as real * step
            && if j < 98 then m < n as real * STRIDENUM < PASS_LIMIT else m == n as real * STRIDENUM
  {
    assert STRIDENUM / 98.0 * 98.0 == STRIDENUM;
  }

  /** Turn after turn: the child has caught up with the first process. */
  lemma {:induction false} Turns(n: nat) returns (events: seq<Event>)
    requires 0 < n <= 1000
    ensures After(events, n as real * STRIDENUM, n as real * STRIDENUM, (n - 1) as real * STRIDENUM)
  {
    hide QueuesRight, Two, Astray, Unfair, Next, Booted, Steps, Steady;
    var x := (n - 1) as real * STRIDENUM;
    if n == 1 {
      events := NextEvents();
    } else {
      events := Turns(n - 1);
      events := Level(events, n - 1, 0);
      TurnOfTwo(Steps(Booted(), events), x, x, x);
      events := More(events, Round);
      events := More(events, Yield);
    }
    TurnOfTwo(Steps(Booted(), events), x + STRIDENUM, x, x);
    events := More(events, Round);
    events := More(events, Yield);
  }

  /** At the limit a round falls back on the first process. It waits and is level with the child, so all is well. */
  lemma AtLimit(k: Kern, m: real)
    requires Two(k, PASS_LIMIT, PASS_LIMIT, m) && m >= 0.0
    ensures Next(k, Round) == Dispatched(k.(inStride := true), INIT, ByPass) && !Astray(k) && !Unfair(k)
  {
    ScanOfTwo(k.procs, NPROC);
    hide Scanned;
  }

  /** The first process then waits for its child. */
  lemma SleepsThen(k: Kern, m: real)
    requires Two(k, PASS_LIMIT, PASS_LIMIT, m) && m >= 0.0
    ensures var u := Next(Dispatched(k.(inStride := true), INIT, ByPass), Wait); u.procs[INIT].state.SLEEPING? && Astray(u)
  {
    var v := Dispatched(k.(inStride := true), INIT, ByPass);
    hide Astray;
    WaitSleeps(v);
    AstrayThen(Slept(v, 0));
  }

  lemma WaitSleeps(k: Kern)
    requires k.current == 0 && !k.procs[0].killed && k.procs[1].parent == 0
    requires forall p :: 0 <= p < NPROC ==> !k.procs[p].state.ZOMBIE?
    ensures Next(k, Wait) == Slept(k, 0)
  {
    hide Slept;
    assert HasChild(k.procs, 0);
  }

  lemma AstrayThen(k: Kern)
    requires k.current == -1 && k.mode.STRIDE? && k.mlfqPass >= 0.0 && k.procs[0].state.SLEEPING?
    requires k.procs[1].state.RUNNABLE? && OnePercent(k.procs[1]) && k.procs[1].pass == PASS_LIMIT
    requires forall p :: 2 <= p < NPROC ==> k.procs[p].state.UNUSED?
    ensures Astray(k)
  {
    OneScan(k.procs, NPROC);
    hide Scanned;
  }

  /** The scan when only the child waits, with a pass value at the limit. */
  lemma {:induction false} OneScan(procs: seq<Proc>, n: nat)
    requires n <= |procs| == NPROC && Waiting(procs[1]) && procs[1].stride == STRIDENUM && procs[1].pass >= PASS_LIMIT
    requires forall p :: 0 <= p < NPROC && p != 1 ==> !Waiting(procs[p])
    ensures Scanned(procs, n).minpass == PASS_LIMIT && (n >= 2 ==> Scanned(procs, n).strideSum == STRIDENUM)
    ensures n < 2 ==> Scanned(procs, n).strideSum == 0.0
  {
    if n > 0 { OneScan(procs, n - 1); }
  }

  /** Or it yields, and is ahead. */
  lemma YieldsThen(k: Kern, m: real)
    requires Two(k, PASS_LIMIT, PASS_LIMIT, m) && m >= 0.0
    ensures var u := Next(Dispatched(k.(inStride := true), INIT, ByPass), Yield); !Astray(u) && Unfair(u)
  {
    var u := Next(Dispatched(k.(inStride := true), INIT, ByPass), Yield);
    ScanOfTwo(u.procs, NPROC);
    hide Scanned;
    assert Waiting(u.procs[1]) && u.procs[1].pass < u.procs[0].pass;
    assert !LeastPass(u, INIT);
  }

  lemma ThousandTurns() returns (events: seq<Event>)
    ensures After(events, PASS_LIMIT, PASS_LIMIT, PASS_LIMIT - STRIDENUM)
  {
    events := Turns(1000);
  }

  /** Two processes with one percent have a thousand turns each. Up to then, and one round further, all is right. Then the first
      process waits for its child, and the next round of the scheduler hands the processor to it although it sleeps; it is in no
      queue. */
  lemma LimitReached() returns (events: seq<Event>)
    ensures AllStayRight(Booted(), events)
    ensures Steps(Booted(), events).procs[INIT].state.SLEEPING?
    ensures var u := Steps(Booted(), events + [Round]);
            u.current == INIT && !QueuesRight(u) && InNoQueue(u, INIT)
  {
    hide QueuesRight, Two, Astray, Unfair, Next, Booted, Steps, Steady, InNoQueue;
    events := ThousandTurns();
    var k := Steps(Booted(), events);
    AtLimit(k, PASS_LIMIT - STRIDENUM);
    SleepsThen(k, PASS_LIMIT - STRIDENUM);
    events := More(events, Round);
    events := More(events, Wait);
    RightAfter(events);
    AlwaysFair(events);
    OneMore(events, Round);
    AstrayRound(Steps(Booted(), events));
  }

  lemma AstrayRound(k: Kern)
    requires QueuesRight(k) && Astray(k)
    ensures Next(k, Round).current == INIT && !QueuesRight(Next(k, Round)) && InNoQueue(Next(k, Round), INIT)
  {
    hide QueuesRight, Scanned;
    PassTurnGiven(k);
    SameQueues(k, k.(inStride := true));
    DispatchedAstray(k.(inStride := true), INIT, ByPass);
  }

  /** The same two processes: instead of waiting the first one yields, and the next round gives the processor to it again although
      its child is behind. */
  lemma UnfairReached() returns (events: seq<Event>)
    ensures AllStayRight(Booted(), events) && Unfair(Steps(Booted(), events))
    ensures var u := Steps(Booted(), events + [Round]); QueuesRight(u) && !StrideRight(u)
  {
    hide QueuesRight, StrideRight, Two, Astray, Unfair, Next, Booted, Steps, Steady;
    events := ThousandTurns();
    var k := Steps(Booted(), events);
    AtLimit(k, PASS_LIMIT - STRIDENUM);
    YieldsThen(k, PASS_LIMIT - STRIDENUM);
    events := More(events, Round);
    events := More(events, Yield);
    AlwaysFair(events);
    RightEnd(events);
    OneMore(events, Round);
    var u := Steps(Booted(), events);
    NextKeepsQueues(u, Round);
    NextKeepsFair(u, Round);
  }

  lemma RightEnd(events: seq<Event>)
    requires AllStayRight(Booted(), events)
    ensures QueuesRight(Steps(Booted(), events)) && StrideRight(Steps(Booted(), events))
  {
  }
}
