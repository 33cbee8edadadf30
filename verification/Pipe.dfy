/** The bounded pipe: readers and writers that take turns under one lock and sleep while they cannot go on. */
module Pipe {
  import opened Common

  const PIPESIZE := 512
  const UINT := 0x1_0000_0000

  /** What a process does next once it has the lock again: it is at byte `i` of a write, or at the start of a read. */
  datatype Op = Writing(bytes: seq<byte>, i: nat) | Reading(n: nat)

  datatype Outcome = Returned(res: int) | Sleeping

  /** The number of bytes in the pipe, from counters that wrap around. */
  function Held(nread: int, nwrite: int): int {
    (nwrite - nread) % UINT
  }

  /** The place in the ring of the byte that is `k` further on than the next to be read. */
  function Place(nread: int, k: int): int {
    (nread + k) % PIPESIZE
  }

  class Pipe {
    const ring: array<byte>
    var nread: int
    var nwrite: int
    var readopen: bool
    var writeopen: bool
    var readers: set<nat>          // processes asleep on nread
    var writers: set<nat>          // processes asleep on nwrite
    ghost var accepted: seq<byte>  // every byte that a writer has put in
    ghost var delivered: seq<byte> // every byte that a reader has taken out

    /** Whenever the lock is free: the bytes in the pipe are those accepted and not yet delivered, in order; a sleeping writer
        means that the pipe is full and open for reading, and then no reader sleeps. */
    ghost predicate Valid()
      reads this, ring
    {
      && Consistent()
      && (writers != {} ==> Held(nread, nwrite) == PIPESIZE && readopen && readers == {})
    }

    /** A reader sleeps only on an empty pipe that may still be written to. */
    ghost predicate Alert()
      reads this
    {
      readers != {} ==> nread == nwrite && writeopen
    }

    ghost function Snap(killed: set<nat>, pending: map<nat, Op>): Snapshot
      reads this
    {
      Snapshot(accepted, delivered, readers, writers, readopen, writeopen, killed, pending)
    }

    ghost predicate Consistent()
      reads this, ring
    {
      && ring.Length == PIPESIZE && 0 <= nread < UINT && 0 <= nwrite < UINT
      && delivered <= accepted && |accepted| - |delivered| == Held(nread, nwrite) <= PIPESIZE
      && forall k :: 0 <= k < |accepted| - |delivered| ==> ring[Place(nread, k)] == accepted[|delivered| + k]
    }

    constructor ()
      ensures Valid() && fresh(ring) && accepted == delivered == [] && readers == writers == {}
      ensures readopen && writeopen
    {
      ring := new byte[PIPESIZE];
      nread, nwrite := 0, 0;
      readopen, writeopen := true, true;
      readers, writers := {}, {};
      accepted, delivered := [], [];
    }

    /** One byte into the ring. */
    method Put(b: byte)
      requires Consistent() && Held(nread, nwrite) < PIPESIZE
      modifies ring, this`nwrite, this`accepted
      ensures Consistent() && accepted == old(accepted) + [b]
      ensures Held(nread, nwrite) == old(Held(nread, nwrite)) + 1
    {
      ghost var held := Held(nread, nwrite);
      RingPlaces(nread, nwrite);
      ring[nwrite % PIPESIZE] := b;
      nwrite := (nwrite + 1) % UINT;
      accepted := accepted + [b];
    }

    /** One byte out of the ring. */
    method Take() returns (b: byte)
      requires Consistent() && nread != nwrite
      modifies this`nread, this`delivered
      ensures Consistent() && delivered == old(delivered) + [b]
      ensures Held(nread, nwrite) == old(Held(nread, nwrite)) - 1
    {
      RingAhead(nread, nwrite, (nread + 1) % UINT);
      b := ring[nread % PIPESIZE];
      assert b == ring[Place(nread, 0)] == accepted[|delivered| + 0];
      nread := (nread + 1) % UINT;
      delivered := delivered + [b];
    }

    /** A writer's turn, from the moment it has the lock until it returns or falls asleep. */
    method WriteTurn(pid: nat, bytes: seq<byte>, start: nat, killed: bool) returns (out: Outcome, i: nat)
      requires Valid() && start <= |bytes| && pid !in writers
      modifies this, ring
      ensures Valid() && start <= i <= |bytes|
      ensures accepted == old(accepted) + bytes[start..i] && delivered == old(delivered)
      ensures out.Sleeping? ==> i < |bytes| && writers == old(writers) + {pid} && readers == {}
      ensures out.Sleeping? ==> Held(nread, nwrite) == PIPESIZE && readopen && !killed
      ensures readers <= old(readers) && (out.Returned? ==> writers == old(writers))
      ensures out.Returned? ==> (out.res == |bytes| && i == |bytes| && readers == {})
                                || (out.res == -1 && i < |bytes| && Held(nread, nwrite) == PIPESIZE && (!readopen || killed))
      ensures nread == old(nread) && readopen == old(readopen) && writeopen == old(writeopen)
      ensures out == Returned(-1) ==> readers == old(readers)
      ensures old(Alert()) ==>
                (Alert() <==> !(old(readers) != {} && (!old(readopen) || killed) && |bytes| - start > PIPESIZE))
    {
      i := start;
      while i < |bytes|
        invariant start <= i <= |bytes| && Valid() && writers == old(writers) && readers <= old(readers)
        invariant accepted == old(accepted) + bytes[start..i] && delivered == old(delivered)
        invariant nread == old(nread) && readopen == old(readopen) && writeopen == old(writeopen)
        invariant readers == old(readers) && |accepted| == |old(accepted)| + i - start
      {
        if nwrite == (nread + PIPESIZE) % UINT {
          FullIs512(nread, nwrite);
          if !readopen || killed {
            return Returned(-1), i;
          }
          readers := {};
          writers := writers + {pid};
          return Sleeping, i;
        }
        FullIs512(nread, nwrite);
        Put(bytes[i]);
        i := i + 1;
      }
      readers := {};
      return Returned(|bytes|), i;
    }

    /** A reader's turn. */
    method ReadTurn(pid: nat, n: nat, killed: bool) returns (out: Outcome, got: seq<byte>)
      requires Valid() && pid !in readers
      modifies this`nread, this`delivered, this`readers, this`writers
      ensures Valid() && accepted == old(accepted) && delivered == old(delivered) + got
      ensures out.Sleeping? ==> got == [] && readers == old(readers) + {pid} && writers == old(writers) == {}
      ensures out.Sleeping? || out.res == -1 ==> nread == nwrite && writeopen && (out.Sleeping? <==> !killed)
      ensures out.Returned? && out.res >= 0 ==> old(nread) != nwrite || !writeopen
      ensures out.Returned? ==> readers == old(readers) && writers <= old(writers)
      ensures out.Returned? ==> (out.res == |got| <= n && writers == {} && (|got| < n ==> nread == nwrite))
                                || (out.res == -1 && got == [] && killed && nread == nwrite && writeopen)
      ensures out.Returned? && out.res == -1 ==> writers == old(writers)
      ensures old(Alert()) ==> Alert()
    {
      got := [];
      if nread == nwrite && writeopen {
        if killed {
          return Returned(-1), [];
        }
        readers := readers + {pid};
        return Sleeping, [];
      }
      var i := 0;
      while i < n
        invariant 0 <= i <= n && |got| == i && Consistent()
        invariant accepted == old(accepted) && delivered == old(delivered) + got
        invariant readers == old(readers)
      {
        if nread == nwrite {
          break;
        }
        var b := Take();
        got := got + [b];
        i := i + 1;
      }
      writers := {};
      return Returned(i), got;
    }

    /** The last descriptor of one end is closed: the sleepers at the other end wake up. */
    method Close(writable: bool)
      requires Valid()
      modifies this`readopen, this`writeopen, this`readers, this`writers
      ensures Valid() && accepted == old(accepted) && delivered == old(delivered)
      ensures if writable then !writeopen && readers == {} else !readopen && writers == {}
      ensures readers == (if writable then {} else old(readers)) && writers == (if writable then old(writers) else {})
      ensures readopen == (old(readopen) && writable) && writeopen == (old(writeopen) && !writable)
      ensures old(Alert()) ==> Alert()
    {
      if writable {
        writeopen := false;
        readers := {};
      } else {
        readopen := false;
        writers := {};
      }
    }

    /** A killed process does not sleep on. */
    method Wake(pid: nat)
      requires Valid()
      modifies this`readers, this`writers
      ensures Valid() && readers == old(readers) - {pid} && writers == old(writers) - {pid}
      ensures old(Alert()) ==> Alert()
    {
      readers := readers - {pid};
      writers := writers - {pid};
    }
  }

  // ----- all interleavings -----

  datatype Event =
    | Call(pid: nat, op: Op)           // a process without a pending call makes one
    | Turn(pid: nat)                   // a process that is not asleep gets the lock
    | Kill(pid: nat)
    | CloseEnd(writable: bool)

  /** The pipe and its processes between two events. */
  datatype Snapshot = Snapshot(accepted: seq<byte>, delivered: seq<byte>, readers: set<nat>, writers: set<nat>,
                               readopen: bool, writeopen: bool, killed: set<nat>, pending: map<nat, Op>)

  /** A writer's turn puts in the next bytes of its write, all of them if it returns in order. */
  ghost predicate Wrote(a: Snapshot, b: Snapshot, pid: nat, bytes: seq<byte>, i: nat, i': nat) {
    && i <= i' <= |bytes| && |b.accepted| - |b.delivered| <= PIPESIZE
    && b.accepted == a.accepted + bytes[i..i'] && b.delivered == a.delivered
    && b.readopen == a.readopen && b.writeopen == a.writeopen && b.killed == a.killed
    && if i' == |bytes| then b.pending == a.pending - {pid} && b.readers == {} && b.writers == a.writers
       else
         && |b.accepted| - |b.delivered| == PIPESIZE
         && if a.readopen && pid !in a.killed
            then b.pending == a.pending[pid := Writing(bytes, i')] && b.readers == {} && b.writers == a.writers + {pid}
            else b.pending == a.pending - {pid} && b.readers == a.readers && b.writers == a.writers
  }

  /** A reader's turn takes out the oldest bytes, as many as there are and are asked for. */
  ghost predicate Took(a: Snapshot, b: Snapshot, pid: nat, n: nat, got: seq<byte>) {
    && b.delivered == a.delivered + got <= a.accepted == b.accepted
    && b.readopen == a.readopen && b.writeopen == a.writeopen && b.killed == a.killed
    && if a.delivered == a.accepted && a.writeopen
       then got == [] && b.writers == a.writers
            && if pid in a.killed then b.pending == a.pending - {pid} && b.readers == a.readers
               else b.pending == a.pending && b.readers == a.readers + {pid}
       else |got| == Min(n, |a.accepted| - |a.delivered|)
            && b.pending == a.pending - {pid} && b.readers == a.readers && b.writers == {}
  }

  function Min(a: int, b: int): int {
    if a < b then a else b
  }

  ghost predicate Moves(e: Event, a: Snapshot, b: Snapshot) {
    match e
    case Call(pid, op) =>
      b == if pid !in a.pending && (op.Writing? ==> op.i == 0) then a.(pending := a.pending[pid := op]) else a
    case Kill(pid) => b == a.(killed := a.killed + {pid}, readers := a.readers - {pid}, writers := a.writers - {pid})
    case CloseEnd(writable) =>
      b == if writable then a.(writeopen := false, readers := {}) else a.(readopen := false, writers := {})
    case Turn(pid) =>
      if pid !in a.pending || pid in a.readers || pid in a.writers then b == a
      else match a.pending[pid]
        case Writing(bytes, i) => exists i' :: Wrote(a, b, pid, bytes, i, i')
        case Reading(n) => exists got :: Took(a, b, pid, n, got)
  }

  /** Consecutive snapshots of a run from an empty pipe. */
  ghost predicate Snapshots(events: seq<Event>, snaps: seq<Snapshot>) {
    && |snaps| == |events| + 1 && snaps[0] == Snapshot([], [], {}, {}, true, true, {}, map[])
    && forall k :: 0 <= k < |events| ==> Moves(events[k], snaps[k], snaps[k + 1])
  }

  /** Readers sleep only while the pipe is empty and open for writing. */
  ghost predicate Awake(s: Snapshot) {
    s.readers != {} ==> s.delivered == s.accepted && s.writeopen
  }

  /** The turn of a writer that has more left than the pipe holds, and that will not wait, while a reader sleeps. */
  predicate Loses(e: Event, s: Snapshot) {
    && e.Turn? && e.pid in s.pending && e.pid !in s.readers && e.pid !in s.writers
    && s.pending[e.pid].Writing? && |s.pending[e.pid].bytes| - s.pending[e.pid].i > PIPESIZE
    && s.readers != {} && (!s.readopen || e.pid in s.killed)
  }

  /** What holds of every snapshot of a run. */
  lemma {:induction false} Bounded(events: seq<Event>, snaps: seq<Snapshot>, n: nat)
    requires Snapshots(events, snaps) && n <= |events|
    ensures snaps[n].delivered <= snaps[n].accepted
  {
    if n > 0 {
      Bounded(events, snaps, n - 1);
      assert Moves(events[n - 1], snaps[n - 1], snaps[n - 1 + 1]);
    }
  }

  /** An event leaves a reader asleep beside data, or on a pipe that nobody can write to, exactly if it is such a turn. */
  lemma LosesIff(e: Event, a: Snapshot, b: Snapshot)
    requires Moves(e, a, b) && Awake(a) && a.delivered <= a.accepted
    ensures Awake(b) <==> !Loses(e, a)
  {
  }

  /** Over whole runs: no wakeup is lost exactly if no writer that will not wait has a turn with more than 512 bytes left
      while a reader sleeps. */
  lemma {:induction false} NoLostWakeupIff(events: seq<Event>, snaps: seq<Snapshot>, n: nat)
    requires Snapshots(events, snaps) && n <= |events|
    ensures (forall k :: 0 <= k <= n ==> Awake(snaps[k])) <==> forall k :: 0 <= k < n ==> !Loses(events[k], snaps[k])
  {
    if n > 0 {
      NoLostWakeupIff(events, snaps, n - 1);
      Bounded(events, snaps, n - 1);
      assert Moves(events[n - 1], snaps[n - 1], snaps[n - 1 + 1]);
      if Awake(snaps[n - 1]) { LosesIff(events[n - 1], snaps[n - 1], snaps[n]); }
    }
  }

  /** As long as no process is killed and the reading end stays open, no wakeup is lost. */
  lemma {:induction false} NoLostWakeup(events: seq<Event>, snaps: seq<Snapshot>, n: nat)
    requires Snapshots(events, snaps) && n <= |events|
    requires forall k :: 0 <= k < n ==> !events[k].Kill? && events[k] != CloseEnd(false)
    ensures snaps[n].killed == {} && snaps[n].readopen
    ensures Awake(snaps[n])
  {
    if n > 0 {
      NoLostWakeup(events, snaps, n - 1);
      Bounded(events, snaps, n - 1);
      assert Moves(events[n - 1], snaps[n - 1], snaps[n - 1 + 1]);
      LosesIff(events[n - 1], snaps[n - 1], snaps[n]);
    }
  }

  /** A killed writer can leave a reader asleep on a full pipe: it returns without waking the readers. */
  lemma LostWakeup(text: seq<byte>) returns (events: seq<Event>, snaps: seq<Snapshot>)
    requires |text| == PIPESIZE + 1
    ensures Snapshots(events, snaps) && |events| == 5
    ensures snaps[5].readers == {0} && snaps[5].delivered == [] && snaps[5].accepted == text[..PIPESIZE]
    ensures Loses(events[4], snaps[4]) && !Awake(snaps[5])
  {
    var a := Snapshot([], [], {}, {}, true, true, {}, map[]);
    var b := a.(pending := map[0 := Reading(1)]);
    var c := b.(readers := {0});
    var d := c.(pending := c.pending[1 := Writing(text, 0)]);
    var e := d.(killed := {1});
    var f := e.(accepted := text[..PIPESIZE], pending := map[0 := Reading(1)]);
    events := [Call(0, Reading(1)), Turn(0), Call(1, Writing(text, 0)), Kill(1), Turn(1)];
    snaps := [a, b, c, d, e, f];
    assert Took(b, c, 0, 1, []);
    assert e.pending - {1} == f.pending;
    assert Wrote(e, f, 1, text, 0, PIPESIZE);
  }

  /** Any number of processes on one pipe, event by event. After every sequence of events the bytes delivered are the first of
      those accepted, the rest is in the pipe, only processes with a pending call sleep, and never a reader and a writer at
      once. */
  method Run(events: seq<Event>) returns (p: Pipe, ghost snaps: seq<Snapshot>)
    ensures fresh(p) && p.Valid() && p.delivered <= p.accepted
    ensures |p.accepted| - |p.delivered| == Held(p.nread, p.nwrite) <= PIPESIZE
    ensures p.readers == {} || p.writers == {}
    ensures Snapshots(events, snaps)
    ensures var last := snaps[|events|];
            && last == p.Snap(last.killed, last.pending)
            && (forall pid :: pid in p.readers ==> pid in last.pending && last.pending[pid].Reading?)
            && (forall pid :: pid in p.writers ==> pid in last.pending && last.pending[pid].Writing?)
  {
    hide Moves;
    p := new Pipe();
    var pending: map<nat, Op> := map[];
    var killed: set<nat> := {};
    snaps := [p.Snap(killed, pending)];
    for n := 0 to |events|
      invariant fresh(p) && fresh(p.ring) && p.Valid()
      invariant Pending(pending, p.readers, p.writers)
      invariant |snaps| == n + 1 && snaps[0] == Snapshot([], [], {}, {}, true, true, {}, map[])
      invariant snaps[n] == p.Snap(killed, pending)
      invariant forall k :: 0 <= k < n ==> Moves(events[k], snaps[k], snaps[k + 1])
    {
      pending, killed := Handle(p, events[n], pending, killed);
      snaps := snaps + [p.Snap(killed, pending)];
    }
  }

  /** Whoever sleeps has a call to finish; the bytes of a write that are in the pipe already are among its bytes. */
  ghost predicate Pending(pending: map<nat, Op>, readers: set<nat>, writers: set<nat>) {
    && (forall pid :: pid in pending && pending[pid].Writing? ==> pending[pid].i <= |pending[pid].bytes|)
    && (forall pid :: pid in readers ==> pid in pending && pending[pid].Reading?)
    && (forall pid :: pid in writers ==> pid in pending && pending[pid].Writing?)
  }

  method Handle(p: Pipe, e: Event, pending: map<nat, Op>, killed: set<nat>)
    returns (pending': map<nat, Op>, killed': set<nat>)
    requires p.Valid() && Pending(pending, p.readers, p.writers)
    modifies p, p.ring
    ensures p.Valid() && Pending(pending', p.readers, p.writers)
    ensures Moves(e, old(p.Snap(killed, pending)), p.Snap(killed', pending'))
  {
    pending', killed' := pending, killed;
    match e {
      case Call(pid, op) =>
        if pid !in pending && (op.Writing? ==> op.i == 0) {
          pending' := pending[pid := op];
        }
      case Turn(pid) =>
        if pid in pending && pid !in p.readers && pid !in p.writers {
          pending' := GiveTurn(p, pid, pending, killed);
        }
      case Kill(pid) =>
        killed' := killed + {pid};
        p.Wake(pid);
      case CloseEnd(writable) =>
        p.Close(writable);
    }
  }

  method GiveTurn(p: Pipe, pid: nat, pending: map<nat, Op>, killed: set<nat>) returns (pending': map<nat, Op>)
    requires p.Valid() && Pending(pending, p.readers, p.writers)
    requires pid in pending && pid !in p.readers && pid !in p.writers
    modifies p, p.ring
    ensures p.Valid() && Pending(pending', p.readers, p.writers)
    ensures Moves(Turn(pid), old(p.Snap(killed, pending)), p.Snap(killed, pending'))
  {
    ghost var a := p.Snap(killed, pending);
    pending' := pending;
    var out;
    match pending[pid] {
      case Writing(bytes, i) =>
        var i';
        out, i' := p.WriteTurn(pid, bytes, i, pid in killed);
        pending' := if out.Returned? then pending - {pid} else pending[pid := Writing(bytes, i')];
        assert Wrote(a, p.Snap(killed, pending'), pid, bytes, i, i');
      case Reading(n) =>
        var got;
        out, got := p.ReadTurn(pid, n, pid in killed);
        pending' := if out.Returned? then pending - {pid} else pending;
        assert Took(a, p.Snap(killed, pending'), pid, n, got);
    }
  }

  /** The places of the bytes held differ from each other and from the next place to write. */
  lemma RingPlaces(nread: int, nwrite: int)
    requires 0 <= nread < UINT && 0 <= nwrite < UINT && Held(nread, nwrite) < PIPESIZE
    ensures var held := Held(nread, nwrite);
            && nwrite % PIPESIZE == Place(nread, held)
            && Held(nread, (nwrite + 1) % UINT) == held + 1
            && forall k :: 0 <= k < held ==> Place(nread, k) != nwrite % PIPESIZE
  {
  }

  /** After a read the places of the bytes held are counted from one further on, also where the counter wraps. */
  lemma RingAhead(nread: int, nwrite: int, next: int)
    requires 0 <= nread < UINT && 0 <= nwrite < UINT && nread != nwrite && next == (nread + 1) % UINT
    ensures Held(next, nwrite) == Held(nread, nwrite) - 1
    ensures forall k :: 0 <= k ==> Place(next, k) == Place(nread, k + 1)
  {
  }

  /** The test for a full pipe holds exactly if it holds 512 bytes. */
  lemma FullIs512(nread: int, nwrite: int)
    requires 0 <= nread < UINT && 0 <= nwrite < UINT
    ensures nwrite == (nread + PIPESIZE) % UINT <==> Held(nread, nwrite) == PIPESIZE
  {
  }
}
