/** What can still happen once a socket's closed flag is set: nothing but the one wrapped Close. */
module SocketClosed {
  import opened Bytes
  import opened SocketMachine
  import opened SocketSafety
  import opened SocketCounters

  /** No thread of a closed socket has a counter left to update. */
  ghost predicate NothingPending(s: Socket) {
    s.closed ==> forall t: Thread :: Counting(PcOf(s, t)) ==> PcOf(s, t).todo == []
  }

  /** The traffic is what it was, and at most the wrapped Close has been called, if it was not before. */
  predicate OnlyClosed(s: Socket, s': Socket) {
    && s'.closed && SameHistory(s, s') && s'.metrics == s.metrics
    && (s'.started == s.started || (WClose !in s.started && s'.started == s.started + [WClose]))
  }

  lemma ReceiptOfClose(s: Socket, s': Socket, t: Thread, frames: seq<Bytes>)
    requires Receipt(s, s', t, frames) && PcOf(s, t) == Calling(Close, WClose)
    ensures SameHistory(s, s') && s'.metrics == s.metrics && PcOf(s', t).todo == []
  {
    assert s.sent + [] == s.sent;
  }

  lemma ClosedTraffic(s: Socket, s': Socket, st: SocketType, t: Thread)
    requires s.closed && CloseFacts(s, st, PcOf(s, t)) && (Counting(PcOf(s, t)) ==> PcOf(s, t).todo == [])
    requires CountEffect(s, s', t)
    ensures SameHistory(s, s') && s'.metrics == s.metrics
    ensures Counting(PcOf(s', t)) ==> PcOf(s', t).todo == []
  {
    if frames :| Receipt(s, s', t, frames) {
      ReceiptOfClose(s, s', t, frames);
    }
  }

  lemma ClosedStep(s: Socket, s': Socket, st: SocketType, t: Thread)
    requires s.closed && CloseInv(s, st) && NothingPending(s) && CloseEffect(s, s', st, t) && CountEffect(s, s', t)
    ensures OnlyClosed(s, s')
  {
    assert CloseFacts(s, st, PcOf(s, t));
    ClosedTraffic(s, s', st, t);
  }

  /** The thread that sets the flag is alone in the critical sections, so no update is under way then. */
  lemma NothingPendingKept(s: Socket, s': Socket, st: SocketType, t: Thread)
    requires LockInv(s) && CloseInv(s, st) && NothingPending(s)
    requires OthersStay(s, s', t) && CloseEffect(s, s', st, t) && CountEffect(s, s', t)
    ensures NothingPending(s')
  {
    if s'.closed {
      assert CloseFacts(s, st, PcOf(s, t));
      if s.closed { ClosedTraffic(s, s', st, t); }
      forall u: Thread | Counting(PcOf(s', u))
        ensures PcOf(s', u).todo == []
      {
        if u != t && !s.closed { WriterIsAlone(s, t, u); }
      }
    }
  }

  lemma {:induction false} InterleavingsLeaveNothingPending(st: SocketType, acts: seq<Action>)
    requires Interleaved(st, acts).Some?
    ensures NothingPending(Interleaved(st, acts).value)
  {
    if acts != [] {
      var before, a := acts[..|acts| - 1], acts[|acts| - 1];
      InterleavingsLeaveNothingPending(st, before);
      InterleavingsKeepLockAndClose(st, before);
      var s, s' := Interleaved(st, before).value, Interleaved(st, acts).value;
      NextEffect(s, st, a.t, a.move);
      NextCounts(s, st, a.t, a.move);
      NothingPendingKept(s, s', st, a.t);
    }
  }

  /** However an interleaving goes on once the closed flag is set: the flag stays, no message is sent, received or
      counted, no counter changes, and no wrapped call starts but the wrapped Close, if it had not started yet. */
  lemma {:induction false} ClosedIsFinal(st: SocketType, acts: seq<Action>, more: seq<Action>)
    requires Interleaved(st, acts).Some? && Interleaved(st, acts).value.closed && Interleaved(st, acts + more).Some?
    ensures OnlyClosed(Interleaved(st, acts).value, Interleaved(st, acts + more).value)
    decreases |more|
  {
    if more == [] {
      assert acts + more == acts;
    } else {
      var fewer, a := more[..|more| - 1], more[|more| - 1];
      var before := acts + fewer;
      assert (acts + more)[..|acts + more| - 1] == before && (acts + more)[|acts + more| - 1] == a;
      ClosedIsFinal(st, acts, fewer);
      InterleavingsKeepLockAndClose(st, before);
      InterleavingsLeaveNothingPending(st, before);
      var s, s' := Interleaved(st, before).value, Interleaved(st, acts + more).value;
      NextEffect(s, st, a.t, a.move);
      NextCounts(s, st, a.t, a.move);
      ClosedStep(s, s', st, a.t);
    }
  }

  /** Once the wrapped Close has started, no run adds a wrapped call, a sent or a received message, or a count. */
  lemma NothingAfterWrappedClose(st: SocketType, acts: seq<Action>, more: seq<Action>)
    requires Interleaved(st, acts).Some? && WClose in Interleaved(st, acts).value.started
    requires Interleaved(st, acts + more).Some?
    ensures var s, s' := Interleaved(st, acts).value, Interleaved(st, acts + more).value;
            s'.started == s.started && SameHistory(s, s') && s'.metrics == s.metrics
  {
    InterleavingsKeepLockAndClose(st, acts);
    ClosedIsFinal(st, acts, more);
  }

  // ---------------------------------------------------------------- cancelling comes first

  /** Waiting for the lock in Close, or past it. */
  predicate InClose(pc: Pc) {
    pc == Waiting(Close) || Inside(pc) == Some(Close)
  }

  ghost predicate CancelledBefore(s: Socket) {
    forall t: Thread :: InClose(PcOf(s, t)) ==> s.cancelled
  }

  /** A step gets into Close only by cancelling, and never takes that back. */
  predicate CancelEffect(s: Socket, s': Socket, t: Thread) {
    && (s.cancelled ==> s'.cancelled)
    && (InClose(PcOf(s', t)) ==> InClose(PcOf(s, t)) || s'.cancelled)
  }

  lemma LockStepsCancelNothing(s: Socket, t: Thread, op: Op)
    ensures PcOf(s, t) == Waiting(op) && Acquired(s, t, op).Some? ==> CancelEffect(s, Acquired(s, t, op).value, t)
    ensures PcOf(s, t) == Leaving(op) ==> CancelEffect(s, Released(s, t, op), t)
  {}

  lemma SectionStepsCancelNothing(s: Socket, st: SocketType, t: Thread, op: Op, got: seq<uint64>)
    ensures PcOf(s, t) == Holding(op) ==> CancelEffect(s, Checked(s, t, op), t)
    ensures PcOf(s, t) == Passed(op) ==> CancelEffect(s, Called(s, st, t, op), t)
    ensures PcOf(s, t) == Copying(got) ==> CancelEffect(s, CopyStep(s, t, got), t)
  {}

  lemma CountingCancelsNothing(s: Socket, t: Thread, pc: Pc)
    requires PcOf(s, t) == pc
    ensures pc.Adding? ==> CancelEffect(s, LoadStep(s, t, pc.op, pc.todo, pc.id), t)
    ensures pc.Loaded? && pc.todo != [] ==> CancelEffect(s, StoreStep(s, t, pc), t)
  {}

  lemma NextCancels(s: Socket, st: SocketType, t: Thread, move: Move)
    requires Next(s, st, t, move).Some?
    ensures CancelEffect(s, Next(s, st, t, move).value, t)
  {
    var pc := PcOf(s, t);
    if pc.Waiting? || pc.Leaving? { LockStepsCancelNothing(s, t, pc.op); }
    else if pc.Holding? || pc.Passed? { SectionStepsCancelNothing(s, st, t, pc.op, []); }
    else if pc.Copying? { SectionStepsCancelNothing(s, st, t, GetMetrics, pc.got); }
    else if Counting(pc) { CountingCancelsNothing(s, t, pc); }
  }

  /** In every interleaving, whoever waits for the lock in Close, or has it, has cancelled the context before: no
      receive that holds the lock is left uncancelled while Close waits for it. */
  lemma {:induction false} CloseCancelsFirst(st: SocketType, acts: seq<Action>)
    requires Interleaved(st, acts).Some?
    ensures CancelledBefore(Interleaved(st, acts).value)
  {
    if acts == [] {
      assert forall t: Thread :: PcOf(Initial(), t) == Idle;
    } else {
      var before, a := acts[..|acts| - 1], acts[|acts| - 1];
      CloseCancelsFirst(st, before);
      var s, s' := Interleaved(st, before).value, Interleaved(st, acts).value;
      NextEffect(s, st, a.t, a.move);
      NextCancels(s, st, a.t, a.move);
      forall t: Thread | InClose(PcOf(s', t))
        ensures s'.cancelled
      {
        if t != a.t { assert PcOf(s', t) == PcOf(s, t); }
      }
    }
  }
}
