/** What every interleaving keeps: the lock, and how the wrapped socket is closed. */
module SocketSafety {
  import opened Bytes
  import opened SocketMachine

  /** The method whose critical section a thread is in. */
  function Inside(pc: Pc): Option<Op> {
    match pc
    case Holding(op) => Some(op)
    case Passed(op) => Some(op)
    case Calling(op, _) => Some(op)
    case Adding(op, _, _) => Some(op)
    case Loaded(op, _, _, _, _) => Some(op)
    case Copying(_) => Some(GetMetrics)
    case Leaving(op) => Some(op)
    case _ => None
  }

  predicate HoldsWrite(pc: Pc) {
    Inside(pc).Some? && Exclusive(Inside(pc).value)
  }

  predicate HoldsRead(pc: Pc) {
    Inside(pc).Some? && !Exclusive(Inside(pc).value)
  }

  /** The lock knows who is inside, and a writer is inside alone. */
  ghost predicate LockInv(s: Socket) {
    && (forall t: Thread :: HoldsWrite(PcOf(s, t)) <==> s.writer == Some(t))
    && (forall t: Thread :: HoldsRead(PcOf(s, t)) <==> t in s.readers)
    && (s.writer.Some? ==> s.readers == {})
  }

  ghost predicate OthersStay(s: Socket, s': Socket, t: Thread) {
    forall u: Thread :: u != t ==> PcOf(s', u) == PcOf(s, u)
  }

  /** What a step of thread `t` does to the lock: nothing, with the thread inside what it was inside; Lock; RLock;
      Unlock; RUnlock. */
  predicate LockEffect(s: Socket, s': Socket, t: Thread) {
    var pc, pc' := PcOf(s, t), PcOf(s', t);
    || (s'.writer == s.writer && s'.readers == s.readers && Inside(pc') == Inside(pc))
    || (Inside(pc).None? && HoldsWrite(pc') && s.writer.None? && s.readers == {}
        && s'.writer == Some(t) && s'.readers == {})
    || (Inside(pc).None? && HoldsRead(pc') && s.writer.None? && s'.writer.None? && s'.readers == s.readers + {t})
    || (HoldsWrite(pc) && Inside(pc').None? && s'.writer.None? && s'.readers == s.readers)
    || (HoldsRead(pc) && Inside(pc').None? && s'.writer == s.writer && s'.readers == s.readers - {t})
  }

  ghost predicate Effect(s: Socket, s': Socket, st: SocketType, t: Thread) {
    OthersStay(s, s', t) && LockEffect(s, s', t) && CloseEffect(s, s', st, t)
  }

  lemma AcquiredEffect(s: Socket, st: SocketType, t: Thread, op: Op)
    requires PcOf(s, t) == Waiting(op) && Acquired(s, t, op).Some?
    ensures Effect(s, Acquired(s, t, op).value, st, t)
  {}

  lemma ReleasedEffect(s: Socket, st: SocketType, t: Thread, op: Op)
    requires PcOf(s, t) == Leaving(op)
    ensures Effect(s, Released(s, t, op), st, t)
  {}

  lemma CheckedEffect(s: Socket, st: SocketType, t: Thread, op: Op)
    requires PcOf(s, t) == Holding(op)
    ensures Effect(s, Checked(s, t, op), st, t)
  {}

  lemma CalledEffect(s: Socket, st: SocketType, t: Thread, op: Op)
    requires PcOf(s, t) == Passed(op)
    ensures Effect(s, Called(s, st, t, op), st, t)
  {}

  lemma ReturnedEffect(s: Socket, st: SocketType, t: Thread, op: Op, w: Wrapped, ok: bool, frames: seq<Bytes>)
    requires PcOf(s, t) == Calling(op, w)
    ensures Effect(s, Returned(s, t, op, w, ok, frames), st, t)
  {}

  lemma LoadEffect(s: Socket, st: SocketType, t: Thread, op: Op, todo: seq<Increment>, id: nat)
    requires PcOf(s, t) == Adding(op, todo, id)
    ensures Effect(s, LoadStep(s, t, op, todo, id), st, t)
  {}

  lemma StoreEffect(s: Socket, st: SocketType, t: Thread)
    requires PcOf(s, t).Loaded? && PcOf(s, t).todo != []
    ensures Effect(s, StoreStep(s, t, PcOf(s, t)), st, t)
  {}

  lemma CopyEffect(s: Socket, st: SocketType, t: Thread, got: seq<uint64>)
    requires PcOf(s, t) == Copying(got)
    ensures Effect(s, CopyStep(s, t, got), st, t)
  {}

  lemma NextEffect(s: Socket, st: SocketType, t: Thread, move: Move)
    requires Next(s, st, t, move).Some?
    ensures Effect(s, Next(s, st, t, move).value, st, t)
  {
    match PcOf(s, t)
    case Waiting(op) => AcquiredEffect(s, st, t, op);
    case Holding(op) => CheckedEffect(s, st, t, op);
    case Passed(op) => CalledEffect(s, st, t, op);
    case Calling(op, w) => ReturnedEffect(s, st, t, op, w, move.ok, move.frames);
    case Adding(op, todo, id) => LoadEffect(s, st, t, op, todo, id);
    case Loaded(_, _, _, _, _) => StoreEffect(s, st, t);
    case Copying(got) => CopyEffect(s, st, t, got);
    case Leaving(op) => ReleasedEffect(s, st, t, op);
    case _ =>
  }

  lemma LockKept(s: Socket, s': Socket, t: Thread)
    requires LockInv(s) && OthersStay(s, s', t) && LockEffect(s, s', t)
    ensures LockInv(s')
  {
    forall u: Thread
      ensures HoldsWrite(PcOf(s', u)) <==> s'.writer == Some(u)
      ensures HoldsRead(PcOf(s', u)) <==> u in s'.readers
    {
      assert HoldsWrite(PcOf(s, u)) <==> s.writer == Some(u);
      assert HoldsRead(PcOf(s, u)) <==> u in s.readers;
      assert HoldsWrite(PcOf(s, t)) <==> s.writer == Some(t);
      assert HoldsRead(PcOf(s, t)) <==> t in s.readers;
    }
  }

  /** A writer is alone in the critical sections. */
  lemma WriterIsAlone(s: Socket, t: Thread, u: Thread)
    requires LockInv(s) && HoldsWrite(PcOf(s, t)) && t != u
    ensures Inside(PcOf(s, u)).None?
  {
    assert s.writer == Some(t);
    assert HoldsWrite(PcOf(s, u)) <==> s.writer == Some(u);
    assert HoldsRead(PcOf(s, u)) <==> u in s.readers;
  }

  // ---------------------------------------------------------------- closing

  /** About to make its wrapped call, or in it. */
  predicate PastCheck(pc: Pc) {
    pc.Passed? || pc.Calling?
  }

  /** The socket is still open for a thread past the check, except for the one that is closing it. */
  predicate CloseFacts(s: Socket, st: SocketType, pc: Pc) {
    && (PastCheck(pc) ==> (pc.op.Close? <==> s.closed))
    && (pc.Passed? && pc.op.Close? ==> WClose !in s.started)
    && (pc.Calling? ==> WrappedCall(st, pc.op) == Some(pc.w))
  }

  ghost predicate CloseInv(s: Socket, st: SocketType) {
    && (forall t: Thread :: CloseFacts(s, st, PcOf(s, t)))
    && (WClose in s.started ==> s.closed)
    && (forall i :: 0 <= i < |s.started| && s.started[i] == WClose ==> i == |s.started| - 1)
  }

  /** What a step of thread `t` does to the closing: it passes the check of an open socket or does something else;
      Close sets the flag; a wrapped call starts. */
  predicate CloseEffect(s: Socket, s': Socket, st: SocketType, t: Thread) {
    var pc, pc' := PcOf(s, t), PcOf(s', t);
    || (s'.closed == s.closed && s'.started == s.started
        && (PastCheck(pc') ==> pc'.Passed? && !pc'.op.Close? && !s.closed))
    || (!s.closed && s'.closed && s'.started == s.started && pc' == Passed(Close) && HoldsWrite(pc))
    || (pc.Passed? && s'.closed == s.closed && WrappedCall(st, pc.op).Some?
        && pc' == Calling(pc.op, WrappedCall(st, pc.op).value) && s'.started == s.started + [pc'.w])
  }

  lemma CloseKept(s: Socket, s': Socket, st: SocketType, t: Thread)
    requires LockInv(s) && CloseInv(s, st) && OthersStay(s, s', t) && CloseEffect(s, s', st, t)
    ensures CloseInv(s', st)
  {
    assert CloseFacts(s, st, PcOf(s, t));
    forall u: Thread
      ensures CloseFacts(s', st, PcOf(s', u))
    {
      assert CloseFacts(s, st, PcOf(s, u));
      if u != t {
        if HoldsWrite(PcOf(s, t)) { WriterIsAlone(s, t, u); }
        if HoldsWrite(PcOf(s, u)) { WriterIsAlone(s, u, t); }
      }
    }
  }

  lemma {:induction false} InterleavingsKeepLockAndClose(st: SocketType, acts: seq<Action>)
    requires Interleaved(st, acts).Some?
    ensures LockInv(Interleaved(st, acts).value) && CloseInv(Interleaved(st, acts).value, st)
  {
    if acts == [] {
      assert forall t: Thread :: PcOf(Initial(), t) == Idle;
    } else {
      var before, a := acts[..|acts| - 1], acts[|acts| - 1];
      InterleavingsKeepLockAndClose(st, before);
      var s, s' := Interleaved(st, before).value, Interleaved(st, acts).value;
      NextEffect(s, st, a.t, a.move);
      LockKept(s, s', a.t);
      CloseKept(s, s', st, a.t);
    }
  }

  /** In every interleaving of any number of threads, the wrapped Close starts at most once and no wrapped call starts
      after it; while a thread is in it no other is in any wrapped call, and once it has started no thread is in, or
      past the check for, any other wrapped call. */
  lemma WrappedCloseIsOnceLastAndAlone(st: SocketType, acts: seq<Action>, t: Thread, u: Thread)
    requires Interleaved(st, acts).Some?
    ensures var s := Interleaved(st, acts).value;
            && (forall i :: 0 <= i < |s.started| && s.started[i] == WClose ==> i == |s.started| - 1)
            && (PcOf(s, t).Calling? && PcOf(s, t).w.WClose? && u != t ==> !PastCheck(PcOf(s, u)))
            && (WClose in s.started ==>
                  s.closed && (PastCheck(PcOf(s, u)) ==> PcOf(s, u).Calling? && PcOf(s, u).w.WClose?))
  {
    InterleavingsKeepLockAndClose(st, acts);
    var s := Interleaved(st, acts).value;
    assert CloseFacts(s, st, PcOf(s, t)) && CloseFacts(s, st, PcOf(s, u));
    if PcOf(s, t).Calling? && PcOf(s, t).w.WClose? && u != t {
      assert PcOf(s, t).op.Close?;
      WriterIsAlone(s, t, u);
    }
  }

  // ---------------------------------------------------------------- which methods can be inside together

  lemma OneMoreAction(st: SocketType, acts: seq<Action>, a: Action)
    requires Interleaved(st, acts).Some?
    ensures Interleaved(st, acts + [a]) == Next(Interleaved(st, acts).value, st, a.t, a.move)
  {
    assert (acts + [a])[..|acts|] == acts;
  }

  lemma Moved(st: SocketType, acts: seq<Action>, t: Thread, move: Move, s': Socket) returns (more: seq<Action>)
    requires Interleaved(st, acts).Some? && Next(Interleaved(st, acts).value, st, t, move) == Some(s')
    ensures Interleaved(st, more) == Some(s')
  {
    more := acts + [Action(t, move)];
    OneMoreAction(st, acts, Action(t, move));
  }

  /** The methods that the source runs under the read lock, by name. */
  predicate MayShare(op: Op) {
    op == Recv || op == RecvMultipart || op == GetOption || op == GetMetrics
  }

  /** In every interleaving, two threads are in critical sections at once only if both are in Recv, RecvMultipart,
      GetOption or GetMetrics. */
  lemma OnlyReadersShare(st: SocketType, acts: seq<Action>, t: Thread, u: Thread)
    requires Interleaved(st, acts).Some? && t != u
    requires var s := Interleaved(st, acts).value; Inside(PcOf(s, t)).Some? && Inside(PcOf(s, u)).Some?
    ensures var s := Interleaved(st, acts).value;
            MayShare(Inside(PcOf(s, t)).value) && MayShare(Inside(PcOf(s, u)).value)
  {
    InterleavingsKeepLockAndClose(st, acts);
    var s := Interleaved(st, acts).value;
    if HoldsWrite(PcOf(s, t)) { WriterIsAlone(s, t, u); }
    if HoldsWrite(PcOf(s, u)) { WriterIsAlone(s, u, t); }
  }

  lemma ReaderEnters(st: SocketType, acts: seq<Action>, t: Thread, op: Op) returns (more: seq<Action>)
    requires Interleaved(st, acts).Some? && MayShare(op)
    requires var s := Interleaved(st, acts).value; s.writer.None? && PcOf(s, t).Idle?
    ensures Interleaved(st, more).Some?
    ensures var s, s' := Interleaved(st, acts).value, Interleaved(st, more).value;
            s'.writer.None? && PcOf(s', t) == Holding(op) && OthersStay(s, s', t)
  {
    var s0 := At(Interleaved(st, acts).value, t, Waiting(op));
    more := Moved(st, acts, t, Begin(op), s0);
    more := Moved(st, more, t, Advance, At(s0.(readers := s0.readers + {t}), t, Holding(op)));
  }

  /** And any two of these can be. */
  lemma ReadersShare(st: SocketType, op: Op, op': Op)
    requires MayShare(op) && MayShare(op')
    ensures exists acts: seq<Action> ::
              var s := Interleaved(st, acts);
              s.Some? && Inside(PcOf(s.value, 0)) == Some(op) && Inside(PcOf(s.value, 1)) == Some(op')
  {
    var one := ReaderEnters(st, [], 0, op);
    var two := ReaderEnters(st, one, 1, op');
    assert PcOf(Interleaved(st, two).value, 0) == PcOf(Interleaved(st, one).value, 0);
  }
}
