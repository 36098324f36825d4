/** What was counted against what arrived: in every interleaving every received message and byte has been counted or is
    still to be counted by the thread that received it. */
module SocketArrivals {
  import opened Bytes
  import opened SocketMachine
  import opened SocketSafety
  import opened SocketCounters
  import opened SocketReceives

  // ---------------------------------------------------------------- what arrived

  /** Recv does not count an empty message. */
  function MessagesIn(a: Arrival): nat {
    if a.op.Recv? && a.frames == [] then 0 else 1
  }

  /** Recv takes the first frame, RecvMultipart all of them. */
  function BytesIn(a: Arrival): nat {
    if a.op.RecvMultipart? then TotalLength(a.frames) else if a.frames == [] then 0 else |a.frames[0]|
  }

  function MessagesArrived(arrivals: seq<Arrival>): nat {
    if arrivals == [] then 0 else MessagesArrived(arrivals[..|arrivals| - 1]) + MessagesIn(arrivals[|arrivals| - 1])
  }

  function BytesArrived(arrivals: seq<Arrival>): nat {
    if arrivals == [] then 0 else BytesArrived(arrivals[..|arrivals| - 1]) + BytesIn(arrivals[|arrivals| - 1])
  }

  lemma OneMoreArrival(arrivals: seq<Arrival>, a: Arrival)
    ensures MessagesArrived(arrivals + [a]) == MessagesArrived(arrivals) + MessagesIn(a)
    ensures BytesArrived(arrivals + [a]) == BytesArrived(arrivals) + BytesIn(a)
  {
    assert (arrivals + [a])[..|arrivals|] == arrivals;
  }

  /** What a receive adds to the received counters is what arrived; the other methods add nothing to them. */
  lemma IncrementsOfReceives(op: Op, frames: seq<Bytes>)
    ensures op.Recv? || op.RecvMultipart? ==>
              && SumOf(Increments(op, frames), MessagesReceived) == MessagesIn(Arrival(op, frames))
              && SumOf(Increments(op, frames), BytesReceived) == BytesIn(Arrival(op, frames))
    ensures !op.Recv? && !op.RecvMultipart? ==>
              SumOf(Increments(op, frames), MessagesReceived) == SumOf(Increments(op, frames), BytesReceived) == 0
  {
    match op
    case Send(data) => SumsOfTwo(Increment(MessagesSent, 1), Increment(BytesSent, |data|));
    case Recv =>
      if frames != [] { SumsOfTwo(Increment(MessagesReceived, 1), Increment(BytesReceived, |frames[0]|)); }
    case SendMultipart(parts) => SumsOfParts(op, frames, BytesSent, parts);
    case RecvMultipart => SumsOfParts(op, frames, BytesReceived, frames);
    case _ =>
  }

  // ---------------------------------------------------------------- what the threads still owe

  /** What a thread has still to add to a counter. */
  function Owed(pc: Pc, c: Cell): nat {
    if Counting(pc) then SumOf(pc.todo, c) else 0
  }

  /** What the threads below `n` have still to add. */
  function OwedBelow(s: Socket, c: Cell, n: nat): nat {
    if n == 0 then 0 else OwedBelow(s, c, n - 1) + Owed(PcOf(s, n - 1), c)
  }

  /** No thread from `n` on has anything to add. */
  ghost predicate OwedOnlyBelow(s: Socket, c: Cell, n: nat) {
    forall t: Thread :: t >= n ==> Owed(PcOf(s, t), c) == 0
  }

  lemma {:induction false} OwedBelowMore(s: Socket, c: Cell, n: nat, m: nat)
    requires OwedOnlyBelow(s, c, n) && n <= m
    ensures OwedBelow(s, c, m) == OwedBelow(s, c, n)
    decreases m
  {
    if n < m { OwedBelowMore(s, c, n, m - 1); }
  }

  lemma {:induction false} OwedAfterAStep(s: Socket, s': Socket, t: Thread, c: Cell, n: nat)
    requires OthersStay(s, s', t)
    ensures if t < n then OwedBelow(s', c, n) + Owed(PcOf(s, t), c) == OwedBelow(s, c, n) + Owed(PcOf(s', t), c)
            else OwedBelow(s', c, n) == OwedBelow(s, c, n)
  {
    if n > 0 {
      OwedAfterAStep(s, s', t, c, n - 1);
      if n - 1 != t { assert PcOf(s', n - 1) == PcOf(s, n - 1); }
    }
  }

  // ---------------------------------------------------------------- the balance

  /** What was added to a received counter by the threads' stores, lost or not. */
  function Added(s: Socket, c: Cell): nat {
    if c.MessagesReceived? then |s.counted| else s.countedBytes
  }

  function Arrived(arrivals: seq<Arrival>, c: Cell): nat {
    if c.MessagesReceived? then MessagesArrived(arrivals) else BytesArrived(arrivals)
  }

  ghost predicate Accounted(s: Socket, c: Cell, n: nat) {
    OwedOnlyBelow(s, c, n) && Added(s, c) + OwedBelow(s, c, n) == Arrived(s.arrivals, c)
  }

  predicate ReceivedCell(c: Cell) {
    c.MessagesReceived? || c.BytesReceived?
  }

  /** `s'` owes and has added just as much more than `s` as arrived between them. */
  predicate BalancedStep(s: Socket, s': Socket, t: Thread, c: Cell) {
    Added(s', c) + Owed(PcOf(s', t), c) + Arrived(s.arrivals, c)
    == Added(s, c) + Owed(PcOf(s, t), c) + Arrived(s'.arrivals, c)
  }

  lemma ReceiptAccounts(s: Socket, s': Socket, st: SocketType, t: Thread, c: Cell, frames: seq<Bytes>)
    requires ReceivedCell(c) && CloseFacts(s, st, PcOf(s, t)) && Receipt(s, s', t, frames)
    ensures BalancedStep(s, s', t, c)
  {
    var op := PcOf(s, t).op;
    assert PcOf(s, t).w.WRecv? <==> op.Recv? || op.RecvMultipart?;
    IncrementsOfReceives(op, frames);
    OneMoreArrival(s.arrivals, Arrival(op, frames));
  }

  lemma StoreAccounts(s: Socket, s': Socket, t: Thread, c: Cell)
    requires ReceivedCell(c) && ReceiptInv(s) && TodoFacts(PcOf(s, t)) && Store(s, s', t)
    ensures BalancedStep(s, s', t, c)
  {
    CountedGrows(s, s', t);
    var todo := PcOf(s, t).todo;
    assert SumOf(todo, c) == (if todo[0].cell == c then todo[0].amount else 0) + SumOf(todo[1..], c);
  }

  lemma StepAccounts(s: Socket, s': Socket, st: SocketType, t: Thread, c: Cell)
    requires ReceivedCell(c) && ReceiptInv(s) && TodoFacts(PcOf(s, t)) && CloseFacts(s, st, PcOf(s, t))
    requires CountEffect(s, s', t)
    ensures BalancedStep(s, s', t, c)
  {
    if frames :| Receipt(s, s', t, frames) {
      ReceiptAccounts(s, s', st, t, c, frames);
    } else if Store(s, s', t) {
      StoreAccounts(s, s', t, c);
    }
  }

  lemma AccountedKept(s: Socket, s': Socket, st: SocketType, t: Thread, c: Cell, n: nat) returns (m: nat)
    requires ReceivedCell(c) && ReceiptInv(s) && TodoFacts(PcOf(s, t)) && CloseFacts(s, st, PcOf(s, t))
    requires OthersStay(s, s', t) && CountEffect(s, s', t) && Accounted(s, c, n)
    ensures Accounted(s', c, m)
  {
    m := if t < n then n else t + 1;
    OwedBelowMore(s, c, n, m);
    OwedAfterAStep(s, s', t, c, m);
    StepAccounts(s, s', st, t, c);
    forall u: Thread | u >= m
      ensures Owed(PcOf(s', u), c) == 0
    {
      assert PcOf(s', u) == PcOf(s, u);
    }
  }

  lemma {:induction false} InterleavingsAreAccounted(st: SocketType, acts: seq<Action>, c: Cell) returns (n: nat)
    requires Interleaved(st, acts).Some? && ReceivedCell(c)
    ensures Accounted(Interleaved(st, acts).value, c, n)
    decreases |acts|
  {
    if acts == [] {
      assert forall t: Thread :: PcOf(Initial(), t) == Idle;
      n := 0;
    } else {
      var before, a := acts[..|acts| - 1], acts[|acts| - 1];
      n := InterleavingsAreAccounted(st, before, c);
      InterleavingsKeepLockAndClose(st, before);
      InterleavingsKeepSent(st, before);
      InterleavingsKeepReceived(st, before);
      var s, s' := Interleaved(st, before).value, Interleaved(st, acts).value;
      NextEffect(s, st, a.t, a.move);
      NextCounts(s, st, a.t, a.move);
      assert TodoFacts(PcOf(s, a.t)) && CloseFacts(s, st, PcOf(s, a.t));
      n := AccountedKept(s, s', st, a.t, c, n);
    }
  }

  /** In every interleaving, the messages counted and those that some thread has still to count are together the
      messages that arrived; and likewise the bytes: of the first frame for Recv, of all frames for RecvMultipart. */
  lemma ReceivedIsCountedOrOwed(st: SocketType, acts: seq<Action>)
    requires Interleaved(st, acts).Some?
    ensures exists n: nat ::
              var s := Interleaved(st, acts).value;
              && OwedOnlyBelow(s, MessagesReceived, n)
              && |s.counted| + OwedBelow(s, MessagesReceived, n) == MessagesArrived(s.arrivals)
    ensures exists n: nat ::
              var s := Interleaved(st, acts).value;
              && OwedOnlyBelow(s, BytesReceived, n)
              && s.countedBytes + OwedBelow(s, BytesReceived, n) == BytesArrived(s.arrivals)
  {
    var n := InterleavingsAreAccounted(st, acts, MessagesReceived);
    var m := InterleavingsAreAccounted(st, acts, BytesReceived);
    var s := Interleaved(st, acts).value;
    assert OwedOnlyBelow(s, MessagesReceived, n) && OwedOnlyBelow(s, BytesReceived, m);
  }

  /** No thread has an update left to make. */
  ghost predicate AllCounted(s: Socket) {
    forall t: Thread :: Counting(PcOf(s, t)) ==> PcOf(s, t).todo == []
  }

  lemma NothingOwed(s: Socket, c: Cell, n: nat)
    requires AllCounted(s) && Accounted(s, c, n)
    ensures Added(s, c) == Arrived(s.arrivals, c)
  {
    assert OwedOnlyBelow(s, c, 0);
    OwedBelowMore(s, c, 0, n);
  }

  /** If no two receives ever updated one counter at once, then whenever no update is under way the received counters
      are the number (before wraparound) and the total length (mod 2^64) of what arrived. */
  lemma CountersShowWhatArrived(st: SocketType, acts: seq<Action>)
    requires Interleaved(st, acts).Some? && AllCounted(Interleaved(st, acts).value)
    requires ApartAllAlong(st, acts, MessagesReceived) && ApartAllAlong(st, acts, BytesReceived)
    ensures var s := Interleaved(st, acts).value;
            && (MessagesArrived(s.arrivals) < TWO64 ==> s.metrics.messagesReceived == MessagesArrived(s.arrivals))
            && s.metrics.bytesReceived == BytesArrived(s.arrivals) % TWO64
  {
    var s := Interleaved(st, acts).value;
    var n := InterleavingsAreAccounted(st, acts, MessagesReceived);
    NothingOwed(s, MessagesReceived, n);
    var m := InterleavingsAreAccounted(st, acts, BytesReceived);
    NothingOwed(s, BytesReceived, m);
    if |s.counted| < TWO64 { ReceivesApartAreCountedExactly(st, acts); }
    BytesApartAreCountedExactly(st, acts);
  }
}
