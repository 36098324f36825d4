/** One thread running a method of the socket machine alone does what the method of the socket object promises. */
module SocketAlone {
  import opened Bytes
  import opened SocketMachine
  import opened SocketSafety
  import opened SocketCounters
  import opened Transport

  // ---------------------------------------------------------------- lists of counter updates

  /** The metrics after one `+=`, which wraps at 2^64. */
  function Plus(m: Metrics, i: Increment): Metrics {
    Written(m, i.cell, (Read(m, i.cell) + i.amount) % TWO64)
  }

  /** The metrics after a list of `+=`. */
  function Bumped(m: Metrics, todo: seq<Increment>): Metrics
    decreases |todo|
  {
    if todo == [] then m else Bumped(Plus(m, todo[0]), todo[1..])
  }

  /** Wrapping at every step or once at the end is the same: each counter grows by its total, mod 2^64. */
  lemma {:induction false} BumpedByTheTotal(m: Metrics, todo: seq<Increment>, c: Cell)
    ensures Read(Bumped(m, todo), c) == (Read(m, c) + SumOf(todo, c)) % TWO64
    decreases |todo|
  {
    if todo != [] {
      BumpedByTheTotal(Plus(m, todo[0]), todo[1..], c);
      if c == todo[0].cell { AddMod(Read(m, c), todo[0].amount, SumOf(todo[1..], c)); }
    }
  }

  /** The metrics after a method whose wrapped call succeeded: a send counts all its parts, Recv the first frame of a
      message that has one, RecvMultipart all frames. */
  function Counted(m: Metrics, op: Op, frames: seq<Bytes>): Metrics {
    match op
    case Send(data) => AfterSend(m, [data])
    case SendMultipart(parts) => AfterSend(m, parts)
    case Recv => if frames == [] then m else AfterReceive(m, [frames[0]])
    case RecvMultipart => AfterReceive(m, frames)
    case _ => m
  }

  /** The sums that `Counted` adds. */
  lemma SumsOfIncrements(op: Op, frames: seq<Bytes>)
    ensures var todo := Increments(op, frames);
            match op
            case Send(data) => SumsAre(todo, 1, |data|, 0, 0)
            case SendMultipart(parts) => SumsAre(todo, 1, TotalLength(parts), 0, 0)
            case Recv => if frames == [] then todo == [] else SumsAre(todo, 0, 0, 1, |frames[0]|)
            case RecvMultipart => SumsAre(todo, 0, 0, 1, TotalLength(frames))
            case _ => todo == []
  {
    match op
    case Send(data) => SumsOfTwo(Increment(MessagesSent, 1), Increment(BytesSent, |data|));
    case Recv =>
      if frames != [] { SumsOfTwo(Increment(MessagesReceived, 1), Increment(BytesReceived, |frames[0]|)); }
    case SendMultipart(parts) => SumsOfParts(op, frames, BytesSent, parts);
    case RecvMultipart => SumsOfParts(op, frames, BytesReceived, frames);
    case _ =>
  }

  predicate SumsAre(todo: seq<Increment>, ms: nat, bs: nat, mr: nat, br: nat) {
    && SumOf(todo, MessagesSent) == ms && SumOf(todo, BytesSent) == bs
    && SumOf(todo, MessagesReceived) == mr && SumOf(todo, BytesReceived) == br
  }

  lemma BumpedBySums(m: Metrics, todo: seq<Increment>, ms: nat, bs: nat, mr: nat, br: nat)
    requires SumsAre(todo, ms, bs, mr, br)
    ensures Bumped(m, todo) == Metrics((m.messagesSent + ms) % TWO64, (m.bytesSent + bs) % TWO64,
                                       (m.messagesReceived + mr) % TWO64, (m.bytesReceived + br) % TWO64)
  {
    BumpedByTheTotal(m, todo, MessagesSent); BumpedByTheTotal(m, todo, BytesSent);
    BumpedByTheTotal(m, todo, MessagesReceived); BumpedByTheTotal(m, todo, BytesReceived);
  }

  lemma SendCounts(m: Metrics, todo: seq<Increment>, parts: seq<Bytes>)
    requires SumsAre(todo, 1, TotalLength(parts), 0, 0)
    ensures Bumped(m, todo) == AfterSend(m, parts)
  {
    BumpedBySums(m, todo, 1, TotalLength(parts), 0, 0);
  }

  lemma ReceiveCounts(m: Metrics, todo: seq<Increment>, frames: seq<Bytes>)
    requires SumsAre(todo, 0, 0, 1, TotalLength(frames))
    ensures Bumped(m, todo) == AfterReceive(m, frames)
  {
    BumpedBySums(m, todo, 0, 0, 1, TotalLength(frames));
  }

  /** The updates of a method, made one by one, count what `Counted` says. */
  lemma IncrementsCount(m: Metrics, op: Op, frames: seq<Bytes>)
    ensures Bumped(m, Increments(op, frames)) == Counted(m, op, frames)
  {
    SumsOfIncrements(op, frames);
    var todo := Increments(op, frames);
    match op
    case Send(data) => TotalLengthOfOne(data); SendCounts(m, todo, [data]);
    case SendMultipart(parts) => SendCounts(m, todo, parts);
    case Recv => if frames != [] { TotalLengthOfOne(frames[0]); ReceiveCounts(m, todo, [frames[0]]); }
    case RecvMultipart => ReceiveCounts(m, todo, frames);
    case _ =>
  }

  // ---------------------------------------------------------------- a thread alone

  /** What the wrapped call returns, if there is one. */
  datatype Answer = Answer(ok: bool, frames: seq<Bytes>)

  function SoloMove(pc: Pc, answer: Answer): Move {
    if pc.Calling? then Return(answer.ok, answer.frames) else Advance
  }

  /** `n` steps of thread `t` alone; there is no step from idleness. */
  function Solo(s: Socket, st: SocketType, t: Thread, answer: Answer, n: nat): Option<Socket>
    decreases n
  {
    if n == 0 then Some(s)
    else
      match Next(s, st, t, SoloMove(PcOf(s, t), answer))
      case None => None
      case Some(s1) => Solo(s1, st, t, answer, n - 1)
  }

  /** Alone, the thread gets from `s` to idleness in `s'`. */
  ghost predicate Ends(s: Socket, st: SocketType, t: Thread, answer: Answer, s': Socket) {
    PcOf(s', t).Idle? && exists n: nat :: Solo(s, st, t, answer, n) == Some(s')
  }

  lemma EndsAfter(s: Socket, s1: Socket, st: SocketType, t: Thread, answer: Answer, s': Socket)
    requires Next(s, st, t, SoloMove(PcOf(s, t), answer)) == Some(s1) && Ends(s1, st, t, answer, s')
    ensures Ends(s, st, t, answer, s')
  {
    var n: nat :| Solo(s1, st, t, answer, n) == Some(s');
    assert Solo(s, st, t, answer, n + 1) == Some(s');
  }

  /** It ends in one way only. */
  lemma {:induction false} EndsOnce(s: Socket, st: SocketType, t: Thread, answer: Answer, n: nat, m: nat)
    requires Solo(s, st, t, answer, n).Some? && PcOf(Solo(s, st, t, answer, n).value, t).Idle?
    requires Solo(s, st, t, answer, m).Some? && PcOf(Solo(s, st, t, answer, m).value, t).Idle?
    ensures Solo(s, st, t, answer, n) == Solo(s, st, t, answer, m)
    decreases n
  {
    if n > 0 && m > 0 {
      EndsOnce(Next(s, st, t, SoloMove(PcOf(s, t), answer)).value, st, t, answer, n - 1, m - 1);
    }
  }

  // ---------------------------------------------------------------- from each place in a method to its end

  /** The thread is idle and its lock released, and closed flag, wrapped calls and metrics have these values. */
  ghost predicate Left(
    s: Socket, s': Socket, t: Thread, op: Op, closed: bool, started: seq<Wrapped>, metrics: Metrics)
  {
    && PcOf(s', t).Idle? && OthersStay(s, s', t)
    && s'.writer == (if Exclusive(op) then None else s.writer)
    && s'.readers == (if Exclusive(op) then s.readers else s.readers - {t})
    && s'.cancelled == s.cancelled && s'.closed == closed && s'.started == started && s'.metrics == metrics
  }

  lemma FromLeaving(s: Socket, st: SocketType, t: Thread, op: Op, answer: Answer) returns (s': Socket)
    requires PcOf(s, t) == Leaving(op)
    ensures Ends(s, st, t, answer, s') && Left(s, s', t, op, s.closed, s.started, s.metrics)
  {
    s' := Released(s, t, op);
    assert Solo(s', st, t, answer, 0) == Some(s');
    EndsAfter(s, s', st, t, answer, s');
  }

  /** `s1` differs from `s` only in thread `t`, the metrics and the history of what was counted. */
  ghost predicate SameBut(s: Socket, s1: Socket, t: Thread) {
    && OthersStay(s, s1, t) && s1.writer == s.writer && s1.readers == s.readers
    && s1.cancelled == s.cancelled && s1.closed == s.closed && s1.started == s.started
  }

  lemma OneUpdate(s: Socket, st: SocketType, t: Thread, answer: Answer) returns (s1: Socket, s2: Socket)
    requires PcOf(s, t).Adding? && PcOf(s, t).todo != []
    ensures Next(s, st, t, SoloMove(PcOf(s, t), answer)) == Some(s1)
    ensures Next(s1, st, t, SoloMove(PcOf(s1, t), answer)) == Some(s2)
    ensures SameBut(s, s2, t) && s2.metrics == Plus(s.metrics, PcOf(s, t).todo[0])
    ensures PcOf(s2, t) == Adding(PcOf(s, t).op, PcOf(s, t).todo[1..], PcOf(s, t).id)
  {
    var pc := PcOf(s, t);
    s1 := LoadStep(s, t, pc.op, pc.todo, pc.id);
    s2 := StoreStep(s1, t, PcOf(s1, t));
  }

  lemma {:induction false} FromAdding(
    s: Socket, st: SocketType, t: Thread, op: Op, todo: seq<Increment>, id: nat, answer: Answer)
    returns (s': Socket)
    requires PcOf(s, t) == Adding(op, todo, id)
    ensures Ends(s, st, t, answer, s') && Left(s, s', t, op, s.closed, s.started, Bumped(s.metrics, todo))
    decreases |todo|
  {
    if todo == [] {
      var s1 := At(s, t, Leaving(op));
      s' := FromLeaving(s1, st, t, op, answer);
      EndsAfter(s, s1, st, t, answer, s');
    } else {
      var s1, s2 := OneUpdate(s, st, t, answer);
      s' := FromAdding(s2, st, t, op, todo[1..], id, answer);
      EndsAfter(s1, s2, st, t, answer, s');
      EndsAfter(s, s1, st, t, answer, s');
    }
  }

  lemma FromCalling(s: Socket, st: SocketType, t: Thread, op: Op, w: Wrapped, answer: Answer) returns (s': Socket)
    requires PcOf(s, t) == Calling(op, w)
    ensures Ends(s, st, t, answer, s')
    ensures Left(s, s', t, op, s.closed, s.started,
                 if answer.ok then Counted(s.metrics, op, answer.frames) else s.metrics)
  {
    IncrementsCount(s.metrics, op, answer.frames);
    var s1 := Returned(s, t, op, w, answer.ok, answer.frames);
    if answer.ok {
      s' := FromAdding(s1, st, t, op, Increments(op, answer.frames), |s.arrivals|, answer);
    } else {
      s' := FromLeaving(s1, st, t, op, answer);
    }
    EndsAfter(s, s1, st, t, answer, s');
  }

  /** The wrapped calls of a method that finds the socket open. */
  function Calls(st: SocketType, op: Op): seq<Wrapped> {
    match WrappedCall(st, op) case None => [] case Some(w) => [w]
  }

  /** The metrics after a method that finds the socket open. */
  function MetricsAfter(m: Metrics, st: SocketType, op: Op, answer: Answer): Metrics {
    if WrappedCall(st, op).Some? && answer.ok then Counted(m, op, answer.frames) else m
  }

  lemma FromPassed(s: Socket, st: SocketType, t: Thread, op: Op, answer: Answer) returns (s': Socket)
    requires PcOf(s, t) == Passed(op)
    ensures Ends(s, st, t, answer, s')
    ensures Left(s, s', t, op, s.closed, s.started + Calls(st, op), MetricsAfter(s.metrics, st, op, answer))
  {
    var s1 := Called(s, st, t, op);
    var call := WrappedCall(st, op);
    if call.Some? {
      s' := FromCalling(s1, st, t, op, call.value, answer);
    } else {
      s' := FromLeaving(s1, st, t, op, answer);
      assert s.started + [] == s.started;
    }
    EndsAfter(s, s1, st, t, answer, s');
  }

  lemma {:induction false} FromCopying(s: Socket, st: SocketType, t: Thread, got: seq<uint64>, answer: Answer)
    returns (s': Socket)
    requires PcOf(s, t) == Copying(got)
    ensures Ends(s, st, t, answer, s') && Left(s, s', t, GetMetrics, s.closed, s.started, s.metrics)
    decreases 4 - |got|
  {
    var s1 := CopyStep(s, t, got);
    if |got| < 4 {
      s' := FromCopying(s1, st, t, got + [Read(s.metrics, CELLS[|got|])], answer);
    } else {
      s' := FromLeaving(s1, st, t, GetMetrics, answer);
    }
    EndsAfter(s, s1, st, t, answer, s');
  }

  // ---------------------------------------------------------------- whole methods

  /** The wrapped calls that a method makes on an open socket of a type, by name. */
  function CallsByName(n: SocketType, op: Op): seq<Wrapped> {
    match op
    case Bind => [WListen]
    case Connect => [WDial]
    case Send(_) => [WSend]
    case SendMultipart(_) => [WSend]
    case Recv => [WRecv]
    case RecvMultipart => [WRecv]
    case Subscribe => if n == 5 then [WSetOption] else if n == 7 then [WSend] else []
    case Unsubscribe => if n == 5 then [WSetOption] else if n == 7 then [WSend] else []
    case SetOption(hwm) => if hwm then [WSetOption] else []
    case GetOption => []
    case Close => [WClose]
    case GetMetrics => []
  }

  /** What a method does to a socket: Close sets the closed flag; an open socket gets the method's wrapped call, and a
      call that succeeds is counted; a closed socket gets neither. Lock and other threads are as before. */
  ghost predicate Performed(s: Socket, s': Socket, st: SocketType, t: Thread, op: Op, answer: Answer) {
    && PcOf(s', t).Idle? && OthersStay(s, s', t) && s'.writer == s.writer && s'.readers == s.readers
    && s'.cancelled == (s.cancelled || op.Close?)
    && s'.closed == (s.closed || op.Close?)
    && s'.started == s.started + (if s.closed then [] else CallsByName(st, op))
    && s'.metrics == if s.closed || !answer.ok then s.metrics else Counted(s.metrics, op, answer.frames)
  }

  lemma CallsAgree(st: SocketType, op: Op, m: Metrics, answer: Answer)
    ensures Calls(st, op) == CallsByName(st, op)
    ensures MetricsAfter(m, st, op, answer) == if answer.ok then Counted(m, op, answer.frames) else m
  {}

  lemma FromHoldingOpen(s: Socket, st: SocketType, t: Thread, op: Op, answer: Answer) returns (s': Socket)
    requires PcOf(s, t) == Holding(op) && !s.closed && !op.GetMetrics?
    ensures Ends(s, st, t, answer, s')
    ensures Left(s, s', t, op, op.Close?, s.started + Calls(st, op), MetricsAfter(s.metrics, st, op, answer))
  {
    var s1 := Checked(s, t, op);
    s' := FromPassed(s1, st, t, op, answer);
    EndsAfter(s, s1, st, t, answer, s');
  }

  lemma FromHoldingClosed(s: Socket, st: SocketType, t: Thread, op: Op, answer: Answer) returns (s': Socket)
    requires PcOf(s, t) == Holding(op) && (s.closed || op.GetMetrics?)
    ensures Ends(s, st, t, answer, s') && Left(s, s', t, op, s.closed, s.started, s.metrics)
  {
    var s1 := Checked(s, t, op);
    if op.GetMetrics? {
      s' := FromCopying(s1, st, t, [], answer);
    } else {
      s' := FromLeaving(s1, st, t, op, answer);
    }
    EndsAfter(s, s1, st, t, answer, s');
  }

  lemma FromHolding(s: Socket, st: SocketType, t: Thread, op: Op, answer: Answer) returns (s': Socket)
    requires PcOf(s, t) == Holding(op)
    ensures Ends(s, st, t, answer, s')
    ensures Left(s, s', t, op, s.closed || op.Close?, s.started + (if s.closed then [] else Calls(st, op)),
                 if s.closed then s.metrics else MetricsAfter(s.metrics, st, op, answer))
  {
    assert s.started + [] == s.started;
    if s.closed || op.GetMetrics? {
      s' := FromHoldingClosed(s, st, t, op, answer);
    } else {
      s' := FromHoldingOpen(s, st, t, op, answer);
    }
  }

  lemma FromWaiting(s: Socket, st: SocketType, t: Thread, op: Op, answer: Answer) returns (s': Socket)
    requires PcOf(s, t) == Waiting(op) && s.writer.None? && (Exclusive(op) ==> s.readers == {}) && t !in s.readers
    requires op.Close? ==> s.cancelled
    ensures Ends(s, st, t, answer, s') && Performed(s, s', st, t, op, answer)
  {
    var s1 := Acquired(s, t, op).value;
    s' := FromHolding(s1, st, t, op, answer);
    EndsAfter(s, s1, st, t, answer, s');
    CallsAgree(st, op, s.metrics, answer);
    assert !Exclusive(op) ==> s.readers + {t} - {t} == s.readers;
  }

  lemma FromBegin(s: Socket, s0: Socket, st: SocketType, t: Thread, op: Op, answer: Answer) returns (s': Socket)
    requires PcOf(s, t).Idle? && s.writer.None? && (Exclusive(op) ==> s.readers == {}) && t !in s.readers
    requires Next(s, st, t, Begin(op)) == Some(s0)
    ensures Ends(s0, st, t, answer, s') && Performed(s, s', st, t, op, answer)
  {
    if op.Close? {
      var s1 := At(s0.(cancelled := true), t, Waiting(Close));
      s' := FromWaiting(s1, st, t, op, answer);
      EndsAfter(s0, s1, st, t, answer, s');
    } else {
      s' := FromWaiting(s0, st, t, op, answer);
    }
  }

  /** A method that an idle thread begins while it can have the lock, and runs alone, ends, and in one way: with the
      change that the method of the socket object makes, for whatever the wrapped call returns. */
  lemma MethodAlone(s: Socket, s0: Socket, st: SocketType, t: Thread, op: Op, answer: Answer)
    requires LockInv(s) && PcOf(s, t).Idle? && s.writer.None? && (Exclusive(op) ==> s.readers == {})
    requires Next(s, st, t, Begin(op)) == Some(s0)
    ensures exists s' :: Ends(s0, st, t, answer, s')
    ensures forall s' :: Ends(s0, st, t, answer, s') ==> Performed(s, s', st, t, op, answer)
  {
    assert HoldsRead(PcOf(s, t)) <==> t in s.readers;
    var done := FromBegin(s, s0, st, t, op, answer);
    var n: nat :| Solo(s0, st, t, answer, n) == Some(done);
    forall s' | Ends(s0, st, t, answer, s')
      ensures Performed(s, s', st, t, op, answer)
    {
      var m: nat :| Solo(s0, st, t, answer, m) == Some(s');
      EndsOnce(s0, st, t, answer, n, m);
    }
  }

  /** The four counters in the order of their declaration. */
  function Values(m: Metrics): (v: seq<uint64>)
    ensures |v| == 4
  {
    [m.messagesSent, m.bytesSent, m.messagesReceived, m.bytesReceived]
  }

  lemma CellValue(m: Metrics, i: nat)
    requires i < 4
    ensures Read(m, CELLS[i]) == Values(m)[i]
  {
    assert i == 0 || i == 1 || i == 2 || i == 3;
  }

  lemma {:induction false} CopyGoesOn(s: Socket, st: SocketType, t: Thread, got: seq<uint64>, answer: Answer)
    requires PcOf(s, t) == Copying(got) && |got| <= 4
    ensures var s' := Solo(s, st, t, answer, 4 - |got|);
            && s'.Some? && s'.value.metrics == s.metrics
            && PcOf(s'.value, t) == Copying(got + Values(s.metrics)[|got|..])
    decreases 4 - |got|
  {
    var rest := Values(s.metrics)[|got|..];
    if |got| == 4 {
      assert got + rest == got;
    } else {
      var next := got + [Read(s.metrics, CELLS[|got|])];
      var s1 := CopyStep(s, t, got);
      CellValue(s.metrics, |got|);
      CopyGoesOn(s1, st, t, next, answer);
      assert next + Values(s.metrics)[|next|..] == got + rest;
    }
  }

  /** GetMetrics asks for no closed flag: alone, it has copied all four counters, in order, five steps after it got the
      lock, on a closed socket too. */
  lemma CopyShowsTheMetrics(s: Socket, st: SocketType, t: Thread, answer: Answer)
    requires PcOf(s, t) == Holding(GetMetrics)
    ensures var m := s.metrics;
            var s' := Solo(s, st, t, answer, 5);
            && s'.Some? && s'.value.metrics == m
            && PcOf(s'.value, t) == Copying([m.messagesSent, m.bytesSent, m.messagesReceived, m.bytesReceived])
  {
    CopyGoesOn(At(s, t, Copying([])), st, t, [], answer);
    assert [] + Values(s.metrics)[0..] == Values(s.metrics);
  }

  // ---------------------------------------------------------------- the socket object

  /** The socket object as a machine with no thread inside. */
  ghost function MachineOf(k: ZmqSocket): Socket
    reads k
  {
    Initial().(closed := k.closed, cancelled := k.cancelled, metrics := k.metrics, started := k.wrapped)
  }

  /** Alone, the method leads from `s` to these values in one way. */
  ghost predicate LeadsTo(
    s: Socket, st: SocketType, t: Thread, op: Op, answer: Answer,
    closed: bool, cancelled: bool, started: seq<Wrapped>, metrics: Metrics)
  {
    var s0 := Next(s, st, t, Begin(op));
    && s0.Some?
    && (exists s' :: Ends(s0.value, st, t, answer, s'))
    && forall s' :: Ends(s0.value, st, t, answer, s') ==>
         s'.closed == closed && s'.cancelled == cancelled && s'.started == started && s'.metrics == metrics
  }

  lemma AloneLeadsTo(s: Socket, st: SocketType, t: Thread, op: Op, answer: Answer)
    requires s.threads == map[] && s.writer.None? && s.readers == {}
    ensures LeadsTo(s, st, t, op, answer, s.closed || op.Close?, s.cancelled || op.Close?,
                    s.started + (if s.closed then [] else CallsByName(st, op)),
                    if s.closed || !answer.ok then s.metrics else Counted(s.metrics, op, answer.frames))
  {
    assert forall u: Thread :: PcOf(s, u) == Idle;
    MethodAlone(s, Next(s, st, t, Begin(op)).value, st, t, op, answer);
  }

  /** The method of the object that goes by this name. */
  method Apply(k: ZmqSocket, op: Op, answer: Answer)
    requires !op.GetOption?
    modifies k
    ensures k.closed == (old(k.closed) || op.Close?) && k.cancelled == (old(k.cancelled) || op.Close?)
    ensures k.wrapped == old(k.wrapped) + if old(k.closed) then [] else CallsByName(k.socketType, op)
    ensures k.metrics == if old(k.closed) || !answer.ok then old(k.metrics)
                         else Counted(old(k.metrics), op, answer.frames)
  {
    var message := if answer.ok then Some(answer.frames) else None;
    match op {
      case Bind => var _ := k.Bind(answer.ok);
      case Connect => var _ := k.Connect(answer.ok);
      case Send(data) => var _ := k.Send(data, answer.ok);
      case SendMultipart(parts) => var _ := k.SendMultipart(parts, answer.ok);
      case Recv => var _ := k.Recv(message);
      case RecvMultipart => var _ := k.RecvMultipart(message);
      case Subscribe => var _, _ := k.Subscribe([], answer.ok);
      case Unsubscribe => var _, _ := k.Unsubscribe([], answer.ok);
      case SetOption(hwm) => var _ := k.SetOption(if hwm then "sndhwm" else "linger", true, answer.ok);
      case Close => k.Close();
      case GetMetrics => var _ := k.GetMetrics();
    }
  }

  /** Any method of the object, except GetOption, changes the object as a thread of the machine of its type changes the
      machine when it runs the method alone. */
  method Invoke(k: ZmqSocket, op: Op, answer: Answer, t: Thread)
    requires !op.GetOption?
    modifies k
    ensures LeadsTo(old(MachineOf(k)), k.socketType, t, op, answer, k.closed, k.cancelled, k.wrapped, k.metrics)
  {
    AloneLeadsTo(MachineOf(k), k.socketType, t, op, answer);
    Apply(k, op, answer);
  }

  /** On a socket that NewSocket made, the first method makes just the wrapped call of the type asked for. */
  lemma FirstMethod(k: ZmqSocket, op: Op, answer: Answer, t: Thread)
    requires k.IsNew()
    ensures LeadsTo(Initial(), k.socketType, t, op, answer, op.Close?, op.Close?, CallsByName(k.socketType, op),
                    if answer.ok then Counted(Metrics(0, 0, 0, 0), op, answer.frames) else Metrics(0, 0, 0, 0))
    ensures MachineOf(k) == Initial()
  {
    AloneLeadsTo(Initial(), k.socketType, t, op, answer);
    assert [] + CallsByName(k.socketType, op) == CallsByName(k.socketType, op);
  }
}
