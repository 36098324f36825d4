/** What every interleaving keeps of the traffic counters: exact for sends, which hold the write lock, and bounded for
    receives, whose `+=` runs under the read lock. */
module SocketCounters {
  import opened Bytes
  import opened SocketMachine
  import opened SocketSafety

  // ---------------------------------------------------------------- what a step does to the counters

  /** With counter updates to make. */
  predicate Counting(pc: Pc) {
    pc.Adding? || pc.Loaded?
  }

  predicate SameHistory(s: Socket, s': Socket) {
    && s'.sent == s.sent && s'.arrivals == s.arrivals && s'.counted == s.counted
    && s'.countedBytes == s.countedBytes && s'.overlapped == s.overlapped
  }

  /** A wrapped call returned well: its updates are now to be made. */
  predicate Receipt(s: Socket, s': Socket, t: Thread, frames: seq<Bytes>) {
    var pc, pc' := PcOf(s, t), PcOf(s', t);
    && pc.Calling? && pc' == Adding(pc.op, Increments(pc.op, frames), |s.arrivals|)
    && s'.metrics == s.metrics && s'.sent == s.sent + SentParts(pc.op)
    && s'.arrivals == (if pc.w.WRecv? then s.arrivals + [Arrival(pc.op, frames)] else s.arrivals)
    && s'.counted == s.counted && s'.countedBytes == s.countedBytes && s'.overlapped == s.overlapped
  }

  predicate Load(s: Socket, s': Socket, t: Thread) {
    var pc, pc' := PcOf(s, t), PcOf(s', t);
    && SameHistory(s, s') && s'.metrics == s.metrics
    && pc.Adding? && pc.todo != []
    && pc' == Loaded(pc.op, pc.todo, Read(s.metrics, pc.todo[0].cell), pc.id, |s.counted|)
  }

  predicate Store(s: Socket, s': Socket, t: Thread) {
    var pc, pc' := PcOf(s, t), PcOf(s', t);
    && pc.Loaded? && pc.todo != [] && pc' == Adding(pc.op, pc.todo[1..], pc.id)
    && var cell, amount := pc.todo[0].cell, pc.todo[0].amount;
    && s'.metrics == Written(s.metrics, cell, (pc.value + amount) % TWO64)
    && s'.sent == s.sent && s'.arrivals == s.arrivals
    && s'.counted == (if cell.MessagesReceived? then s.counted + {pc.id} else s.counted)
    && s'.overlapped == (s.overlapped || (cell.MessagesReceived? && pc.stamp != |s.counted|))
    && s'.countedBytes == s.countedBytes + (if cell.BytesReceived? then amount else 0)
  }

  /** Any other step. */
  predicate Quiet(s: Socket, s': Socket, t: Thread) {
    var pc, pc' := PcOf(s, t), PcOf(s', t);
    SameHistory(s, s') && s'.metrics == s.metrics && (Counting(pc) ==> pc.todo == []) && !Counting(pc')
  }

  ghost predicate CountEffect(s: Socket, s': Socket, t: Thread) {
    Quiet(s, s', t) || Load(s, s', t) || Store(s, s', t) || exists frames: seq<Bytes> :: Receipt(s, s', t, frames)
  }

  lemma ReturnCounts(s: Socket, t: Thread, op: Op, w: Wrapped, ok: bool, frames: seq<Bytes>)
    requires PcOf(s, t) == Calling(op, w)
    ensures CountEffect(s, Returned(s, t, op, w, ok, frames), t)
  {
    var s' := Returned(s, t, op, w, ok, frames);
    if ok { assert Receipt(s, s', t, frames); } else { assert Quiet(s, s', t); }
  }

  lemma LoadCounts(s: Socket, t: Thread, op: Op, todo: seq<Increment>, id: nat)
    requires PcOf(s, t) == Adding(op, todo, id)
    ensures CountEffect(s, LoadStep(s, t, op, todo, id), t)
  {}

  lemma StoreCounts(s: Socket, t: Thread)
    requires PcOf(s, t).Loaded? && PcOf(s, t).todo != []
    ensures CountEffect(s, StoreStep(s, t, PcOf(s, t)), t)
  {
    assert Store(s, StoreStep(s, t, PcOf(s, t)), t);
  }

  lemma QuietStep(s: Socket, s': Socket, t: Thread)
    requires !Counting(PcOf(s, t)) && !Counting(PcOf(s', t)) && SameHistory(s, s') && s'.metrics == s.metrics
    ensures CountEffect(s, s', t)
  {}

  lemma LockStepsAreQuiet(s: Socket, t: Thread, op: Op)
    ensures PcOf(s, t) == Waiting(op) && Acquired(s, t, op).Some? ==> CountEffect(s, Acquired(s, t, op).value, t)
    ensures PcOf(s, t) == Leaving(op) ==> CountEffect(s, Released(s, t, op), t)
  {}

  lemma SectionStepsAreQuiet(s: Socket, st: SocketType, t: Thread, op: Op, got: seq<uint64>)
    ensures PcOf(s, t) == Holding(op) ==> CountEffect(s, Checked(s, t, op), t)
    ensures PcOf(s, t) == Passed(op) ==> CountEffect(s, Called(s, st, t, op), t)
    ensures PcOf(s, t) == Copying(got) ==> CountEffect(s, CopyStep(s, t, got), t)
  {}

  lemma QuietMoves(s: Socket, st: SocketType, t: Thread, move: Move)
    requires Next(s, st, t, move).Some? && !PcOf(s, t).Calling? && !Counting(PcOf(s, t))
    ensures CountEffect(s, Next(s, st, t, move).value, t)
  {
    var pc := PcOf(s, t);
    if pc.Waiting? || pc.Leaving? { LockStepsAreQuiet(s, t, pc.op); }
    else if pc.Holding? || pc.Passed? { SectionStepsAreQuiet(s, st, t, pc.op, []); }
    else if pc.Copying? { SectionStepsAreQuiet(s, st, t, GetMetrics, pc.got); }
    else { QuietStep(s, Next(s, st, t, move).value, t); }
  }

  lemma NextCounts(s: Socket, st: SocketType, t: Thread, move: Move)
    requires Next(s, st, t, move).Some?
    ensures CountEffect(s, Next(s, st, t, move).value, t)
  {
    var pc := PcOf(s, t);
    if pc.Calling? { ReturnCounts(s, t, pc.op, pc.w, move.ok, move.frames); }
    else if pc.Adding? { LoadCounts(s, t, pc.op, pc.todo, pc.id); }
    else if pc.Loaded? { StoreCounts(s, t); }
    else { QuietMoves(s, st, t, move); }
  }

  // ---------------------------------------------------------------- what a thread still has to add

  predicate Sending(c: Cell) {
    c.MessagesSent? || c.BytesSent?
  }

  /** Writers add to the sent counters and readers to the received ones; a received message is counted first, once. */
  predicate TodoFits(op: Op, todo: seq<Increment>) {
    && (forall k :: 0 <= k < |todo| ==> (Sending(todo[k].cell) <==> Exclusive(op)))
    && (forall k :: 0 <= k < |todo| && todo[k].cell.MessagesReceived? ==> k == 0 && todo[k].amount == 1)
  }

  predicate TodoFacts(pc: Pc) {
    (Counting(pc) ==> TodoFits(pc.op, pc.todo)) && (pc.Loaded? ==> pc.todo != [])
  }

  lemma IncrementsFit(op: Op, frames: seq<Bytes>)
    ensures TodoFits(op, Increments(op, frames))
  {}

  lemma TodoKept(s: Socket, s': Socket, t: Thread)
    requires TodoFacts(PcOf(s, t)) && CountEffect(s, s', t)
    ensures TodoFacts(PcOf(s', t))
  {
    if frames :| Receipt(s, s', t, frames) { IncrementsFit(PcOf(s, t).op, frames); }
  }

  function SumOf(todo: seq<Increment>, c: Cell): nat {
    if todo == [] then 0 else (if todo[0].cell == c then todo[0].amount else 0) + SumOf(todo[1..], c)
  }

  function TotalLength(parts: seq<Bytes>): nat {
    if parts == [] then 0 else |parts[0]| + TotalLength(parts[1..])
  }

  /** The bytes of all messages sent. */
  function TotalSent(sent: seq<seq<Bytes>>): nat {
    if sent == [] then 0 else TotalSent(sent[..|sent| - 1]) + TotalLength(sent[|sent| - 1])
  }

  lemma {:induction false} SumPerPart(c: Cell, parts: seq<Bytes>, d: Cell)
    ensures SumOf(PerPart(c, parts), d) == if c == d then TotalLength(parts) else 0
  {
    if parts != [] {
      assert PerPart(c, parts)[1..] == PerPart(c, parts[1..]);
      SumPerPart(c, parts[1..], d);
    }
  }

  lemma SumOfPair(a: Increment, b: Increment, c: Cell)
    ensures SumOf([a, b], c) == (if a.cell == c then a.amount else 0) + (if b.cell == c then b.amount else 0)
  {
    assert [a, b][1..] == [b] && [b][1..] == [];
    assert SumOf([b], c) == (if b.cell == c then b.amount else 0) + SumOf([], c);
  }

  lemma SumsOfTwo(a: Increment, b: Increment)
    ensures forall c :: SumOf([a, b], c)
                        == (if a.cell == c then a.amount else 0) + (if b.cell == c then b.amount else 0)
  {
    forall c
      ensures SumOf([a, b], c) == (if a.cell == c then a.amount else 0) + (if b.cell == c then b.amount else 0)
    {
      SumOfPair(a, b, c);
    }
  }

  lemma SumsOfParts(op: Op, frames: seq<Bytes>, cell: Cell, parts: seq<Bytes>)
    requires Increments(op, frames) != [] && Increments(op, frames)[1..] == PerPart(cell, parts)
    ensures forall c :: var first := Increments(op, frames)[0];
                        SumOf(Increments(op, frames), c)
                        == (if first.cell == c then first.amount else 0) + if cell == c then TotalLength(parts) else 0
  {
    forall c
      ensures SumOf(PerPart(cell, parts), c) == if cell == c then TotalLength(parts) else 0
    {
      SumPerPart(cell, parts, c);
    }
  }

  /** After a send the counters have to grow by one message and by its bytes. */
  lemma IncrementsOfSends(op: Op, frames: seq<Bytes>, sent: seq<seq<Bytes>>)
    requires Exclusive(op)
    ensures |sent| + SumOf(Increments(op, frames), MessagesSent) == |sent + SentParts(op)|
    ensures TotalSent(sent) + SumOf(Increments(op, frames), BytesSent) == TotalSent(sent + SentParts(op))
  {
    var todo := Increments(op, frames);
    if op.Send? {
      assert todo[1..] == [Increment(BytesSent, |op.data|)] && todo[1..][1..] == [];
      assert SumOf(todo[1..], MessagesSent) == SumOf([], MessagesSent) == 0;
      assert SumOf(todo[1..], BytesSent) == |op.data| + SumOf([], BytesSent);
      assert (sent + [[op.data]])[..|sent|] == sent;
      assert TotalLength([op.data]) == |op.data| + TotalLength([]) by { assert [op.data][1..] == []; }
    } else if op.SendMultipart? {
      assert todo[1..] == PerPart(BytesSent, op.parts);
      SumPerPart(BytesSent, op.parts, MessagesSent); SumPerPart(BytesSent, op.parts, BytesSent);
      assert (sent + [op.parts])[..|sent|] == sent;
    } else {
      assert sent + [] == sent;
    }
  }

  // ---------------------------------------------------------------- sends

  /** What the writer, if there is one, has still to add to a counter. */
  function Pending(s: Socket, c: Cell): nat {
    if s.writer.Some? && Counting(PcOf(s, s.writer.value)) then SumOf(PcOf(s, s.writer.value).todo, c) else 0
  }

  /** A counter, with what is pending, is a number mod 2^64. */
  predicate Balanced(s: Socket, c: Cell, n: nat) {
    (Read(s.metrics, c) + Pending(s, c)) % TWO64 == n % TWO64
  }

  ghost predicate SentInv(s: Socket) {
    && (forall t: Thread :: TodoFacts(PcOf(s, t)))
    && (forall t: Thread :: PcOf(s, t).Loaded? && Exclusive(PcOf(s, t).op) ==>
          PcOf(s, t).value == Read(s.metrics, PcOf(s, t).todo[0].cell))
    && Balanced(s, MessagesSent, |s.sent|) && Balanced(s, BytesSent, TotalSent(s.sent))
  }

  lemma AddMod(a: nat, b: nat, c: nat)
    ensures ((a + b) % TWO64 + c) % TWO64 == (a + b + c) % TWO64
  {}

  lemma SameModPlus(a: nat, b: nat, n: nat, k: nat)
    requires a % TWO64 == n % TWO64 && b == a + k
    ensures b % TWO64 == (n + k) % TWO64
  {}

  lemma ReceiptBalances(s: Socket, s': Socket, t: Thread, frames: seq<Bytes>, c: Cell, n: nat, n': nat)
    requires Receipt(s, s', t, frames) && s.writer == s'.writer && Balanced(s, c, n)
    requires s.writer == Some(t) ==> n' == n + SumOf(Increments(PcOf(s, t).op, frames), c)
    requires s.writer.Some? ==> s.writer == Some(t)
    requires s.writer.None? ==> n' == n
    ensures Balanced(s', c, n')
  {
    if s.writer.Some? {
      SameModPlus(Read(s.metrics, c), Read(s'.metrics, c) + Pending(s', c), n,
                  SumOf(Increments(PcOf(s, t).op, frames), c));
    }
  }

  lemma StoreBalances(s: Socket, s': Socket, t: Thread, c: Cell, n: nat)
    requires Store(s, s', t) && s.writer == s'.writer && Balanced(s, c, n) && Sending(c)
    requires s.writer == Some(t) ==> PcOf(s, t).value == Read(s.metrics, PcOf(s, t).todo[0].cell)
    requires s.writer.Some? ==> s.writer == Some(t)
    requires s.writer.None? ==> !Sending(PcOf(s, t).todo[0].cell)
    ensures Balanced(s', c, n)
  {
    var pc := PcOf(s, t);
    if s.writer.Some? && pc.todo[0].cell == c {
      AddMod(pc.value, pc.todo[0].amount, SumOf(pc.todo[1..], c));
    }
  }

  /** Nothing to add before or after, or the same to add. */
  lemma OtherwiseBalanced(s: Socket, s': Socket, t: Thread, c: Cell, n: nat)
    requires Balanced(s, c, n) && (Quiet(s, s', t) || Load(s, s', t)) && OthersStay(s, s', t)
    requires s.writer != s'.writer ==>
               && Quiet(s, s', t)
               && (s.writer.Some? ==> s.writer == Some(t)) && (s'.writer.Some? ==> s'.writer == Some(t))
    ensures Balanced(s', c, n)
  {}

  lemma SentBalanceKept(s: Socket, s': Socket, t: Thread)
    requires LockInv(s) && SentInv(s)
    requires OthersStay(s, s', t) && LockEffect(s, s', t) && CountEffect(s, s', t)
    ensures Balanced(s', MessagesSent, |s'.sent|) && Balanced(s', BytesSent, TotalSent(s'.sent))
  {
    var pc, pc' := PcOf(s, t), PcOf(s', t);
    assert TodoFacts(pc);
    assert HoldsWrite(pc) <==> s.writer == Some(t);
    assert HoldsRead(pc) <==> t in s.readers;
    if frames :| Receipt(s, s', t, frames) {
      if Exclusive(pc.op) { IncrementsOfSends(pc.op, frames, s.sent); } else { assert s.sent + [] == s.sent; }
      ReceiptBalances(s, s', t, frames, MessagesSent, |s.sent|, |s'.sent|);
      ReceiptBalances(s, s', t, frames, BytesSent, TotalSent(s.sent), TotalSent(s'.sent));
    } else if Store(s, s', t) {
      StoreBalances(s, s', t, MessagesSent, |s.sent|);
      StoreBalances(s, s', t, BytesSent, TotalSent(s.sent));
    } else {
      OtherwiseBalanced(s, s', t, MessagesSent, |s.sent|);
      OtherwiseBalanced(s, s', t, BytesSent, TotalSent(s.sent));
    }
  }

  lemma SentKept(s: Socket, s': Socket, t: Thread)
    requires LockInv(s) && SentInv(s)
    requires OthersStay(s, s', t) && LockEffect(s, s', t) && CountEffect(s, s', t)
    ensures SentInv(s')
  {
    SentBalanceKept(s, s', t);
    assert TodoFacts(PcOf(s, t));
    TodoKept(s, s', t);
    forall u: Thread
      ensures TodoFacts(PcOf(s', u))
      ensures PcOf(s', u).Loaded? && Exclusive(PcOf(s', u).op) ==>
                PcOf(s', u).value == Read(s'.metrics, PcOf(s', u).todo[0].cell)
    {
      if u != t {
        assert PcOf(s', u) == PcOf(s, u) && TodoFacts(PcOf(s, u));
        if HoldsWrite(PcOf(s, u)) { WriterIsAlone(s, u, t); }
      }
    }
  }

  /** A copy of the metrics read so far shows the sent counters as they are, and as they stay while it is made. */
  predicate CopyFacts(s: Socket, pc: Pc) {
    pc.Copying? ==>
      && |pc.got| <= 4
      && (|pc.got| > 0 ==> pc.got[0] == s.metrics.messagesSent)
      && (|pc.got| > 1 ==> pc.got[1] == s.metrics.bytesSent)
  }

  ghost predicate CopyInv(s: Socket) {
    forall t: Thread :: CopyFacts(s, PcOf(s, t))
  }

  lemma LockStepsDoNotCopy(s: Socket, t: Thread, op: Op)
    ensures !PcOf(Released(s, t, op), t).Copying?
    ensures Acquired(s, t, op).Some? ==> !PcOf(Acquired(s, t, op).value, t).Copying?
  {}

  lemma SectionStepsDoNotCopy(s: Socket, st: SocketType, t: Thread, op: Op)
    ensures !PcOf(Called(s, st, t, op), t).Copying?
    ensures !op.GetMetrics? ==> !PcOf(Checked(s, t, op), t).Copying?
  {}

  lemma UpdatesDoNotCopy(s: Socket, t: Thread, pc: Pc)
    ensures pc.Adding? ==> !PcOf(LoadStep(s, t, pc.op, pc.todo, pc.id), t).Copying?
    ensures pc.Loaded? && pc.todo != [] ==> !PcOf(StoreStep(s, t, pc), t).Copying?
  {}

  /** Only the first step of GetMetrics in its critical section and the copying itself lead to copying. */
  lemma OnlyGetMetricsCopies(s: Socket, st: SocketType, t: Thread, move: Move)
    requires Next(s, st, t, move).Some?
    ensures PcOf(Next(s, st, t, move).value, t).Copying? ==> PcOf(s, t) == Holding(GetMetrics) || PcOf(s, t).Copying?
  {
    var pc := PcOf(s, t);
    if pc.Waiting? || pc.Leaving? { LockStepsDoNotCopy(s, t, pc.op); }
    else if pc.Holding? || pc.Passed? { SectionStepsDoNotCopy(s, st, t, pc.op); }
    else if Counting(pc) { UpdatesDoNotCopy(s, t, pc); }
  }

  lemma CopyStepFacts(s: Socket, s': Socket, st: SocketType, t: Thread, move: Move)
    requires CopyFacts(s, PcOf(s, t)) && Next(s, st, t, move) == Some(s') && PcOf(s', t).Copying?
    ensures s'.metrics == s.metrics && CopyFacts(s', PcOf(s', t))
  {
    OnlyGetMetricsCopies(s, st, t, move);
    if PcOf(s, t).Copying? {
      assert s' == CopyStep(s, t, PcOf(s, t).got);
    } else {
      assert s' == Checked(s, t, GetMetrics);
    }
  }

  lemma CopyKept(s: Socket, s': Socket, t: Thread)
    requires LockInv(s) && SentInv(s) && CopyInv(s) && OthersStay(s, s', t) && CountEffect(s, s', t)
    requires CopyFacts(s', PcOf(s', t))
    ensures CopyInv(s')
  {
    assert TodoFacts(PcOf(s, t));
    forall u: Thread
      ensures CopyFacts(s', PcOf(s', u))
    {
      if u != t {
        assert CopyFacts(s, PcOf(s, u)) && PcOf(s', u) == PcOf(s, u);
        if HoldsWrite(PcOf(s, t)) { WriterIsAlone(s, t, u); }
      }
    }
  }

  lemma {:induction false} InterleavingsKeepSent(st: SocketType, acts: seq<Action>)
    requires Interleaved(st, acts).Some?
    ensures SentInv(Interleaved(st, acts).value) && CopyInv(Interleaved(st, acts).value)
  {
    if acts == [] {
      assert forall t: Thread :: PcOf(Initial(), t) == Idle;
    } else {
      var before, a := acts[..|acts| - 1], acts[|acts| - 1];
      InterleavingsKeepSent(st, before);
      InterleavingsKeepLockAndClose(st, before);
      var s, s' := Interleaved(st, before).value, Interleaved(st, acts).value;
      assert CopyFacts(s, PcOf(s, a.t));
      NextEffect(s, st, a.t, a.move);
      NextCounts(s, st, a.t, a.move);
      if PcOf(s', a.t).Copying? { CopyStepFacts(s, s', st, a.t, a.move); }
      SentKept(s, s', a.t);
      CopyKept(s, s', a.t);
    }
  }

  lemma InvariantSent(s: Socket, t: Thread)
    requires LockInv(s) && SentInv(s) && CopyInv(s)
    requires s.writer.None? || PcOf(s, t).Copying?
    ensures s.metrics.messagesSent == |s.sent| % TWO64 && s.metrics.bytesSent == TotalSent(s.sent) % TWO64
    ensures CopyFacts(s, PcOf(s, t))
  {
    assert HoldsRead(PcOf(s, t)) <==> t in s.readers;
  }

  /** In every interleaving, whenever no writer is inside, MessagesSent and BytesSent are the number and the total
      length, mod 2^64, of the messages that Send and SendMultipart got away; and a GetMetrics that has read both shows
      exactly these numbers, however other threads interleave with its copying. */
  lemma SentCountersAreExact(st: SocketType, acts: seq<Action>, t: Thread)
    requires Interleaved(st, acts).Some?
    ensures var s := Interleaved(st, acts).value;
            && (s.writer.None? ==>
                  && s.metrics.messagesSent == |s.sent| % TWO64
                  && s.metrics.bytesSent == TotalSent(s.sent) % TWO64)
            && (PcOf(s, t).Copying? && |PcOf(s, t).got| >= 2 ==>
                  && PcOf(s, t).got[0] == |s.sent| % TWO64
                  && PcOf(s, t).got[1] == TotalSent(s.sent) % TWO64)
  {
    InterleavingsKeepSent(st, acts);
    InterleavingsKeepLockAndClose(st, acts);
    var s := Interleaved(st, acts).value;
    if s.writer.None? || PcOf(s, t).Copying? { InvariantSent(s, t); }
  }
}
