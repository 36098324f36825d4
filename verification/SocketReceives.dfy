/** The received counters in every interleaving: never more than was received, and exact just when no count was lost. */
module SocketReceives {
  import opened Bytes
  import opened SocketMachine
  import opened SocketSafety
  import opened SocketCounters

  /** With a received message still to count. */
  predicate CarriesCount(pc: Pc) {
    Counting(pc) && pc.todo != [] && pc.todo[0].cell.MessagesReceived?
  }

  /** Between the load and the store of a counter. */
  predicate LoadedOn(pc: Pc, c: Cell) {
    pc.Loaded? && pc.todo != [] && pc.todo[0].cell == c
  }

  predicate LoadedCount(pc: Pc) {
    LoadedOn(pc, MessagesReceived)
  }

  /** Every receive has its number, and is counted at most once. */
  ghost predicate ReceiptInv(s: Socket) {
    && (forall t: Thread :: CarriesCount(PcOf(s, t)) ==> PcOf(s, t).id < |s.arrivals| && PcOf(s, t).id !in s.counted)
    && (forall t: Thread, u: Thread :: t != u && CarriesCount(PcOf(s, t)) && CarriesCount(PcOf(s, u)) ==>
          PcOf(s, t).id != PcOf(s, u).id)
    && (forall i :: i in s.counted ==> i < |s.arrivals|)
  }

  lemma ReceiptKept(s: Socket, s': Socket, st: SocketType, t: Thread)
    requires ReceiptInv(s) && CloseInv(s, st) && TodoFacts(PcOf(s, t)) && OthersStay(s, s', t) && CountEffect(s, s', t)
    ensures ReceiptInv(s')
  {
    var pc, pc' := PcOf(s, t), PcOf(s', t);
    assert CloseFacts(s, st, pc);
    assert CarriesCount(pc') ==> pc'.id < |s'.arrivals| && pc'.id !in s'.counted;
    forall u: Thread
      ensures CarriesCount(PcOf(s', u)) ==> PcOf(s', u).id < |s'.arrivals| && PcOf(s', u).id !in s'.counted
      ensures u != t && CarriesCount(PcOf(s', u)) && CarriesCount(pc') ==> PcOf(s', u).id != pc'.id
    {
      if u != t { assert PcOf(s', u) == PcOf(s, u); }
    }
  }

  // ---------------------------------------------------------------- bounds

  /** A loaded value is never more than what had been counted, nor is the counter itself. */
  predicate BoundFacts(s: Socket, pc: Pc) {
    && (LoadedCount(pc) ==> pc.value <= pc.stamp <= |s.counted|)
    && (LoadedOn(pc, BytesReceived) ==> pc.value <= s.countedBytes)
  }

  ghost predicate BoundInv(s: Socket) {
    && (forall t: Thread :: BoundFacts(s, PcOf(s, t)))
    && s.metrics.messagesReceived <= |s.counted| && s.metrics.bytesReceived <= s.countedBytes
  }

  lemma CountedGrows(s: Socket, s': Socket, t: Thread)
    requires ReceiptInv(s) && CountEffect(s, s', t)
    ensures s.countedBytes <= s'.countedBytes
    ensures if Store(s, s', t) && PcOf(s, t).todo[0].cell.MessagesReceived? then |s'.counted| == |s.counted| + 1
            else s'.counted == s.counted
  {
    if Store(s, s', t) && PcOf(s, t).todo[0].cell.MessagesReceived? {
      assert CarriesCount(PcOf(s, t));
    }
  }

  lemma BoundKept(s: Socket, s': Socket, t: Thread)
    requires ReceiptInv(s) && BoundInv(s) && TodoFacts(PcOf(s, t)) && OthersStay(s, s', t) && CountEffect(s, s', t)
    ensures BoundInv(s')
  {
    CountedGrows(s, s', t);
    assert BoundFacts(s, PcOf(s, t));
    forall u: Thread
      ensures BoundFacts(s', PcOf(s', u))
    {
      assert BoundFacts(s, PcOf(s, u));
    }
  }

  lemma SubsetOfNaturals(a: set<nat>, n: nat)
    requires forall i :: i in a ==> i < n
    ensures |a| <= n
  {
    if n > 0 {
      SubsetOfNaturals(a - {n - 1}, n - 1);
    } else {
      assert a == {};
    }
  }

  // ---------------------------------------------------------------- exactness

  /** Before any lost count a loaded value is the count at that time; after one it is behind. */
  predicate ExactFacts(s: Socket, pc: Pc) {
    LoadedCount(pc) ==>
      if s.overlapped then pc.stamp == |s.counted| ==> pc.value < pc.stamp else pc.value == pc.stamp
  }

  ghost predicate ExactInv(s: Socket) {
    && (forall t: Thread :: ExactFacts(s, PcOf(s, t)))
    && (if s.overlapped then s.metrics.messagesReceived < |s.counted| else s.metrics.messagesReceived == |s.counted|)
  }

  lemma ExactKept(s: Socket, s': Socket, t: Thread)
    requires ReceiptInv(s) && BoundInv(s) && ExactInv(s) && TodoFacts(PcOf(s, t))
    requires OthersStay(s, s', t) && CountEffect(s, s', t) && |s'.counted| < TWO64
    ensures ExactInv(s')
  {
    CountedGrows(s, s', t);
    assert BoundFacts(s, PcOf(s, t)) && ExactFacts(s, PcOf(s, t));
    forall u: Thread
      ensures ExactFacts(s', PcOf(s', u))
    {
      assert BoundFacts(s, PcOf(s, u)) && ExactFacts(s, PcOf(s, u));
    }
  }

  // ---------------------------------------------------------------- receives that do not overlap

  /** At most one thread is between the load and the store of a counter. */
  ghost predicate ReceivesApart(s: Socket, c: Cell) {
    forall t: Thread, u: Thread :: LoadedOn(PcOf(s, t), c) && LoadedOn(PcOf(s, u), c) ==> t == u
  }

  /** The receives stay apart all along an interleaving. */
  ghost predicate ApartAllAlong(st: SocketType, acts: seq<Action>, c: Cell) {
    forall n :: 0 <= n <= |acts| && Interleaved(st, acts[..n]).Some? ==>
      ReceivesApart(Interleaved(st, acts[..n]).value, c)
  }

  lemma ApartBefore(st: SocketType, acts: seq<Action>, c: Cell)
    requires acts != [] && Interleaved(st, acts).Some? && ApartAllAlong(st, acts, c)
    ensures var before := acts[..|acts| - 1];
            && ApartAllAlong(st, before, c)
            && Interleaved(st, before).Some? && ReceivesApart(Interleaved(st, before).value, c)
  {
    var before := acts[..|acts| - 1];
    forall n | 0 <= n <= |before| && Interleaved(st, before[..n]).Some?
      ensures ReceivesApart(Interleaved(st, before[..n]).value, c)
    {
      assert before[..n] == acts[..n];
    }
    assert before[..|before|] == before;
  }

  ghost predicate FreshStamps(s: Socket) {
    !s.overlapped && forall t: Thread :: LoadedCount(PcOf(s, t)) ==> PcOf(s, t).stamp == |s.counted|
  }

  lemma FreshKept(s: Socket, s': Socket, t: Thread)
    requires FreshStamps(s) && ReceivesApart(s, MessagesReceived) && ReceiptInv(s) && TodoFacts(PcOf(s, t))
    requires OthersStay(s, s', t) && CountEffect(s, s', t)
    ensures FreshStamps(s')
  {
    CountedGrows(s, s', t);
    assert LoadedCount(PcOf(s, t)) ==> PcOf(s, t).stamp == |s.counted|;
    forall u: Thread | LoadedCount(PcOf(s', u))
      ensures PcOf(s', u).stamp == |s'.counted|
    {
      if u != t {
        assert PcOf(s', u) == PcOf(s, u);
        assert !LoadedCount(PcOf(s, t));
      }
    }
  }

  // ---------------------------------------------------------------- every interleaving

  lemma {:induction false} InterleavingsKeepReceived(st: SocketType, acts: seq<Action>)
    requires Interleaved(st, acts).Some?
    ensures var s := Interleaved(st, acts).value;
            ReceiptInv(s) && BoundInv(s) && (|s.counted| < TWO64 ==> ExactInv(s))
  {
    if acts == [] {
      assert forall t: Thread :: PcOf(Initial(), t) == Idle;
    } else {
      var before, a := acts[..|acts| - 1], acts[|acts| - 1];
      InterleavingsKeepReceived(st, before);
      InterleavingsKeepSent(st, before);
      InterleavingsKeepLockAndClose(st, before);
      var s, s' := Interleaved(st, before).value, Interleaved(st, acts).value;
      NextEffect(s, st, a.t, a.move);
      NextCounts(s, st, a.t, a.move);
      StepKeepsReceived(s, s', st, a.t);
    }
  }

  lemma StepKeepsReceived(s: Socket, s': Socket, st: SocketType, t: Thread)
    requires CloseInv(s, st) && SentInv(s) && OthersStay(s, s', t) && CountEffect(s, s', t)
    requires ReceiptInv(s) && BoundInv(s) && (|s.counted| < TWO64 ==> ExactInv(s))
    ensures ReceiptInv(s') && BoundInv(s') && (|s'.counted| < TWO64 ==> ExactInv(s'))
  {
    assert TodoFacts(PcOf(s, t));
    CountedGrows(s, s', t);
    ReceiptKept(s, s', st, t);
    BoundKept(s, s', t);
    if |s'.counted| < TWO64 { ExactKept(s, s', t); }
  }

  lemma InvariantReceived(s: Socket)
    requires ReceiptInv(s) && BoundInv(s) && (|s.counted| < TWO64 ==> ExactInv(s))
    ensures s.metrics.messagesReceived <= |s.counted| <= |s.arrivals| && s.metrics.bytesReceived <= s.countedBytes
    ensures |s.counted| < TWO64 ==> (s.metrics.messagesReceived == |s.counted| <==> !s.overlapped)
  {
    SubsetOfNaturals(s.counted, |s.arrivals|);
  }

  /** In every interleaving the received counters stay within what was received; and before wraparound
      MessagesReceived is the number of counted receives exactly when no receive stored its count over one that
      another receive had stored since it loaded the counter. One lost count is never made up for. */
  lemma ReceivedCounters(st: SocketType, acts: seq<Action>)
    requires Interleaved(st, acts).Some?
    ensures var s := Interleaved(st, acts).value;
            && s.metrics.messagesReceived <= |s.counted| <= |s.arrivals|
            && s.metrics.bytesReceived <= s.countedBytes
            && (|s.counted| < TWO64 ==> (s.metrics.messagesReceived == |s.counted| <==> !s.overlapped))
  {
    InterleavingsKeepReceived(st, acts);
    InvariantReceived(Interleaved(st, acts).value);
  }

  lemma {:induction false} ApartMeansNothingLost(st: SocketType, acts: seq<Action>)
    requires Interleaved(st, acts).Some? && ApartAllAlong(st, acts, MessagesReceived)
    ensures FreshStamps(Interleaved(st, acts).value)
  {
    if acts == [] {
      assert forall t: Thread :: PcOf(Initial(), t) == Idle;
    } else {
      var before, a := acts[..|acts| - 1], acts[|acts| - 1];
      ApartBefore(st, acts, MessagesReceived);
      ApartMeansNothingLost(st, before);
      InterleavingsKeepReceived(st, before);
      InterleavingsKeepSent(st, before);
      var s, s' := Interleaved(st, before).value, Interleaved(st, acts).value;
      NextEffect(s, st, a.t, a.move);
      NextCounts(s, st, a.t, a.move);
      assert TodoFacts(PcOf(s, a.t));
      FreshKept(s, s', a.t);
    }
  }

  /** If no two receives are ever between the load and the store of their counts at once, MessagesReceived is exact. */
  lemma ReceivesApartAreCountedExactly(st: SocketType, acts: seq<Action>)
    requires Interleaved(st, acts).Some? && ApartAllAlong(st, acts, MessagesReceived)
    requires |Interleaved(st, acts).value.counted| < TWO64
    ensures Interleaved(st, acts).value.metrics.messagesReceived == |Interleaved(st, acts).value.counted|
  {
    ApartMeansNothingLost(st, acts);
    ReceivedCounters(st, acts);
  }

  /** BytesReceived is what was counted, mod 2^64, and whoever is to add to it has loaded just that. */
  ghost predicate FreshBytes(s: Socket) {
    && s.metrics.bytesReceived == s.countedBytes % TWO64
    && forall t: Thread :: LoadedOn(PcOf(s, t), BytesReceived) ==> PcOf(s, t).value == s.metrics.bytesReceived
  }

  lemma FreshBytesKept(s: Socket, s': Socket, t: Thread)
    requires FreshBytes(s) && ReceivesApart(s, BytesReceived) && OthersStay(s, s', t) && CountEffect(s, s', t)
    ensures FreshBytes(s')
  {
    if Store(s, s', t) && LoadedOn(PcOf(s, t), BytesReceived) {
      assert PcOf(s, t).value == s.countedBytes % TWO64;
      AddMod(s.countedBytes, 0, PcOf(s, t).todo[0].amount);
    }
    forall u: Thread | LoadedOn(PcOf(s', u), BytesReceived)
      ensures PcOf(s', u).value == s'.metrics.bytesReceived
    {
      if u != t { assert PcOf(s', u) == PcOf(s, u); }
    }
  }

  /** If no two receives are ever between the load and the store of BytesReceived at once, it is exact mod 2^64. */
  lemma {:induction false} BytesApartAreCountedExactly(st: SocketType, acts: seq<Action>)
    requires Interleaved(st, acts).Some? && ApartAllAlong(st, acts, BytesReceived)
    ensures FreshBytes(Interleaved(st, acts).value)
  {
    if acts == [] {
      assert forall t: Thread :: PcOf(Initial(), t) == Idle;
    } else {
      var before, a := acts[..|acts| - 1], acts[|acts| - 1];
      ApartBefore(st, acts, BytesReceived);
      BytesApartAreCountedExactly(st, before);
      var s, s' := Interleaved(st, before).value, Interleaved(st, acts).value;
      NextEffect(s, st, a.t, a.move);
      NextCounts(s, st, a.t, a.move);
      FreshBytesKept(s, s', a.t);
    }
  }

  // ---------------------------------------------------------------- how a count is lost

  /** Once two receives are both between load and store, letting both store loses a count. */
  lemma OverlapLosesACount(st: SocketType, acts: seq<Action>, t: Thread, u: Thread)
    requires Interleaved(st, acts).Some? && t != u
    requires LoadedCount(PcOf(Interleaved(st, acts).value, t)) && LoadedCount(PcOf(Interleaved(st, acts).value, u))
    ensures var after := Interleaved(st, acts + [Action(t, Advance)] + [Action(u, Advance)]);
            && after.Some? && after.value.overlapped
            && |after.value.counted| == |Interleaved(st, acts).value.counted| + 2
            && (|after.value.counted| < TWO64 ==> after.value.metrics.messagesReceived < |after.value.counted|)
  {
    var s := Interleaved(st, acts).value;
    var one := acts + [Action(t, Advance)];
    OneMoreAction(st, acts, Action(t, Advance));
    var s1 := StoreStep(s, t, PcOf(s, t));
    assert Interleaved(st, one) == Some(s1) && PcOf(s1, u) == PcOf(s, u);
    OneMoreAction(st, one, Action(u, Advance));
    InterleavingsKeepReceived(st, acts);
    assert BoundFacts(s, PcOf(s, u));
    assert CarriesCount(PcOf(s, t));
    assert |s1.counted| == |s.counted| + 1;
    assert PcOf(s, u).id !in s1.counted by {
      assert CarriesCount(PcOf(s, u)) && PcOf(s, t).id != PcOf(s, u).id;
    }
    ReceivedCounters(st, one + [Action(u, Advance)]);
  }

  /** An open socket that no writer holds lets any idle thread into the wrapped receive. */
  lemma ReceiveUpToTheCall(st: SocketType, acts: seq<Action>, t: Thread)
    returns (more: seq<Action>)
    requires Interleaved(st, acts).Some?
    requires var s := Interleaved(st, acts).value; s.writer.None? && !s.closed && PcOf(s, t).Idle?
    ensures Interleaved(st, more).Some?
    ensures var s, s' := Interleaved(st, acts).value, Interleaved(st, more).value;
            && s'.writer.None? && !s'.closed && s'.counted == s.counted
            && PcOf(s', t) == Calling(Recv, WRecv) && OthersStay(s, s', t)
  {
    var s := Interleaved(st, acts).value;
    var s0 := At(s, t, Waiting(Recv));
    more := Moved(st, acts, t, Begin(Recv), s0);
    var s1 := At(s0.(readers := s0.readers + {t}), t, Holding(Recv));
    more := Moved(st, more, t, Advance, s1);
    var s2 := At(s1, t, Passed(Recv));
    more := Moved(st, more, t, Advance, s2);
    more := Moved(st, more, t, Advance, At(s2.(started := s2.started + [WRecv]), t, Calling(Recv, WRecv)));
  }

  /** And when an empty message arrives, up to the load of its count. */
  lemma ReceiveUpToTheLoad(st: SocketType, acts: seq<Action>, t: Thread)
    returns (more: seq<Action>)
    requires Interleaved(st, acts).Some?
    requires var s := Interleaved(st, acts).value; s.writer.None? && !s.closed && PcOf(s, t).Idle?
    ensures Interleaved(st, more).Some?
    ensures var s, s' := Interleaved(st, acts).value, Interleaved(st, more).value;
            && s'.writer.None? && !s'.closed && s'.counted == s.counted
            && LoadedCount(PcOf(s', t)) && OthersStay(s, s', t)
  {
    more := ReceiveUpToTheCall(st, acts, t);
    var s := Interleaved(st, more).value;
    var s1 := Returned(s, t, Recv, WRecv, true, [[]]);
    more := Moved(st, more, t, Return(true, [[]]), s1);
    more := Moved(st, more, t, Advance, LoadStep(s1, t, Recv, Increments(Recv, [[]]), |s.arrivals|));
  }

  /** So MessagesReceived can fall short: on every type of socket, some interleaving of two receives counts both
      but shows fewer. */
  lemma MessagesReceivedCanFallShort(st: SocketType)
    ensures exists acts: seq<Action> ::
              var s := Interleaved(st, acts);
              s.Some? && |s.value.counted| == 2 && s.value.metrics.messagesReceived < 2
  {
    var one := ReceiveUpToTheLoad(st, [], 0);
    var two := ReceiveUpToTheLoad(st, one, 1);
    assert LoadedCount(PcOf(Interleaved(st, two).value, 0));
    OverlapLosesACount(st, two, 0, 1);
    var all := two + [Action(0, Advance)] + [Action(1, Advance)];
    assert Interleaved(st, all).Some? && |Interleaved(st, all).value.counted| == 2;
  }
}
