/** Any number of threads inside the methods of one socket (backend.go), one step of one thread at a time. */
module SocketMachine {
  import opened Bytes

  type Thread = nat

  /** Go's `iota` code of a socket type; the methods distinguish two of them. */
  type SocketType = int

  const SUB: SocketType := 5
  const XSUB: SocketType := 7

  /** A method with the arguments that matter: `hwm` says whether SetOption names a high-water mark with an int. */
  datatype Op =
    | Bind | Connect
    | Send(data: Bytes) | SendMultipart(parts: seq<Bytes>)
    | Recv | RecvMultipart
    | Subscribe | Unsubscribe
    | SetOption(hwm: bool) | GetOption
    | Close | GetMetrics

  /** The calls on the wrapped ZeroMQ socket. */
  datatype Wrapped = WListen | WDial | WSend | WRecv | WSetOption | WClose

  /** Methods that take the write lock; the others take the read lock. */
  predicate Exclusive(op: Op) {
    !op.Recv? && !op.RecvMultipart? && !op.GetOption? && !op.GetMetrics?
  }

  /** XSUB sends its subscriptions as messages, SUB sets an option, and the other types refuse. */
  function SubscriptionCall(st: SocketType): Option<Wrapped> {
    if st != SUB && st != XSUB then None else if st == XSUB then Some(WSend) else Some(WSetOption)
  }

  function WrappedCall(st: SocketType, op: Op): Option<Wrapped> {
    match op
    case Bind => Some(WListen)
    case Connect => Some(WDial)
    case Send(_) => Some(WSend)
    case SendMultipart(_) => Some(WSend)
    case Recv => Some(WRecv)
    case RecvMultipart => Some(WRecv)
    case Subscribe => SubscriptionCall(st)
    case Unsubscribe => SubscriptionCall(st)
    case SetOption(hwm) => if hwm then Some(WSetOption) else None
    case GetOption => None
    case Close => Some(WClose)
    case GetMetrics => None
  }

  // ---------------------------------------------------------------- counters

  datatype Cell = MessagesSent | BytesSent | MessagesReceived | BytesReceived

  datatype Metrics = Metrics(messagesSent: uint64, bytesSent: uint64, messagesReceived: uint64, bytesReceived: uint64)

  function Read(m: Metrics, c: Cell): uint64 {
    match c
    case MessagesSent => m.messagesSent
    case BytesSent => m.bytesSent
    case MessagesReceived => m.messagesReceived
    case BytesReceived => m.bytesReceived
  }

  function Written(m: Metrics, c: Cell, v: uint64): Metrics {
    match c
    case MessagesSent => m.(messagesSent := v)
    case BytesSent => m.(bytesSent := v)
    case MessagesReceived => m.(messagesReceived := v)
    case BytesReceived => m.(bytesReceived := v)
  }

  datatype Increment = Increment(cell: Cell, amount: nat)

  function PerPart(c: Cell, parts: seq<Bytes>): seq<Increment> {
    seq(|parts|, i requires 0 <= i < |parts| => Increment(c, |parts[i]|))
  }

  /** The counter updates after a wrapped call that succeeded (and returned these frames), in order. */
  function Increments(op: Op, frames: seq<Bytes>): seq<Increment> {
    match op
    case Send(data) => [Increment(MessagesSent, 1), Increment(BytesSent, |data|)]
    case SendMultipart(parts) => [Increment(MessagesSent, 1)] + PerPart(BytesSent, parts)
    case Recv =>
      if frames == [] then [] else [Increment(MessagesReceived, 1), Increment(BytesReceived, |frames[0]|)]
    case RecvMultipart => [Increment(MessagesReceived, 1)] + PerPart(BytesReceived, frames)
    case _ => []
  }

  // ---------------------------------------------------------------- threads

  /** Where a thread is. `id` numbers its successful receive; `stamp` is how many receives had been counted when it
      loaded the counter. Both are history only: no step depends on them. */
  datatype Pc =
    | Idle
    | Cancelling
    | Waiting(op: Op)
    | Holding(op: Op)
    | Passed(op: Op)
    | Calling(op: Op, w: Wrapped)
    | Adding(op: Op, todo: seq<Increment>, id: nat)
    | Loaded(op: Op, todo: seq<Increment>, value: uint64, id: nat, stamp: nat)
    | Copying(got: seq<uint64>)
    | Leaving(op: Op)

  /** A wrapped receive that succeeded. */
  datatype Arrival = Arrival(op: Op, frames: seq<Bytes>)

  datatype Socket = Socket(
    threads: map<Thread, Pc>, writer: Option<Thread>, readers: set<Thread>,
    closed: bool, cancelled: bool, metrics: Metrics,
    // history: wrapped calls in the order they started, the parts of every successful send, what every successful
    // wrapped receive returned to which method, which of them were counted, with how many bytes, and whether a count
    // was ever stored over one that another receive stored since this one loaded the counter
    started: seq<Wrapped>, sent: seq<seq<Bytes>>, arrivals: seq<Arrival>,
    counted: set<nat>, countedBytes: nat, overlapped: bool)

  function Initial(): Socket {
    Socket(map[], None, {}, false, false, Metrics(0, 0, 0, 0), [], [], [], {}, 0, false)
  }

  function PcOf(s: Socket, t: Thread): Pc {
    if t in s.threads then s.threads[t] else Idle
  }

  function At(s: Socket, t: Thread, pc: Pc): Socket {
    s.(threads := s.threads[t := pc])
  }

  /** A thread's move: a call of a method, its next step, or the return of the wrapped call it is in. */
  datatype Move = Begin(op: Op) | Advance | Return(ok: bool, frames: seq<Bytes>)

  const CELLS := [MessagesSent, BytesSent, MessagesReceived, BytesReceived]

  /** Lock and RLock: the write lock needs the lock free, a read lock needs no writer. */
  function Acquired(s: Socket, t: Thread, op: Op): Option<Socket> {
    if s.writer.Some? || (Exclusive(op) && s.readers != {}) then None
    else if Exclusive(op) then Some(At(s.(writer := Some(t)), t, Holding(op)))
    else Some(At(s.(readers := s.readers + {t}), t, Holding(op)))
  }

  /** The deferred unlock. */
  function Released(s: Socket, t: Thread, op: Op): Socket {
    if Exclusive(op) then At(s.(writer := None), t, Idle) else At(s.(readers := s.readers - {t}), t, Idle)
  }

  /** The check of the closed flag, which Close sets when it finds it unset and GetMetrics does not make. */
  function Checked(s: Socket, t: Thread, op: Op): Socket {
    if op.GetMetrics? then At(s, t, Copying([]))
    else if s.closed then At(s, t, Leaving(op))
    else if op.Close? then At(s.(closed := true), t, Passed(op))
    else At(s, t, Passed(op))
  }

  function Called(s: Socket, st: SocketType, t: Thread, op: Op): Socket {
    match WrappedCall(st, op)
    case None => At(s, t, Leaving(op))
    case Some(w) => At(s.(started := s.started + [w]), t, Calling(op, w))
  }

  function SentParts(op: Op): seq<seq<Bytes>> {
    match op case Send(data) => [[data]] case SendMultipart(parts) => [parts] case _ => []
  }

  function Returned(s: Socket, t: Thread, op: Op, w: Wrapped, ok: bool, frames: seq<Bytes>): Socket {
    if !ok then At(s, t, Leaving(op))
    else
      At(s.(sent := s.sent + SentParts(op),
            arrivals := if w.WRecv? then s.arrivals + [Arrival(op, frames)] else s.arrivals),
         t, Adding(op, Increments(op, frames), |s.arrivals|))
  }

  /** The load of an unsynchronised `+=`. */
  function LoadStep(s: Socket, t: Thread, op: Op, todo: seq<Increment>, id: nat): Socket {
    if todo == [] then At(s, t, Leaving(op))
    else At(s, t, Loaded(op, todo, Read(s.metrics, todo[0].cell), id, |s.counted|))
  }

  /** The store of an unsynchronised `+=`, which wraps at 2^64. */
  function StoreStep(s: Socket, t: Thread, pc: Pc): Socket
    requires pc.Loaded? && pc.todo != []
  {
    var cell, amount := pc.todo[0].cell, pc.todo[0].amount;
    var s1 := s.(metrics := Written(s.metrics, cell, (pc.value + amount) % TWO64));
    var s2 := match cell
              case MessagesReceived =>
                s1.(counted := s.counted + {pc.id}, overlapped := s.overlapped || pc.stamp != |s.counted|)
              case BytesReceived => s1.(countedBytes := s.countedBytes + amount)
              case _ => s1;
    At(s2, t, Adding(pc.op, pc.todo[1..], pc.id))
  }

  /** The copy of the metrics, one counter at a time. */
  function CopyStep(s: Socket, t: Thread, got: seq<uint64>): Socket {
    if |got| < 4 then At(s, t, Copying(got + [Read(s.metrics, CELLS[|got|])])) else At(s, t, Leaving(GetMetrics))
  }

  /** The socket after a move of thread `t`, if the thread can make it. */
  function Next(s: Socket, st: SocketType, t: Thread, move: Move): Option<Socket> {
    match (PcOf(s, t), move)
    case (Idle, Begin(op)) => Some(At(s, t, if op.Close? then Cancelling else Waiting(op)))
    case (Cancelling, Advance) => Some(At(s.(cancelled := true), t, Waiting(Close)))
    case (Waiting(op), Advance) => Acquired(s, t, op)
    case (Holding(op), Advance) => Some(Checked(s, t, op))
    case (Passed(op), Advance) => Some(Called(s, st, t, op))
    case (Calling(op, w), Return(ok, frames)) => Some(Returned(s, t, op, w, ok, frames))
    case (Adding(op, todo, id), Advance) => Some(LoadStep(s, t, op, todo, id))
    case (Loaded(op, todo, value, id, stamp), Advance) =>
      if todo == [] then None else Some(StoreStep(s, t, PcOf(s, t)))
    case (Copying(got), Advance) => Some(CopyStep(s, t, got))
    case (Leaving(op), Advance) => Some(Released(s, t, op))
    case _ => None
  }

  datatype Action = Action(t: Thread, move: Move)

  /** The socket after an interleaving, if every action in it could be taken. */
  function Interleaved(st: SocketType, acts: seq<Action>): Option<Socket> {
    if acts == [] then Some(Initial())
    else
      match Interleaved(st, acts[..|acts| - 1])
      case None => None
      case Some(s) => Next(s, st, acts[|acts| - 1].t, acts[|acts| - 1].move)
  }
}
