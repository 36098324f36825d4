/** The socket and transport objects of backend.go and qzmq.go. Every method is one critical section: what happens when
    socket methods interleave is the subject of the socket machine. */
module Transport {
  import opened Bytes
  import opened Options
  import opened SocketMachine
  import opened SocketCounters

  // ---------------------------------------------------------------- counters

  /** One message of these parts more sent, mod 2^64. */
  function AfterSend(m: Metrics, parts: seq<Bytes>): Metrics {
    m.(messagesSent := (m.messagesSent + 1) % TWO64, bytesSent := (m.bytesSent + TotalLength(parts)) % TWO64)
  }

  /** One message of these frames more received, mod 2^64. */
  function AfterReceive(m: Metrics, frames: seq<Bytes>): Metrics {
    m.(messagesReceived := (m.messagesReceived + 1) % TWO64,
       bytesReceived := (m.bytesReceived + TotalLength(frames)) % TWO64)
  }

  lemma {:induction false} TotalLengthAppend(parts: seq<Bytes>, part: Bytes)
    ensures TotalLength(parts + [part]) == TotalLength(parts) + |part|
  {
    if parts == [] {
      assert [] + [part] == [part] && [part][1..] == [];
    } else {
      assert (parts + [part])[1..] == parts[1..] + [part];
      TotalLengthAppend(parts[1..], part);
    }
  }

  lemma TotalLengthOfOne(part: Bytes)
    ensures TotalLength([part]) == |part|
  {
    assert [part][1..] == [];
  }

  // ---------------------------------------------------------------- the socket

  class ZmqSocket {
    const socketType: int
    var closed: bool
    var cancelled: bool
    var metrics: Metrics
    /** The calls made on the wrapped socket. */
    ghost var wrapped: seq<Wrapped>

    /** Open, not cancelled, with zero counters and no wrapped call made. */
    ghost predicate IsNew()
      reads this
    {
      !closed && !cancelled && wrapped == [] && metrics == Metrics(0, 0, 0, 0)
    }

    constructor (socketType: int)
      ensures this.socketType == socketType && IsNew()
    {
      this.socketType := socketType;
      closed, cancelled, metrics, wrapped := false, false, Metrics(0, 0, 0, 0), [];
    }

    /** `+=` on one counter, which wraps at 2^64. */
    method Add(c: Cell, amount: nat)
      modifies `metrics
      ensures metrics == Written(old(metrics), c, (Read(old(metrics), c) + amount) % TWO64)
    {
      metrics := Written(metrics, c, (Read(metrics, c) + amount) % TWO64);
    }

    method AddLengths(c: Cell, parts: seq<Bytes>)
      modifies `metrics
      ensures metrics == Written(old(metrics), c, (Read(old(metrics), c) + TotalLength(parts)) % TWO64)
    {
      for i := 0 to |parts|
        invariant metrics == Written(old(metrics), c, (Read(old(metrics), c) + TotalLength(parts[..i])) % TWO64)
      {
        TotalLengthAppend(parts[..i], parts[i]);
        assert parts[..i + 1] == parts[..i] + [parts[i]];
        AddMod(Read(old(metrics), c), TotalLength(parts[..i]), |parts[i]|);
        Add(c, |parts[i]|);
      }
      assert parts[..|parts|] == parts;
    }

    method Bind(wrappedOk: bool) returns (ok: bool)
      modifies `wrapped
      ensures ok == (!closed && wrappedOk)
      ensures wrapped == old(wrapped) + if closed then [] else [WListen]
    {
      if closed { return false; }
      wrapped := wrapped + [WListen];
      return wrappedOk;
    }

    method Connect(wrappedOk: bool) returns (ok: bool)
      modifies `wrapped
      ensures ok == (!closed && wrappedOk)
      ensures wrapped == old(wrapped) + if closed then [] else [WDial]
    {
      if closed { return false; }
      wrapped := wrapped + [WDial];
      return wrappedOk;
    }

    /** `wrappedOk` is what the wrapped send returns. */
    method Send(data: Bytes, wrappedOk: bool) returns (ok: bool)
      modifies `metrics, `wrapped
      ensures ok == (!closed && wrappedOk)
      ensures wrapped == old(wrapped) + if closed then [] else [WSend]
      ensures metrics == if ok then AfterSend(old(metrics), [data]) else old(metrics)
    {
      if closed { return false; }
      wrapped := wrapped + [WSend];
      if !wrappedOk { return false; }
      Add(MessagesSent, 1);
      Add(BytesSent, |data|);
      TotalLengthOfOne(data);
      return true;
    }

    method SendMultipart(parts: seq<Bytes>, wrappedOk: bool) returns (ok: bool)
      modifies `metrics, `wrapped
      ensures ok == (!closed && wrappedOk)
      ensures wrapped == old(wrapped) + if closed then [] else [WSend]
      ensures metrics == if ok then AfterSend(old(metrics), parts) else old(metrics)
    {
      if closed { return false; }
      wrapped := wrapped + [WSend];
      if !wrappedOk { return false; }
      Add(MessagesSent, 1);
      AddLengths(BytesSent, parts);
      return true;
    }

    /** `message` is what the wrapped receive returns, if it succeeds. An empty message is not counted. */
    method Recv(message: Option<seq<Bytes>>) returns (data: Option<Bytes>)
      modifies `metrics, `wrapped
      ensures data == if closed || message.None? then None else if message.value == [] then Some([])
                      else Some(message.value[0])
      ensures wrapped == old(wrapped) + if closed then [] else [WRecv]
      ensures metrics == if data.Some? && message.value != [] then AfterReceive(old(metrics), [data.value])
                         else old(metrics)
    {
      if closed { return None; }
      wrapped := wrapped + [WRecv];
      if message.None? { return None; }
      if |message.value| == 0 { return Some([]); }
      var first := message.value[0];
      Add(MessagesReceived, 1);
      Add(BytesReceived, |first|);
      TotalLengthOfOne(first);
      return Some(first);
    }

    method RecvMultipart(message: Option<seq<Bytes>>) returns (frames: Option<seq<Bytes>>)
      modifies `metrics, `wrapped
      ensures frames == if closed then None else message
      ensures wrapped == old(wrapped) + if closed then [] else [WRecv]
      ensures metrics == if frames.Some? then AfterReceive(old(metrics), frames.value) else old(metrics)
    {
      if closed { return None; }
      wrapped := wrapped + [WRecv];
      if message.None? { return None; }
      Add(MessagesReceived, 1);
      AddLengths(BytesReceived, message.value);
      return message;
    }

    /** `sent` is what goes to the wrapped send: an XSUB socket (type 7) sends 1 and the topic, a SUB socket (type 5)
        sets an option, and any other type refuses. */
    method Subscribe(topic: Bytes, wrappedOk: bool) returns (ok: bool, sent: Option<Bytes>)
      modifies `wrapped
      ensures ok == (!closed && socketType in {5, 7} && wrappedOk)
      ensures sent == if !closed && socketType == 7 then Some([1] + topic) else None
      ensures wrapped == old(wrapped) + if closed || socketType !in {5, 7} then []
                                        else if socketType == 7 then [WSend] else [WSetOption]
    {
      sent := None;
      if closed { return false, sent; }
      if socketType != SUB && socketType != XSUB { return false, sent; }
      if socketType == XSUB {
        sent := Some([1] + topic);
        wrapped := wrapped + [WSend];
        return wrappedOk, sent;
      }
      wrapped := wrapped + [WSetOption];
      return wrappedOk, sent;
    }

    /** Likewise, with 0 before the topic. */
    method Unsubscribe(topic: Bytes, wrappedOk: bool) returns (ok: bool, sent: Option<Bytes>)
      modifies `wrapped
      ensures ok == (!closed && socketType in {5, 7} && wrappedOk)
      ensures sent == if !closed && socketType == 7 then Some([0] + topic) else None
      ensures wrapped == old(wrapped) + if closed || socketType !in {5, 7} then []
                                        else if socketType == 7 then [WSend] else [WSetOption]
    {
      sent := None;
      if closed { return false, sent; }
      if socketType != SUB && socketType != XSUB { return false, sent; }
      if socketType == XSUB {
        sent := Some([0] + topic);
        wrapped := wrapped + [WSend];
        return wrappedOk, sent;
      }
      wrapped := wrapped + [WSetOption];
      return wrappedOk, sent;
    }

    /** Two names reach the wrapped socket, with an integer value; four are accepted and ignored. */
    method SetOption(name: string, isInt: bool, wrappedOk: bool) returns (ok: bool)
      modifies `wrapped
      ensures wrapped == old(wrapped) + if !closed && name in {"sndhwm", "rcvhwm"} && isInt then [WSetOption] else []
      ensures ok <==> && !closed
                      && if name in {"sndhwm", "rcvhwm"} then isInt && wrappedOk
                         else name in {"linger", "identity", "rcvtimeo", "sndtimeo"}
    {
      if closed { return false; }
      if name == "sndhwm" || name == "rcvhwm" {
        if isInt {
          wrapped := wrapped + [WSetOption];
          return wrappedOk;
        }
        return false;
      }
      return name == "linger" || name == "identity" || name == "rcvtimeo" || name == "sndtimeo";
    }

    /** Closing once more does nothing but cancel the context again. */
    method Close()
      modifies `closed, `cancelled, `wrapped
      ensures closed && cancelled
      ensures wrapped == old(wrapped) + if old(closed) then [] else [WClose]
    {
      cancelled := true;
      if closed { return; }
      closed := true;
      wrapped := wrapped + [WClose];
    }

    method GetMetrics() returns (copy: Metrics)
      ensures copy == metrics
    {
      copy := metrics;
    }
  }

  // ---------------------------------------------------------------- the transport

  datatype OptionValue = BackendOption(backend: int) | CountOption(count: nat) | OtherOption(text: string)

  class Transport {
    const opts: Options
    const backend: int
    var sockets: map<nat, ZmqSocket>
    var options: map<string, OptionValue>
    var closed: bool
    /** Every socket that NewSocket returned, in order. */
    ghost var made: seq<ZmqSocket>

    /** An open transport tracks exactly the sockets it made, each under its own address; a closed one tracks none,
        and all it ever made are closed. */
    ghost predicate Valid()
      reads this, made
    {
      && backend == BACKEND_GO
      && (!closed ==> (forall k :: k in made ==> k in sockets.Values)
                      && (forall k :: k in sockets.Values ==> k in made) && |sockets| == |made|)
      && (closed ==> sockets == map[] && forall k :: k in made ==> k.closed)
    }

    constructor (opts: Options)
      ensures Valid() && !closed && made == [] && sockets == map[] && this.opts == opts && options == map[]
    {
      this.opts, backend := opts, BACKEND_GO;
      sockets, options, closed, made := map[], map[], false, [];
    }

    /** `address` is where the runtime puts the new socket: where no live object, so no tracked socket, is.
        `created` is whether the ZeroMQ library made a socket. */
    method NewSocket(socketType: int, address: nat, created: bool) returns (socket: ZmqSocket?)
      requires Valid() && address !in sockets
      modifies this
      ensures Valid() && closed == old(closed)
      ensures socket != null <==> !old(closed) && 0 <= socketType <= 11 && created
      ensures socket != null ==>
                && fresh(socket) && socket.socketType == socketType && socket.IsNew()
                && made == old(made) + [socket]
                && sockets == old(sockets)[address := socket]
      ensures socket == null ==> made == old(made) && sockets == old(sockets)
      ensures options == old(options)
    {
      if closed { return null; }
      if socketType < 0 || 11 < socketType || !created { return null; }
      socket := new ZmqSocket(socketType);
      sockets := sockets[address := socket];
      made := made + [socket];
      assert address in sockets && sockets[address] == socket;
      forall k | k in old(sockets).Values
        ensures k in sockets.Values
      {
        var a :| a in old(sockets) && old(sockets)[a] == k;
        assert sockets[a] == k;
      }
    }

    /** What callers read under a name: two names are built in and hide what is stored under them. */
    function Reads(name: string): Option<OptionValue>
      reads this
    {
      if name == "backend" then Some(BackendOption(backend))
      else if name == "socket_count" then Some(CountOption(|sockets|))
      else if name in options then Some(options[name])
      else None
    }

    /** Callers then read the new value under this name, unless it is built in, and under any other what they did. */
    method SetOption(name: string, value: OptionValue)
      requires Valid()
      modifies `options
      ensures Valid() && options == old(options)[name := value]
      ensures forall n :: Reads(n) == if n == name && n != "backend" && n != "socket_count" then Some(value)
                                      else old(Reads(n))
    {
      options := options[name := value];
    }

    /** `socket_count` is the number of NewSocket calls that succeeded, whatever callers closed themselves, and zero
        once the transport is closed; two names cannot be overridden. */
    method GetOption(name: string) returns (value: Option<OptionValue>)
      requires Valid()
      ensures value == Reads(name)
      ensures name == "socket_count" ==> value == Some(CountOption(if closed then 0 else |made|))
      ensures name == "backend" ==> value == Some(BackendOption(BACKEND_GO))
    {
      if name == "backend" { return Some(BackendOption(backend)); }
      if name == "socket_count" { return Some(CountOption(|sockets|)); }
      if name in options { return Some(options[name]); }
      return None;
    }

    /** A caller closes a socket it was given; the transport is none the wiser. */
    method CallerCloses(socket: ZmqSocket)
      requires Valid() && socket in made
      modifies socket
      ensures Valid() && socket.closed
    {
      socket.Close();
    }

    /** After it every socket ever made is closed, each wrapped socket having been closed once if it was still open;
        it leaves the open ones' metrics alone; a second call changes nothing. */
    method Close()
      requires Valid()
      modifies this, made
      ensures Valid() && closed && made == old(made) && sockets == map[] && options == old(options)
      ensures forall k :: k in made ==>
                && k.closed && k.metrics == old(k.metrics)
                && k.wrapped == old(k.wrapped) + if old(k.closed) then [] else [WClose]
    {
      if closed { return; }
      var remaining := sockets.Keys;
      while remaining != {}
        invariant remaining <= sockets.Keys
        invariant sockets == old(sockets) && made == old(made) && options == old(options) && closed == old(closed)
        invariant forall k :: k in made ==> k.metrics == old(k.metrics) && (old(k.closed) ==> k.closed)
        invariant forall k :: k in made ==>
                    k.wrapped == old(k.wrapped) + if k.closed && !old(k.closed) then [WClose] else []
        invariant forall a :: a in sockets.Keys - remaining ==> sockets[a].closed
        decreases remaining
      {
        var a :| a in remaining;
        assert sockets[a] in sockets.Values;
        sockets[a].Close();
        remaining := remaining - {a};
      }
      forall k | k in made
        ensures k.closed
      {
        var a :| a in sockets && sockets[a] == k;
      }
      sockets := map[];
      closed := true;
    }
  }

  /** `New`: usable options and a known backend give a transport with no sockets, its zero rotation limits filled. */
  method New(o: Options) returns (t: Transport?)
    ensures t != null <==> Acceptable(o) && (o.backend == BACKEND_AUTO || o.backend == BACKEND_GO)
    ensures t != null ==> fresh(t) && t.Valid() && !t.closed && t.made == []
                          && t.opts == o.(rotation := Defaulted(o.rotation))
  {
    var p := new OptionsRef(o);
    var ok := ValidateOptions(p);
    if !ok { return null; }
    var backend := p.opts.backend;
    if backend == BACKEND_AUTO { backend := BACKEND_GO; }
    if backend != BACKEND_GO { return null; }
    t := new Transport(p.opts);
  }
}
