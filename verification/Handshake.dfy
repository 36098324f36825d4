/** What each call on a client connection does to it (connection.go), and the runs such calls make. */
module Handshake {
  import opened Bytes
  import opened Options
  import opened HelloCodec
  import opened Primitives
  import opened Kem
  import opened KeySchedule

  const PROTOCOL_VERSION: byte := 1
  const DEFAULT_STREAM_ID: uint32 := 1

  datatype State = AtInit | AtClientHello | AtServerHello | AtClientKey | AtEstablished | AtClosed

  /** What a connection works with: the libraries, its options, and the parser of ServerHello messages. */
  datatype Env = Env(p: Primitives, opts: Options, parser: Bytes -> Option<ServerHello>)

  /** The fields of a connection; `None` is Go's nil. */
  datatype Conn = Conn(
    state: State, clientRandom: Bytes, serverRandom: Bytes, transcript: Bytes, sessionID: Bytes,
    kem: Option<Kem>, localKEMPK: Option<Bytes>, localKEMSK: Option<Bytes>, remoteKEMPK: Option<Bytes>,
    clientAEAD: Option<Aead>, serverAEAD: Option<Aead>, keys: Option<KeySet>, sharedSecret: Bytes,
    lastKeyUpdate: int, messageCount: uint64, byteCount: uint64, streamID: uint32, localSignKey: Option<Bytes>)

  function NewConn(now: int): Conn {
    Conn(AtInit, [], [], [], [], None, None, None, None, None, None, None, [], now, 0, 0, DEFAULT_STREAM_ID, None)
  }

  // ---------------------------------------------------------------- ClientHello

  function HelloMessage(env: Env, c: Conn): ClientHello {
    ClientHello(PROTOCOL_VERSION, c.clientRandom, env.opts.suite, c.sessionID,
                (if env.opts.mode == MODE_PQ_ONLY then [Extension(EXT_PQ_ONLY, [1])] else [])
                + (if c.localKEMPK.Some? then [Extension(EXT_KEY_SHARE, c.localKEMPK.value)] else []))
  }

  function HelloSent(env: Env, c: Conn): (Conn, Outcome<Bytes>) {
    var data := ClientHelloBytes(HelloMessage(env, c));
    (c.(transcript := c.transcript + data, state := AtClientHello), Ok(data))
  }

  function ClientHelloStep(env: Env, c: Conn, rng: Rng): (Conn, Outcome<Bytes>) {
    if c.state != AtInit then (c, Error)
    else
      var c1 := c.(clientRandom := Drawn(rng, 0, 32));
      if !rng(0).ok then (c1, Error)
      else
        match GetKem(env.opts.suite.kem)
        case None => (c1.(kem := None), Error)
        case Some(k) =>
          var c2 := c1.(kem := Some(k));
          if env.opts.mode == MODE_PQ_ONLY then HelloSent(env, c2)
          else
            match Generate(env.p, k, rng, 1).0
            case Panic => (c2, Panic)
            case Error => (c2.(localKEMPK := None, localKEMSK := None), Error)
            case Ok(pair) => HelloSent(env, c2.(localKEMPK := Some(pair.pk), localKEMSK := Some(pair.sk)))
  }

  // ---------------------------------------------------------------- ServerHello

  /** A certificate is verified only if there is a signer, a certificate and a signature. */
  predicate ChecksCertificate(env: Env, m: ServerHello) {
    KnownSigner(env.opts.suite.sign) && |m.certificate| > 0 && |m.signature| > 0
  }

  function ServerHelloStep(env: Env, c: Conn, data: Bytes): (Conn, Outcome<()>) {
    if c.state != AtClientHello then (c, Error)
    else
      match env.parser(data)
      case None => (c, Error)
      case Some(m) =>
        var c1 := c.(serverRandom := m.random);
        if m.suite != env.opts.suite then (c1, Error)
        else
          var c2 := c1.(remoteKEMPK := Some(m.kemPublicKey));
          var verdict := if ChecksCertificate(env, m)
                         then Verify(env.p, env.opts.suite.sign, m.certificate, c.transcript, m.signature)
                         else Ok(true);
          match verdict
          case Panic => (c2, Panic)
          case Error => (c2, Error)
          case Ok(valid) =>
            if !valid then (c2, Error)
            else (c2.(transcript := c.transcript + data, state := AtServerHello), Ok(()))
  }

  // ---------------------------------------------------------------- ClientKey

  /** In hybrid mode with an ephemeral key, 32 fresh random bytes stand in for an ECDHE secret. */
  predicate MixesEcdhe(env: Env, c: Conn) {
    env.opts.mode == MODE_HYBRID && c.localKEMSK.Some?
  }

  function ClientKeyStep(env: Env, c: Conn, rng: Rng): (Conn, Outcome<Bytes>) {
    if c.state != AtServerHello then (c, Error)
    else if c.kem.None? || c.remoteKEMPK.None? then (c, Panic)
    else
      match Encapsulate(env.p, c.kem.value, rng, 0, c.remoteKEMPK.value)
      case (Error, _) => (c, Error)
      case (Panic, _) => (c, Panic)
      case (Ok(e), n) =>
        if MixesEcdhe(env, c) && !rng(n).ok then (c, Error)
        else
          var ecdhe := if MixesEcdhe(env, c) then Drawn(rng, n, 32) else [];
          var keys := DeriveKeys(env.p, e.ss, ecdhe, env.opts.suite.hash);
          KeysInstalled(env, c.(keys := Some(keys)), keys, e.ct)
  }

  function KeysInstalled(env: Env, c: Conn, keys: KeySet, ciphertext: Bytes): (Conn, Outcome<Bytes>) {
    var c1 := c.(clientAEAD := CreateAead(env.opts.suite.aead, keys.clientKey));
    if c1.clientAEAD.None? then (c1, Error)
    else
      var c2 := c1.(serverAEAD := CreateAead(env.opts.suite.aead, keys.serverKey));
      if c2.serverAEAD.None? then (c2, Error) else ClientKeySent(env, c2, ciphertext)
  }

  /** The signature, if there are signer and key, and the message. */
  function ClientKeySent(env: Env, c: Conn, ciphertext: Bytes): (Conn, Outcome<Bytes>) {
    var signed := if KnownSigner(env.opts.suite.sign) && c.localSignKey.Some?
                  then Sign(env.p, env.opts.suite.sign, c.localSignKey.value, c.transcript)
                  else Ok([]);
    match signed
    case Panic => (c, Panic)
    case Error => (c, Error)
    case Ok(sig) =>
      var data := ClientKeyBytes(ciphertext, [], sig);
      (c.(transcript := c.transcript + data, state := AtClientKey), Ok(data))
  }

  // ---------------------------------------------------------------- Finished, key update

  function FinishedNonce(c: Conn): Bytes {
    BigEndian(c.streamID, 4) + BigEndian(0, 8)
  }

  function FinishedStep(env: Env, c: Conn, data: Bytes): (Conn, Outcome<()>) {
    if c.state != AtClientKey then (c, Error)
    else if c.serverAEAD.None? then (c, Panic)
    else
      match env.p.open(c.serverAEAD.value.alg, c.serverAEAD.value.key, FinishedNonce(c), data, [])
      case None => (c, Error)
      case Some(plaintext) =>
        if c.keys.None? then (c, Panic)
        else if |plaintext| < 32
             || plaintext[..32] != FinishedMac(env.p, c.keys.value.serverKey, c.transcript) then (c, Error)
        else (c.(state := AtEstablished, sharedSecret := c.keys.value.exporterSecret), Ok(()))
  }

  function UpdateKeysStep(env: Env, c: Conn, rng: Rng, now: int): (Conn, Outcome<KeySet>) {
    if !rng(0).ok then (c, Error)
    else
      (c.(messageCount := 0, byteCount := 0, lastKeyUpdate := now),
       Ok(DeriveKeys(env.p, Drawn(rng, 0, 32), c.sharedSecret, env.opts.suite.hash)))
  }

  // ---------------------------------------------------------------- runs

  /** A call with the randomness, bytes and time it meets. `Environment` is what QZMQ's code never does itself:
      counting traffic and installing a signing key. */
  datatype Call =
    | ClientHelloCall(rng: Rng)
    | ServerHelloCall(data: Bytes)
    | ClientKeyCall(rng: Rng)
    | FinishedCall(data: Bytes)
    | UpdateKeysCall(rng: Rng, now: int)
    | Environment(messages: uint64, bytes: uint64, signKey: Option<Bytes>)

  datatype Reply = Message(bytes: Bytes) | Done | NewKeys(keys: KeySet)

  function Replied<T>(o: Outcome<T>, f: T -> Reply): Outcome<Reply> {
    match o
    case Ok(v) => Ok(f(v))
    case Error => Error
    case Panic => Panic
  }

  function Step(env: Env, c: Conn, call: Call): (Conn, Outcome<Reply>) {
    match call
    case ClientHelloCall(rng) => var (d, o) := ClientHelloStep(env, c, rng); (d, Replied(o, b => Message(b)))
    case ServerHelloCall(data) => var (d, o) := ServerHelloStep(env, c, data); (d, Replied(o, _ => Done))
    case ClientKeyCall(rng) => var (d, o) := ClientKeyStep(env, c, rng); (d, Replied(o, b => Message(b)))
    case FinishedCall(data) => var (d, o) := FinishedStep(env, c, data); (d, Replied(o, _ => Done))
    case UpdateKeysCall(rng, now) => var (d, o) := UpdateKeysStep(env, c, rng, now); (d, Replied(o, k => NewKeys(k)))
    case Environment(m, b, k) => (c.(messageCount := m, byteCount := b, localSignKey := k), Ok(Done))
  }

  datatype Entry = Entry(call: Call, outcome: Outcome<Reply>)

  /** Where a sequence of calls on a new connection leaves it, and how every call ended. */
  datatype Execution = Execution(conn: Conn, log: seq<Entry>)

  function Run(env: Env, now: int, calls: seq<Call>): Execution {
    if calls == [] then Execution(NewConn(now), [])
    else
      var before := Run(env, now, calls[..|calls| - 1]);
      var call := calls[|calls| - 1];
      var (after, outcome) := Step(env, before.conn, call);
      Execution(after, before.log + [Entry(call, outcome)])
  }

  lemma RunOneMore(env: Env, now: int, calls: seq<Call>, call: Call)
    ensures var before := Run(env, now, calls);
            var (after, outcome) := Step(env, before.conn, call);
            Run(env, now, calls + [call]) == Execution(after, before.log + [Entry(call, outcome)])
  {
    assert (calls + [call])[..|calls|] == calls;
  }

  // ---------------------------------------------------------------- what succeeded

  datatype Kind = ClientHelloKind | ServerHelloKind | ClientKeyKind | FinishedKind

  /** A handshake step that succeeded, with the message it sent or took. */
  datatype Success = Success(kind: Kind, message: Bytes)

  function SuccessOf(e: Entry): seq<Success> {
    match e
    case Entry(ClientHelloCall(_), Ok(Message(b))) => [Success(ClientHelloKind, b)]
    case Entry(ServerHelloCall(data), Ok(_)) => [Success(ServerHelloKind, data)]
    case Entry(ClientKeyCall(_), Ok(Message(b))) => [Success(ClientKeyKind, b)]
    case Entry(FinishedCall(data), Ok(_)) => [Success(FinishedKind, data)]
    case _ => []
  }

  function Successes(log: seq<Entry>): seq<Success> {
    if log == [] then [] else Successes(log[..|log| - 1]) + SuccessOf(log[|log| - 1])
  }

  /** The successes, in the only order in which they can come. */
  const ORDER := [ClientHelloKind, ServerHelloKind, ClientKeyKind, FinishedKind]

  /** How many handshake steps lead to a state that the handshake reaches. */
  function Rank(s: State): (r: nat)
    ensures r <= 4
  {
    match s
    case AtInit => 0
    case AtClientHello => 1
    case AtServerHello => 2
    case AtClientKey => 3
    case AtEstablished => 4
    case AtClosed => 0
  }

  function Kinds(ss: seq<Success>): seq<Kind> {
    seq(|ss|, i requires 0 <= i < |ss| => ss[i].kind)
  }

  /** The concatenation of the first three messages, or of as many as there are. */
  function Joined(ss: seq<Success>): Bytes {
    (if |ss| > 0 then ss[0].message else [])
    + (if |ss| > 1 then ss[1].message else [])
    + (if |ss| > 2 then ss[2].message else [])
  }
}
