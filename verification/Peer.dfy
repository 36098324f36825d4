/** The server's side of the handshake, as far as the client's messages determine it: reading the ciphertext,
    decapsulating it, deriving the keys and answering with a Finished message. */
module Peer {
  import opened Bytes
  import opened Options
  import opened HelloCodec
  import opened Primitives
  import opened Kem
  import opened KeySchedule
  import opened Handshake
  import opened HandshakeInvariant

  /** The keys of a peer that holds `sk` and reads a ClientKey message; it has no ECDHE secret to mix in. */
  function PeerKeys(env: Env, k: Kem, sk: Bytes, rng: Rng, message: Bytes): Option<KeySet> {
    match ReadCiphertext(message)
    case None => None
    case Some(ct) =>
      match Decapsulate(env.p, k, rng, 0, sk, ct)
      case Ok(ss) => Some(DeriveKeys(env.p, ss, [], env.opts.suite.hash))
      case Error => None
      case Panic => None
  }

  /** A KEM that encapsulates is a single one, with short ciphertexts. */
  lemma SingleKems(alg: int, p: Primitives, rng: Rng, pk: Bytes)
    requires GetKem(alg).Some? && Encapsulate(p, GetKem(alg).value, rng, 0, pk).0.Ok?
    ensures Built(GetKem(alg).value) && CiphertextSize(GetKem(alg).value) < TWO16
  {
    assert Encapsulate(p, HybridKem(NilKem, NilKem), rng, 0, pk).0.Panic?;
  }

  lemma SingleKemSizes(env: Env, k: Kem, rng: Rng, pk: Bytes)
    requires Some(k) == GetKem(env.opts.suite.kem) && Encapsulate(env.p, k, rng, 0, pk).0.Ok?
    ensures |Encapsulate(env.p, k, rng, 0, pk).0.value.ct| < TWO16
    ensures |Encapsulate(env.p, k, rng, 0, pk).0.value.ss| == 32
  {
    SingleKems(env.opts.suite.kem, env.p, rng, pk);
    TreeSizes(env.p, k, rng, 0, pk);
  }

  /** The peer's keys are the ones that the decapsulated secret derives without any ECDHE secret. */
  lemma PeerReads(env: Env, k: Kem, sk: Bytes, pk: Bytes, rng: Rng, peerRng: Rng, sig: Bytes)
    requires Some(k) == GetKem(env.opts.suite.kem) && Encapsulate(env.p, k, rng, 0, pk).0.Ok?
    requires Undoes(env.p, k, pk, sk)
    ensures var e := Encapsulate(env.p, k, rng, 0, pk).0.value;
            PeerKeys(env, k, sk, peerRng, ClientKeyBytes(e.ct, [], sig))
            == Some(DeriveKeys(env.p, e.ss, [], env.opts.suite.hash))
  {
    var e := Encapsulate(env.p, k, rng, 0, pk).0.value;
    SingleKemSizes(env, k, rng, pk);
    CiphertextReadsBack(e.ct, [], sig);
    assert Decapsulate(env.p, k, peerRng, 0, sk, e.ct) == Ok(e.ss);
  }

  /** The 96 bytes that the keys are cut from are the same with and without the ECDHE secret mixed in. */
  predicate MixingChangesNothing(env: Env, ss: Bytes, ecdhe: Bytes) {
    Segment(KeyStream(env.p, ss, ecdhe, env.opts.suite.hash), 0, 96)
    == Segment(KeyStream(env.p, ss, [], env.opts.suite.hash), 0, 96)
  }

  /** Whether the peer's keys are the client's, for keys that came from this encapsulation and this ECDHE secret. */
  lemma PeerAgreesExactlyWhen(
    env: Env, c: Conn, message: Bytes, sk: Bytes, peerRng: Rng, rng: Rng, ecdhe: Bytes, sig: Bytes)
    requires c.kem.Some? && c.kem == GetKem(env.opts.suite.kem) && c.remoteKEMPK.Some? && c.keys.Some?
    requires Undoes(env.p, c.kem.value, c.remoteKEMPK.value, sk)
    requires KeysCameFrom(env, c, message, rng, ecdhe, sig)
    ensures var ss := Encapsulate(env.p, c.kem.value, rng, 0, c.remoteKEMPK.value).0.value.ss;
            PeerKeys(env, c.kem.value, sk, peerRng, message) == c.keys
            <==> env.opts.mode != MODE_HYBRID || MixingChangesNothing(env, ss, ecdhe)
  {
    PeerReads(env, c.kem.value, sk, c.remoteKEMPK.value, rng, peerRng, sig);
    var ss := Encapsulate(env.p, c.kem.value, rng, 0, c.remoteKEMPK.value).0.value.ss;
    KeysAreTheFirst96Bytes(env.p, ss, ecdhe, ss, [], env.opts.suite.hash);
    if env.opts.mode != MODE_HYBRID {
      assert ecdhe == [];
    }
  }

  /** The keys came from some encapsulation and ECDHE secret, and whichever they were decide whether the peer agrees. */
  ghost predicate AgreementIsDecided(env: Env, c: Conn, message: Bytes, sk: Bytes, peerRng: Rng)
    requires c.kem.Some? && c.remoteKEMPK.Some? && c.keys.Some?
  {
    && (exists rng, ecdhe, sig :: KeysCameFrom(env, c, message, rng, ecdhe, sig))
    && (forall rng, ecdhe, sig :: KeysCameFrom(env, c, message, rng, ecdhe, sig) ==>
          var ss := Encapsulate(env.p, c.kem.value, rng, 0, c.remoteKEMPK.value).0.value.ss;
          (PeerKeys(env, c.kem.value, sk, peerRng, message) == c.keys
           <==> env.opts.mode != MODE_HYBRID || MixingChangesNothing(env, ss, ecdhe)))
  }

  lemma InvariantPeer(env: Env, c: Conn, ss: seq<Success>, sk: Bytes, peerRng: Rng)
    requires Inv(env, c, ss) && |ss| > 2
    requires Undoes(env.p, c.kem.value, c.remoteKEMPK.value, sk)
    ensures env.opts.mode != MODE_HYBRID ==> PeerKeys(env, c.kem.value, sk, peerRng, ss[2].message) == c.keys
    ensures AgreementIsDecided(env, c, ss[2].message, sk, peerRng)
  {
    var message := ss[2].message;
    forall rng, ecdhe, sig | KeysCameFrom(env, c, message, rng, ecdhe, sig)
      ensures var s := Encapsulate(env.p, c.kem.value, rng, 0, c.remoteKEMPK.value).0.value.ss;
              PeerKeys(env, c.kem.value, sk, peerRng, message) == c.keys
              <==> env.opts.mode != MODE_HYBRID || MixingChangesNothing(env, s, ecdhe)
    {
      PeerAgreesExactlyWhen(env, c, message, sk, peerRng, rng, ecdhe, sig);
    }
  }

  /** In every run that got past ClientKey, a peer whose private key undoes encapsulation derives the client's keys
      from the message bytes outside hybrid mode. In hybrid mode the client mixes in 32 random bytes that it never
      sends, and the peer derives its keys exactly if these bytes happen to change nothing. */
  lemma PeerDerivesTheClientsKeys(env: Env, now: int, calls: seq<Call>, sk: Bytes, peerRng: Rng)
    requires var c := Run(env, now, calls).conn;
             Rank(c.state) >= 3 && c.kem.Some? && c.remoteKEMPK.Some?
             && Undoes(env.p, c.kem.value, c.remoteKEMPK.value, sk)
    ensures var r := Run(env, now, calls);
            var ss := Successes(r.log);
            && |ss| > 2 && r.conn.keys.Some?
            && (env.opts.mode != MODE_HYBRID ==>
                  PeerKeys(env, r.conn.kem.value, sk, peerRng, ss[2].message) == r.conn.keys)
            && AgreementIsDecided(env, r.conn, ss[2].message, sk, peerRng)
  {
    RunKeeps(env, now, calls);
    InvariantPeer(env, Run(env, now, calls).conn, Successes(Run(env, now, calls).log), sk, peerRng);
  }

  // ---------------------------------------------------------------- an honest server is accepted

  /** The Finished message of a server that has seen the three messages: their MAC, sealed under the server key. */
  function ServerFinished(env: Env, keys: KeySet, transcript: Bytes): Bytes {
    env.p.seal(env.opts.suite.aead, keys.serverKey, BigEndian(1, 4) + BigEndian(0, 8),
               env.p.hmac(keys.serverKey, transcript), [])
  }

  /** What a server answers that knows the wire and its private key. */
  function HonestReply(env: Env, k: Kem, ss: seq<Success>, sk: Bytes, peerRng: Rng): Option<(KeySet, Bytes)>
    requires |ss| == 3
  {
    match PeerKeys(env, k, sk, peerRng, ss[2].message)
    case None => None
    case Some(keys) => Some((keys, ServerFinished(env, keys, ss[0].message + ss[1].message + ss[2].message)))
  }

  lemma InvariantAccepts(env: Env, c: Conn, ss: seq<Success>, sk: Bytes, peerRng: Rng)
    requires OpensSealed(env.p) && Inv(env, c, ss) && c.state.AtClientKey?
    requires env.opts.mode != MODE_HYBRID && Undoes(env.p, c.kem.value, c.remoteKEMPK.value, sk)
    ensures var answer := HonestReply(env, c.kem.value, ss, sk, peerRng);
            && answer.Some?
            && FinishedStep(env, c, answer.value.1) ==
               (c.(state := AtEstablished, sharedSecret := answer.value.0.exporterSecret), Ok(()))
  {
    InvariantPeer(env, c, ss, sk, peerRng);
    var mac := env.p.hmac(c.keys.value.serverKey, c.transcript);
    assert mac[..32] == mac;
  }

  // ---------------------------------------------------------------- the whole X25519 handshake

  /** A ServerHello that the parser reads as the client's suite with this key and no certificate. */
  predicate HonestServerHello(env: Env, hello: Bytes, pk: Bytes) {
    var m := env.parser(hello);
    m.Some? && m.value.suite == env.opts.suite && m.value.kemPublicKey == pk && m.value.certificate == []
  }

  predicate KnownAead(env: Env) {
    env.opts.suite.aead == AES256GCM || env.opts.suite.aead == CHACHA20POLY1305
  }

  /** A connection that no signing key was installed on, with an X25519 KEM and its own key where the mode has one. */
  predicate PlainX25519(env: Env, c: Conn) {
    c.kem == Some(X25519Kem) && c.localSignKey.None? && (env.opts.mode != MODE_PQ_ONLY ==> c.localKEMSK.Some?)
  }

  lemma FirstClientHello(env: Env, now: int, rng: Rng)
    requires env.opts.suite.kem == X25519 && DhIsNonZero(env.p) && ReadsSucceed(rng)
    ensures var c := Run(env, now, [ClientHelloCall(rng)]).conn; c.state.AtClientHello? && PlainX25519(env, c)
  {
    GeneratedX25519IsAccepted(env.p, rng, 1, rng, 0);
    RunOneMore(env, now, [], ClientHelloCall(rng));
    assert [] + [ClientHelloCall(rng)] == [ClientHelloCall(rng)];
  }

  lemma HonestServerHelloAccepted(env: Env, c: Conn, hello: Bytes, pk: Bytes)
    requires c.state.AtClientHello? && HonestServerHello(env, hello, pk)
    ensures var (d, o) := ServerHelloStep(env, c, hello);
            o.Ok? && d.state.AtServerHello? && d.remoteKEMPK == Some(pk)
            && d.kem == c.kem && d.localSignKey == c.localSignKey && d.localKEMSK == c.localKEMSK
  {}

  lemma ThenServerHello(env: Env, now: int, calls: seq<Call>, hello: Bytes, pk: Bytes)
    requires var c := Run(env, now, calls).conn; c.state.AtClientHello? && PlainX25519(env, c)
    requires HonestServerHello(env, hello, pk)
    ensures var d := Run(env, now, calls + [ServerHelloCall(hello)]).conn;
            d.state.AtServerHello? && PlainX25519(env, d) && d.remoteKEMPK == Some(pk)
  {
    HonestServerHelloAccepted(env, Run(env, now, calls).conn, hello, pk);
    RunOneMore(env, now, calls, ServerHelloCall(hello));
  }

  /** What the client mixes in, if it made the one random read of X25519 before. */
  function EcdheAfterX25519(env: Env, rng: Rng): Bytes {
    if env.opts.mode == MODE_HYBRID then Drawn(rng, 1, 32) else []
  }

  lemma ClientKeyAccepted(env: Env, c: Conn, rng: Rng, server: Bytes32)
    requires KnownAead(env) && DhIsNonZero(env.p) && ReadsSucceed(rng)
    requires c.state.AtServerHello? && PlainX25519(env, c)
    requires c.remoteKEMPK == Some(env.p.x25519(server, BASEPOINT))
    ensures var (d, o) := ClientKeyStep(env, c, rng);
            && o.Ok? && d.state.AtClientKey? && d.kem == c.kem && d.remoteKEMPK == c.remoteKEMPK && d.keys.Some?
            && KeysCameFrom(env, d, o.value, rng, EcdheAfterX25519(env, rng), [])
  {
    var eph: Bytes32 := Drawn(rng, 0, 32);
    assert env.p.x25519(eph, env.p.x25519(server, BASEPOINT)) != Zeros(32);
    assert env.p.x25519(eph, BASEPOINT) != Zeros(32);
  }

  lemma SuccessesMatchTheState(env: Env, now: int, calls: seq<Call>)
    ensures |Successes(Run(env, now, calls).log)| == Rank(Run(env, now, calls).conn.state)
  {
    RunKeeps(env, now, calls);
  }

  lemma StepOfClientKey(env: Env, c: Conn, rng: Rng, d: Conn, message: Bytes)
    requires ClientKeyStep(env, c, rng) == (d, Ok(message))
    ensures Step(env, c, ClientKeyCall(rng)) == (d, Ok(Message(message)))
  {}

  lemma SuccessesOneMore(log: seq<Entry>, e: Entry)
    ensures Successes(log + [e]) == Successes(log) + SuccessOf(e)
  {
    assert (log + [e])[..|log|] == log;
  }

  lemma RunWithClientKey(env: Env, now: int, calls: seq<Call>, rng: Rng, c: Conn, d: Conn, message: Bytes)
    requires Run(env, now, calls).conn == c && ClientKeyStep(env, c, rng) == (d, Ok(message))
    ensures var r, s := Run(env, now, calls), Run(env, now, calls + [ClientKeyCall(rng)]);
            s.conn == d && Successes(s.log) == Successes(r.log) + [Success(ClientKeyKind, message)]
  {
    RunOneMore(env, now, calls, ClientKeyCall(rng));
    StepOfClientKey(env, c, rng, d, message);
    SuccessesOneMore(Run(env, now, calls).log, Entry(ClientKeyCall(rng), Ok(Message(message))));
  }

  lemma ThenClientKey(env: Env, now: int, calls: seq<Call>, c: Conn, rng: Rng, server: Bytes32)
    returns (d: Conn, message: Bytes)
    requires KnownAead(env) && DhIsNonZero(env.p) && ReadsSucceed(rng) && c == Run(env, now, calls).conn
    requires c.state.AtServerHello? && PlainX25519(env, c) && c.remoteKEMPK == Some(env.p.x25519(server, BASEPOINT))
    ensures var r, s := Run(env, now, calls), Run(env, now, calls + [ClientKeyCall(rng)]);
            s.conn == d && Successes(s.log) == Successes(r.log) + [Success(ClientKeyKind, message)]
    ensures d.state.AtClientKey? && d.kem == c.kem && d.remoteKEMPK == c.remoteKEMPK && d.keys.Some?
    ensures KeysCameFrom(env, d, message, rng, EcdheAfterX25519(env, rng), [])
  {
    ClientKeyAccepted(env, c, rng, server);
    d, message := ClientKeyStep(env, c, rng).0, ClientKeyStep(env, c, rng).1.value;
    RunWithClientKey(env, now, calls, rng, c, d, message);
  }

  function TwoCalls(helloRng: Rng, hello: Bytes): seq<Call> {
    [ClientHelloCall(helloRng)] + [ServerHelloCall(hello)]
  }

  lemma TwoCallsSucceed(env: Env, now: int, helloRng: Rng, hello: Bytes, pk: Bytes)
    requires env.opts.suite.kem == X25519 && DhIsNonZero(env.p) && ReadsSucceed(helloRng)
    requires HonestServerHello(env, hello, pk)
    ensures var d := Run(env, now, TwoCalls(helloRng, hello)).conn;
            d.state.AtServerHello? && PlainX25519(env, d) && d.remoteKEMPK == Some(pk)
  {
    FirstClientHello(env, now, helloRng);
    ThenServerHello(env, now, [ClientHelloCall(helloRng)], hello, pk);
  }

  function ThreeCalls(helloRng: Rng, hello: Bytes, keyRng: Rng): seq<Call> {
    TwoCalls(helloRng, hello) + [ClientKeyCall(keyRng)]
  }

  /** An X25519 client, and a server that holds the private key it generated and whose ServerHello the client takes. */
  ghost predicate HonestX25519(env: Env, helloRng: Rng, hello: Bytes, keyRng: Rng, serverRng: Rng) {
    && DhCommutes(env.p) && DhIsNonZero(env.p)
    && env.opts.suite.kem == X25519 && KnownAead(env)
    && ReadsSucceed(helloRng) && ReadsSucceed(keyRng) && serverRng(0).ok
    && HonestServerHello(env, hello, env.p.x25519(Drawn(serverRng, 0, 32), BASEPOINT))
  }

  lemma ServerGenerates(p: Primitives, serverRng: Rng)
    requires DhCommutes(p) && DhIsNonZero(p) && serverRng(0).ok
    ensures var secret := Drawn(serverRng, 0, 32);
            var pk := p.x25519(secret, BASEPOINT);
            && Generate(p, X25519Kem, serverRng, 0).0 == Ok(KeyPair(pk, secret, [LeafKey(X25519Kem, pk)]))
            && Undoes(p, X25519Kem, pk, secret)
  {
    var secret: Bytes32 := Drawn(serverRng, 0, 32);
    assert p.x25519(secret, BASEPOINT) != Zeros(32);
    X25519Undoes(p, serverRng, 0);
  }

  /** In every mode, the first three calls succeed. */
  lemma ThreeCallsSucceed(env: Env, now: int, helloRng: Rng, hello: Bytes, keyRng: Rng, serverRng: Rng)
    requires HonestX25519(env, helloRng, hello, keyRng, serverRng)
    ensures var r := Run(env, now, ThreeCalls(helloRng, hello, keyRng));
            var ss := Successes(r.log);
            && r.conn.state.AtClientKey? && r.conn.kem == Some(X25519Kem) && r.conn.keys.Some?
            && r.conn.remoteKEMPK == Some(env.p.x25519(Drawn(serverRng, 0, 32), BASEPOINT))
            && |ss| == 3 && KeysCameFrom(env, r.conn, ss[2].message, keyRng, EcdheAfterX25519(env, keyRng), [])
  {
    TwoCallsSucceed(env, now, helloRng, hello, env.p.x25519(Drawn(serverRng, 0, 32), BASEPOINT));
    var two := TwoCalls(helloRng, hello);
    var _, _ := ThenClientKey(env, now, two, Run(env, now, two).conn, keyRng, Drawn(serverRng, 0, 32));
    SuccessesMatchTheState(env, now, two);
  }

  /** After them the server agrees with the client on the keys exactly outside hybrid mode, or if the 32 bytes that the
      client drew second and never sent change nothing. */
  lemma HonestServerAgreesExactlyWhen(
    env: Env, now: int, helloRng: Rng, hello: Bytes, keyRng: Rng, serverRng: Rng, peerRng: Rng)
    requires HonestX25519(env, helloRng, hello, keyRng, serverRng)
    ensures var server := Generate(env.p, X25519Kem, serverRng, 0).0.value;
            var r := Run(env, now, ThreeCalls(helloRng, hello, keyRng));
            var ss := Successes(r.log);
            && r.conn.state.AtClientKey? && |ss| == 3
            && (PeerKeys(env, X25519Kem, server.sk, peerRng, ss[2].message) == r.conn.keys
                <==> env.opts.mode != MODE_HYBRID
                     || MixingChangesNothing(env, env.p.x25519(Drawn(keyRng, 0, 32), server.pk), Drawn(keyRng, 1, 32)))
  {
    ServerGenerates(env.p, serverRng);
    ThreeCallsSucceed(env, now, helloRng, hello, keyRng, serverRng);
    var r := Run(env, now, ThreeCalls(helloRng, hello, keyRng));
    var server := Generate(env.p, X25519Kem, serverRng, 0).0.value;
    PeerAgreesExactlyWhen(env, r.conn, Successes(r.log)[2].message, server.sk, peerRng, keyRng,
                          EcdheAfterX25519(env, keyRng), []);
  }

  lemma ToyMixingChanges(env: Env, ss: Bytes, ecdhe: Bytes)
    requires env.p == ToyPrimitives() && |ss| == |ecdhe| == 32
    ensures !MixingChangesNothing(env, ss, ecdhe)
  {
    assert |ss + ecdhe| == 64 && |ss + []| == 32;
    assert Segment(KeyStream(env.p, ss, ecdhe, env.opts.suite.hash), 0, 96)[0] == 64;
    assert Segment(KeyStream(env.p, ss, [], env.opts.suite.hash), 0, 96)[0] == 32;
  }

  lemma ToyKeysDiffer(env: Env, now: int, helloRng: Rng, hello: Bytes, keyRng: Rng, serverRng: Rng, peerRng: Rng)
    requires env.p == ToyPrimitives() && env.opts.mode == MODE_HYBRID
    requires HonestX25519(env, helloRng, hello, keyRng, serverRng)
    ensures var server := Generate(env.p, X25519Kem, serverRng, 0).0.value;
            var r := Run(env, now, ThreeCalls(helloRng, hello, keyRng));
            && r.conn.state.AtClientKey? && |Successes(r.log)| == 3
            && PeerKeys(env, X25519Kem, server.sk, peerRng, Successes(r.log)[2].message) != r.conn.keys
  {
    HonestServerAgreesExactlyWhen(env, now, helloRng, hello, keyRng, serverRng, peerRng);
    var pk := Generate(env.p, X25519Kem, serverRng, 0).0.value.pk;
    ToyMixingChanges(env, env.p.x25519(Drawn(keyRng, 0, 32), pk), Drawn(keyRng, 1, 32));
  }

  /** The zero suite in hybrid mode, with a parser that reads every message as a ServerHello with this key. */
  function ToyEnv(p: Primitives, pk: Bytes): Env {
    Env(p, Options(BACKEND_GO, ZERO_SUITE, MODE_HYBRID, Rotation(0, 0, 0)),
        (d: Bytes) => Some(ServerHello(PROTOCOL_VERSION, [], ZERO_SUITE, pk, [], [])))
  }

  /** There are libraries that meet every assumption, and a server, for which in hybrid mode the three calls succeed and
      leave both sides with different keys, whatever the client draws. */
  lemma HybridModeKeysCanDiffer(now: int, helloRng: Rng, hello: Bytes, keyRng: Rng, serverRng: Rng, peerRng: Rng)
    requires ReadsSucceed(helloRng) && ReadsSucceed(keyRng) && serverRng(0).ok
    ensures exists env: Env ::
              && OpensSealed(env.p) && MlkemUndoes(env.p) && env.opts.mode == MODE_HYBRID
              && HonestX25519(env, helloRng, hello, keyRng, serverRng)
              && var r := Run(env, now, ThreeCalls(helloRng, hello, keyRng));
              && r.conn.state.AtClientKey? && |Successes(r.log)| == 3
              && PeerKeys(env, X25519Kem, Drawn(serverRng, 0, 32), peerRng, Successes(r.log)[2].message) != r.conn.keys
  {
    var p := ToyPrimitives();
    ToyMeetsTheAssumptions();
    var env := ToyEnv(p, p.x25519(Drawn(serverRng, 0, 32), BASEPOINT));
    ServerGenerates(p, serverRng);
    ToyKeysDiffer(env, now, helloRng, hello, keyRng, serverRng, peerRng);
  }

  /** An X25519 handshake with an honest server outside hybrid mode completes: the four calls leave the client
      Established, on the exporter secret that the server derives from the ClientKey bytes with its private key. */
  lemma HonestHandshakeCompletes(
    env: Env, now: int, helloRng: Rng, hello: Bytes, keyRng: Rng, serverRng: Rng, peerRng: Rng)
    requires HonestX25519(env, helloRng, hello, keyRng, serverRng)
    requires OpensSealed(env.p) && env.opts.mode != MODE_HYBRID
    ensures var sk := Generate(env.p, X25519Kem, serverRng, 0).0.value.sk;
            var calls := ThreeCalls(helloRng, hello, keyRng);
            var ss := Successes(Run(env, now, calls).log);
            && |ss| == 3
            && var answer := HonestReply(env, X25519Kem, ss, sk, peerRng);
            && answer.Some?
            && var done := Run(env, now, calls + [FinishedCall(answer.value.1)]).conn;
               done.state.AtEstablished? && done.sharedSecret == answer.value.0.exporterSecret
  {
    var calls := ThreeCalls(helloRng, hello, keyRng);
    ServerGenerates(env.p, serverRng);
    ThreeCallsSucceed(env, now, helloRng, hello, keyRng, serverRng);
    HonestServerCompletes(env, now, calls, Run(env, now, calls).conn, Successes(Run(env, now, calls).log),
                          Generate(env.p, X25519Kem, serverRng, 0).0.value.sk, peerRng);
  }

  lemma ThenFinished(env: Env, now: int, calls: seq<Call>, c: Conn, reply: Bytes, d: Conn)
    requires Run(env, now, calls).conn == c && FinishedStep(env, c, reply) == (d, Ok(()))
    ensures Run(env, now, calls + [FinishedCall(reply)]).conn == d
  {
    RunOneMore(env, now, calls, FinishedCall(reply));
  }

  lemma RunEndsIn(env: Env, now: int, calls: seq<Call>, c: Conn, ss: seq<Success>)
    requires c == Run(env, now, calls).conn && ss == Successes(Run(env, now, calls).log)
    ensures Inv(env, c, ss)
  {
    RunKeeps(env, now, calls);
  }

  /** Completeness: outside hybrid mode, whatever calls came before, a client waiting for Finished accepts the answer
      that an honest server computes from the wire and its private key alone, and both hold one exporter secret. */
  lemma HonestServerCompletes(env: Env, now: int, calls: seq<Call>, c: Conn, ss: seq<Success>, sk: Bytes, peerRng: Rng)
    requires OpensSealed(env.p) && env.opts.mode != MODE_HYBRID
    requires c == Run(env, now, calls).conn && ss == Successes(Run(env, now, calls).log)
    requires c.state.AtClientKey? && c.kem.Some? && c.remoteKEMPK.Some?
    requires Undoes(env.p, c.kem.value, c.remoteKEMPK.value, sk)
    ensures |ss| == 3
    ensures var answer := HonestReply(env, c.kem.value, ss, sk, peerRng);
            && answer.Some?
            && Run(env, now, calls + [FinishedCall(answer.value.1)]).conn
               == c.(state := AtEstablished, sharedSecret := answer.value.0.exporterSecret)
  {
    RunEndsIn(env, now, calls, c, ss);
    InvariantAccepts(env, c, ss, sk, peerRng);
    var (keys, reply) := HonestReply(env, c.kem.value, ss, sk, peerRng).value;
    ThenFinished(env, now, calls, c, reply, c.(state := AtEstablished, sharedSecret := keys.exporterSecret));
  }
}
