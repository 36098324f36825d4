/** The claims about runs of the client handshake, for every environment and every sequence of calls. */
module HandshakeTheorems {
  import opened Bytes
  import opened Options
  import opened HelloCodec
  import opened Primitives
  import opened Kem
  import opened KeySchedule
  import opened Handshake
  import opened HandshakeInvariant

  lemma InvariantOrder(c: Conn, ss: seq<Success>)
    requires OrderedMessages(c, ss)
    ensures Kinds(ss) == ORDER[..Rank(c.state)]
  {}

  /** After every run, the handshake steps that succeeded are the first ones of the protocol's order, each once, as
      many as the state says, and the transcript is exactly the concatenation of their messages. */
  lemma TranscriptIsTheSuccessfulMessages(env: Env, now: int, calls: seq<Call>)
    ensures var r := Run(env, now, calls);
            var ss := Successes(r.log);
            && Kinds(ss) == ORDER[..Rank(r.conn.state)]
            && r.conn.transcript == Joined(ss)
            && !r.conn.state.AtClosed?
  {
    RunKeeps(env, now, calls);
    InvariantOrder(Run(env, now, calls).conn, Successes(Run(env, now, calls).log));
  }

  /** From any connection whatever, a call that ends in an error or a panic leaves state and transcript alone. */
  lemma FailuresLeaveStateAndTranscript(env: Env, c: Conn, call: Call)
    requires !Step(env, c, call).1.Ok?
    ensures Step(env, c, call).0.state == c.state && Step(env, c, call).0.transcript == c.transcript
  {
    OnlySuccessesProgress(env, c, call);
  }

  // ---------------------------------------------------------------- panics

  predicate MalformedSigningKey(env: Env, c: Conn) {
    && KnownSigner(env.opts.suite.sign) && c.localSignKey.Some?
    && var n := |c.localSignKey.value|; if env.opts.suite.sign == ED25519 then n != 64 else n < 32
  }

  /** The KEM of the hybrid suite has nil parts. */
  predicate NilHybrid(env: Env) {
    env.opts.suite.kem == HYBRID_X25519_MLKEM768
  }

  predicate GetsToSigning(env: Env, c: Conn, rng: Rng)
    requires c.kem.Some? && c.remoteKEMPK.Some?
  {
    var (e, n) := Encapsulate(env.p, c.kem.value, rng, 0, c.remoteKEMPK.value);
    && e.Ok? && (MixesEcdhe(env, c) ==> rng(n).ok)
    && (env.opts.suite.aead == AES256GCM || env.opts.suite.aead == CHACHA20POLY1305)
  }

  /** When a call on a reachable connection panics. */
  predicate Panics(env: Env, c: Conn, call: Call)
    requires c.state.AtServerHello? ==> c.kem.Some? && c.remoteKEMPK.Some?
  {
    match call
    case ClientHelloCall(rng) => c.state.AtInit? && rng(0).ok && NilHybrid(env) && env.opts.mode != MODE_PQ_ONLY
    case ServerHelloCall(data) =>
      && c.state.AtClientHello?
      && var m := env.parser(data);
      && m.Some? && m.value.suite == env.opts.suite
      && ChecksCertificate(env, m.value) && env.opts.suite.sign == ED25519 && |m.value.certificate| != 32
    case ClientKeyCall(rng) =>
      c.state.AtServerHello? && (NilHybrid(env) || (GetsToSigning(env, c, rng) && MalformedSigningKey(env, c)))
    case _ => false
  }

  lemma ClientHelloPanics(env: Env, c: Conn, rng: Rng)
    ensures ClientHelloStep(env, c, rng).1.Panic? <==>
            c.state.AtInit? && rng(0).ok && NilHybrid(env) && env.opts.mode != MODE_PQ_ONLY
  {
    assert Generate(env.p, NilKem, rng, 1) == (Panic, 1);
    var k := GetKem(env.opts.suite.kem);
    if k.Some? && !NilHybrid(env) { TreeSizes(env.p, k.value, rng, 1, []); }
  }

  lemma KeysInstalledPanics(env: Env, c: Conn, keys: KeySet, ct: Bytes)
    requires |keys.clientKey| == |keys.serverKey| == 32
    ensures KeysInstalled(env, c, keys, ct).1.Panic? <==>
            && (env.opts.suite.aead == AES256GCM || env.opts.suite.aead == CHACHA20POLY1305)
            && MalformedSigningKey(env, c)
  {}

  lemma ClientKeyPanics(env: Env, c: Conn, rng: Rng)
    requires c.state.AtServerHello? && c.remoteKEMPK.Some?
    requires c.kem.Some? && c.kem == GetKem(env.opts.suite.kem)
    ensures ClientKeyStep(env, c, rng).1.Panic? <==>
            NilHybrid(env) || (GetsToSigning(env, c, rng) && MalformedSigningKey(env, c))
  {
    var (e, n) := Encapsulate(env.p, c.kem.value, rng, 0, c.remoteKEMPK.value);
    assert NilHybrid(env) ==> e.Panic?;
    if !NilHybrid(env) { TreeSizes(env.p, c.kem.value, rng, 0, c.remoteKEMPK.value); }
    if e.Ok? && (MixesEcdhe(env, c) ==> rng(n).ok) {
      var ecdhe := if MixesEcdhe(env, c) then Drawn(rng, n, 32) else [];
      var keys := DeriveKeys(env.p, e.value.ss, ecdhe, env.opts.suite.hash);
      KeysInstalledPanics(env, c.(keys := Some(keys)), keys, e.value.ct);
    }
  }

  lemma ServerHelloPanics(env: Env, c: Conn, data: Bytes)
    ensures ServerHelloStep(env, c, data).1.Panic? <==>
            && c.state.AtClientHello?
            && var m := env.parser(data);
            && m.Some? && m.value.suite == env.opts.suite
            && ChecksCertificate(env, m.value) && env.opts.suite.sign == ED25519 && |m.value.certificate| != 32
  {}

  lemma FinishedNeverPanics(env: Env, c: Conn, data: Bytes)
    requires c.serverAEAD.Some? && c.keys.Some?
    ensures !FinishedStep(env, c, data).1.Panic?
  {}

  lemma InvariantPanics(env: Env, c: Conn, ss: seq<Success>, call: Call)
    requires Inv(env, c, ss)
    ensures c.state.AtServerHello? ==> c.kem.Some? && c.remoteKEMPK.Some?
    ensures c.state.AtClientKey? ==> c.keys.Some? && c.clientAEAD.Some? && c.serverAEAD.Some?
    ensures Step(env, c, call).1.Panic? <==> Panics(env, c, call)
  {
    match call
    case ClientHelloCall(rng) => ClientHelloPanics(env, c, rng);
    case ServerHelloCall(data) => ServerHelloPanics(env, c, data);
    case ClientKeyCall(rng) => if c.state.AtServerHello? { ClientKeyPanics(env, c, rng); }
    case FinishedCall(data) => if c.state.AtClientKey? { FinishedNeverPanics(env, c, data); }
    case _ =>
  }

  /** In every run a call panics exactly in these cases: the nil parts of the hybrid suite are used, or Ed25519 or the
      ML-DSA placeholder gets a malformed key. Nothing a step dereferences is ever unset when its state guard passes. */
  lemma PanicsExactlyWhen(env: Env, now: int, calls: seq<Call>, call: Call)
    ensures var c := Run(env, now, calls).conn;
            && (c.state.AtServerHello? ==> c.kem.Some? && c.remoteKEMPK.Some?)
            && (c.state.AtClientKey? ==> c.keys.Some? && c.clientAEAD.Some? && c.serverAEAD.Some?)
            && (Step(env, c, call).1.Panic? <==> Panics(env, c, call))
  {
    RunKeeps(env, now, calls);
    InvariantPanics(env, Run(env, now, calls).conn, Successes(Run(env, now, calls).log), call);
  }

  lemma InvariantHybrid(env: Env, c: Conn, ss: seq<Success>)
    requires Inv(env, c, ss) && NilHybrid(env)
    ensures Rank(c.state) <= 2 && (env.opts.mode != MODE_PQ_ONLY ==> c.state.AtInit?)
  {
    assert !Built(HybridKem(NilKem, NilKem)) by { assert !Built(NilKem); }
    assert forall rng: Rng, pk: Bytes :: Encapsulate(env.p, HybridKem(NilKem, NilKem), rng, 0, pk).0.Panic?;
  }

  /** With the hybrid suite, which is the default one, no run gets past ServerHello, and outside PQ-only mode, as by
      default, none leaves the initial state. */
  lemma HybridSuiteNeverCompletes(env: Env, now: int, calls: seq<Call>)
    requires NilHybrid(env)
    ensures var s := Run(env, now, calls).conn.state;
            Rank(s) <= 2 && (env.opts.mode != MODE_PQ_ONLY ==> s.AtInit?)
  {
    RunKeeps(env, now, calls);
    InvariantHybrid(env, Run(env, now, calls).conn, Successes(Run(env, now, calls).log));
  }

  // ---------------------------------------------------------------- the first message

  /** The one extension of a ClientHello: the PQ-only mark in that mode, otherwise the generated key. */
  predicate CarriesItsExtension(env: Env, c: Conn, e: Extension) {
    if env.opts.mode == MODE_PQ_ONLY then e == Extension(0xFF01, [1])
    else c.localKEMPK.Some? && e == Extension(0x0033, c.localKEMPK.value) && HasKeySize(env.opts.suite.kem, |e.data|)
  }

  /** X25519 keys have 32 bytes, ML-KEM-768 keys 1184 and ML-KEM-1024 keys 1568; no other code makes keys. */
  predicate HasKeySize(kem: int, n: nat) {
    (kem == X25519 && n == 32) || (kem == MLKEM768 && n == 1184) || (kem == MLKEM1024 && n == 1568)
  }

  lemma LeafKeySizes(env: Env, k: Kem)
    requires GetKem(env.opts.suite.kem) == Some(k) && Built(k)
    ensures HasKeySize(env.opts.suite.kem, PublicKeySize(k))
  {
    assert !Built(HybridKem(NilKem, NilKem)) by { assert !Built(NilKem); }
  }

  lemma InvariantFirstMessage(env: Env, c: Conn, ss: seq<Success>)
    requires Inv(env, c, ss) && |ss| > 0
    ensures exists e: Extension :: CarriesItsExtension(env, c, e)
              && ReadClientHello(ss[0].message) == Some(HelloFields(1, c.clientRandom, [], [e]))
  {
    var m := HelloMessage(env, c);
    if env.opts.mode != MODE_PQ_ONLY { LeafKeySizes(env, c.kem.value); }
    assert |m.extensions| == 1 && m.extensions == [m.extensions[0]];
    assert CarriesItsExtension(env, c, m.extensions[0]);
    assert HelloFits(m);
    ClientHelloReadsBack(m);
  }

  /** A ClientHello that went out reads back as version 1, the client random, no session ID and exactly one extension:
      the PQ-only mark in that mode, otherwise the generated key, of the size that the suite's KEM code says. */
  lemma FirstMessageDecodes(env: Env, now: int, calls: seq<Call>)
    requires Run(env, now, calls).conn.state != AtInit
    ensures var r := Run(env, now, calls);
            var ss := Successes(r.log);
            && |ss| > 0 && |r.conn.clientRandom| == 32
            && exists e: Extension :: CarriesItsExtension(env, r.conn, e)
                 && ReadClientHello(ss[0].message) == Some(HelloFields(1, r.conn.clientRandom, [], [e]))
  {
    RunKeeps(env, now, calls);
    InvariantFirstMessage(env, Run(env, now, calls).conn, Successes(Run(env, now, calls).log));
  }

  // ---------------------------------------------------------------- Established

  /** In every reachable Established state, after any number of key updates too, some Finished message opened under
      the server key, with nonce BE32(1) || BE64(0), to a text starting with the MAC of exactly the three messages
      before it, and the shared secret is the exporter secret of the handshake keys. */
  lemma EstablishedMeansFinishedVerified(env: Env, now: int, calls: seq<Call>)
    requires Run(env, now, calls).conn.state == AtEstablished
    ensures var r := Run(env, now, calls);
            var ss := Successes(r.log);
            && |ss| == 4 && r.conn.keys.Some?
            && r.conn.sharedSecret == r.conn.keys.value.exporterSecret
            && var serverKey := r.conn.keys.value.serverKey;
               var text := env.p.open(env.opts.suite.aead, serverKey,
                                      BigEndian(1, 4) + BigEndian(0, 8), ss[3].message, []);
               && text.Some? && |text.value| >= 32
               && text.value[..32] == env.p.hmac(serverKey, ss[0].message + ss[1].message + ss[2].message)
  {
    RunKeeps(env, now, calls);
  }

  // ---------------------------------------------------------------- the shipped ServerHello parser

  ghost predicate UsesShippedParser(env: Env) {
    forall d :: env.parser(d) == ShippedServerHello(d)
  }

  /** With the shipped parser a ServerHello is accepted exactly if it has 34 bytes and the suite is the all-zero one. */
  lemma ShippedParserAccepts(env: Env, c: Conn, data: Bytes)
    requires UsesShippedParser(env) && c.state.AtClientHello?
    ensures var (d, o) := ServerHelloStep(env, c, data);
            && (o.Ok? <==> |data| >= 34 && env.opts.suite == ZERO_SUITE)
            && (o.Ok? ==> d.serverRandom == data[1..33] && d.remoteKEMPK == Some([]))
  {}

  /** X25519 refuses the empty server key that the shipped parser leaves. */
  lemma NoKeyNoClientKey(env: Env, c: Conn, rng: Rng)
    requires c.state.AtServerHello? && c.kem == Some(X25519Kem) && c.remoteKEMPK == Some([])
    ensures !ClientKeyStep(env, c, rng).1.Ok?
  {
    assert !Encapsulate(env.p, X25519Kem, rng, 0, []).0.Ok?;
  }

  predicate Stopped(env: Env, c: Conn) {
    && (c.state.AtInit? || c.state.AtClientHello? || (c.state.AtServerHello? && env.opts.suite == ZERO_SUITE))
    && (c.state.AtServerHello? ==> c.remoteKEMPK == Some([]))
  }

  lemma StaysStopped(env: Env, c: Conn, ss: seq<Success>, call: Call)
    requires UsesShippedParser(env) && Inv(env, c, ss) && Stopped(env, c)
    ensures Stopped(env, Step(env, c, call).0)
  {
    if c.state.AtServerHello? && call.ClientKeyCall? {
      NoKeyNoClientKey(env, c, call.rng);
      ClientKeyFailure(env, c, call.rng);
    }
  }

  /** With the shipped parser, no run and no bytes take a connection past ClientHello unless its suite is the all-zero
      one, and none at all past ServerHello. */
  lemma {:induction false} ShippedParserStopsTheHandshake(env: Env, now: int, calls: seq<Call>)
    requires UsesShippedParser(env)
    ensures var s := Run(env, now, calls).conn.state;
            s.AtInit? || s.AtClientHello? || (s.AtServerHello? && env.opts.suite == ZERO_SUITE)
    ensures Stopped(env, Run(env, now, calls).conn)
  {
    if calls != [] {
      var before := calls[..|calls| - 1];
      ShippedParserStopsTheHandshake(env, now, before);
      RunKeeps(env, now, before);
      StaysStopped(env, Run(env, now, before).conn, Successes(Run(env, now, before).log), calls[|calls| - 1]);
    }
  }
}
