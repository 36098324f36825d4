/** What every run of calls on a client connection keeps, however its calls fail, panic and are retried. */
module HandshakeInvariant {
  import opened Bytes
  import opened Options
  import opened HelloCodec
  import opened Primitives
  import opened Kem
  import opened KeySchedule
  import opened Handshake

  // ---------------------------------------------------------------- the invariant

  predicate OrderedMessages(c: Conn, ss: seq<Success>) {
    && !c.state.AtClosed?
    && |ss| == Rank(c.state)
    && (forall i :: 0 <= i < |ss| ==> ss[i].kind == ORDER[i])
    && c.transcript == Joined(ss)
    && c.streamID == DEFAULT_STREAM_ID && c.sessionID == []
  }

  /** No ephemeral key before ClientHello succeeds, nor ever in PQ-only mode. */
  predicate NoEphemeralKey(c: Conn) {
    c.localKEMPK.None? && c.localKEMSK.None?
  }

  predicate HelloFacts(env: Env, c: Conn, ss: seq<Success>)
    requires |ss| > 0
  {
    && |c.clientRandom| == 32
    && c.kem.Some? && c.kem == GetKem(env.opts.suite.kem)
    && (if env.opts.mode == MODE_PQ_ONLY then NoEphemeralKey(c)
        else c.localKEMSK.Some? && Built(c.kem.value)
             && c.localKEMPK.Some? && |c.localKEMPK.value| == PublicKeySize(c.kem.value))
    && ss[0].message == ClientHelloBytes(HelloMessage(env, c))
  }

  /** The ClientKey message and the keys come from one encapsulation to the server's key. */
  ghost predicate KeysCameFrom(env: Env, c: Conn, message: Bytes, rng: Rng, ecdhe: Bytes, sig: Bytes)
    requires c.kem.Some? && c.remoteKEMPK.Some? && c.keys.Some?
  {
    var e := Encapsulate(env.p, c.kem.value, rng, 0, c.remoteKEMPK.value).0;
    && e.Ok?
    && message == ClientKeyBytes(e.value.ct, [], sig)
    && c.keys.value == DeriveKeys(env.p, e.value.ss, ecdhe, env.opts.suite.hash)
    && |ecdhe| == (if env.opts.mode == MODE_HYBRID then 32 else 0)
  }

  ghost predicate KeyFacts(env: Env, c: Conn, ss: seq<Success>)
    requires |ss| > 2 && c.kem.Some? && c.remoteKEMPK.Some?
  {
    && c.keys.Some?
    && c.clientAEAD == Some(Aead(env.opts.suite.aead, c.keys.value.clientKey))
    && c.serverAEAD == Some(Aead(env.opts.suite.aead, c.keys.value.serverKey))
    && (exists rng: Rng, ecdhe: Bytes, sig: Bytes :: KeysCameFrom(env, c, ss[2].message, rng, ecdhe, sig))
  }

  /** The Finished message opened under the server key, and its text starts with the MAC of the three messages. */
  predicate FinishedFacts(env: Env, c: Conn, ss: seq<Success>)
    requires |ss| > 3 && c.keys.Some?
  {
    var serverKey := c.keys.value.serverKey;
    var text := env.p.open(env.opts.suite.aead, serverKey, BigEndian(1, 4) + BigEndian(0, 8), ss[3].message, []);
    && text.Some? && |text.value| >= 32
    && text.value[..32] == env.p.hmac(serverKey, ss[0].message + ss[1].message + ss[2].message)
    && c.sharedSecret == c.keys.value.exporterSecret
  }

  ghost predicate Inv(env: Env, c: Conn, ss: seq<Success>) {
    && OrderedMessages(c, ss)
    && (c.state.AtInit? ==> NoEphemeralKey(c))
    && (|ss| > 0 ==> HelloFacts(env, c, ss))
    && (|ss| > 1 ==> c.remoteKEMPK.Some?)
    && (|ss| > 2 ==> KeyFacts(env, c, ss))
    && (|ss| > 3 ==> FinishedFacts(env, c, ss))
  }

  // ---------------------------------------------------------------- calls that make no progress

  /** `d` differs from `c` at most in fields that the handshake, where it stands, has still to set (and in the
      bookkeeping that it never reads). */
  predicate TouchesNothingInUse(c: Conn, d: Conn) {
    && d.state == c.state && d.transcript == c.transcript && d.sharedSecret == c.sharedSecret
    && d.streamID == c.streamID && d.sessionID == c.sessionID
    && (Rank(c.state) == 0 ==> NoEphemeralKey(c) ==> NoEphemeralKey(d))
    && (Rank(c.state) >= 1 ==> d.clientRandom == c.clientRandom && d.kem == c.kem
                               && d.localKEMPK == c.localKEMPK && d.localKEMSK == c.localKEMSK)
    && (Rank(c.state) >= 2 ==> d.remoteKEMPK == c.remoteKEMPK)
    && (Rank(c.state) >= 3 ==> d.keys == c.keys && d.clientAEAD == c.clientAEAD && d.serverAEAD == c.serverAEAD)
  }

  lemma ClientHelloFailure(env: Env, c: Conn, rng: Rng)
    ensures !ClientHelloStep(env, c, rng).1.Ok? ==> TouchesNothingInUse(c, ClientHelloStep(env, c, rng).0)
  {}

  lemma ServerHelloFailure(env: Env, c: Conn, data: Bytes)
    ensures !ServerHelloStep(env, c, data).1.Ok? ==> TouchesNothingInUse(c, ServerHelloStep(env, c, data).0)
  {}

  lemma ClientKeyFailure(env: Env, c: Conn, rng: Rng)
    ensures !ClientKeyStep(env, c, rng).1.Ok? ==> TouchesNothingInUse(c, ClientKeyStep(env, c, rng).0)
  {}

  lemma FinishedFailure(env: Env, c: Conn, data: Bytes)
    ensures !FinishedStep(env, c, data).1.Ok? ==> FinishedStep(env, c, data).0 == c
  {}

  /** A call that fails or panics, a key update and the environment change neither state nor transcript, and no
      field in use. */
  lemma OnlySuccessesProgress(env: Env, c: Conn, call: Call)
    ensures var (d, o) := Step(env, c, call); SuccessOf(Entry(call, o)) == [] ==> TouchesNothingInUse(c, d)
  {
    match call
    case ClientHelloCall(rng) => ClientHelloFailure(env, c, rng);
    case ServerHelloCall(data) => ServerHelloFailure(env, c, data);
    case ClientKeyCall(rng) => ClientKeyFailure(env, c, rng);
    case FinishedCall(data) => FinishedFailure(env, c, data);
    case _ =>
  }

  lemma NoProgressKeeps(env: Env, c: Conn, d: Conn, ss: seq<Success>)
    requires Inv(env, c, ss) && TouchesNothingInUse(c, d)
    ensures Inv(env, d, ss)
  {
    if |ss| > 2 { SameKeyFacts(env, c, d, ss, ss); }
  }

  lemma SameKeyFacts(env: Env, c: Conn, d: Conn, ss: seq<Success>, ss': seq<Success>)
    requires |ss| > 2 && ss <= ss' && c.kem.Some? && c.remoteKEMPK.Some? && KeyFacts(env, c, ss)
    requires d.kem == c.kem && d.remoteKEMPK == c.remoteKEMPK && d.keys == c.keys
    requires d.clientAEAD == c.clientAEAD && d.serverAEAD == c.serverAEAD
    ensures KeyFacts(env, d, ss')
  {
    var rng, ecdhe, sig :| KeysCameFrom(env, c, ss[2].message, rng, ecdhe, sig);
    assert KeysCameFrom(env, d, ss'[2].message, rng, ecdhe, sig);
  }

  // ---------------------------------------------------------------- calls that succeed

  /** Only a KEM without nil parts generates keys, and they have its sizes. */
  lemma GeneratedSizes(env: Env, k: Kem, rng: Rng, n: nat)
    requires GetKem(env.opts.suite.kem) == Some(k) && Generate(env.p, k, rng, n).0.Ok?
    ensures Built(k) && |Generate(env.p, k, rng, n).0.value.pk| == PublicKeySize(k)
  {
    assert Generate(env.p, NilKem, rng, n) == (Panic, n);
    assert !k.HybridKem?;
    TreeSizes(env.p, k, rng, n, []);
  }

  lemma ClientHelloSuccess(env: Env, c: Conn, rng: Rng)
    requires NoEphemeralKey(c)
    ensures var (d, o) := ClientHelloStep(env, c, rng);
            o.Ok? ==>
              && c.state.AtInit? && d.state.AtClientHello? && d.transcript == c.transcript + o.value
              && d.streamID == c.streamID && d.sessionID == c.sessionID
              && HelloFacts(env, d, [Success(ClientHelloKind, o.value)])
  {
    if ClientHelloStep(env, c, rng).1.Ok? && env.opts.mode != MODE_PQ_ONLY {
      GeneratedSizes(env, GetKem(env.opts.suite.kem).value, rng, 1);
    }
  }

  lemma ServerHelloSuccess(env: Env, c: Conn, data: Bytes)
    ensures var (d, o) := ServerHelloStep(env, c, data);
            o.Ok? ==>
              && c.state.AtClientHello? && d.remoteKEMPK.Some?
              && d == c.(state := AtServerHello, transcript := c.transcript + data,
                         serverRandom := d.serverRandom, remoteKEMPK := d.remoteKEMPK)
  {}

  lemma KeysInstalledSuccess(env: Env, c: Conn, keys: KeySet, ct: Bytes)
    requires c.keys == Some(keys)
    ensures var (d, o) := KeysInstalled(env, c, keys, ct);
            o.Ok? ==>
              && d == c.(state := AtClientKey, transcript := c.transcript + o.value,
                         clientAEAD := Some(Aead(env.opts.suite.aead, keys.clientKey)),
                         serverAEAD := Some(Aead(env.opts.suite.aead, keys.serverKey)))
              && exists sig: Bytes :: o.value == ClientKeyBytes(ct, [], sig)
  {}

  lemma ClientKeySuccess(env: Env, c: Conn, rng: Rng, ss: seq<Success>)
    requires |ss| == 2 && c.kem.Some? && c.remoteKEMPK.Some?
    requires env.opts.mode == MODE_HYBRID ==> c.localKEMSK.Some?
    ensures var (d, o) := ClientKeyStep(env, c, rng);
            o.Ok? ==>
              && c.state.AtServerHello?
              && d == c.(state := AtClientKey, transcript := c.transcript + o.value,
                         keys := d.keys, clientAEAD := d.clientAEAD, serverAEAD := d.serverAEAD)
              && KeyFacts(env, d, ss + [Success(ClientKeyKind, o.value)])
  {
    var (d, o) := ClientKeyStep(env, c, rng);
    if o.Ok? {
      var (e, n) := Encapsulate(env.p, c.kem.value, rng, 0, c.remoteKEMPK.value);
      var ecdhe := if MixesEcdhe(env, c) then Drawn(rng, n, 32) else [];
      var keys := DeriveKeys(env.p, e.value.ss, ecdhe, env.opts.suite.hash);
      KeysInstalledSuccess(env, c.(keys := Some(keys)), keys, e.value.ct);
      var sig :| o.value == ClientKeyBytes(e.value.ct, [], sig);
      assert KeysCameFrom(env, d, (ss + [Success(ClientKeyKind, o.value)])[2].message, rng, ecdhe, sig);
    }
  }

  lemma FinishedSuccess(env: Env, c: Conn, data: Bytes, ss: seq<Success>)
    requires |ss| == 3 && c.transcript == Joined(ss) && c.streamID == DEFAULT_STREAM_ID && c.keys.Some?
    requires c.serverAEAD == Some(Aead(env.opts.suite.aead, c.keys.value.serverKey))
    ensures var (d, o) := FinishedStep(env, c, data);
            o.Ok? ==>
              && c.state.AtClientKey? && d == c.(state := AtEstablished, sharedSecret := d.sharedSecret)
              && FinishedFacts(env, d, ss + [Success(FinishedKind, data)])
  {}

  lemma NextInOrder(c: Conn, d: Conn, ss: seq<Success>, s: Success)
    requires OrderedMessages(c, ss) && |ss| < 4 && s.kind == ORDER[|ss|]
    requires d.state == [AtClientHello, AtServerHello, AtClientKey, AtEstablished][|ss|]
    requires d.transcript == c.transcript + if |ss| < 3 then s.message else []
    requires d.streamID == c.streamID && d.sessionID == c.sessionID
    ensures OrderedMessages(d, ss + [s])
  {
    assert Joined(ss + [s]) == Joined(ss) + if |ss| < 3 then s.message else [];
  }

  /** One more message in its turn. */
  lemma ProgressKeeps(env: Env, c: Conn, d: Conn, ss: seq<Success>, s: Success)
    requires Inv(env, c, ss) && |ss| < 4 && s.kind == ORDER[|ss|]
    requires d.state == [AtClientHello, AtServerHello, AtClientKey, AtEstablished][|ss|]
    requires d.transcript == c.transcript + if |ss| < 3 then s.message else []
    requires d.streamID == c.streamID && d.sessionID == c.sessionID
    requires |ss| > 0 ==> d.kem == c.kem && d.clientRandom == c.clientRandom
                          && d.localKEMPK == c.localKEMPK && d.localKEMSK == c.localKEMSK
    requires |ss| == 0 ==> HelloFacts(env, d, [s])
    requires |ss| > 0 ==> d.remoteKEMPK.Some?
    requires |ss| == 2 ==> d.kem.Some? && KeyFacts(env, d, ss + [s])
    requires |ss| == 3 ==> d.remoteKEMPK == c.remoteKEMPK && d.keys == c.keys && d.clientAEAD == c.clientAEAD
                           && d.serverAEAD == c.serverAEAD && d.keys.Some? && FinishedFacts(env, d, ss + [s])
    ensures Inv(env, d, ss + [s])
  {
    NextInOrder(c, d, ss, s);
    if |ss| > 0 { SameHelloFacts(env, c, d, ss, ss + [s]); } else { assert ss + [s] == [s]; }
    if |ss| == 3 { SameKeyFacts(env, c, d, ss, ss + [s]); }
  }

  lemma SameHelloFacts(env: Env, c: Conn, d: Conn, ss: seq<Success>, ss': seq<Success>)
    requires |ss| > 0 && ss <= ss' && HelloFacts(env, c, ss) && d.sessionID == c.sessionID
    requires d.kem == c.kem && d.clientRandom == c.clientRandom
    requires d.localKEMPK == c.localKEMPK && d.localKEMSK == c.localKEMSK
    ensures HelloFacts(env, d, ss')
  {
    assert HelloMessage(env, c) == HelloMessage(env, d);
  }

  lemma ClientHelloKeeps(env: Env, c: Conn, ss: seq<Success>, rng: Rng)
    requires Inv(env, c, ss) && ClientHelloStep(env, c, rng).1.Ok?
    ensures var (d, o) := ClientHelloStep(env, c, rng); Inv(env, d, ss + [Success(ClientHelloKind, o.value)])
  {
    ClientHelloSuccess(env, c, rng);
    var (d, o) := ClientHelloStep(env, c, rng);
    assert ss == [];
    ProgressKeeps(env, c, d, ss, Success(ClientHelloKind, o.value));
  }

  lemma ServerHelloKeeps(env: Env, c: Conn, ss: seq<Success>, data: Bytes)
    requires Inv(env, c, ss) && ServerHelloStep(env, c, data).1.Ok?
    ensures Inv(env, ServerHelloStep(env, c, data).0, ss + [Success(ServerHelloKind, data)])
  {
    ServerHelloSuccess(env, c, data);
    ProgressKeeps(env, c, ServerHelloStep(env, c, data).0, ss, Success(ServerHelloKind, data));
  }

  lemma ClientKeyKeeps(env: Env, c: Conn, ss: seq<Success>, rng: Rng)
    requires Inv(env, c, ss) && ClientKeyStep(env, c, rng).1.Ok?
    ensures var (d, o) := ClientKeyStep(env, c, rng); Inv(env, d, ss + [Success(ClientKeyKind, o.value)])
  {
    assert c.state.AtServerHello?;
    ClientKeySuccess(env, c, rng, ss);
    var (d, o) := ClientKeyStep(env, c, rng);
    ProgressKeeps(env, c, d, ss, Success(ClientKeyKind, o.value));
  }

  lemma FinishedKeeps(env: Env, c: Conn, ss: seq<Success>, data: Bytes)
    requires Inv(env, c, ss) && FinishedStep(env, c, data).1.Ok?
    ensures Inv(env, FinishedStep(env, c, data).0, ss + [Success(FinishedKind, data)])
  {
    assert c.state.AtClientKey?;
    FinishedSuccess(env, c, data, ss);
    ProgressKeeps(env, c, FinishedStep(env, c, data).0, ss, Success(FinishedKind, data));
  }

  lemma StepKeeps(env: Env, c: Conn, ss: seq<Success>, call: Call)
    requires Inv(env, c, ss)
    ensures var (d, o) := Step(env, c, call); Inv(env, d, ss + SuccessOf(Entry(call, o)))
  {
    var (d, o) := Step(env, c, call);
    var made := SuccessOf(Entry(call, o));
    if made == [] {
      OnlySuccessesProgress(env, c, call);
      NoProgressKeeps(env, c, d, ss);
      assert ss + [] == ss;
    } else {
      match call
      case ClientHelloCall(rng) => ClientHelloKeeps(env, c, ss, rng);
      case ServerHelloCall(data) => ServerHelloKeeps(env, c, ss, data);
      case ClientKeyCall(rng) => ClientKeyKeeps(env, c, ss, rng);
      case FinishedCall(data) => FinishedKeeps(env, c, ss, data);
    }
  }

  /** The invariant holds after every run, of the steps that succeeded in it. */
  lemma {:induction false} RunKeeps(env: Env, now: int, calls: seq<Call>)
    ensures Inv(env, Run(env, now, calls).conn, Successes(Run(env, now, calls).log))
  {
    if calls != [] {
      var before, call := Run(env, now, calls[..|calls| - 1]), calls[|calls| - 1];
      RunKeeps(env, now, calls[..|calls| - 1]);
      StepKeeps(env, before.conn, Successes(before.log), call);
      assert Run(env, now, calls).log[..|before.log|] == before.log;
    }
  }
}
