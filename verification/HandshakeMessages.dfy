/** When each call of the handshake succeeds, and what its message or its keys then are: for every run, in terms of the
    libraries and of what the call draws or is given. */
module HandshakeMessages {
  import opened Bytes
  import opened Options
  import opened HelloCodec
  import opened Primitives
  import opened Kem
  import opened KeySchedule
  import opened Handshake
  import opened HandshakeInvariant
  import opened HandshakeTheorems

  // ---------------------------------------------------------------- ClientHello

  /** What ClientHello needs: its random, a KEM, and outside PQ-only mode a key pair of a KEM without nil parts. */
  predicate HelloSucceeds(env: Env, rng: Rng) {
    && rng(0).ok
    && if env.opts.mode == MODE_PQ_ONLY then 0 <= env.opts.suite.kem <= 3
       else
         && 0 <= env.opts.suite.kem <= 2
         && (env.opts.suite.kem == 0 ==> rng(1).ok && env.p.x25519(Drawn(rng, 1, 32), BASEPOINT) != Zeros(32))
  }

  /** The single KEM of a code. */
  function SingleKem(code: int): Kem {
    if code == 0 then X25519Kem else if code == 1 then Mlkem768Stub else Mlkem1024Stub
  }

  /** The extension of the message: the PQ-only mark, or the key that the reads after the first generate. */
  predicate ExtensionDrawn(env: Env, rng: Rng, e: Extension) {
    if env.opts.mode == MODE_PQ_ONLY then e == Extension(0xFF01, [1])
    else
      var pair := Generate(env.p, SingleKem(env.opts.suite.kem), rng, 1).0;
      pair.Ok? && e == Extension(0x0033, pair.value.pk)
  }

  lemma HelloSucceedsExactlyWhen(env: Env, c: Conn, rng: Rng)
    requires c.state.AtInit?
    ensures ClientHelloStep(env, c, rng).1.Ok? <==> HelloSucceeds(env, rng)
  {
    assert Generate(env.p, NilKem, rng, 1) == (Panic, 1);
  }

  lemma HelloKeepsItsPair(env: Env, c: Conn, rng: Rng)
    requires c.state.AtInit? && NoEphemeralKey(c) && HelloSucceeds(env, rng)
    ensures var d := ClientHelloStep(env, c, rng).0;
            && d.clientRandom == Drawn(rng, 0, 32) && d.sessionID == c.sessionID
            && ClientHelloStep(env, c, rng).1 == Ok(ClientHelloBytes(HelloMessage(env, d)))
            && if env.opts.mode == MODE_PQ_ONLY then NoEphemeralKey(d)
               else
                 var pair := Generate(env.p, SingleKem(env.opts.suite.kem), rng, 1).0;
                 pair.Ok? && d.localKEMPK == Some(pair.value.pk) && d.localKEMSK == Some(pair.value.sk)
  {}

  lemma InvariantHello(env: Env, c: Conn, ss: seq<Success>, rng: Rng)
    requires Inv(env, c, ss) && c.state.AtInit? && HelloSucceeds(env, rng)
    ensures var (d, o) := ClientHelloStep(env, c, rng);
            && o.Ok?
            && exists e: Extension ::
                 && ExtensionDrawn(env, rng, e)
                 && ReadClientHello(o.value) == Some(HelloFields(1, Drawn(rng, 0, 32), [], [e]))
  {
    HelloKeepsItsPair(env, c, rng);
    var d := ClientHelloStep(env, c, rng).0;
    var m := HelloMessage(env, d);
    assert |m.extensions| == 1 && m.extensions == [m.extensions[0]];
    if env.opts.mode != MODE_PQ_ONLY { TreeSizes(env.p, SingleKem(env.opts.suite.kem), rng, 1, []); }
    assert HelloFits(m);
    ClientHelloReadsBack(m);
    assert ExtensionDrawn(env, rng, m.extensions[0]);
  }

  /** In every run that is still in the initial state, ClientHello succeeds exactly if it gets its random, a KEM and,
      where the mode wants one, a key pair; and the message reads back as version 1, the 32 bytes drawn first, no
      session ID and one extension with the public key generated from the reads that follow. */
  lemma ClientHelloCarriesWhatItDraws(env: Env, now: int, calls: seq<Call>, rng: Rng)
    requires Run(env, now, calls).conn.state.AtInit?
    ensures var o := ClientHelloStep(env, Run(env, now, calls).conn, rng).1;
            && (o.Ok? <==> HelloSucceeds(env, rng))
            && (o.Ok? ==>
                  exists e: Extension ::
                    && ExtensionDrawn(env, rng, e)
                    && ReadClientHello(o.value) == Some(HelloFields(1, Drawn(rng, 0, 32), [], [e])))
  {
    RunKeeps(env, now, calls);
    var c := Run(env, now, calls).conn;
    HelloSucceedsExactlyWhen(env, c, rng);
    if HelloSucceeds(env, rng) { InvariantHello(env, c, Successes(Run(env, now, calls).log), rng); }
  }

  /** In PQ-only mode with options that validation accepts, no run uses a classical algorithm: the KEM is never X25519,
      no classical key goes out, and no signature is Ed25519's. */
  lemma PqOnlyIsPostQuantum(env: Env, now: int, calls: seq<Call>)
    requires Acceptable(env.opts) && env.opts.mode == MODE_PQ_ONLY
    ensures var c, ss := Run(env, now, calls).conn, Successes(Run(env, now, calls).log);
            && c.kem != Some(X25519Kem) && env.opts.suite.sign != ED25519
            && (c.state != AtInit ==>
                  && |ss| > 0
                  && var only := [Extension(0xFF01, [1])];
                     ReadClientHello(ss[0].message) == Some(HelloFields(1, c.clientRandom, [], only)))
  {
    KemIsTheSuites(env, now, calls);
    if Run(env, now, calls).conn.state != AtInit { FirstMessageDecodes(env, now, calls); }
  }

  lemma {:induction false} KemIsTheSuites(env: Env, now: int, calls: seq<Call>)
    ensures var c := Run(env, now, calls).conn; c.kem.None? || c.kem == GetKem(env.opts.suite.kem)
  {
    if calls != [] {
      var before := calls[..|calls| - 1];
      KemIsTheSuites(env, now, before);
      StepKeepsKem(env, Run(env, now, before).conn, calls[|calls| - 1]);
    }
  }

  lemma StepKeepsKem(env: Env, c: Conn, call: Call)
    ensures Step(env, c, call).0.kem == c.kem || Step(env, c, call).0.kem == GetKem(env.opts.suite.kem)
  {}

  // ---------------------------------------------------------------- ServerHello

  /** A signature is checked if the suite's signer is known and there are certificate and signature: by Ed25519 over the
      ClientHello, or by its length alone. */
  predicate SignatureHolds(env: Env, m: ServerHello, clientHello: Bytes) {
    m.certificate != [] && m.signature != [] ==>
      && (env.opts.suite.sign == 0 ==> |m.certificate| == 32 && env.p.edVerify(m.certificate, clientHello, m.signature))
      && (env.opts.suite.sign == 1 || env.opts.suite.sign == 2 ==> |m.signature| >= 32)
  }

  lemma InvariantServerHello(env: Env, c: Conn, ss: seq<Success>, data: Bytes)
    requires Inv(env, c, ss) && c.state.AtClientHello?
    ensures var (d, o) := ServerHelloStep(env, c, data);
            var m := env.parser(data);
            && |ss| == 1
            && (o.Ok? <==> m.Some? && m.value.suite == env.opts.suite && SignatureHolds(env, m.value, ss[0].message))
            && d.serverRandom == (if m.Some? then m.value.random else c.serverRandom)
            && d.remoteKEMPK == (if m.Some? && m.value.suite == env.opts.suite then Some(m.value.kemPublicKey)
                                 else c.remoteKEMPK)
  {
    assert c.transcript == ss[0].message;
  }

  /** In every run that awaits a ServerHello, whatever the parser: a message is accepted exactly if it parses, names the
      client's suite, and its signature, if it is one that is checked, holds over exactly the ClientHello sent. The
      random is taken from any message that parses, the key from any with the right suite, even if it is refused. */
  lemma ServerHelloAcceptedExactlyWhen(env: Env, now: int, calls: seq<Call>, data: Bytes)
    requires Run(env, now, calls).conn.state.AtClientHello?
    ensures var c, ss := Run(env, now, calls).conn, Successes(Run(env, now, calls).log);
            var (d, o) := ServerHelloStep(env, c, data);
            var m := env.parser(data);
            && |ss| == 1
            && (o.Ok? <==> m.Some? && m.value.suite == env.opts.suite && SignatureHolds(env, m.value, ss[0].message))
            && d.serverRandom == (if m.Some? then m.value.random else c.serverRandom)
            && d.remoteKEMPK == (if m.Some? && m.value.suite == env.opts.suite then Some(m.value.kemPublicKey)
                                 else c.remoteKEMPK)
  {
    RunKeeps(env, now, calls);
    InvariantServerHello(env, Run(env, now, calls).conn, Successes(Run(env, now, calls).log), data);
  }

  // ---------------------------------------------------------------- keys

  /** The 96 bytes of a key set in order. */
  function Joint(k: KeySet): Bytes {
    k.clientKey + k.serverKey + k.exporterSecret
  }

  /** HKDF as the protocol uses it. */
  function ProtocolKeys(env: Env, secret: Bytes): Bytes {
    var hash := env.opts.suite.hash;
    var h := if hash == 1 then SHA384 else if hash == 2 then SHA512 else SHA256;
    Segment(env.p.hkdf(h, secret, Ascii("QZMQ-v1-Salt"), Ascii("QZMQ-v1-Keys")), 0, 96)
  }

  lemma DerivedAreProtocolKeys(env: Env, s: Bytes, e: Bytes)
    ensures Joint(DeriveKeys(env.p, s, e, env.opts.suite.hash)) == ProtocolKeys(env, s + e)
  {
    KeysComeFromHkdf(env.p, s, e, env.opts.suite.hash);
  }

  // ---------------------------------------------------------------- ClientKey

  /** The signature in a ClientKey message: over the two messages before it, if there are signer and key. */
  predicate SignatureOf(env: Env, key: Option<Bytes>, messages: Bytes, sig: Bytes) {
    if key.None? || env.opts.suite.sign < 0 || env.opts.suite.sign > 2 then sig == []
    else if env.opts.suite.sign == 0 then sig == env.p.edSign(key.value, messages)
    else |sig| == (if env.opts.suite.sign == 1 then 2420 else 3293)
  }

  /** What the client mixes into its keys. */
  function EcdheDrawn(env: Env, rng: Rng, n: nat): Bytes {
    if env.opts.mode == MODE_HYBRID then Drawn(rng, n, 32) else []
  }

  lemma InstalledKeysSent(env: Env, c: Conn, keys: KeySet, ct: Bytes)
    requires |keys.clientKey| == |keys.serverKey| == 32
    ensures KeysInstalled(env, c, keys, ct).1.Ok? <==>
            && (env.opts.suite.aead == AES256GCM || env.opts.suite.aead == CHACHA20POLY1305)
            && !MalformedSigningKey(env, c)
    ensures var (d, o) := KeysInstalled(env, c, keys, ct);
            o.Ok? ==>
              exists sig: Bytes ::
                SignatureOf(env, c.localSignKey, c.transcript, sig) && o.value == ClientKeyBytes(ct, [], sig)
    ensures KeysInstalled(env, c, keys, ct).0.keys == c.keys
  {
    var (d, o) := KeysInstalled(env, c, keys, ct);
    if o.Ok? {
      var sig := if KnownSigner(env.opts.suite.sign) && c.localSignKey.Some?
                 then Sign(env.p, env.opts.suite.sign, c.localSignKey.value, c.transcript).value else [];
      assert SignatureOf(env, c.localSignKey, c.transcript, sig) && o.value == ClientKeyBytes(ct, [], sig);
    }
  }

  /** The keys are replaced once the secrets are there, whether or not the call then succeeds. */
  predicate KeysAfter(env: Env, c: Conn, d: Conn, rng: Rng)
    requires c.kem.Some? && c.remoteKEMPK.Some?
  {
    var (e, n) := Encapsulate(env.p, c.kem.value, rng, 0, c.remoteKEMPK.value);
    if e.Ok? && (env.opts.mode == MODE_HYBRID ==> rng(n).ok)
    then d.keys.Some? && Joint(d.keys.value) == ProtocolKeys(env, e.value.ss + EcdheDrawn(env, rng, n))
    else d.keys == c.keys
  }

  lemma InvariantClientKey(env: Env, c: Conn, ss: seq<Success>, rng: Rng)
    requires Inv(env, c, ss) && c.state.AtServerHello?
    ensures |ss| == 2 && c.kem.Some? && c.remoteKEMPK.Some?
    ensures var (d, o) := ClientKeyStep(env, c, rng);
            && (o.Ok? <==> GetsToSigning(env, c, rng) && !MalformedSigningKey(env, c))
            && KeysAfter(env, c, d, rng)
            && (o.Ok? ==>
                  var (e, n) := Encapsulate(env.p, c.kem.value, rng, 0, c.remoteKEMPK.value);
                  e.Ok? && exists sig: Bytes ::
                       && SignatureOf(env, c.localSignKey, ss[0].message + ss[1].message, sig)
                       && o.value == ClientKeyBytes(e.value.ct, [], sig))
  {
    assert c.transcript == ss[0].message + ss[1].message;
    var (e, n) := Encapsulate(env.p, c.kem.value, rng, 0, c.remoteKEMPK.value);
    if e.Ok? && (MixesEcdhe(env, c) ==> rng(n).ok) {
      var ecdhe := EcdheDrawn(env, rng, n);
      var keys := DeriveKeys(env.p, e.value.ss, ecdhe, env.opts.suite.hash);
      DerivedAreProtocolKeys(env, e.value.ss, ecdhe);
      InstalledKeysSent(env, c.(keys := Some(keys)), keys, e.value.ct);
    }
  }

  /** In every run that is to send ClientKey: it succeeds exactly if the encapsulation to the server's key does, the
      32 bytes of hybrid mode are drawn, the AEAD is known and the signing key, if any, is well formed. The message then
      holds that encapsulation's ciphertext and room for a signature over the two messages before it. The keys are HKDF
      over the encapsulated secret, followed in hybrid mode by the 32 bytes. */
  lemma ClientKeyCarriesTheSecret(env: Env, now: int, calls: seq<Call>, rng: Rng)
    requires Run(env, now, calls).conn.state.AtServerHello?
    ensures var c, ss := Run(env, now, calls).conn, Successes(Run(env, now, calls).log);
            var (d, o) := ClientKeyStep(env, c, rng);
            && |ss| == 2 && c.kem.Some? && c.remoteKEMPK.Some?
            && (o.Ok? <==> GetsToSigning(env, c, rng) && !MalformedSigningKey(env, c))
            && KeysAfter(env, c, d, rng)
            && (o.Ok? ==>
                  var (e, n) := Encapsulate(env.p, c.kem.value, rng, 0, c.remoteKEMPK.value);
                  e.Ok? && exists sig: Bytes ::
                       && SignatureOf(env, c.localSignKey, ss[0].message + ss[1].message, sig)
                       && o.value == ClientKeyBytes(e.value.ct, [], sig))
  {
    RunKeeps(env, now, calls);
    InvariantClientKey(env, Run(env, now, calls).conn, Successes(Run(env, now, calls).log), rng);
  }

  // ---------------------------------------------------------------- Finished and rotation

  /** The text that a Finished message opens to under the server key, as the first message of stream 1. */
  function Opened(env: Env, keys: KeySet, data: Bytes): Option<Bytes> {
    env.p.open(env.opts.suite.aead, keys.serverKey, BigEndian(1, 4) + BigEndian(0, 8), data, [])
  }

  lemma InvariantFinished(env: Env, c: Conn, ss: seq<Success>, data: Bytes)
    requires Inv(env, c, ss) && c.state.AtClientKey?
    ensures |ss| == 3 && c.keys.Some?
    ensures var (d, o) := FinishedStep(env, c, data);
            var text := Opened(env, c.keys.value, data);
            && (o.Ok? <==>
                  && text.Some? && |text.value| >= 32
                  && text.value[..32]
                     == env.p.hmac(c.keys.value.serverKey, ss[0].message + ss[1].message + ss[2].message))
            && d == if o.Ok? then c.(state := AtEstablished, sharedSecret := c.keys.value.exporterSecret) else c
  {
    assert c.transcript == ss[0].message + ss[1].message + ss[2].message;
  }

  /** In every run that awaits Finished, a message establishes the connection exactly if it opens under the server key
      to a text that starts with HMAC of the three messages under that key; any other message changes nothing. */
  lemma FinishedAcceptedExactlyWhen(env: Env, now: int, calls: seq<Call>, data: Bytes)
    requires Run(env, now, calls).conn.state.AtClientKey?
    ensures var c, ss := Run(env, now, calls).conn, Successes(Run(env, now, calls).log);
            var (d, o) := FinishedStep(env, c, data);
            && |ss| == 3 && c.keys.Some?
            && var text := Opened(env, c.keys.value, data);
            && (o.Ok? <==>
                  && text.Some? && |text.value| >= 32
                  && text.value[..32]
                     == env.p.hmac(c.keys.value.serverKey, ss[0].message + ss[1].message + ss[2].message))
            && d == if o.Ok? then c.(state := AtEstablished, sharedSecret := c.keys.value.exporterSecret) else c
  {
    RunKeeps(env, now, calls);
    InvariantFinished(env, Run(env, now, calls).conn, Successes(Run(env, now, calls).log), data);
  }

  lemma InvariantRotation(env: Env, c: Conn, ss: seq<Success>, rng: Rng, at: int)
    requires Inv(env, c, ss) && c.state.AtEstablished?
    ensures var o := UpdateKeysStep(env, c, rng, at).1;
            && c.keys.Some? && (o.Ok? <==> rng(0).ok)
            && (o.Ok? ==> Joint(o.value) == ProtocolKeys(env, Drawn(rng, 0, 32) + c.keys.value.exporterSecret))
  {
    DerivedAreProtocolKeys(env, Drawn(rng, 0, 32), c.sharedSecret);
  }

  /** In every Established run a rotation succeeds exactly if its read does, and gives out HKDF over the 32 bytes drawn
      followed by the exporter secret of the handshake. */
  lemma RotationMixesTheExporterSecret(env: Env, now: int, calls: seq<Call>, rng: Rng, at: int)
    requires Run(env, now, calls).conn.state.AtEstablished?
    ensures var c := Run(env, now, calls).conn;
            var o := UpdateKeysStep(env, c, rng, at).1;
            && c.keys.Some? && (o.Ok? <==> rng(0).ok)
            && (o.Ok? ==> Joint(o.value) == ProtocolKeys(env, Drawn(rng, 0, 32) + c.keys.value.exporterSecret))
  {
    RunKeeps(env, now, calls);
    InvariantRotation(env, Run(env, now, calls).conn, Successes(Run(env, now, calls).log), rng, at);
  }
}
