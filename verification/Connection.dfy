/** The connection object of connection.go: its methods change its fields as the steps of module Handshake say, so
    that every connection is always where some run of calls leads. */
module Connection {
  import opened Bytes
  import opened Options
  import opened HelloCodec
  import opened Primitives
  import opened Kem
  import opened KeySchedule
  import opened Handshake
  import opened HandshakeInvariant

  class Connection {
    const env: Env
    ghost const born: int
    /** Every call so far, with what it met. */
    ghost var history: seq<Call>

    var state: State
    var clientRandom: Bytes
    var serverRandom: Bytes
    var transcript: Bytes
    var sessionID: Bytes
    var kem: Option<Kem>
    var localKEMPK: Option<Bytes>
    var localKEMSK: Option<Bytes>
    var remoteKEMPK: Option<Bytes>
    var clientAEAD: Option<Aead>
    var serverAEAD: Option<Aead>
    var keys: Option<KeySet>
    var sharedSecret: Bytes
    var lastKeyUpdate: int
    var messageCount: uint64
    var byteCount: uint64
    var streamID: uint32
    var localSignKey: Option<Bytes>

    function View(): Conn
      reads this
    {
      Conn(state, clientRandom, serverRandom, transcript, sessionID, kem, localKEMPK, localKEMSK, remoteKEMPK,
           clientAEAD, serverAEAD, keys, sharedSecret, lastKeyUpdate, messageCount, byteCount, streamID, localSignKey)
    }

    /** The connection is where its calls lead. */
    ghost predicate Valid()
      reads this
    {
      Run(env, born, history).conn == View()
    }

    constructor (env: Env, now: int)
      ensures Valid() && this.env == env && history == [] && View() == NewConn(now)
    {
      this.env, born, history := env, now, [];
      state, streamID, lastKeyUpdate := AtInit, DEFAULT_STREAM_ID, now;
      clientRandom, serverRandom, transcript, sessionID, sharedSecret := [], [], [], [], [];
      kem, localKEMPK, localKEMSK, remoteKEMPK := None, None, None, None;
      clientAEAD, serverAEAD, keys, localSignKey := None, None, None, None;
      messageCount, byteCount := 0, 0;
    }

    ghost method Record(c: Conn, call: Call)
      requires Run(env, born, history).conn == c && Step(env, c, call).0 == View()
      modifies `history
      ensures Valid() && history == old(history) + [call]
    {
      RunOneMore(env, born, history, call);
      history := history + [call];
    }

    /** Whatever holds after every run holds of every connection. */
    lemma KeepsTheInvariant()
      requires Valid()
      ensures Inv(env, View(), Successes(Run(env, born, history).log))
    {
      RunKeeps(env, born, history);
    }

    // -------------------------------------------------------------- the bodies under the lock

    method ClientHelloLocked(rng: Rng) returns (r: Outcome<Bytes>)
      modifies `clientRandom, `kem, `localKEMPK, `localKEMSK, `transcript, `state
      ensures (View(), r) == ClientHelloStep(env, old(View()), rng) && history == old(history)
    {
      if state != AtInit { return Error; }
      clientRandom := Drawn(rng, 0, 32);
      if !rng(0).ok { return Error; }
      kem := GetKem(env.opts.suite.kem);
      if kem.None? { return Error; }
      if env.opts.mode != MODE_PQ_ONLY {
        var generated := Generate(env.p, kem.value, rng, 1).0;
        match generated {
          case Panic => return Panic;
          case Error =>
            localKEMPK, localKEMSK := None, None;
            return Error;
          case Ok(pair) => localKEMPK, localKEMSK := Some(pair.pk), Some(pair.sk);
        }
      }
      r := SendHello();
    }

    method SendHello() returns (r: Outcome<Bytes>)
      modifies `transcript, `state
      ensures (View(), r) == HelloSent(env, old(View())) && history == old(history)
    {
      var extensions: seq<Extension> := [];
      if env.opts.mode == MODE_PQ_ONLY {
        extensions := extensions + [Extension(EXT_PQ_ONLY, [1])];
      }
      if localKEMPK.Some? {
        extensions := extensions + [Extension(EXT_KEY_SHARE, localKEMPK.value)];
      }
      var msg := ClientHello(PROTOCOL_VERSION, clientRandom, env.opts.suite, sessionID, extensions);
      assert msg == HelloMessage(env, View());
      var buf, offset := MarshalClientHello(msg);
      var data := buf[..offset];
      transcript := transcript + data;
      state := AtClientHello;
      return Ok(data);
    }

    method ServerHelloLocked(data: Bytes) returns (r: Outcome<()>)
      modifies `serverRandom, `remoteKEMPK, `transcript, `state
      ensures (View(), r) == ServerHelloStep(env, old(View()), data) && history == old(history)
    {
      if state != AtClientHello { return Error; }
      var parsed := env.parser(data);
      if parsed.None? { return Error; }
      var msg := parsed.value;
      serverRandom := msg.random;
      if msg.suite != env.opts.suite { return Error; }
      remoteKEMPK := Some(msg.kemPublicKey);
      if KnownSigner(env.opts.suite.sign) && |msg.certificate| > 0 && |msg.signature| > 0 {
        var verdict := Verify(env.p, env.opts.suite.sign, msg.certificate, transcript, msg.signature);
        match verdict {
          case Panic => return Panic;
          case Error => return Error;
          case Ok(valid) => if !valid { return Error; }
        }
      }
      transcript := transcript + data;
      state := AtServerHello;
      return Ok(());
    }

    method ClientKeyLocked(rng: Rng) returns (r: Outcome<Bytes>)
      modifies this
      ensures (View(), r) == ClientKeyStep(env, old(View()), rng) && history == old(history)
    {
      if state != AtServerHello { return Error; }
      if kem.None? || remoteKEMPK.None? { return Panic; }
      var encapsulated, n := Encapsulate(env.p, kem.value, rng, 0, remoteKEMPK.value).0,
                             Encapsulate(env.p, kem.value, rng, 0, remoteKEMPK.value).1;
      match encapsulated {
        case Error => return Error;
        case Panic => return Panic;
        case Ok(e) =>
          var ecdheSecret: Bytes := [];
          if env.opts.mode == MODE_HYBRID && localKEMSK.Some? {
            if !rng(n).ok { return Error; }
            ecdheSecret := Drawn(rng, n, 32);
          }
          var derived := DeriveKeysFromStream(env.p, e.ss, ecdheSecret, env.opts.suite.hash);
          keys := Some(derived);
          r := InstallKeys(derived, e.ct);
      }
    }

    method InstallKeys(derived: KeySet, ciphertext: Bytes) returns (r: Outcome<Bytes>)
      modifies `clientAEAD, `serverAEAD, `transcript, `state
      ensures (View(), r) == KeysInstalled(env, old(View()), derived, ciphertext) && history == old(history)
    {
      clientAEAD := CreateAead(env.opts.suite.aead, derived.clientKey);
      if clientAEAD.None? { return Error; }
      serverAEAD := CreateAead(env.opts.suite.aead, derived.serverKey);
      if serverAEAD.None? { return Error; }
      r := SendSigned(ciphertext);
    }

    method SendSigned(ciphertext: Bytes) returns (r: Outcome<Bytes>)
      modifies `transcript, `state
      ensures (View(), r) == ClientKeySent(env, old(View()), ciphertext) && history == old(history)
    {
      var signed: Outcome<Bytes> := Ok([]);
      if KnownSigner(env.opts.suite.sign) && localSignKey.Some? {
        signed := Sign(env.p, env.opts.suite.sign, localSignKey.value, transcript);
      }
      match signed {
        case Panic => return Panic;
        case Error => return Error;
        case Ok(clientSig) =>
          var data := ClientKeyData(ciphertext, clientSig);
          transcript := transcript + data;
          state := AtClientKey;
          return Ok(data);
      }
    }

    method ClientKeyData(ciphertext: Bytes, clientSig: Bytes) returns (data: Bytes)
      ensures data == ClientKeyBytes(ciphertext, [], clientSig)
    {
      var buf := MarshalClientKey(ciphertext, [], clientSig);
      data := buf[..];
    }

    method FinishedLocked(encData: Bytes) returns (r: Outcome<()>)
      modifies this
      ensures (View(), r) == FinishedStep(env, old(View()), encData) && history == old(history)
    {
      if state != AtClientKey { return Error; }
      if serverAEAD.None? { return Panic; }
      var nonce := new byte[NONCE_SIZE](_ => 0);
      var offset := PutBigEndian(nonce, 0, streamID, 4, []);
      ghost var done := BigEndian(streamID, 4);
      offset := PutBigEndian(nonce, offset, 0, 8, done);
      assert nonce[..] == done + BigEndian(0, 8);
      var decrypted := env.p.open(serverAEAD.value.alg, serverAEAD.value.key, nonce[..], encData, []);
      if decrypted.None? { return Error; }
      var plaintext := decrypted.value;
      if keys.None? { return Panic; }
      var expectedMAC := FinishedMac(env.p, keys.value.serverKey, transcript);
      if |plaintext| < 32 || plaintext[..32] != expectedMAC { return Error; }
      state := AtEstablished;
      sharedSecret := keys.value.exporterSecret;
      return Ok(());
    }

    // -------------------------------------------------------------- the calls

    method SendClientHello(rng: Rng) returns (r: Outcome<Bytes>)
      requires Valid()
      modifies this
      ensures Valid() && history == old(history) + [ClientHelloCall(rng)]
      ensures (View(), r) == ClientHelloStep(env, old(View()), rng)
    {
      ghost var c := View();
      r := ClientHelloLocked(rng);
      Record(c, ClientHelloCall(rng));
    }

    method ProcessServerHello(data: Bytes) returns (r: Outcome<()>)
      requires Valid()
      modifies this
      ensures Valid() && history == old(history) + [ServerHelloCall(data)]
      ensures (View(), r) == ServerHelloStep(env, old(View()), data)
    {
      ghost var c := View();
      r := ServerHelloLocked(data);
      Record(c, ServerHelloCall(data));
    }

    method SendClientKey(rng: Rng) returns (r: Outcome<Bytes>)
      requires Valid()
      modifies this
      ensures Valid() && history == old(history) + [ClientKeyCall(rng)]
      ensures (View(), r) == ClientKeyStep(env, old(View()), rng)
    {
      ghost var c := View();
      r := ClientKeyLocked(rng);
      Record(c, ClientKeyCall(rng));
    }

    method ProcessFinished(encData: Bytes) returns (r: Outcome<()>)
      requires Valid()
      modifies this
      ensures Valid() && history == old(history) + [FinishedCall(encData)]
      ensures (View(), r) == FinishedStep(env, old(View()), encData)
    {
      ghost var c := View();
      r := FinishedLocked(encData);
      Record(c, FinishedCall(encData));
    }

    /** Rotation: fresh keys for the caller, counters and clock restarted; the connection's own keys stay. A rotation
        that succeeds is not due again at that moment, whatever the limits. */
    method UpdateKeys(rng: Rng, now: int) returns (r: Outcome<KeySet>)
      requires Valid()
      modifies this
      ensures Valid() && history == old(history) + [UpdateKeysCall(rng, now)]
      ensures (View(), r) == UpdateKeysStep(env, old(View()), rng, now)
      ensures r.Ok? ==> !RotationDue(env.opts.rotation, View(), now)
    {
      ghost var c := View();
      r := UpdateKeysLocked(rng, now);
      Record(c, UpdateKeysCall(rng, now));
    }

    method UpdateKeysLocked(rng: Rng, now: int) returns (r: Outcome<KeySet>)
      modifies this
      ensures (View(), r) == UpdateKeysStep(env, old(View()), rng, now) && history == old(history)
      ensures r.Ok? ==> !RotationDue(env.opts.rotation, View(), now)
    {
      if !rng(0).ok { return Error; }
      var newKeys := DeriveKeysFromStream(env.p, Drawn(rng, 0, 32), sharedSecret, env.opts.suite.hash);
      messageCount, byteCount, lastKeyUpdate := 0, 0, now;
      return Ok(newKeys);
    }

    /** Due exactly when an enabled limit is reached by what the calls so far amount to; a limit of zero, or an age
        below it, is disabled. */
    method NeedsKeyUpdate(now: int) returns (due: bool)
      ensures due <==> RotationDue(env.opts.rotation, View(), now)
      ensures Valid() ==> (due <==> ReachesALimit(env.opts.rotation, Since(born, Run(env, born, history).log), now))
    {
      DueExactlyWhen(env, born, history, now);
      if env.opts.rotation.maxMessages > 0 && messageCount >= env.opts.rotation.maxMessages { return true; }
      if env.opts.rotation.maxBytes > 0 && byteCount >= env.opts.rotation.maxBytes { return true; }
      if env.opts.rotation.maxAge > 0 && now - lastKeyUpdate > env.opts.rotation.maxAge { return true; }
      return false;
    }
  }

  // ---------------------------------------------------------------- rotation

  predicate RotationDue(r: Rotation, c: Conn, now: int) {
    || (r.maxMessages != 0 && c.messageCount >= r.maxMessages)
    || (r.maxBytes != 0 && c.byteCount >= r.maxBytes)
    || (r.maxAge > 0 && now - c.lastKeyUpdate > r.maxAge)
  }

  /** Messages and bytes counted since the last rotation, and when that was. */
  datatype Usage = Usage(messages: uint64, bytes: uint64, rotated: int)

  /** What a log of calls amounts to: a successful rotation starts anew at its time, and the environment counts. */
  function Since(born: int, log: seq<Entry>): Usage {
    if log == [] then Usage(0, 0, born)
    else
      var before, e := Since(born, log[..|log| - 1]), log[|log| - 1];
      if e.call.UpdateKeysCall? && e.outcome.Ok? then Usage(0, 0, e.call.now)
      else if e.call.Environment? then before.(messages := e.call.messages, bytes := e.call.bytes)
      else before
  }

  predicate ReachesALimit(r: Rotation, u: Usage, now: int) {
    || (r.maxMessages > 0 && u.messages >= r.maxMessages)
    || (r.maxBytes > 0 && u.bytes >= r.maxBytes)
    || (r.maxAge > 0 && now > u.rotated + r.maxAge)
  }

  function UsageOf(c: Conn): Usage {
    Usage(c.messageCount, c.byteCount, c.lastKeyUpdate)
  }

  lemma UsageAfter(env: Env, c: Conn, call: Call)
    ensures var (d, o) := Step(env, c, call);
            UsageOf(d) == if call.UpdateKeysCall? && o.Ok? then Usage(0, 0, call.now)
                          else if call.Environment? then UsageOf(c).(messages := call.messages, bytes := call.bytes)
                          else UsageOf(c)
  {}

  lemma {:induction false} UsageIsWhatTheLogSays(env: Env, born: int, calls: seq<Call>)
    ensures UsageOf(Run(env, born, calls).conn) == Since(born, Run(env, born, calls).log)
  {
    if calls != [] {
      var before, call := calls[..|calls| - 1], calls[|calls| - 1];
      UsageIsWhatTheLogSays(env, born, before);
      var r := Run(env, born, before);
      UsageAfter(env, r.conn, call);
      var e := Entry(call, Step(env, r.conn, call).1);
      assert (r.log + [e])[..|r.log|] == r.log;
    }
  }

  /** A run is due for rotation exactly if, since its last successful rotation or else its start, the messages or the
      bytes counted have reached an enabled limit, or more time than an enabled maximal age has passed. */
  lemma DueExactlyWhen(env: Env, born: int, calls: seq<Call>, now: int)
    ensures RotationDue(env.opts.rotation, Run(env, born, calls).conn, now)
            <==> ReachesALimit(env.opts.rotation, Since(born, Run(env, born, calls).log), now)
  {
    UsageIsWhatTheLogSays(env, born, calls);
  }

  /** Counters and clock only go up between two rotations. */
  predicate Later(c: Conn, now: int, d: Conn, now': int) {
    c.messageCount <= d.messageCount && c.byteCount <= d.byteCount && d.lastKeyUpdate == c.lastKeyUpdate && now <= now'
  }

  /** Not a rotation that succeeds, and not a counter going back. */
  predicate KeepsCounting(env: Env, c: Conn, call: Call) {
    && !(call.UpdateKeysCall? && Step(env, c, call).1.Ok?)
    && (call.Environment? ==> c.messageCount <= call.messages && c.byteCount <= call.bytes)
  }

  lemma ReachedLimitIsDue(r: Rotation, c: Conn, now: int)
    requires r == Defaulted(r) && (c.messageCount >= r.maxMessages || c.byteCount >= r.maxBytes)
    ensures RotationDue(r, c, now)
  {}

  lemma CountingGoesOn(env: Env, c: Conn, call: Call, now: int)
    requires KeepsCounting(env, c, call)
    ensures Later(c, now, Step(env, c, call).0, now)
  {}

  lemma LaterIsDueToo(r: Rotation, c: Conn, now: int, d: Conn, now': int)
    requires Later(c, now, d, now') && RotationDue(r, c, now)
    ensures RotationDue(r, d, now')
  {}

  lemma OneCallLaterIsDueToo(env: Env, born: int, calls: seq<Call>, call: Call, now: int)
    requires KeepsCounting(env, Run(env, born, calls).conn, call)
    requires RotationDue(env.opts.rotation, Run(env, born, calls).conn, now)
    ensures RotationDue(env.opts.rotation, Run(env, born, calls + [call]).conn, now)
  {
    var c := Run(env, born, calls).conn;
    CountingGoesOn(env, c, call, now);
    LaterIsDueToo(env.opts.rotation, c, now, Step(env, c, call).0, now);
    RunOneMore(env, born, calls, call);
  }

  /** All of `more`, called after `calls`, keeps counting. */
  predicate AllKeepCounting(env: Env, born: int, calls: seq<Call>, more: seq<Call>)
    decreases |more|
  {
    more == []
    || (var front := more[..|more| - 1];
        AllKeepCounting(env, born, calls, front)
        && KeepsCounting(env, Run(env, born, calls + front).conn, more[|more| - 1]))
  }

  /** With limits that validation let through, once a run has reached a message or byte limit, or is due for any other
      reason, it stays due through any further calls, however they end, until a rotation succeeds. */
  lemma {:induction false} DueUntilRotated(
    env: Env, born: int, calls: seq<Call>, more: seq<Call>, now: int, now': int)
    requires env.opts.rotation == Defaulted(env.opts.rotation) && now <= now'
    requires var c, r := Run(env, born, calls).conn, env.opts.rotation;
             c.messageCount >= r.maxMessages || c.byteCount >= r.maxBytes || RotationDue(r, c, now)
    requires AllKeepCounting(env, born, calls, more)
    ensures RotationDue(env.opts.rotation, Run(env, born, calls + more).conn, now')
    decreases |more|
  {
    if more == [] {
      var c := Run(env, born, calls).conn;
      if !RotationDue(env.opts.rotation, c, now) { ReachedLimitIsDue(env.opts.rotation, c, now); }
      LaterIsDueToo(env.opts.rotation, c, now, c, now');
      assert calls + more == calls;
    } else {
      var front, last := more[..|more| - 1], more[|more| - 1];
      DueUntilRotated(env, born, calls, front, now, now');
      OneCallLaterIsDueToo(env, born, calls + front, last, now');
      assert calls + more == calls + front + [last];
    }
  }
}
