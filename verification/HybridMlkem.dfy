/** HybridMLKEM of mlkem_integration.go: X25519 beside ML-KEM-768, secrets combined by exclusive or. */
module HybridMlkem {
  import opened Bytes
  import opened Primitives
  import opened Kem

  /** The key types behind Go's PublicKey interface. */
  datatype PublicKey =
    | PlainPublic(data: Bytes)
    | MlkemPublic(key: Bytes)
    | HybridPublic(classical: PublicKey, pq: PublicKey)

  datatype PrivateKey =
    | PlainPrivate(data: Bytes)
    | MlkemPrivate(key: Bytes)
    | HybridPrivate(classical: PrivateKey, pq: PrivateKey)

  function PublicBytes(k: PublicKey): Bytes {
    match k
    case PlainPublic(b) => b
    case MlkemPublic(b) => b
    case HybridPublic(c, q) => PublicBytes(c) + PublicBytes(q)
  }

  function PrivateBytes(k: PrivateKey): Bytes {
    match k
    case PlainPrivate(b) => b
    case MlkemPrivate(b) => b
    case HybridPrivate(c, q) => PrivateBytes(c) + PrivateBytes(q)
  }

  const CLASSICAL_CT_SIZE := CiphertextSize(X25519Kem)

  /** `rng` is read for the X25519 part first; `coins` is what ML-KEM draws. */
  function GenerateKeyPair(p: Primitives, rng: Rng, coins: Bytes): Outcome<(PublicKey, PrivateKey)> {
    match Generate(p, X25519Kem, rng, 0).0
    case Ok(c) =>
      (match p.mlkemGenerate(coins)
       case None => Error
       case Some((pub, priv)) =>
         Ok((HybridPublic(PlainPublic(c.pk), MlkemPublic(pub)), HybridPrivate(PlainPrivate(c.sk), MlkemPrivate(priv)))))
    case Error => Error
    case Panic => Panic
  }

  /** The component ciphertexts and secrets: ((ct, ss) of X25519, (ct, ss) of ML-KEM). */
  type Parts = ((Bytes, Bytes), (Bytes, Bytes))

  /** Both component encapsulations; the wrong key type is refused, X25519 reads any key's bytes. */
  function EncapsulatedParts(p: Primitives, rng: Rng, coins: Bytes, pk: PublicKey): Outcome<Parts> {
    if !pk.HybridPublic? then Error
    else
      match Encapsulate(p, X25519Kem, rng, 0, PublicBytes(pk.classical)).0
      case Ok(c) =>
        if !pk.pq.MlkemPublic? then Error
        else
          (match p.mlkemEncapsulate(pk.pq.key, coins)
           case None => Error
           case Some(q) => Ok(((c.ct, c.ss), q)))
      case Error => Error
      case Panic => Panic
  }

  /** Both component decapsulations, of the ciphertext split after the X25519 part. */
  function DecapsulatedParts(p: Primitives, sk: PrivateKey, ciphertext: Bytes): Outcome<(Bytes, Bytes)> {
    if !sk.HybridPrivate? then Error
    else if |ciphertext| < CLASSICAL_CT_SIZE then Error
    else
      match ScalarMult(p, PrivateBytes(sk.classical), ciphertext[..CLASSICAL_CT_SIZE])
      case None => Error
      case Some(c) =>
        if !sk.pq.MlkemPrivate? then Error
        else
          match p.mlkemDecapsulate(sk.pq.key, ciphertext[CLASSICAL_CT_SIZE..])
          case None => Error
          case Some(q) => Ok((c, q))
  }

  /** What 32 steps of the XOR loop do: they panic on a secret shorter than 32 bytes and ignore what is beyond. */
  function Mixed(a: Bytes, b: Bytes): Outcome<Bytes> {
    if |a| < 32 || |b| < 32 then Panic else Ok(XorBytes(a[..32], b[..32]))
  }

  method XorLoop(classicalSS: Bytes, pqSS: Bytes) returns (r: Outcome<Bytes>)
    ensures r == Mixed(classicalSS, pqSS)
  {
    var sharedSecret := new byte[32](_ => 0);
    for i := 0 to 32
      invariant i <= |classicalSS| && i <= |pqSS|
      invariant forall j :: 0 <= j < i ==> sharedSecret[j] == Xor(classicalSS[j], pqSS[j])
    {
      if i >= |classicalSS| || i >= |pqSS| { return Panic; }
      sharedSecret[i] := Xor(classicalSS[i], pqSS[i]);
    }
    assert sharedSecret[..] == XorBytes(classicalSS[..32], pqSS[..32]);
    return Ok(sharedSecret[..]);
  }

  function EncapsulateHybrid(p: Primitives, rng: Rng, coins: Bytes, pk: PublicKey): Outcome<(Bytes, Bytes)> {
    match EncapsulatedParts(p, rng, coins, pk)
    case Ok((c, q)) =>
      (match Mixed(c.1, q.1)
       case Ok(ss) => Ok((c.0 + q.0, ss))
       case Error => Error
       case Panic => Panic)
    case Error => Error
    case Panic => Panic
  }

  function DecapsulateHybrid(p: Primitives, sk: PrivateKey, ciphertext: Bytes): Outcome<Bytes> {
    match DecapsulatedParts(p, sk, ciphertext)
    case Ok((c, q)) => Mixed(c, q)
    case Error => Error
    case Panic => Panic
  }

  method EncapsulateMethod(p: Primitives, rng: Rng, coins: Bytes, pk: PublicKey) returns (r: Outcome<(Bytes, Bytes)>)
    ensures r == EncapsulateHybrid(p, rng, coins, pk)
  {
    if !pk.HybridPublic? { return Error; }
    var classical := Encapsulate(p, X25519Kem, rng, 0, PublicBytes(pk.classical)).0;
    if !classical.Ok? { return Error; }
    var classicalCT, classicalSS := classical.value.ct, classical.value.ss;
    if !pk.pq.MlkemPublic? { return Error; }
    var pq := p.mlkemEncapsulate(pk.pq.key, coins);
    if pq.None? { return Error; }
    var (pqCT, pqSS) := pq.value;
    var ciphertext := classicalCT + pqCT;
    var sharedSecret := XorLoop(classicalSS, pqSS);
    if !sharedSecret.Ok? { return Panic; }
    return Ok((ciphertext, sharedSecret.value));
  }

  method DecapsulateMethod(p: Primitives, sk: PrivateKey, ciphertext: Bytes) returns (r: Outcome<Bytes>)
    ensures r == DecapsulateHybrid(p, sk, ciphertext)
  {
    if !sk.HybridPrivate? { return Error; }
    if |ciphertext| < CLASSICAL_CT_SIZE { return Error; }
    var classicalCT, pqCT := ciphertext[..CLASSICAL_CT_SIZE], ciphertext[CLASSICAL_CT_SIZE..];
    var classicalSS := ScalarMult(p, PrivateBytes(sk.classical), classicalCT);
    if classicalSS.None? { return Error; }
    if !sk.pq.MlkemPrivate? { return Error; }
    var pqSS := p.mlkemDecapsulate(sk.pq.key, pqCT);
    if pqSS.None? { return Error; }
    r := XorLoop(classicalSS.value, pqSS.value);
  }

  /** A generated pair: 32 bytes of each key are the X25519 key, the public one belonging to the private one, and the
      rest is the ML-KEM key. */
  lemma GeneratedKeyBytes(p: Primitives, gen: Rng, coins: Bytes)
    requires GenerateKeyPair(p, gen, coins).Ok?
    ensures var (pk, sk) := GenerateKeyPair(p, gen, coins).value;
            var pub, priv := PublicBytes(pk), PrivateBytes(sk);
            && |pub| >= 32 && |priv| >= 32
            && pub[..32] == p.x25519(priv[..32], BASEPOINT) && p.mlkemGenerate(coins) == Some((pub[32..], priv[32..]))
  {}

  /** Keys of another type, and ciphertexts too short for the X25519 part, are refused with an error. */
  lemma WrongInputsAreRefused(p: Primitives, rng: Rng, coins: Bytes, pk: PublicKey, sk: PrivateKey, ct: Bytes)
    ensures !pk.HybridPublic? || !pk.pq.MlkemPublic? ==> EncapsulateHybrid(p, rng, coins, pk) == Error
    ensures !sk.HybridPrivate? || |ct| < 32 || !sk.pq.MlkemPrivate? ==> DecapsulateHybrid(p, sk, ct) == Error
  {}

  /** For every key pair and all randomness, decapsulating an encapsulated ciphertext returns its secret: 32 bytes,
      and the exclusive or of the secret with either component secret is the other component secret. */
  lemma DecapsulateUndoesEncapsulate(p: Primitives, gen: Rng, genCoins: Bytes, rng: Rng, coins: Bytes)
    requires DhCommutes(p) && MlkemUndoes(p)
    requires GenerateKeyPair(p, gen, genCoins).Ok?
    ensures var (pk, sk) := GenerateKeyPair(p, gen, genCoins).value;
            var e := EncapsulateHybrid(p, rng, coins, pk);
            && !e.Panic?
            && (e.Ok? ==>
                  var (ct, ss) := e.value;
                  var ((_, ss1), (_, ss2)) := EncapsulatedParts(p, rng, coins, pk).value;
                  && DecapsulateHybrid(p, sk, ct) == Ok(ss)
                  && |ss| == |ss1| == |ss2| == 32
                  && XorBytes(ss, ss1) == ss2 && XorBytes(ss, ss2) == ss1)
  {
    var (pk, sk) := GenerateKeyPair(p, gen, genCoins).value;
    var parts := EncapsulatedParts(p, rng, coins, pk);
    if parts.Ok? {
      var ((ct1, ss1), (ct2, ss2)) := parts.value;
      X25519Undoes(p, gen, 0);
      assert Decapsulate(p, X25519Kem, rng, 0, sk.classical.data, ct1) == Ok(ss1);
      assert (ct1 + ct2)[..32] == ct1 && (ct1 + ct2)[32..] == ct2;
      assert p.mlkemGenerate(genCoins) == Some((pk.pq.key, sk.pq.key));
      assert ss1[..32] == ss1 && ss2[..32] == ss2;
      XorBytesCancels(ss1, ss2);
    }
  }
}
