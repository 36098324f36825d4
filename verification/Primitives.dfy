/** The library calls QZMQ makes, as parameters, and what is assumed of them where a claim needs it. */
module Primitives {
  import opened Bytes
  import opened Options

  /** How a Go call ends: a value, an error, or a run-time panic that the caller may recover from. */
  datatype Outcome<+T> = Ok(value: T) | Error | Panic

  /** One `rand.Read`: whether it succeeds, and the bytes it puts in a buffer of any length. */
  datatype Draw = Draw(ok: bool, bytes: nat -> byte)

  /** The successive `rand.Read`s of one call. */
  type Rng = nat -> Draw

  function Drawn(rng: Rng, k: nat, n: nat): (b: Bytes)
    ensures |b| == n
  {
    seq<byte>(n, i requires 0 <= i < n => rng(k).bytes(i))
  }

  datatype Primitives = Primitives(
    x25519: (Bytes32, Bytes32) -> Bytes32,
    /** HKDF with (hash, input key, salt, info): a stream of bytes (section 2.3 of RFC 5869). */
    hkdf: (int, Bytes, Bytes, Bytes) -> (nat -> byte),
    /** HMAC-SHA256 of a message under a key. */
    hmac: (Bytes, Bytes) -> Bytes32,
    /** AEAD with (algorithm, key, nonce, text, additional data). */
    seal: (int, Bytes, Bytes, Bytes, Bytes) -> Bytes,
    open: (int, Bytes, Bytes, Bytes, Bytes) -> Option<Bytes>,
    edSign: (Bytes, Bytes) -> Bytes,
    edVerify: (Bytes, Bytes, Bytes) -> bool,
    /** ML-KEM-768: coins to (public, private); (public, coins) to (ciphertext, secret);
        (private, ciphertext) to secret. */
    mlkemGenerate: Bytes -> Option<(Bytes, Bytes)>,
    mlkemEncapsulate: (Bytes, Bytes) -> Option<(Bytes, Bytes)>,
    mlkemDecapsulate: (Bytes, Bytes) -> Option<Bytes>)

  // ---------------------------------------------------------------- assumptions

  const BASEPOINT: Bytes32 := [9] + Zeros(31)

  /** Section 6.1 of RFC 7748: both sides of a Diffie-Hellman exchange compute one secret. */
  ghost predicate DhCommutes(p: Primitives) {
    forall a: Bytes32, b: Bytes32 ::
      p.x25519(a, p.x25519(b, BASEPOINT)) == p.x25519(b, p.x25519(a, BASEPOINT))
  }

  /** Section 5 of RFC 7748 clamps scalars to multiples of 8 that the prime order of the base point does not divide: no
      product of one or two of them with the base point is the all-zero string. Other points have such products. */
  ghost predicate DhIsNonZero(p: Primitives) {
    && (forall a: Bytes32 :: p.x25519(a, BASEPOINT) != Zeros(32))
    && (forall a: Bytes32, b: Bytes32 :: p.x25519(a, p.x25519(b, BASEPOINT)) != Zeros(32))
  }

  /** Every read of the random source succeeds. */
  ghost predicate ReadsSucceed(rng: Rng) {
    forall n: nat :: rng(n).ok
  }

  /** Sections 7.2 and 7.3 of FIPS 203 without the decryption failures: the secret has 32 bytes, and decapsulation
      undoes encapsulation. */
  ghost predicate MlkemUndoes(p: Primitives) {
    forall coins: Bytes, m: Bytes ::
      (var keys := p.mlkemGenerate(coins);
       keys.Some? ==>
         var e := p.mlkemEncapsulate(keys.value.0, m);
         e.Some? ==> |e.value.1| == 32 && p.mlkemDecapsulate(keys.value.1, e.value.0) == Some(e.value.1))
  }

  /** Opening what was sealed returns the text. */
  ghost predicate OpensSealed(p: Primitives) {
    forall alg: int, key: Bytes, nonce: Bytes, text: Bytes, ad: Bytes ::
      p.open(alg, key, nonce, p.seal(alg, key, nonce, text, ad), ad) == Some(text)
  }

  // ---------------------------------------------------------------- thin wrappers

  /** `curve25519.X25519`: refuses inputs of other lengths and the all-zero result. */
  function ScalarMult(p: Primitives, scalar: Bytes, point: Bytes): (r: Option<Bytes>)
    ensures r.Some? ==> |scalar| == 32 && |point| == 32 && r.value == p.x25519(scalar, point)
  {
    if |scalar| != 32 || |point| != 32 then None
    else
      var s := p.x25519(scalar, point);
      if s == Zeros(32) then None else Some(s)
  }

  const NONCE_SIZE := 12

  datatype Aead = Aead(alg: int, key: Bytes)

  /** `createAEAD`: AES takes three key sizes, ChaCha20-Poly1305 one. */
  function CreateAead(alg: int, key: Bytes): Option<Aead> {
    if alg == AES256GCM then if |key| in {16, 24, 32} then Some(Aead(alg, key)) else None
    else if alg == CHACHA20POLY1305 then if |key| == 32 then Some(Aead(alg, key)) else None
    else None
  }

  predicate KnownSigner(alg: int) {
    alg == ED25519 || alg == MLDSA2 || alg == MLDSA3
  }

  /** `Signer.Verify`: Ed25519 panics on a malformed key; the ML-DSA placeholder looks at the length only. */
  function Verify(p: Primitives, alg: int, cert: Bytes, message: Bytes, signature: Bytes): Outcome<bool> {
    if alg == ED25519 then if |cert| != 32 then Panic else Ok(p.edVerify(cert, message, signature))
    else Ok(|signature| >= 32)
  }

  /** `Signer.Sign`: Ed25519 panics on a malformed key; the ML-DSA placeholder needs 32 key bytes. */
  function Sign(p: Primitives, alg: int, key: Bytes, message: Bytes): Outcome<Bytes> {
    if alg == ED25519 then if |key| != 64 then Panic else Ok(p.edSign(key, message))
    else if |key| < 32 then Panic
    else Ok(p.hmac(key[..32], message) + Zeros((if alg == MLDSA3 then 3293 else 2420) - 32))
  }

  // ---------------------------------------------------------------- the assumptions can be met together

  function LargerByte(a: byte, b: byte): byte {
    if a < b then b else a
  }

  function LargerBytes(a: Bytes32, b: Bytes32): Bytes32 {
    seq(32, i requires 0 <= i < 32 => LargerByte(a[i], b[i]))
  }

  function ToyPrimitives(): Primitives {
    Primitives(
      (a, b) => LargerBytes(a, b),
      (h, key, salt, info) => ((i: nat) => if i == 0 then |key| % 0x100 else 0),
      (key, message) => Zeros(32),
      (alg, key, nonce, text, ad) => text,
      (alg, key, nonce, text, ad) => Some(text),
      (key, message) => [],
      (key, message, signature) => true,
      coins => Some(([], [])),
      (pk, m) => Some(([], Zeros(32))),
      (sk, ct) => Some(Zeros(32)))
  }

  lemma ToyCommutes(a: Bytes32, b: Bytes32)
    ensures LargerBytes(a, LargerBytes(b, BASEPOINT)) == LargerBytes(b, LargerBytes(a, BASEPOINT))
  {
    forall i | 0 <= i < 32
      ensures LargerByte(a[i], LargerByte(b[i], BASEPOINT[i])) == LargerByte(b[i], LargerByte(a[i], BASEPOINT[i]))
    {}
  }

  lemma ToyIsNonZero(a: Bytes32, b: Bytes32)
    ensures LargerBytes(a, BASEPOINT) != Zeros(32) && LargerBytes(a, LargerBytes(b, BASEPOINT)) != Zeros(32)
  {
    assert LargerBytes(b, BASEPOINT)[0] >= 9;
    assert LargerBytes(a, BASEPOINT)[0] >= 9 && LargerBytes(a, LargerBytes(b, BASEPOINT))[0] >= 9;
  }

  lemma ToyMeetsTheAssumptions()
    ensures var p := ToyPrimitives(); DhCommutes(p) && DhIsNonZero(p) && MlkemUndoes(p) && OpensSealed(p)
  {
    var p := ToyPrimitives();
    forall a: Bytes32, b: Bytes32
      ensures p.x25519(a, p.x25519(b, BASEPOINT)) == p.x25519(b, p.x25519(a, BASEPOINT))
      ensures p.x25519(a, BASEPOINT) != Zeros(32) && p.x25519(a, p.x25519(b, BASEPOINT)) != Zeros(32)
    {
      ToyCommutes(a, b); ToyIsNonZero(a, b);
    }
  }

  lemma AssumptionsAreSatisfiable()
    ensures exists p: Primitives :: DhCommutes(p) && DhIsNonZero(p) && MlkemUndoes(p) && OpensSealed(p)
  {
    ToyMeetsTheAssumptions();
  }
}
