/** The KEM interface of crypto.go and the KEMs behind it: X25519, the ML-KEM placeholders, and trees of hybrids. */
module Kem {
  import opened Bytes
  import opened Options
  import opened Primitives
  import opened KeySchedule

  /** `NilKem` is the nil interface value inside `&HybridKEM{}`. */
  datatype Kem = NilKem | X25519Kem | Mlkem768Stub | Mlkem1024Stub | HybridKem(classical: Kem, pq: Kem)

  /** A KEM without nil parts, as `NewHybridKEM` over the three leaf KEMs makes them. */
  predicate Built(k: Kem) {
    !k.NilKem? && (k.HybridKem? ==> Built(k.classical) && Built(k.pq))
  }

  /** `getKEM`: the hybrid code yields a hybrid with nil parts, and the larger hybrid is refused. */
  function GetKem(alg: int): Option<Kem> {
    if alg == X25519 then Some(X25519Kem)
    else if alg == MLKEM768 then Some(Mlkem768Stub)
    else if alg == MLKEM1024 then Some(Mlkem1024Stub)
    else if alg == HYBRID_X25519_MLKEM768 then Some(HybridKem(NilKem, NilKem))
    else None
  }

  function PublicKeySize(k: Kem): nat
    requires Built(k)
  {
    match k
    case X25519Kem => 32
    case Mlkem768Stub => 1184
    case Mlkem1024Stub => 1568
    case HybridKem(c, q) => PublicKeySize(c) + PublicKeySize(q)
  }

  function PrivateKeySize(k: Kem): nat
    requires Built(k)
  {
    match k
    case X25519Kem => 32
    case Mlkem768Stub => 2400
    case Mlkem1024Stub => 3168
    case HybridKem(c, q) => PrivateKeySize(c) + PrivateKeySize(q)
  }

  function CiphertextSize(k: Kem): nat
    requires Built(k)
  {
    match k
    case X25519Kem => 32
    case Mlkem768Stub => 1088
    case Mlkem1024Stub => 1568
    case HybridKem(c, q) => CiphertextSize(c) + CiphertextSize(q)
  }

  /** A leaf KEM together with the public key it generated or was given. */
  datatype LeafKey = LeafKey(leaf: Kem, pk: Bytes)

  /** A key pair, and the leaf keys it is made of, left to right. */
  datatype KeyPair = KeyPair(pk: Bytes, sk: Bytes, leaves: seq<LeafKey>)

  /** A ciphertext and a secret, and the leaf calls that led to them, left to right. */
  datatype Encapsulation = Encapsulation(ct: Bytes, ss: Bytes, calls: seq<LeafKey>)

  /** `GenerateKeyPair` with the random source at its n-th read; the second result is where it leaves it. */
  function Generate(p: Primitives, k: Kem, rng: Rng, n: nat): (Outcome<KeyPair>, nat) {
    match k
    case NilKem => (Panic, n)
    case X25519Kem =>
      if !rng(n).ok then (Error, n + 1)
      else
        var priv := Drawn(rng, n, 32);
        (match ScalarMult(p, priv, BASEPOINT)
         case None => Error
         case Some(pub) => Ok(KeyPair(pub, priv, [LeafKey(k, pub)])), n + 1)
    case Mlkem768Stub =>
      var pub := Drawn(rng, n, 1184);
      (Ok(KeyPair(pub, Drawn(rng, n + 1, 2400), [LeafKey(k, pub)])), n + 2)
    case Mlkem1024Stub =>
      var pub := Drawn(rng, n, 1568);
      (Ok(KeyPair(pub, Drawn(rng, n + 1, 3168), [LeafKey(k, pub)])), n + 2)
    case HybridKem(c, q) =>
      match Generate(p, c, rng, n)
      case (Ok(a), n1) =>
        (match Generate(p, q, rng, n1)
         case (Ok(b), n2) => (Ok(KeyPair(a.pk + b.pk, a.sk + b.sk, a.leaves + b.leaves)), n2)
         case (failure, n2) => (failure, n2))
      case (failure, n1) => (failure, n1)
  }

  const HYBRID_SALT: Bytes := [81, 90, 77, 81, 45, 72, 121, 98, 114, 105, 100, 45, 75, 69, 77]

  function CombinedSecret(p: Primitives, classicalSS: Bytes, pqSS: Bytes): Bytes {
    Segment(p.hkdf(SHA256, classicalSS + pqSS, HYBRID_SALT, []), 0, 32)
  }

  /** The combination by one read from a KDF over both secrets. */
  method CombineSecrets(p: Primitives, classicalSS: Bytes, pqSS: Bytes) returns (ss: Bytes)
    ensures ss == CombinedSecret(p, classicalSS, pqSS)
    ensures ss == Segment(p.hkdf(SHA256, classicalSS + pqSS, Ascii("QZMQ-Hybrid-KEM"), []), 0, 32)
  {
    CombinedSecretIsHkdf(p, classicalSS, pqSS);
    var kdf := new KdfReader(p.hkdf(SHA256, classicalSS + pqSS, HYBRID_SALT, []));
    var combinedSS := new byte[32](_ => 0);
    kdf.Read(combinedSS);
    ss := combinedSS[..];
  }

  /** `Encapsulate`. A hybrid first asks both parts for their key sizes, which a nil part cannot answer. */
  function Encapsulate(p: Primitives, k: Kem, rng: Rng, n: nat, pk: Bytes): (Outcome<Encapsulation>, nat) {
    match k
    case NilKem => (Panic, n)
    case X25519Kem =>
      if !rng(n).ok then (Error, n + 1)
      else
        var eph := Drawn(rng, n, 32);
        (match (ScalarMult(p, eph, BASEPOINT), ScalarMult(p, eph, pk))
         case (Some(ct), Some(ss)) => Ok(Encapsulation(ct, ss, [LeafKey(k, pk)]))
         case _ => Error, n + 1)
    case Mlkem768Stub => (Ok(Encapsulation(Drawn(rng, n, 1088), Drawn(rng, n + 1, 32), [LeafKey(k, pk)])), n + 2)
    case Mlkem1024Stub => (Ok(Encapsulation(Drawn(rng, n, 1568), Drawn(rng, n + 1, 32), [LeafKey(k, pk)])), n + 2)
    case HybridKem(c, q) =>
      if !Built(k) then (Panic, n)
      else if |pk| < PublicKeySize(c) + PublicKeySize(q) then (Error, n)
      else
        match Encapsulate(p, c, rng, n, pk[..PublicKeySize(c)])
        case (Ok(a), n1) =>
          (match Encapsulate(p, q, rng, n1, pk[PublicKeySize(c)..])
           case (Ok(b), n2) =>
             (Ok(Encapsulation(a.ct + b.ct, CombinedSecret(p, a.ss, b.ss), a.calls + b.calls)), n2)
           case (failure, n2) => (failure, n2))
        case (failure, n1) => (failure, n1)
  }

  /** `Decapsulate`: real for X25519 only; the other KEMs are placeholders that ignore their inputs. */
  function Decapsulate(p: Primitives, k: Kem, rng: Rng, n: nat, sk: Bytes, ct: Bytes): Outcome<Bytes> {
    match k
    case NilKem => Panic
    case X25519Kem => (match ScalarMult(p, sk, ct) case None => Error case Some(ss) => Ok(ss))
    case Mlkem768Stub => Ok(Drawn(rng, n, 32))
    case Mlkem1024Stub => Ok(Drawn(rng, n, 32))
    case HybridKem(_, _) => Ok(Zeros(32))
  }

  // ---------------------------------------------------------------- sizes, and who gets which bytes

  /** Keys and ciphertexts of any tree have the declared sizes, secrets have 32 bytes, and nothing panics. */
  lemma {:induction false} TreeSizes(p: Primitives, k: Kem, rng: Rng, n: nat, pk: Bytes)
    requires Built(k)
    ensures var g := Generate(p, k, rng, n).0;
            !g.Panic? && (g.Ok? ==> |g.value.pk| == PublicKeySize(k) && |g.value.sk| == PrivateKeySize(k))
    ensures var e := Encapsulate(p, k, rng, n, pk).0;
            !e.Panic? && (e.Ok? ==> |e.value.ct| == CiphertextSize(k) && |e.value.ss| == 32)
  {
    match k
    case HybridKem(c, q) =>
      TreeSizes(p, c, rng, n, if |pk| < PublicKeySize(c) then [] else pk[..PublicKeySize(c)]);
      TreeSizes(p, q, rng, Generate(p, c, rng, n).1, []);
      if |pk| >= PublicKeySize(c) {
        TreeSizes(p, q, rng, Encapsulate(p, c, rng, n, pk[..PublicKeySize(c)]).1, pk[PublicKeySize(c)..]);
      }
    case _ =>
  }

  /** The sizes of the single KEMs, by name. */
  lemma SingleSizes()
    ensures PublicKeySize(X25519Kem) == PrivateKeySize(X25519Kem) == CiphertextSize(X25519Kem) == 32
    ensures PublicKeySize(Mlkem768Stub) == 1184 && PrivateKeySize(Mlkem768Stub) == 2400
    ensures CiphertextSize(Mlkem768Stub) == 1088
    ensures PublicKeySize(Mlkem1024Stub) == 1568 && PrivateKeySize(Mlkem1024Stub) == 3168
    ensures CiphertextSize(Mlkem1024Stub) == 1568
  {}

  /** A hybrid's keys are cut, at the classical part's sizes, into the keys that the parts generated one after the
      other. */
  lemma {:induction false} HybridKeyPair(p: Primitives, k: Kem, gen: Rng, g: nat)
    requires Built(k) && k.HybridKem? && Generate(p, k, gen, g).0.Ok?
    ensures var (a, g1) := Generate(p, k.classical, gen, g);
            var b, pair := Generate(p, k.pq, gen, g1).0, Generate(p, k, gen, g).0.value;
            var n, m := PublicKeySize(k.classical), PrivateKeySize(k.classical);
            && a.Ok? && b.Ok? && |pair.pk| >= n && |pair.sk| >= m
            && pair.pk[..n] == a.value.pk && pair.pk[n..] == b.value.pk
            && pair.sk[..m] == a.value.sk && pair.sk[m..] == b.value.sk
  {
    TreeSizes(p, k.classical, gen, g, []);
  }

  lemma CombinedSecretIsHkdf(p: Primitives, a: Bytes, b: Bytes)
    ensures CombinedSecret(p, a, b) == Segment(p.hkdf(SHA256, a + b, Ascii("QZMQ-Hybrid-KEM"), []), 0, 32)
  {
    assert HYBRID_SALT == Ascii("QZMQ-Hybrid-KEM");
  }

  /** What a hybrid encapsulates: the ciphertext is cut into the ciphertexts of the parts, encapsulated one after the
      other to the two cuts of the key, and the secret is 32 bytes of HKDF over both of their secrets. */
  lemma {:induction false} HybridEncapsulation(p: Primitives, k: Kem, rng: Rng, n: nat, pk: Bytes)
    requires Built(k) && k.HybridKem? && Encapsulate(p, k, rng, n, pk).0.Ok?
    ensures var e, m := Encapsulate(p, k, rng, n, pk).0.value, CiphertextSize(k.classical);
            && |pk| >= PublicKeySize(k) && |e.ct| >= m
            && var (a, n1) := Encapsulate(p, k.classical, rng, n, pk[..PublicKeySize(k.classical)]);
               var b := Encapsulate(p, k.pq, rng, n1, pk[PublicKeySize(k.classical)..]).0;
            && a.Ok? && b.Ok?
            && e.ct[..m] == a.value.ct && e.ct[m..] == b.value.ct
            && e.ss == Segment(p.hkdf(SHA256, a.value.ss + b.value.ss, Ascii("QZMQ-Hybrid-KEM"), []), 0, 32)
  {
    var front, back := pk[..PublicKeySize(k.classical)], pk[PublicKeySize(k.classical)..];
    var (a, n1) := Encapsulate(p, k.classical, rng, n, front);
    var b := Encapsulate(p, k.pq, rng, n1, back).0;
    TreeSizes(p, k.classical, rng, n, front);
    CombinedSecretIsHkdf(p, a.value.ss, b.value.ss);
  }

  /** A library whose HKDF gives out bytes of its input from `from` on. */
  function EchoPrimitives(from: nat): Primitives {
    ToyPrimitives().(hkdf := (h, key, salt, info) => ((i: nat) => if from + i < |key| then key[from + i] else 0))
  }

  lemma EchoGivesBack(a: Bytes32, b: Bytes32)
    ensures CombinedSecret(EchoPrimitives(0), a, b) == a && CombinedSecret(EchoPrimitives(32), a, b) == b
  {}

  /** Neither secret is dropped: some library tells two secrets apart in either place. */
  lemma BothSecretsCount(a: Bytes32, b: Bytes32, c: Bytes32)
    requires a != b
    ensures exists p: Primitives :: CombinedSecret(p, a, c) != CombinedSecret(p, b, c)
    ensures exists p: Primitives :: CombinedSecret(p, c, a) != CombinedSecret(p, c, b)
  {
    EchoGivesBack(a, c); EchoGivesBack(b, c); EchoGivesBack(c, a); EchoGivesBack(c, b);
    assert CombinedSecret(EchoPrimitives(0), a, c) != CombinedSecret(EchoPrimitives(0), b, c);
    assert CombinedSecret(EchoPrimitives(32), c, a) != CombinedSecret(EchoPrimitives(32), c, b);
  }

  /** Encapsulating to a generated key hands every leaf exactly the key that this leaf generated. */
  lemma {:induction false} EachLeafGetsItsOwnKey(p: Primitives, k: Kem, gen: Rng, g: nat, rng: Rng, n: nat)
    requires Built(k) && Generate(p, k, gen, g).0.Ok?
    ensures var pair := Generate(p, k, gen, g).0.value;
            var e := Encapsulate(p, k, rng, n, pair.pk).0;
            e.Ok? ==> e.value.calls == pair.leaves
  {
    match k
    case HybridKem(c, q) =>
      var (a, g1) := Generate(p, c, gen, g);
      var b := Generate(p, q, gen, g1).0;
      TreeSizes(p, c, gen, g, []);
      var pk := a.value.pk + b.value.pk;
      assert pk[..PublicKeySize(c)] == a.value.pk && pk[PublicKeySize(c)..] == b.value.pk;
      EachLeafGetsItsOwnKey(p, c, gen, g, rng, n);
      EachLeafGetsItsOwnKey(p, q, gen, g1, rng, Encapsulate(p, c, rng, n, a.value.pk).1);
    case _ =>
  }

  function LastLeaf(k: Kem): Kem
    requires Built(k)
  {
    if k.HybridKem? then LastLeaf(k.pq) else k
  }

  /** A tree ending in X25519 takes keys of its own size only; a hybrid ending in an ML-KEM placeholder takes every
      longer key as well; a placeholder alone takes any key. */
  predicate RightLength(k: Kem, n: nat)
    requires Built(k)
  {
    if LastLeaf(k).X25519Kem? then n == PublicKeySize(k) else k.HybridKem? ==> n >= PublicKeySize(k)
  }

  /** The key cut along the tree by the declared sizes; the last leaf also gets what is left over. */
  function HandedOut(k: Kem, pk: Bytes): seq<LeafKey>
    requires Built(k) && RightLength(k, |pk|)
  {
    if k.HybridKem?
    then HandedOut(k.classical, pk[..PublicKeySize(k.classical)]) + HandedOut(k.pq, pk[PublicKeySize(k.classical)..])
    else [LeafKey(k, pk)]
  }

  /** The next random read after a leaf's own, if the leaf succeeds: X25519 needs its read and two products that are not
      all zero, and the placeholders need nothing. */
  function AfterLeaf(p: Primitives, rng: Rng, n: nat, h: LeafKey): Option<nat> {
    if !h.leaf.X25519Kem? then Some(n + 2)
    else if && rng(n).ok
            && ScalarMult(p, Drawn(rng, n, 32), BASEPOINT).Some? && ScalarMult(p, Drawn(rng, n, 32), h.pk).Some?
    then Some(n + 1)
    else None
  }

  /** Likewise for leaves that take their turns, every one of which has to succeed. */
  function AfterLeaves(p: Primitives, rng: Rng, n: nat, hs: seq<LeafKey>): Option<nat>
    decreases hs
  {
    if hs == [] then Some(n)
    else
      match AfterLeaf(p, rng, n, hs[0])
      case None => None
      case Some(m) => AfterLeaves(p, rng, m, hs[1..])
  }

  lemma {:induction false} AfterLeavesInParts(p: Primitives, rng: Rng, n: nat, a: seq<LeafKey>, b: seq<LeafKey>)
    ensures AfterLeaves(p, rng, n, a + b)
            == match AfterLeaves(p, rng, n, a) case None => None case Some(m) => AfterLeaves(p, rng, m, b)
    decreases a
  {
    if a == [] {
      assert a + b == b;
    } else {
      assert (a + b)[0] == a[0] && (a + b)[1..] == a[1..] + b;
      var m := AfterLeaf(p, rng, n, a[0]);
      if m.Some? {
        AfterLeavesInParts(p, rng, m.value, a[1..], b);
      }
    }
  }

  lemma {:induction false} LeafAccepts(p: Primitives, k: Kem, rng: Rng, n: nat, pk: Bytes)
    requires Built(k) && !k.HybridKem?
    ensures Encapsulate(p, k, rng, n, pk).0.Ok? <==> RightLength(k, |pk|) && AfterLeaf(p, rng, n, LeafKey(k, pk)).Some?
    ensures Encapsulate(p, k, rng, n, pk).0.Ok? ==>
              AfterLeaf(p, rng, n, LeafKey(k, pk)) == Some(Encapsulate(p, k, rng, n, pk).1)
  {}

  lemma {:induction false} AfterOneLeaf(p: Primitives, rng: Rng, n: nat, h: LeafKey)
    ensures AfterLeaves(p, rng, n, [h]) == AfterLeaf(p, rng, n, h)
  {
    assert [h][0] == h && [h][1..] == [];
  }

  lemma {:induction false} RightLengthInParts(k: Kem, n: nat)
    requires Built(k) && k.HybridKem?
    ensures RightLength(k.classical, PublicKeySize(k.classical))
    ensures RightLength(k, n) <==> n >= PublicKeySize(k) && RightLength(k.pq, n - PublicKeySize(k.classical))
  {}

  lemma {:induction false} HybridOutcome(p: Primitives, k: Kem, rng: Rng, n: nat, pk: Bytes)
    requires Built(k) && k.HybridKem?
    ensures var (e, m) := Encapsulate(p, k, rng, n, pk);
            if |pk| < PublicKeySize(k) then !e.Ok?
            else
              var (a, n1) := Encapsulate(p, k.classical, rng, n, pk[..PublicKeySize(k.classical)]);
              var (b, n2) := Encapsulate(p, k.pq, rng, n1, pk[PublicKeySize(k.classical)..]);
              (e.Ok? <==> a.Ok? && b.Ok?) && (e.Ok? ==> m == n2)
  {}

  /** When `Encapsulate` succeeds, for any libraries and any random source: exactly if the key has a right length and
      every X25519 leaf succeeds on its cut of the key; it then makes as many reads as the leaves. */
  lemma {:induction false} AcceptedKeys(p: Primitives, k: Kem, rng: Rng, n: nat, pk: Bytes)
    requires Built(k)
    ensures var (e, m) := Encapsulate(p, k, rng, n, pk);
            && (e.Ok? <==> RightLength(k, |pk|) && AfterLeaves(p, rng, n, HandedOut(k, pk)).Some?)
            && (e.Ok? ==> AfterLeaves(p, rng, n, HandedOut(k, pk)) == Some(m))
    decreases k
  {
    if !k.HybridKem? {
      LeafAccepts(p, k, rng, n, pk);
      AfterOneLeaf(p, rng, n, LeafKey(k, pk));
    } else {
      HybridOutcome(p, k, rng, n, pk);
      RightLengthInParts(k, |pk|);
      if |pk| >= PublicKeySize(k) {
        var front, back := pk[..PublicKeySize(k.classical)], pk[PublicKeySize(k.classical)..];
        var (a, n1) := Encapsulate(p, k.classical, rng, n, front);
        AcceptedKeys(p, k.classical, rng, n, front);
        AcceptedKeys(p, k.pq, rng, n1, back);
        if RightLength(k, |pk|) {
          AfterLeavesInParts(p, rng, n, HandedOut(k.classical, front), HandedOut(k.pq, back));
        }
      }
    }
  }

  lemma GeneratedX25519IsAccepted(p: Primitives, gen: Rng, g: nat, rng: Rng, n: nat)
    requires DhIsNonZero(p) && ReadsSucceed(gen) && ReadsSucceed(rng)
    ensures Generate(p, X25519Kem, gen, g).0.Ok?
    ensures Encapsulate(p, X25519Kem, rng, n, Generate(p, X25519Kem, gen, g).0.value.pk).0.Ok?
  {
    var priv: Bytes32 := Drawn(gen, g, 32);
    var eph: Bytes32 := Drawn(rng, n, 32);
    assert p.x25519(eph, p.x25519(priv, BASEPOINT)) != Zeros(32);
    assert p.x25519(priv, BASEPOINT) != Zeros(32) && p.x25519(eph, BASEPOINT) != Zeros(32);
  }

  /** A KEM's generated key, with `extra` appended, is accepted. */
  ghost predicate TakesItsKey(p: Primitives, k: Kem, gen: Rng, g: nat, rng: Rng, n: nat, extra: Bytes) {
    var pair := Generate(p, k, gen, g).0;
    pair.Ok? && Encapsulate(p, k, rng, n, pair.value.pk + extra).0.Ok?
  }

  lemma {:induction false} HybridGenerates(p: Primitives, k: Kem, gen: Rng, g: nat)
    requires Built(k) && k.HybridKem?
    requires Generate(p, k.classical, gen, g).0.Ok?
    requires Generate(p, k.pq, gen, Generate(p, k.classical, gen, g).1).0.Ok?
    ensures var (a, g1) := Generate(p, k.classical, gen, g);
            var b, pair := Generate(p, k.pq, gen, g1).0, Generate(p, k, gen, g).0;
            && pair.Ok? && pair.value.pk == a.value.pk + b.value.pk
            && |a.value.pk| == PublicKeySize(k.classical) && |b.value.pk| == PublicKeySize(k.pq)
  {
    TreeSizes(p, k.classical, gen, g, []);
    TreeSizes(p, k.pq, gen, Generate(p, k.classical, gen, g).1, []);
  }

  lemma {:induction false} GluedKeyIsAccepted(
    p: Primitives, k: Kem, rng: Rng, n: nat, n1: nat, front: Bytes, back: Bytes, pk: Bytes)
    requires Built(k) && k.HybridKem? && |front| == PublicKeySize(k.classical) && |back| >= PublicKeySize(k.pq)
    requires Encapsulate(p, k.classical, rng, n, front).0.Ok? && Encapsulate(p, k.classical, rng, n, front).1 == n1
    requires Encapsulate(p, k.pq, rng, n1, back).0.Ok? && pk == front + back
    ensures Encapsulate(p, k, rng, n, pk).0.Ok?
  {
    assert pk[..|front|] == front && pk[|front|..] == back;
    HybridOutcome(p, k, rng, n, pk);
  }

  /** With products of base point multiples that are never zero and reads that succeed, generation succeeds, and the
      generated key is accepted; a tree ending in a placeholder also accepts it with anything appended. */
  lemma {:induction false} GeneratedKeysAreAccepted(
    p: Primitives, k: Kem, gen: Rng, g: nat, rng: Rng, n: nat, extra: Bytes)
    requires Built(k) && DhIsNonZero(p) && ReadsSucceed(gen) && ReadsSucceed(rng)
    requires LastLeaf(k).X25519Kem? ==> extra == []
    ensures TakesItsKey(p, k, gen, g, rng, n, extra)
    decreases k
  {
    if k.HybridKem? {
      var c := k.classical;
      GeneratedKeysAreAccepted(p, c, gen, g, rng, n, []);
      var front, g1 := Generate(p, c, gen, g).0.value.pk, Generate(p, c, gen, g).1;
      assert front + [] == front;
      var n1 := Encapsulate(p, c, rng, n, front).1;
      GeneratedKeysAreAccepted(p, k.pq, gen, g1, rng, n1, extra);
      HybridGenerates(p, k, gen, g);
      var pk, back := Generate(p, k, gen, g).0.value.pk + extra, Generate(p, k.pq, gen, g1).0.value.pk + extra;
      assert pk == front + back;
      GluedKeyIsAccepted(p, k, rng, n, n1, front, back, pk);
    } else {
      GeneratedLeafKeyIsAccepted(p, k, gen, g, rng, n, extra);
    }
  }

  lemma GeneratedLeafKeyIsAccepted(p: Primitives, k: Kem, gen: Rng, g: nat, rng: Rng, n: nat, extra: Bytes)
    requires Built(k) && !k.HybridKem? && DhIsNonZero(p) && ReadsSucceed(gen) && ReadsSucceed(rng)
    requires LastLeaf(k).X25519Kem? ==> extra == []
    ensures TakesItsKey(p, k, gen, g, rng, n, extra)
  {
    if k.X25519Kem? {
      GeneratedX25519IsAccepted(p, gen, g, rng, n);
      assert Generate(p, k, gen, g).0.value.pk + [] == Generate(p, k, gen, g).0.value.pk;
    }
  }

  // ---------------------------------------------------------------- whose Decapsulate undoes Encapsulate

  /** For this key pair, decapsulation returns every secret that encapsulation made. */
  ghost predicate Undoes(p: Primitives, k: Kem, pk: Bytes, sk: Bytes) {
    forall rng: Rng, n: nat, rng': Rng, n': nat ::
      var e := Encapsulate(p, k, rng, n, pk).0;
      e.Ok? ==> Decapsulate(p, k, rng', n', sk, e.value.ct) == Ok(e.value.ss)
  }

  lemma X25519Undoes(p: Primitives, gen: Rng, g: nat)
    requires DhCommutes(p) && Generate(p, X25519Kem, gen, g).0.Ok?
    ensures var pair := Generate(p, X25519Kem, gen, g).0.value; Undoes(p, X25519Kem, pair.pk, pair.sk)
  {
    var pair := Generate(p, X25519Kem, gen, g).0.value;
    forall rng: Rng, n: nat, rng': Rng, n': nat | Encapsulate(p, X25519Kem, rng, n, pair.pk).0.Ok?
      ensures Decapsulate(p, X25519Kem, rng', n', pair.sk, Encapsulate(p, X25519Kem, rng, n, pair.pk).0.value.ct)
              == Ok(Encapsulate(p, X25519Kem, rng, n, pair.pk).0.value.ss)
    {
      var eph: Bytes32 := Drawn(rng, n, 32);
      var priv: Bytes32 := Drawn(gen, g, 32);
      assert p.x25519(priv, p.x25519(eph, BASEPOINT)) == p.x25519(eph, p.x25519(priv, BASEPOINT));
    }
  }

  /** Every secret that encapsulation makes for this key is zero. */
  ghost predicate OnlyZeroSecrets(p: Primitives, k: Kem, pk: Bytes) {
    forall rng: Rng, n: nat ::
      var e := Encapsulate(p, k, rng, n, pk).0;
      e.Ok? ==> e.value.ss == Zeros(32)
  }

  /** A hybrid's `Decapsulate` gives 32 zero bytes: it undoes encapsulation exactly if every secret is zero. */
  lemma HybridsUndoZerosOnly(p: Primitives, k: Kem, pk: Bytes, sk: Bytes)
    requires k.HybridKem?
    ensures Undoes(p, k, pk, sk) <==> OnlyZeroSecrets(p, k, pk)
  {
    if Undoes(p, k, pk, sk) {
      forall rng: Rng, n: nat | Encapsulate(p, k, rng, n, pk).0.Ok?
        ensures Encapsulate(p, k, rng, n, pk).0.value.ss == Zeros(32)
      {
        assert Decapsulate(p, k, rng, n, sk, Encapsulate(p, k, rng, n, pk).0.value.ct) == Ok(Zeros(32));
      }
    }
    if OnlyZeroSecrets(p, k, pk) {
      forall rng: Rng, n: nat, rng': Rng, n': nat | Encapsulate(p, k, rng, n, pk).0.Ok?
        ensures Decapsulate(p, k, rng', n', sk, Encapsulate(p, k, rng, n, pk).0.value.ct)
                == Ok(Encapsulate(p, k, rng, n, pk).0.value.ss)
      {
        assert Encapsulate(p, k, rng, n, pk).0.value.ss == Zeros(32);
      }
    }
  }

  /** The ML-KEM placeholders undo nothing, for any pair of keys: X25519 is the only single KEM that does. */
  lemma PlaceholdersDoNotUndo(p: Primitives, k: Kem, pk: Bytes, sk: Bytes)
    requires k.Mlkem768Stub? || k.Mlkem1024Stub?
    ensures !Undoes(p, k, pk, sk)
  {
    var zeros: Rng := (n: nat) => Draw(true, (i: nat) => 0);
    var ones: Rng := (n: nat) => Draw(true, (i: nat) => 1);
    var e := Encapsulate(p, k, zeros, 0, pk).0;
    assert e.value.ss[0] == 0 && Decapsulate(p, k, ones, 0, sk, e.value.ct).value[0] == 1;
  }
}
