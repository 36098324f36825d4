/** Key derivation and the Finished MAC of crypto.go. */
module KeySchedule {
  import opened Bytes
  import opened Options
  import opened Primitives

  datatype KeySet = KeySet(clientKey: Bytes, serverKey: Bytes, exporterSecret: Bytes)

  const SALT: Bytes := [81, 90, 77, 81, 45, 118, 49, 45, 83, 97, 108, 116]
  const INFO: Bytes := [81, 90, 77, 81, 45, 118, 49, 45, 75, 101, 121, 115]

  /** Every hash the code does not know, BLAKE3 among them, falls back to SHA-256. */
  function HashUsed(hash: int): int {
    if hash == SHA384 || hash == SHA512 then hash else SHA256
  }

  function KeyStream(p: Primitives, kemSecret: Bytes, ecdheSecret: Bytes, hash: int): nat -> byte {
    p.hkdf(HashUsed(hash), kemSecret + ecdheSecret, SALT, INFO)
  }

  /** `n` bytes of a stream from position `from` on. */
  function Segment(stream: nat -> byte, from: nat, n: nat): (b: Bytes)
    ensures |b| == n
  {
    seq<byte>(n, i requires 0 <= i < n => stream(from + i))
  }

  function DeriveKeys(p: Primitives, kemSecret: Bytes, ecdheSecret: Bytes, hash: int): (k: KeySet)
    ensures |k.clientKey| == |k.serverKey| == |k.exporterSecret| == 32
  {
    var stream := KeyStream(p, kemSecret, ecdheSecret, hash);
    KeySet(Segment(stream, 0, 32), Segment(stream, 32, 32), Segment(stream, 64, 32))
  }

  /** The three keys are the first 96 bytes of the stream, cut without gap or overlap: the key sets of two derivations
      agree exactly when these bytes do. */
  lemma KeysAreTheFirst96Bytes(p: Primitives, s: Bytes, e: Bytes, s': Bytes, e': Bytes, hash: int)
    ensures var k := DeriveKeys(p, s, e, hash);
            k.clientKey + k.serverKey + k.exporterSecret == Segment(KeyStream(p, s, e, hash), 0, 96)
    ensures DeriveKeys(p, s, e, hash) == DeriveKeys(p, s', e', hash)
            <==> Segment(KeyStream(p, s, e, hash), 0, 96) == Segment(KeyStream(p, s', e', hash), 0, 96)
  {
    CutsOf96(KeyStream(p, s, e, hash));
    CutsOf96(KeyStream(p, s', e', hash));
  }

  /** Where the keys come from: the first 96 bytes of HKDF over the KEM secret followed by the ECDHE secret, with the
      protocol's salt and info, under SHA-384 (code 1) or SHA-512 (code 2) if the suite says so, otherwise SHA-256. */
  lemma KeysComeFromHkdf(p: Primitives, s: Bytes, e: Bytes, hash: int)
    ensures var k := DeriveKeys(p, s, e, hash);
            var h := if hash == 1 then SHA384 else if hash == 2 then SHA512 else SHA256;
            k.clientKey + k.serverKey + k.exporterSecret
            == Segment(p.hkdf(h, s + e, Ascii("QZMQ-v1-Salt"), Ascii("QZMQ-v1-Keys")), 0, 96)
  {
    assert SALT == Ascii("QZMQ-v1-Salt") && INFO == Ascii("QZMQ-v1-Keys");
    KeysAreTheFirst96Bytes(p, s, e, s, e, hash);
  }

  /** Only the concatenation of the secrets matters: where one ends and the other begins does not. */
  lemma OnlyTheConcatenationMatters(p: Primitives, a: Bytes, b: Bytes, c: Bytes, hash: int)
    ensures DeriveKeys(p, a + b, c, hash) == DeriveKeys(p, a, b + c, hash)
  {
    assert (a + b) + c == a + (b + c);
  }

  lemma CutsOf96(stream: nat -> byte)
    ensures var all := Segment(stream, 0, 96);
            && Segment(stream, 0, 32) == all[..32] && Segment(stream, 32, 32) == all[32..64]
            && Segment(stream, 64, 32) == all[64..] && all == all[..32] + all[32..64] + all[64..]
  {}

  /** An `hkdf` reader: each `Read` takes up where the last one stopped. */
  class KdfReader {
    const stream: nat -> byte
    var position: nat

    constructor (stream: nat -> byte)
      ensures this.stream == stream && position == 0
    {
      this.stream := stream;
      position := 0;
    }

    method Read(buf: array<byte>)
      modifies this, buf
      ensures position == old(position) + buf.Length
      ensures buf[..] == Segment(stream, old(position), buf.Length)
    {
      for i := 0 to buf.Length
        invariant position == old(position) + i
        invariant forall j :: 0 <= j < i ==> buf[j] == stream(old(position) + j)
      {
        buf[i] := stream(position);
        position := position + 1;
      }
    }
  }

  method DeriveKeysFromStream(p: Primitives, kemSecret: Bytes, ecdheSecret: Bytes, hash: int) returns (keys: KeySet)
    ensures keys == DeriveKeys(p, kemSecret, ecdheSecret, hash)
  {
    var h := SHA256;
    if hash == SHA384 { h := SHA384; } else if hash == SHA512 { h := SHA512; }
    var kdf := new KdfReader(p.hkdf(h, kemSecret + ecdheSecret, SALT, INFO));
    var clientKey, serverKey, exporterSecret := new byte[32], new byte[32], new byte[32];
    kdf.Read(clientKey);
    kdf.Read(serverKey);
    kdf.Read(exporterSecret);
    keys := KeySet(clientKey[..], serverKey[..], exporterSecret[..]);
  }

  function FinishedMac(p: Primitives, key: Bytes, transcript: Bytes): Bytes32 {
    p.hmac(key, transcript)
  }
}
