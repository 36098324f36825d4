/** The handshake messages of connection.go: ClientHello, ServerHello and ClientKey on the wire. */
module HelloCodec {
  import opened Bytes
  import opened Options

  datatype Extension = Extension(typ: uint16, data: Bytes)

  const EXT_KEY_SHARE: uint16 := 0x0033
  const EXT_PQ_ONLY: uint16 := 0xFF01

  datatype ClientHello = ClientHello(
    version: byte, random: Bytes, suite: Suite, sessionID: Bytes, extensions: seq<Extension>)

  datatype ServerHello = ServerHello(
    version: byte, random: Bytes, suite: Suite, kemPublicKey: Bytes, certificate: Bytes, signature: Bytes)

  // ---------------------------------------------------------------- ClientHello

  /** The first `n` bytes of `b`, padded with zeros. */
  function FirstBytes(b: Bytes, n: nat): (r: Bytes)
    ensures |r| == n
  {
    if |b| >= n then b[..n] else b + Zeros(n - |b|)
  }

  function ExtensionBytes(e: Extension): (b: Bytes)
    ensures |b| == 4 + |e.data|
  {
    BigEndian(e.typ, 2) + BigEndian(|e.data| % TWO16, 2) + e.data
  }

  function ExtensionsBytes(es: seq<Extension>): Bytes {
    if es == [] then [] else ExtensionBytes(es[0]) + ExtensionsBytes(es[1..])
  }

  lemma {:induction false} ExtensionsBytesAppend(es: seq<Extension>, e: Extension)
    ensures ExtensionsBytes(es + [e]) == ExtensionsBytes(es) + ExtensionBytes(e)
  {
    if es == [] {
      assert es + [e] == [e] && [e][1..] == [];
    } else {
      assert (es + [e])[1..] == es[1..] + [e];
      ExtensionsBytesAppend(es[1..], e);
    }
  }

  /** What precedes the extensions. The random is copied over the four suite bytes if it is too long for its
      own 32, and the suite itself is never written. */
  function HelloPrefix(m: ClientHello): (b: Bytes)
    ensures |b| == 40 + |m.sessionID|
  {
    [m.version] + FirstBytes(m.random, 36) + [|m.sessionID| % 0x100] + m.sessionID
    + BigEndian(|m.extensions| % TWO16, 2)
  }

  function ClientHelloBytes(m: ClientHello): Bytes {
    HelloPrefix(m) + ExtensionsBytes(m.extensions)
  }

  method HelloSize(m: ClientHello) returns (size: nat)
    ensures size == |ClientHelloBytes(m)|
  {
    size := 1 + 32 + 4 + 1 + |m.sessionID| + 2;
    for i := 0 to |m.extensions|
      invariant size == 40 + |m.sessionID| + |ExtensionsBytes(m.extensions[..i])|
    {
      ExtensionsBytesAppend(m.extensions[..i], m.extensions[i]);
      assert m.extensions[..i + 1] == m.extensions[..i] + [m.extensions[i]];
      size := size + 4 + |m.extensions[i].data|;
    }
    assert m.extensions[..|m.extensions|] == m.extensions;
  }

  /** Writes everything before the extensions; no write leaves the buffer. */
  method PutHelloPrefix(m: ClientHello, buf: array<byte>) returns (offset: nat)
    requires buf.Length >= 40 + |m.sessionID| && forall j :: 0 <= j < buf.Length ==> buf[j] == 0
    modifies buf
    ensures offset == 40 + |m.sessionID| && buf[..offset] == HelloPrefix(m)
  {
    offset := PutByte(buf, 0, m.version, []);
    var end := CopyInto(buf, offset, m.random, [m.version]);
    ghost var done := [m.version] + FirstBytes(m.random, 36);
    assert buf[..37] == done by {
      if |m.random| >= 36 {
        assert buf[..37] == buf[..end][..37];
      } else {
        assert buf[..37] == buf[..end] + Zeros(37 - end);
      }
    }
    offset := offset + 32;
    offset := offset + 4;
    offset := PutByte(buf, offset, |m.sessionID| % 0x100, done);
    done := done + [|m.sessionID| % 0x100];
    offset := CopyInto(buf, offset, m.sessionID, done);
    done := done + m.sessionID;
    offset := PutBigEndian(buf, offset, |m.extensions| % TWO16, 2, done);
  }

  method PutExtension(e: Extension, buf: array<byte>, offset: nat, ghost done: Bytes) returns (end: nat)
    requires offset + 4 + |e.data| <= buf.Length && buf[..offset] == done
    modifies buf
    ensures end == offset + 4 + |e.data| && buf[..end] == done + ExtensionBytes(e)
  {
    end := PutBigEndian(buf, offset, e.typ, 2, done);
    ghost var more := done + BigEndian(e.typ, 2);
    end := PutBigEndian(buf, end, |e.data| % TWO16, 2, more);
    more := more + BigEndian(|e.data| % TWO16, 2);
    end := CopyInto(buf, end, e.data, more);
    assert more + e.data == done + ExtensionBytes(e);
  }

  /** For every message, the final offset is the size computed beforehand and every byte is as specified. */
  method MarshalClientHello(m: ClientHello) returns (buf: array<byte>, offset: nat)
    ensures fresh(buf) && offset == buf.Length && buf[..offset] == ClientHelloBytes(m)
  {
    var size := HelloSize(m);
    buf := new byte[size](_ => 0);
    offset := PutHelloPrefix(m, buf);
    offset := PutExtensions(m.extensions, buf, offset, HelloPrefix(m));
  }

  method PutExtensions(es: seq<Extension>, buf: array<byte>, start: nat, ghost done: Bytes) returns (offset: nat)
    requires start + |ExtensionsBytes(es)| <= buf.Length && buf[..start] == done
    modifies buf
    ensures offset == start + |ExtensionsBytes(es)| && buf[..offset] == done + ExtensionsBytes(es)
  {
    offset := start;
    ghost var written := done;
    for i := 0 to |es|
      invariant offset + |ExtensionsBytes(es[i..])| == start + |ExtensionsBytes(es)|
      invariant buf[..offset] == written == done + ExtensionsBytes(es[..i])
    {
      assert es[i..][1..] == es[i + 1..];
      offset := PutExtension(es[i], buf, offset, written);
      written := written + ExtensionBytes(es[i]);
      ExtensionsBytesAppend(es[..i], es[i]);
      assert es[..i + 1] == es[..i] + [es[i]];
    }
    assert es[..|es|] == es;
  }

  /** The lengths fit their fields and the random has its 32 bytes. */
  predicate HelloFits(m: ClientHello) {
    && |m.random| == 32 && |m.sessionID| < 0x100 && |m.extensions| < TWO16
    && forall e :: e in m.extensions ==> |e.data| < TWO16
  }

  /** A reading of `n` extensions that must end where the bytes end. */
  function ReadExtensions(d: Bytes, n: nat): (r: Option<seq<Extension>>)
    ensures r.Some? ==> |r.value| == n && forall e :: e in r.value ==> |e.data| < TWO16
  {
    if n == 0 then if d == [] then Some([]) else None
    else if |d| < 4 then None
    else
      var len := U16(d[2..4]);
      if |d| < 4 + len then None
      else
        match ReadExtensions(d[4 + len..], n - 1)
        case None => None
        case Some(es) => Some([Extension(U16(d[..2]), d[4..4 + len])] + es)
  }

  lemma {:induction false} ExtensionCuts(e: Extension, tail: Bytes)
    requires |e.data| < TWO16
    ensures var d, n := ExtensionBytes(e) + tail, |e.data|;
            U16(d[..2]) == e.typ && U16(d[2..4]) == n && d[4..4 + n] == e.data && d[4 + n..] == tail
  {
    Cut(BigEndian(e.typ, 2), BigEndian(|e.data|, 2), e.data, tail);
    ReadBack16(e.typ); ReadBack16(|e.data|);
  }

  lemma {:induction false} ReadExtensionsInverts(es: seq<Extension>)
    requires forall e :: e in es ==> |e.data| < TWO16
    ensures ReadExtensions(ExtensionsBytes(es), |es|) == Some(es)
  {
    if es != [] {
      ReadExtensionsInverts(es[1..]);
      ExtensionCuts(es[0], ExtensionsBytes(es[1..]));
      assert es == [es[0]] + es[1..];
    }
  }

  lemma Cut(a: Bytes, b: Bytes, c: Bytes, rest: Bytes)
    ensures var d := a + b + c + rest;
            && d[..|a|] == a && d[|a|..|a| + |b|] == b
            && d[|a| + |b|..|a| + |b| + |c|] == c && d[|a| + |b| + |c|..] == rest
  {}

  /** The fields a reader recovers; the suite is not among them. */
  datatype HelloFields = HelloFields(version: byte, random: Bytes, sessionID: Bytes, extensions: seq<Extension>)

  function FieldsOf(m: ClientHello): HelloFields {
    HelloFields(m.version, m.random, m.sessionID, m.extensions)
  }

  function ReadClientHello(d: Bytes): Option<HelloFields> {
    if |d| < 40 then None
    else
      var n: nat := d[37];
      if |d| < 40 + n then None else
      match ReadExtensions(d[40 + n..], U16(d[38 + n..40 + n]))
      case None => None
      case Some(es) => Some(HelloFields(d[0], d[1..33], d[38..38 + n], es))
  }

  lemma HelloPrefixReads(m: ClientHello, d: Bytes)
    requires HelloFits(m) && HelloPrefix(m) <= d
    ensures var n := |m.sessionID|;
            && d[0] == m.version && d[1..33] == m.random && d[37] == n
            && d[38..38 + n] == m.sessionID && U16(d[38 + n..40 + n]) == |m.extensions|
  {
    var n, h := |m.sessionID|, HelloPrefix(m);
    var front := [m.version] + FirstBytes(m.random, 36);
    assert h == front + [n] + m.sessionID + BigEndian(|m.extensions|, 2);
    assert d[1..33] == front[1..33] == m.random;
    assert h[37] == n && d[37] == h[37];
    assert d[38..38 + n] == h[38..38 + n] == m.sessionID;
    assert d[38 + n..40 + n] == h[38 + n..40 + n] == BigEndian(|m.extensions|, 2);
    ReadBack16(|m.extensions|);
  }

  /** The bytes read back as version, random, session ID and the ordered extensions exactly when the lengths fit. */
  lemma ClientHelloReadsBack(m: ClientHello)
    ensures ReadClientHello(ClientHelloBytes(m)) == Some(FieldsOf(m)) <==> HelloFits(m)
  {
    if HelloFits(m) {
      var d := ClientHelloBytes(m);
      HelloPrefixReads(m, d);
      ReadExtensionsInverts(m.extensions);
      assert d[40 + |m.sessionID|..] == ExtensionsBytes(m.extensions);
    }
  }

  lemma ClientHelloDetermines(a: ClientHello, b: ClientHello)
    requires HelloFits(a) && HelloFits(b) && ClientHelloBytes(a) == ClientHelloBytes(b)
    ensures FieldsOf(a) == FieldsOf(b)
  {
    ClientHelloReadsBack(a); ClientHelloReadsBack(b);
  }

  /** One byte of length is not enough for a 256-byte session ID: each of these reads as one extension instead. */
  lemma LongSessionIdCollides(random: Bytes32, z: Bytes)
    requires |z| == 250
    ensures var a := ClientHello(1, random, ZERO_SUITE, [0, 1, 0, 0, 0, 252] + z, []);
            var b := ClientHello(1, random, ZERO_SUITE, [], [Extension(0, z + [0, 0])]);
            FieldsOf(a) != FieldsOf(b) && ClientHelloBytes(a) == ClientHelloBytes(b)
  {
    var a := ClientHello(1, random, ZERO_SUITE, [0, 1, 0, 0, 0, 252] + z, []);
    var e := Extension(0, z + [0, 0]);
    var b := ClientHello(1, random, ZERO_SUITE, [], [e]);
    TwoBytes(0, 0); TwoBytes(0, 1); TwoBytes(0, 252);
    var front := [1] + FirstBytes(random, 36) + [0];
    assert HelloPrefix(a) == front + ([0, 1, 0, 0, 0, 252] + z + [0, 0]);
    assert HelloPrefix(b) == front + [0, 1];
    assert ExtensionsBytes([e]) == ExtensionBytes(e) + ExtensionsBytes([]) by { assert [e][1..] == []; }
    assert ExtensionBytes(e) == [0, 0, 0, 252] + z + [0, 0];
  }

  lemma TwoBytes(high: byte, low: byte)
    ensures BigEndian(high * 0x100 + low, 2) == [high, low]
  {
    assert BigEndian(high, 1) == [high] by { assert BigEndian(0, 0) == []; }
  }

  // ---------------------------------------------------------------- ServerHello

  /** The shipped parser stops after the random: every later field keeps its zero value. */
  function ShippedServerHello(d: Bytes): Option<ServerHello> {
    if |d| < 34 then None else Some(ServerHello(d[0], d[1..33], ZERO_SUITE, [], [], []))
  }

  // ---------------------------------------------------------------- ClientKey

  /** Room for a length-prefixed optional field, which `marshal` reserves and leaves zero. */
  function Reserved(field: Bytes): nat {
    if |field| > 0 then 2 + |field| else 0
  }

  function ClientKeyBytes(ciphertext: Bytes, pskBinder: Bytes, clientSig: Bytes): Bytes {
    BigEndian(|ciphertext| % TWO16, 2) + ciphertext + Zeros(Reserved(pskBinder) + Reserved(clientSig))
  }

  method MarshalClientKey(ciphertext: Bytes, pskBinder: Bytes, clientSig: Bytes) returns (buf: array<byte>)
    ensures fresh(buf) && buf[..] == ClientKeyBytes(ciphertext, pskBinder, clientSig)
  {
    var size := 2 + |ciphertext|;
    if |pskBinder| > 0 { size := size + 2 + |pskBinder|; }
    if |clientSig| > 0 { size := size + 2 + |clientSig|; }
    buf := new byte[size](_ => 0);
    var offset := PutBigEndian(buf, 0, |ciphertext| % TWO16, 2, []);
    ghost var done := BigEndian(|ciphertext| % TWO16, 2);
    offset := CopyInto(buf, offset, ciphertext, done);
    assert buf[..] == buf[..offset] + Zeros(size - offset);
  }

  /** After the ciphertext there are only zero bytes, two and its length for each optional field that is present. */
  lemma ClientKeyTail(ciphertext: Bytes, pskBinder: Bytes, clientSig: Bytes)
    ensures var d, n := ClientKeyBytes(ciphertext, pskBinder, clientSig), 2 + |ciphertext|;
            && |d| == n + (if pskBinder == [] then 0 else 2 + |pskBinder|)
                        + (if clientSig == [] then 0 else 2 + |clientSig|)
            && d[2..n] == ciphertext && forall i :: n <= i < |d| ==> d[i] == 0
  {}

  /** How a peer reads the length-prefixed ciphertext. */
  function ReadCiphertext(d: Bytes): (r: Option<Bytes>)
    ensures r.Some? ==> |r.value| < TWO16
  {
    if |d| < 2 || |d| < 2 + U16(d[..2]) then None else Some(d[2..2 + U16(d[..2])])
  }

  /** The peer reads the ciphertext back exactly when its length fits sixteen bits. */
  lemma CiphertextReadsBack(ciphertext: Bytes, pskBinder: Bytes, clientSig: Bytes)
    ensures ReadCiphertext(ClientKeyBytes(ciphertext, pskBinder, clientSig)) == Some(ciphertext)
            <==> |ciphertext| < TWO16
  {
    var n := |ciphertext| % TWO16;
    ReadBack16(n);
    PrefixedBody(BigEndian(n, 2), ciphertext, Zeros(Reserved(pskBinder) + Reserved(clientSig)), n);
  }

  lemma PrefixedBody(prefix: Bytes, body: Bytes, rest: Bytes, n: nat)
    requires |prefix| == 2 && n <= |body|
    ensures var d := prefix + body + rest; d[..2] == prefix && d[2..2 + n] == body[..n]
  {}
}
