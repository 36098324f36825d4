/** The message frame of connection.go: its in-place encoder and decoder, and the code they form. */
module Frames {
  import opened Bytes

  datatype Frame = Frame(
    version: byte, streamID: uint32, sequenceNo: uint64, flags: byte, payload: Bytes, aad: Bytes)

  const EMPTY := Frame(0, 0, 0, 0, [], [])

  /** The 18 bytes before the payload; the payload length is cast to 32 bits. */
  function Header(f: Frame): (h: Bytes)
    ensures |h| == 18
  {
    [f.version] + BigEndian(f.streamID, 4) + BigEndian(f.sequenceNo, 8) + [f.flags]
    + BigEndian(|f.payload| % TWO32, 4)
  }

  /** A length cast to 16 bits, then that many bytes (all of them, whatever the cast lost). */
  function AadField(aad: Bytes): Bytes {
    BigEndian(|aad| % TWO16, 2) + aad
  }

  function Marshalled(f: Frame): (b: Bytes)
    ensures |b| == 20 + |f.payload| + |f.aad|
  {
    Header(f) + f.payload + AadField(f.aad)
  }

  /** The AAD bytes that the 16-bit length covers. */
  function CarriedAad(aad: Bytes): (r: Bytes)
    ensures |r| == |aad| % TWO16 && r <= aad
  {
    aad[..|aad| % TWO16]
  }

  /** The lengths fit the fields that carry them. */
  predicate Fits(f: Frame) {
    |f.payload| < TWO32 && |f.aad| < TWO16
  }

  datatype Verdict = Accepted | TooShort | BadFrameLength | BadAadLength

  /** The frame object after `unmarshal`: a failing call has already overwritten the fields before the failure. */
  function Unmarshalled(prior: Frame, d: Bytes): (Frame, Verdict) {
    if |d| < 18 then (prior, TooShort)
    else
      var h := prior.(version := d[0], streamID := U32(d[1..5]), sequenceNo := U64(d[5..13]), flags := d[13]);
      var n := U32(d[14..18]);
      if |d| < 18 + n + 2 then (h, BadFrameLength)
      else
        var p := h.(payload := d[18..18 + n]);
        var m := U16(d[18 + n..20 + n]);
        if |d| < 20 + n + m then (p, BadAadLength)
        else (p.(aad := d[20 + n..20 + n + m]), Accepted)
  }

  function Parse(d: Bytes): Option<Frame> {
    var (f, verdict) := Unmarshalled(EMPTY, d);
    if verdict.Accepted? then Some(f) else None
  }

  method MarshalFrame(f: Frame) returns (buf: array<byte>)
    ensures fresh(buf) && buf[..] == Marshalled(f)
  {
    var size := 1 + 4 + 8 + 1 + 4 + |f.payload| + 2 + |f.aad|;
    buf := new byte[size](_ => 0);
    var offset := MarshalHeader(f, buf);
    MarshalBody(f, buf, offset);
  }

  method MarshalBody(f: Frame, buf: array<byte>, start: nat)
    requires start == 18 && buf.Length == |Marshalled(f)| && buf[..start] == Header(f)
    modifies buf
    ensures buf[..] == Marshalled(f)
  {
    ghost var done := Header(f);
    var offset := CopyInto(buf, start, f.payload, done);
    done := done + f.payload;
    offset := PutBigEndian(buf, offset, |f.aad| % TWO16, 2, done);
    ghost var size := BigEndian(|f.aad| % TWO16, 2);
    offset := CopyInto(buf, offset, f.aad, done + size);
    assert buf[..] == buf[..offset];
    Regrouped(Header(f), f.payload, size, f.aad);
  }

  lemma Regrouped(a: Bytes, b: Bytes, c: Bytes, d: Bytes)
    ensures ((a + b) + c) + d == a + b + (c + d)
  {}

  method MarshalHeader(f: Frame, buf: array<byte>) returns (offset: nat)
    requires buf.Length >= 18
    modifies buf
    ensures offset == 18 && buf[..offset] == Header(f)
  {
    offset := PutByte(buf, 0, f.version, []);
    ghost var done := [f.version];
    offset := PutBigEndian(buf, offset, f.streamID, 4, done);
    done := done + BigEndian(f.streamID, 4);
    offset := PutBigEndian(buf, offset, f.sequenceNo, 8, done);
    done := done + BigEndian(f.sequenceNo, 8);
    offset := PutByte(buf, offset, f.flags, done);
    done := done + [f.flags];
    offset := PutBigEndian(buf, offset, |f.payload| % TWO32, 4, done);
  }

  class MessageFrame {
    var version: byte
    var streamID: uint32
    var sequenceNo: uint64
    var flags: byte
    var payload: Bytes
    var aad: Bytes

    constructor (f: Frame)
      ensures View() == f
    {
      version, streamID, sequenceNo := f.version, f.streamID, f.sequenceNo;
      flags, payload, aad := f.flags, f.payload, f.aad;
    }

    function View(): Frame
      reads this
    {
      Frame(version, streamID, sequenceNo, flags, payload, aad)
    }

    method Marshal() returns (buf: array<byte>)
      ensures fresh(buf) && buf[..] == Marshalled(View())
    {
      buf := MarshalFrame(View());
    }

    method Unmarshal(data: Bytes) returns (verdict: Verdict)
      modifies this
      ensures (View(), verdict) == Unmarshalled(old(View()), data)
    {
      if |data| < 18 { return TooShort; }
      var offset: nat := 0;
      version := data[offset];
      offset := offset + 1;
      streamID := U32(data[offset..offset + 4]);
      offset := offset + 4;
      sequenceNo := U64(data[offset..offset + 8]);
      offset := offset + 8;
      flags := data[offset];
      offset := offset + 1;
      var payloadLen := U32(data[offset..offset + 4]);
      offset := offset + 4;
      if |data| < offset + payloadLen + 2 { return BadFrameLength; }
      payload := data[offset..offset + payloadLen];
      offset := offset + payloadLen;
      var aadLen := U16(data[offset..offset + 2]);
      offset := offset + 2;
      if |data| < offset + aadLen { return BadAadLength; }
      aad := data[offset..offset + aadLen];
      return Accepted;
    }
  }

  // ---------------------------------------------------------------- the code the frames form

  /** The header of an accepted frame is what it was read from. */
  lemma HeaderOfParsed(f: Frame, d: Bytes)
    requires |d| >= 18 && f.version == d[0] && f.streamID == U32(d[1..5]) && f.sequenceNo == U64(d[5..13])
    requires f.flags == d[13] && |f.payload| == U32(d[14..18])
    ensures Header(f) == d[..18]
  {
    assert d[..18] == [d[0]] + d[1..5] + d[5..13] + [d[13]] + d[14..18];
  }

  lemma BodyOfParsed(f: Frame, d: Bytes, n: nat, m: nat)
    requires |d| >= 20 + n + m && n == |f.payload| && f.payload == d[18..18 + n]
    requires m == |f.aad| && m == U16(d[18 + n..20 + n]) && f.aad == d[20 + n..20 + n + m]
    ensures f.payload + AadField(f.aad) == d[18..20 + n + m]
  {
    AadFieldRead(f.aad, d[18 + n..20 + n]);
    ThreeCuts(d, 18, 18 + n, 20 + n, 20 + n + m);
  }

  lemma AadFieldRead(aad: Bytes, field: Bytes)
    requires |field| == 2 && |aad| == U16(field)
    ensures AadField(aad) == field + aad
  {}

  lemma ThreeCuts(d: Bytes, i: nat, j: nat, k: nat, l: nat)
    requires i <= j <= k <= l <= |d|
    ensures d[i..j] + (d[j..k] + d[k..l]) == d[i..l]
  {}

  lemma ParsedFields(d: Bytes)
    requires Parse(d).Some?
    ensures var f := Parse(d).value;
            var n, m := |f.payload|, |f.aad|;
            && |d| >= 20 + n + m && n < TWO32 && m < TWO16
            && f.version == d[0] && f.streamID == U32(d[1..5]) && f.sequenceNo == U64(d[5..13]) && f.flags == d[13]
            && n == U32(d[14..18]) && f.payload == d[18..18 + n]
            && m == U16(d[18 + n..20 + n]) && f.aad == d[20 + n..20 + n + m]
  {}

  /** Whatever the decoder accepts starts with the encoding of the frame it returns, and that frame fits. */
  lemma ParseIsSound(d: Bytes)
    requires Parse(d).Some?
    ensures Fits(Parse(d).value) && Marshalled(Parse(d).value) <= d
  {
    ParsedFields(d);
    var f := Parse(d).value;
    GluedIsPrefix(f, d, |f.payload|, |f.aad|);
  }

  lemma GluedIsPrefix(f: Frame, d: Bytes, n: nat, m: nat)
    requires |d| >= 20 + n + m && n == |f.payload| && f.payload == d[18..18 + n]
    requires f.version == d[0] && f.streamID == U32(d[1..5]) && f.sequenceNo == U64(d[5..13]) && f.flags == d[13]
    requires n == U32(d[14..18]) && m == |f.aad| && m == U16(d[18 + n..20 + n]) && f.aad == d[20 + n..20 + n + m]
    ensures Marshalled(f) <= d
  {
    HeaderOfParsed(f, d);
    BodyOfParsed(f, d, n, m);
    assert Marshalled(f) == Header(f) + (f.payload + AadField(f.aad));
    assert d[..18] + d[18..20 + n + m] == d[..20 + n + m];
  }

  lemma HeaderReadsBack(f: Frame, d: Bytes)
    requires Header(f) <= d
    ensures d[0] == f.version && d[13] == f.flags
    ensures U32(d[1..5]) == f.streamID && U64(d[5..13]) == f.sequenceNo
    ensures U32(d[14..18]) == |f.payload| % TWO32
  {
    var h := Header(f);
    assert d[1..5] == h[1..5] == BigEndian(f.streamID, 4);
    assert d[5..13] == h[5..13] == BigEndian(f.sequenceNo, 8);
    assert d[14..18] == h[14..18] == BigEndian(|f.payload| % TWO32, 4);
    assert d[0] == h[0] && d[13] == h[13];
    ReadBack32(f.streamID); ReadBack64(f.sequenceNo); ReadBack32(|f.payload| % TWO32);
  }

  lemma Fields(a: Bytes, b: Bytes, c: Bytes, d: Bytes, rest: Bytes)
    ensures var s := a + b + (c + d) + rest;
            && a <= s
            && s[|a|..|a| + |b|] == b
            && s[|a| + |b|..|a| + |b| + |c|] == c
            && s[|a| + |b| + |c|..|a| + |b| + |c| + |d|] == d
  {}

  lemma BodyReadsBack(f: Frame, rest: Bytes)
    ensures var d, n, aad := Marshalled(f) + rest, |f.payload|, CarriedAad(f.aad);
            && Header(f) <= d
            && d[18..18 + n] == f.payload
            && U16(d[18 + n..20 + n]) == |aad|
            && d[20 + n..20 + n + |aad|] == aad
  {
    var n, m := |f.payload|, |CarriedAad(f.aad)|;
    Fields(Header(f), f.payload, BigEndian(m, 2), f.aad, rest);
    ReadBack16(m);
    assert (Marshalled(f) + rest)[20 + n..20 + n + m] == (Marshalled(f) + rest)[20 + n..20 + n + |f.aad|][..m];
  }

  lemma ParseFromFields(d: Bytes, f: Frame)
    requires |d| >= 20 + |f.payload| + |f.aad|
    requires d[0] == f.version && U32(d[1..5]) == f.streamID && U64(d[5..13]) == f.sequenceNo && d[13] == f.flags
    requires U32(d[14..18]) == |f.payload| && d[18..18 + |f.payload|] == f.payload
    requires U16(d[18 + |f.payload|..20 + |f.payload|]) == |f.aad|
    requires d[20 + |f.payload|..20 + |f.payload| + |f.aad|] == f.aad
    ensures Parse(d) == Some(f)
  {}

  /** Decoding an encoded frame, whatever follows it: exact, but for the AAD bytes beyond the 16-bit length. */
  lemma ParseOfMarshalled(f: Frame, rest: Bytes)
    requires |f.payload| < TWO32
    ensures Parse(Marshalled(f) + rest) == Some(f.(aad := CarriedAad(f.aad)))
  {
    BodyReadsBack(f, rest);
    HeaderReadsBack(f, Marshalled(f) + rest);
    ParseFromFields(Marshalled(f) + rest, f.(aad := CarriedAad(f.aad)));
  }

  lemma ParseOfExtension(f: Frame, d: Bytes)
    requires Fits(f) && Marshalled(f) <= d
    ensures Parse(d) == Some(f)
  {
    var b := Marshalled(f);
    assert d == b + d[|b|..];
    ParseOfMarshalled(f, d[|b|..]);
    assert f.aad[..|f.aad|] == f.aad;
  }

  /** The decoder accepts exactly the strings that start with some frame that fits, and returns that frame. */
  lemma AcceptsExactlyTheFrames(d: Bytes)
    ensures Parse(d).Some? <==> exists f :: Fits(f) && Marshalled(f) <= d
    ensures forall f :: Fits(f) && Marshalled(f) <= d ==> Parse(d) == Some(f)
  {
    if Parse(d).Some? { ParseIsSound(d); }
    forall f | Fits(f) && Marshalled(f) <= d
      ensures Parse(d) == Some(f)
    {
      ParseOfExtension(f, d);
    }
  }

  /** Which error a string gets, by its length and its two length fields. */
  lemma VerdictByLength(prior: Frame, d: Bytes)
    ensures var verdict := Unmarshalled(prior, d).1;
            && (|d| < 18 <==> verdict.TooShort?)
            && (|d| >= 18 ==>
                  var n := Number(d[14..18]);
                  && (|d| < 20 + n <==> verdict.BadFrameLength?)
                  && (|d| >= 20 + n ==>
                        (|d| < 20 + n + Number(d[18 + n..20 + n]) <==> verdict.BadAadLength?)))
  {}

  /** A frame cut short is refused at every length, in the header, before the AAD length is there, or in the AAD; and
      what was read before stays in the object. */
  lemma TruncatedFrame(f: Frame, prior: Frame, k: nat)
    requires Fits(f) && k <= |Marshalled(f)|
    ensures var n := |f.payload|;
            Unmarshalled(prior, Marshalled(f)[..k])
            == if k < 18 then (prior, TooShort)
               else if k < 20 + n then (f.(payload := prior.payload, aad := prior.aad), BadFrameLength)
               else if k < 20 + n + |f.aad| then (f.(aad := prior.aad), BadAadLength)
               else (f, Accepted)
  {
    if k >= 18 {
      HeaderOfTruncated(f, k);
      if k >= 20 + |f.payload| { BodyOfTruncated(f, k); }
    }
  }

  lemma HeaderOfTruncated(f: Frame, k: nat)
    requires Fits(f) && 18 <= k <= |Marshalled(f)|
    ensures var d := Marshalled(f)[..k];
            && d[0] == f.version && U32(d[1..5]) == f.streamID && U64(d[5..13]) == f.sequenceNo && d[13] == f.flags
            && U32(d[14..18]) == |f.payload|
  {
    var d := Marshalled(f);
    Fields(Header(f), f.payload, BigEndian(|f.aad| % TWO16, 2), f.aad, []);
    assert d + [] == d;
    assert Header(f) <= d[..k];
    HeaderReadsBack(f, d[..k]);
  }

  lemma BodyOfTruncated(f: Frame, k: nat)
    requires Fits(f) && 20 + |f.payload| <= k <= |Marshalled(f)|
    ensures var d, n := Marshalled(f)[..k], |f.payload|;
            && d[18..18 + n] == f.payload && U16(d[18 + n..20 + n]) == |f.aad|
            && (k == 20 + n + |f.aad| ==> d[20 + n..20 + n + |f.aad|] == f.aad)
  {
    var d, n := Marshalled(f), |f.payload|;
    BodyReadsBack(f, []);
    assert d + [] == d;
    assert CarriedAad(f.aad) == f.aad;
    SliceOfPrefix(d, 18, 18 + n, k); SliceOfPrefix(d, 18 + n, 20 + n, k);
  }

  lemma SliceOfPrefix(d: Bytes, i: nat, j: nat, k: nat)
    requires i <= j <= k <= |d|
    ensures d[..k][i..j] == d[i..j]
  {}

  /** A frame survives the round trip exactly when its lengths fit. */
  lemma RoundTripExactlyWhenItFits(f: Frame)
    ensures Parse(Marshalled(f)) == Some(f) <==> Fits(f)
  {
    if Fits(f) {
      AcceptsExactlyTheFrames(Marshalled(f));
    } else if Parse(Marshalled(f)).Some? {
      ParseIsSound(Marshalled(f));
    }
  }

  lemma FramesArePrefixFree(f: Frame, g: Frame)
    requires Fits(f) && Fits(g) && Marshalled(f) <= Marshalled(g)
    ensures f == g
  {
    AcceptsExactlyTheFrames(Marshalled(g));
  }

  function Concatenated(fs: seq<Frame>): Bytes {
    if fs == [] then [] else Marshalled(fs[0]) + Concatenated(fs[1..])
  }

  /** A stream of frames splits into frames in only one way. */
  lemma {:induction false} StreamsSplitUniquely(fs: seq<Frame>, gs: seq<Frame>)
    requires forall f :: f in fs ==> Fits(f)
    requires forall g :: g in gs ==> Fits(g)
    requires Concatenated(fs) == Concatenated(gs)
    ensures fs == gs
  {
    if fs != [] && gs != [] {
      var d := Concatenated(fs);
      AcceptsExactlyTheFrames(d);
      assert Marshalled(fs[0]) <= d && Marshalled(gs[0]) <= d;
      assert d[|Marshalled(fs[0])|..] == Concatenated(fs[1..]);
      assert d[|Marshalled(gs[0])|..] == Concatenated(gs[1..]);
      StreamsSplitUniquely(fs[1..], gs[1..]);
      assert fs == [fs[0]] + fs[1..] && gs == [gs[0]] + gs[1..];
    }
  }
}
