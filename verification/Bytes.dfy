/** Byte strings, big-endian integers and in-place writes: what Go's `encoding/binary`, `copy` and `^` do. */
module Bytes {

  type byte = x: int | 0 <= x < 0x100
  type uint16 = x: int | 0 <= x < 0x1_0000
  type uint32 = x: int | 0 <= x < 0x1_0000_0000
  type uint64 = x: int | 0 <= x < 0x1_0000_0000_0000_0000
  type Bytes = seq<byte>
  type Bytes32 = b: Bytes | |b| == 32 witness seq(32, _ => 0)

  datatype Option<+T> = None | Some(value: T)

  const TWO16 := 0x1_0000
  const TWO32 := 0x1_0000_0000
  const TWO64 := 0x1_0000_0000_0000_0000

  function Zeros(n: nat): (b: Bytes)
    ensures |b| == n
  {
    seq(n, _ => 0)
  }

  /** The bytes of a text in ASCII. */
  function Ascii(text: string): (b: Bytes)
    ensures |b| == |text|
  {
    seq(|text|, i requires 0 <= i < |text| => text[i] as int % 0x100)
  }

  // ---------------------------------------------------------------- big-endian integers

  /** The last `n` base-256 digits of `x`, most significant first. */
  function BigEndian(x: nat, n: nat): (b: Bytes)
    ensures |b| == n
  {
    if n == 0 then [] else BigEndian(x / 0x100, n - 1) + [x % 0x100]
  }

  /** The number a byte string denotes, most significant byte first. */
  function Number(b: Bytes): nat {
    if b == [] then 0 else Number(b[..|b| - 1]) * 0x100 + b[|b| - 1]
  }

  function Power256(n: nat): (p: nat)
    ensures p > 0
  {
    if n == 0 then 1 else 0x100 * Power256(n - 1)
  }

  lemma FieldWidths()
    ensures Power256(1) == 0x100 && Power256(2) == TWO16 && Power256(4) == TWO32 && Power256(8) == TWO64
  {
    assert Power256(3) == 0x100_0000;
    assert Power256(5) == 0x100_0000_0000;
    assert Power256(6) == 0x1_0000_0000_0000;
    assert Power256(7) == 0x100_0000_0000_0000;
  }

  /** A field of `n` bytes loses nothing of a number below 256^n. */
  lemma {:induction false} NumberOfBigEndian(x: nat, n: nat)
    requires x < Power256(n)
    ensures Number(BigEndian(x, n)) == x
  {
    if n > 0 {
      NumberOfBigEndian(x / 0x100, n - 1);
      assert BigEndian(x, n)[..n - 1] == BigEndian(x / 0x100, n - 1);
    }
  }

  lemma {:induction false} BigEndianOfNumber(b: Bytes)
    ensures Number(b) < Power256(|b|)
    ensures BigEndian(Number(b), |b|) == b
  {
    if b != [] {
      BigEndianOfNumber(b[..|b| - 1]);
      assert Number(b) / 0x100 == Number(b[..|b| - 1]) && Number(b) % 0x100 == b[|b| - 1];
    }
  }

  /** A number read back from a field wide enough for it is that number. */
  lemma ReadBack16(x: uint16)
    ensures Number(BigEndian(x, 2)) == x
  {
    FieldWidths(); NumberOfBigEndian(x, 2);
  }

  lemma ReadBack32(x: uint32)
    ensures Number(BigEndian(x, 4)) == x
  {
    FieldWidths(); NumberOfBigEndian(x, 4);
  }

  lemma ReadBack64(x: uint64)
    ensures Number(BigEndian(x, 8)) == x
  {
    FieldWidths(); NumberOfBigEndian(x, 8);
  }

  function U16(b: Bytes): (x: uint16)
    requires |b| == 2
    ensures BigEndian(x, 2) == b
  {
    BigEndianOfNumber(b); FieldWidths(); Number(b)
  }

  function U32(b: Bytes): (x: uint32)
    requires |b| == 4
    ensures BigEndian(x, 4) == b
  {
    BigEndianOfNumber(b); FieldWidths(); Number(b)
  }

  function U64(b: Bytes): (x: uint64)
    requires |b| == 8
    ensures BigEndian(x, 8) == b
  {
    BigEndianOfNumber(b); FieldWidths(); Number(b)
  }

  // ---------------------------------------------------------------- writes into a buffer

  /** `copy(buf[offset:], part)`, which stops where the buffer ends; the result is the offset it reaches.
      `done` is what the buffer holds up to `offset`. */
  method CopyInto(buf: array<byte>, offset: nat, part: Bytes, ghost done: Bytes) returns (end: nat)
    requires offset <= buf.Length && buf[..offset] == done
    modifies buf
    ensures end == (if |part| <= buf.Length - offset then offset + |part| else buf.Length)
    ensures buf[..end] == done + part[..end - offset]
    ensures forall j :: end <= j < buf.Length ==> buf[j] == old(buf[j])
  {
    end := if |part| <= buf.Length - offset then offset + |part| else buf.Length;
    for i := offset to end
      invariant buf[..i] == done + part[..i - offset]
      invariant forall j :: end <= j < buf.Length ==> buf[j] == old(buf[j])
    {
      ghost var was := buf[..i];
      buf[i] := part[i - offset];
      assert buf[..i + 1] == was + [part[i - offset]];
    }
  }

  /** `binary.BigEndian.PutUintN(buf[offset:], x)`; the result is the offset after the field. */
  method PutBigEndian(buf: array<byte>, offset: nat, x: nat, n: nat, ghost done: Bytes) returns (end: nat)
    requires offset + n <= buf.Length && buf[..offset] == done
    modifies buf
    ensures end == offset + n
    ensures buf[..end] == done + BigEndian(x, n)
    ensures forall j :: end <= j < buf.Length ==> buf[j] == old(buf[j])
  {
    var digits := BigEndian(x, n);
    end := CopyInto(buf, offset, digits, done);
    assert digits[..n] == digits;
  }

  /** `buf[offset] = x`; the result is the offset after the byte. */
  method PutByte(buf: array<byte>, offset: nat, x: byte, ghost done: Bytes) returns (end: nat)
    requires offset < buf.Length && buf[..offset] == done
    modifies buf
    ensures end == offset + 1
    ensures buf[..end] == done + [x]
    ensures forall j :: end <= j < buf.Length ==> buf[j] == old(buf[j])
  {
    buf[offset] := x;
    end := offset + 1;
  }

  // ---------------------------------------------------------------- exclusive or

  /** Bitwise exclusive or of the low `n` bits of `a` and `b`. */
  function XorBits(a: nat, b: nat, n: nat): nat {
    if n == 0 then 0
    else (if a % 2 == b % 2 then 0 else 1) + 2 * XorBits(a / 2, b / 2, n - 1)
  }

  function PowerOf2(n: nat): (p: nat)
    ensures p > 0
  {
    if n == 0 then 1 else 2 * PowerOf2(n - 1)
  }

  lemma XorBitsSplit(a: nat, b: nat, n: nat)
    requires n > 0
    ensures XorBits(a, b, n) / 2 == XorBits(a / 2, b / 2, n - 1)
    ensures XorBits(a, b, n) % 2 == if a % 2 == b % 2 then 0 else 1
  {}

  lemma {:induction false} XorBitsBounded(a: nat, b: nat, n: nat)
    ensures XorBits(a, b, n) < PowerOf2(n)
  {
    if n > 0 { XorBitsBounded(a / 2, b / 2, n - 1); }
  }

  lemma {:induction false} XorBitsCommutes(a: nat, b: nat, n: nat)
    ensures XorBits(a, b, n) == XorBits(b, a, n)
  {
    if n > 0 { XorBitsCommutes(a / 2, b / 2, n - 1); }
  }

  lemma {:induction false} XorBitsCancels(a: nat, b: nat, n: nat)
    requires a < PowerOf2(n)
    ensures XorBits(XorBits(a, b, n), b, n) == a
  {
    if n > 0 {
      XorBitsCancels(a / 2, b / 2, n - 1);
      XorBitsSplit(a, b, n);
    }
  }

  function Xor(a: byte, b: byte): (x: byte)
    ensures XorBits(x, b, 8) == a && XorBits(b, a, 8) == x
  {
    assert PowerOf2(8) == 0x100 by { assert PowerOf2(4) == 16; }
    XorBitsBounded(a, b, 8); XorBitsCancels(a, b, 8); XorBitsCommutes(a, b, 8);
    XorBits(a, b, 8)
  }

  /** Byte-wise exclusive or of two strings of one length. */
  function XorBytes(a: Bytes, b: Bytes): (x: Bytes)
    requires |a| == |b|
    ensures |x| == |a|
  {
    seq(|a|, i requires 0 <= i < |a| => Xor(a[i], b[i]))
  }

  lemma XorBytesCancels(a: Bytes, b: Bytes)
    requires |a| == |b|
    ensures XorBytes(XorBytes(a, b), b) == a
    ensures XorBytes(XorBytes(a, b), a) == b
  {
    forall i | 0 <= i < |a|
      ensures Xor(Xor(a[i], b[i]), b[i]) == a[i] && Xor(Xor(a[i], b[i]), a[i]) == b[i]
    {
      var x := Xor(a[i], b[i]);
      assert x == Xor(b[i], a[i]);
    }
  }
}
