/**
 * The byte encodings the unique process identifier is built from: the
 * little-endian layout that `binary.Write` gives a `uint64`, and the lower-case
 * hexadecimal text that `fmt`'s `%x` verb gives a byte slice.
 */
module Encoding {
  import opened Wrappers
  import opened GoTypes

  /** `256^n`. */
  function ByteRange(n: nat): nat {
    if n == 0 then 1 else 0x100 * ByteRange(n - 1)
  }

  lemma ByteRange8()
    ensures ByteRange(8) == 0x1_0000_0000_0000_0000
  {
    assert ByteRange(1) == 0x100;
    assert ByteRange(2) == 0x1_0000;
    assert ByteRange(4) == 0x1_0000_0000 by {
      assert ByteRange(3) == 0x100_0000;
    }
    assert ByteRange(6) == 0x1_0000_0000_0000 by {
      assert ByteRange(5) == 0x100_0000_0000;
    }
    assert ByteRange(7) == 0x100_0000_0000_0000;
  }

  /** The `n` low-order bytes of `x`, least significant first. */
  function LittleEndianBytes(x: nat, n: nat): (b: seq<byte>)
    ensures |b| == n
    ensures n > 0 ==> b[0] as nat == x % 0x100
  {
    if n == 0 then [] else [(x % 0x100) as byte] + LittleEndianBytes(x / 0x100, n - 1)
  }

  /** The number whose little-endian bytes are `b`. */
  function FromLittleEndian(b: seq<byte>): nat {
    if b == [] then 0 else b[0] as nat + 0x100 * FromLittleEndian(b[1..])
  }

  lemma {:induction false} LittleEndianRoundTrip(x: nat, n: nat)
    requires x < ByteRange(n)
    ensures FromLittleEndian(LittleEndianBytes(x, n)) == x
  {
    if n > 0 {
      var b := LittleEndianBytes(x, n);
      assert b[1..] == LittleEndianBytes(x / 0x100, n - 1);
      assert x / 0x100 < ByteRange(n - 1);
      LittleEndianRoundTrip(x / 0x100, n - 1);
    }
  }

  /** `binary.Write(w, binary.LittleEndian, x)` for a `uint64`: eight bytes, least significant first. */
  function Uint64Bytes(x: uint64): (b: seq<byte>)
    ensures |b| == 8
    ensures FromLittleEndian(b) == x as nat
  {
    ByteRange8();
    LittleEndianRoundTrip(x as nat, 8);
    LittleEndianBytes(x as nat, 8)
  }

  /** Two `uint64` values with the same bytes are the same value. */
  lemma Uint64BytesInjective(x: uint64, y: uint64)
    requires Uint64Bytes(x) == Uint64Bytes(y)
    ensures x == y
  {
  }

  // ---------------------------------------------------------------------------
  // %x of a byte slice
  // ---------------------------------------------------------------------------

  predicate IsLowerHexDigit(c: char) {
    '0' <= c <= '9' || 'a' <= c <= 'f'
  }

  predicate IsLowerHex(s: string) {
    forall i :: 0 <= i < |s| ==> IsLowerHexDigit(s[i])
  }

  function HexDigit(d: nat): (c: char)
    requires d < 16
    ensures IsLowerHexDigit(c)
  {
    "0123456789abcdef"[d]
  }

  /** The value of a lower-case hexadecimal digit. */
  function HexValue(c: char): (d: Option<nat>)
    ensures d.Some? <==> IsLowerHexDigit(c)
    ensures d.Some? ==> d.value < 16 && HexDigit(d.value) == c
  {
    if '0' <= c <= '9' then Some(c as nat - '0' as nat)
    else if 'a' <= c <= 'f' then Some(c as nat - 'a' as nat + 10)
    else None
  }

  /** `fmt.Sprintf("%x", b)`: two lower-case hexadecimal digits per byte, high nibble first. */
  function Hex(b: seq<byte>): (s: string)
    ensures |s| == 2 * |b|
    ensures IsLowerHex(s)
  {
    if b == [] then "" else [HexDigit(b[0] as nat / 16), HexDigit(b[0] as nat % 16)] + Hex(b[1..])
  }

  /** The bytes that a lower-case hexadecimal text denotes, if it is one. */
  function Unhex(s: string): Option<seq<byte>>
    decreases |s|
  {
    if s == [] then Some([])
    else if |s| == 1 then None
    else match (HexValue(s[0]), HexValue(s[1]), Unhex(s[2..]))
      case (Some(hi), Some(lo), Some(rest)) => Some([(hi * 16 + lo) as byte] + rest)
      case _ => None
  }

  lemma HexDigitValue(d: nat)
    requires d < 16
    ensures HexValue(HexDigit(d)) == Some(d)
  {
  }

  /** The hexadecimal text determines the bytes: decoding it gives them back. */
  lemma {:induction false} HexRoundTrip(b: seq<byte>)
    ensures Unhex(Hex(b)) == Some(b)
  {
    if b != [] {
      var hi, lo := b[0] as nat / 16, b[0] as nat % 16;
      HexRoundTrip(b[1..]);
      HexDigitValue(hi);
      HexDigitValue(lo);
      UnhexCons(HexDigit(hi), HexDigit(lo), Hex(b[1..]), hi, lo, b[1..]);
      Nibbles(b[0]);
      assert b == [b[0]] + b[1..];
    }
  }

  /** Decoding two digits followed by the text of `rest` gives their byte followed by `rest`. */
  lemma UnhexCons(c0: char, c1: char, s: string, hi: nat, lo: nat, rest: seq<byte>)
    requires HexValue(c0) == Some(hi) && HexValue(c1) == Some(lo)
    requires Unhex(s) == Some(rest)
    ensures Unhex([c0, c1] + s) == Some([(hi * 16 + lo) as byte] + rest)
  {
    assert ([c0, c1] + s)[2..] == s;
  }

  /** A byte is its high nibble times sixteen plus its low nibble. */
  lemma Nibbles(x: byte)
    ensures (x as nat / 16) * 16 + x as nat % 16 == x as nat
  {
  }

  lemma HexInjective(a: seq<byte>, b: seq<byte>)
    requires Hex(a) == Hex(b)
    ensures a == b
  {
    HexRoundTrip(a);
    HexRoundTrip(b);
  }

  /** A SHA-256 digest: 32 bytes. */
  type Digest = d: seq<byte> | |d| == 32 witness seq(32, _ => 0)
}
