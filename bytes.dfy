/**
 * Bytes and the fixed-width little-endian integer encodings the DCA1 layout
 * uses: `i32::to_le_bytes` for the header length and `i16::to_le_bytes` for
 * each frame length, together with the truncating `as i16` cast.
 */
module Bytes {

  newtype byte = x: int | 0 <= x < 256

  /** Number of bytes of an `i16` and of an `i32`. */
  const I16_BYTES: nat := 2
  const I32_BYTES: nat := 4

  function Pow256(n: nat): (p: nat)
    ensures p > 0
  {
    if n == 0 then 1 else 256 * Pow256(n - 1)
  }

  /** Half of the range of a `width`-byte integer: the smallest value that does not fit a signed one. */
  function Half(width: nat): (h: nat)
    requires width > 0
    ensures 2 * h == Pow256(width)
  {
    128 * Pow256(width - 1)
  }

  lemma WidthConstants()
    ensures Pow256(I16_BYTES) == 0x1_0000 && Half(I16_BYTES) == 0x8000
    ensures Pow256(I32_BYTES) == 0x1_0000_0000 && Half(I32_BYTES) == 0x8000_0000
  {
  }

  /** The unsigned value `u`, least significant byte first, in exactly `width` bytes. */
  function UnsignedLE(u: nat, width: nat): (r: seq<byte>)
    requires u < Pow256(width)
    ensures |r| == width
  {
    if width == 0 then [] else [(u % 256) as byte] + UnsignedLE(u / 256, width - 1)
  }

  /** The unsigned value of a little-endian byte sequence. */
  function ValueLE(bs: seq<byte>): (u: nat)
    ensures u < Pow256(|bs|)
  {
    if bs == [] then 0 else bs[0] as nat + 256 * ValueLE(bs[1..])
  }

  /** Decoding an encoded value gives the value back. */
  lemma {:induction false} ValueOfUnsignedLE(u: nat, width: nat)
    requires u < Pow256(width)
    ensures ValueLE(UnsignedLE(u, width)) == u
  {
    if width > 0 {
      var r := UnsignedLE(u, width);
      assert r[1..] == UnsignedLE(u / 256, width - 1);
      ValueOfUnsignedLE(u / 256, width - 1);
    }
  }

  /** Encoding a decoded value gives the bytes back: distinct byte strings of one width decode differently. */
  lemma {:induction false} UnsignedLEOfValue(bs: seq<byte>)
    ensures UnsignedLE(ValueLE(bs), |bs|) == bs
  {
    if bs != [] {
      var v := ValueLE(bs);
      var rest := ValueLE(bs[1..]);
      assert v % 256 == bs[0] as nat && v / 256 == rest;
      UnsignedLEOfValue(bs[1..]);
    }
  }

  lemma AppendAssociates(a: seq<byte>, b: seq<byte>, c: seq<byte>)
    ensures (a + b) + c == a + (b + c)
  {
  }

  predicate InSignedRange(v: int, width: nat)
  {
    width > 0 && -(Half(width) as int) <= v < Half(width)
  }

  /** Two's complement little-endian encoding of a signed value (`iN::to_le_bytes`). */
  function SignedLE(v: int, width: nat): (r: seq<byte>)
    requires InSignedRange(v, width)
    ensures |r| == width
  {
    UnsignedLE(if v < 0 then v + Pow256(width) else v, width)
  }

  /** The signed value of a two's complement little-endian byte sequence (`iN::from_le_bytes`). */
  function SignedValueLE(bs: seq<byte>): (v: int)
    requires |bs| > 0
    ensures InSignedRange(v, |bs|)
  {
    var u := ValueLE(bs);
    if u >= Half(|bs|) then u - Pow256(|bs|) else u
  }

  lemma SignedRoundTrip(v: int, width: nat)
    requires InSignedRange(v, width)
    ensures SignedValueLE(SignedLE(v, width)) == v
  {
    ValueOfUnsignedLE(if v < 0 then v + Pow256(width) else v, width);
  }

  /**
   * The truncating cast `n as i16` of a non-negative length: the low 16 bits
   * read as a two's complement value.
   */
  function WrapI16(n: nat): (v: int)
    ensures InSignedRange(v, I16_BYTES)
    ensures (n - v) % 0x1_0000 == 0
    ensures v == n <==> n < 0x8000
  {
    WidthConstants();
    var u := n % 0x1_0000;
    if u >= 0x8000 then u - 0x1_0000 else u
  }
}
