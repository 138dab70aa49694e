/**
 * Little-endian field reads at explicit byte offsets of a buffer. The source
 * overlays C# structs on pinned memory; here every field is decoded from its
 * own bytes instead.
 */
module Bytes {
  import opened Common

  /** The bytes [off, off + n) lie inside the buffer. */
  predicate InBuffer(data: seq<byte>, off: int, n: nat) {
    0 <= off && off + n <= |data|
  }

  function U16At(data: seq<byte>, off: int): u16
    requires InBuffer(data, off, 2)
  {
    (data[off] as int) + 0x100 * (data[off + 1] as int)
  }

  function I16At(data: seq<byte>, off: int): i16
    requires InBuffer(data, off, 2)
  {
    ToSigned16(U16At(data, off))
  }

  function U32At(data: seq<byte>, off: int): u32
    requires InBuffer(data, off, 4)
  {
    U16At(data, off) + 0x1_0000 * U16At(data, off + 2)
  }

  function I32At(data: seq<byte>, off: int): i32
    requires InBuffer(data, off, 4)
  {
    ToSigned32(U32At(data, off))
  }

  function FloatAt(data: seq<byte>, off: int): Float32
    requires InBuffer(data, off, 4)
  {
    Bits(U32At(data, off))
  }

  function Vec3At(data: seq<byte>, off: int): Vec3
    requires InBuffer(data, off, 12)
  {
    Vec3(FloatAt(data, off), FloatAt(data, off + 4), FloatAt(data, off + 8))
  }

  /** Two's-complement reinterpretation of a 16-bit pattern. */
  function ToSigned16(u: u16): (s: i16)
    ensures s % 0x1_0000 == u
    ensures s < 0 <==> u >= 0x8000
  {
    if u >= 0x8000 then u - 0x1_0000 else u
  }

  /** Two's-complement reinterpretation of a 32-bit pattern. */
  function ToSigned32(u: u32): (s: i32)
    ensures s % 0x1_0000_0000 == u
    ensures s < 0 <==> u >= 0x8000_0000
  {
    if u >= 0x8000_0000 then u - 0x1_0000_0000 else u
  }

  /**
   * C# `int` arithmetic (unchecked): the exact value reduced to 32 bits and
   * read back as two's complement.
   */
  function Wrap32(x: int): (r: i32)
    ensures r % 0x1_0000_0000 == x % 0x1_0000_0000
    ensures -0x8000_0000 <= x < 0x8000_0000 ==> r == x
  {
    ToSigned32(x % 0x1_0000_0000)
  }

  /** Wrapping after every addition is wrapping once at the end. */
  lemma Wrap32Add(a: int, b: int)
    ensures Wrap32(Wrap32(a) + b) == Wrap32(a + b)
  {
    var m := 0x1_0000_0000;
    var d := Wrap32(a) - a;
    assert d % m == 0;
    assert d == m * (d / m);
    assert (Wrap32(a) + b) == (a + b) + m * (d / m);
  }

  /** The little-endian bytes of a 16-bit value. */
  function EncodeU16(x: u16): (b: seq<byte>)
    ensures |b| == 2
  {
    [x % 0x100, x / 0x100]
  }

  /** The little-endian bytes of a 32-bit value. */
  function EncodeU32(x: u32): (b: seq<byte>)
    ensures |b| == 4
  {
    EncodeU16(x % 0x1_0000) + EncodeU16(x / 0x1_0000)
  }

  /** Decoding a 16-bit field and re-encoding it gives back the field's bytes, and vice versa. */
  lemma U16RoundTrip(data: seq<byte>, off: int, x: u16)
    requires InBuffer(data, off, 2)
    ensures EncodeU16(U16At(data, off)) == data[off..off + 2]
    ensures data[off..off + 2] == EncodeU16(x) ==> U16At(data, off) == x
  {
  }

  /** Decoding a 32-bit field and re-encoding it gives back the field's bytes, and vice versa. */
  lemma U32RoundTrip(data: seq<byte>, off: int, x: u32)
    requires InBuffer(data, off, 4)
    ensures EncodeU32(U32At(data, off)) == data[off..off + 4]
    ensures data[off..off + 4] == EncodeU32(x) ==> U32At(data, off) == x
  {
    var lo: int, hi: int := U16At(data, off), U16At(data, off + 2);
    U16RoundTrip(data, off, x % 0x1_0000);
    U16RoundTrip(data, off + 2, x / 0x1_0000);
    assert (lo + 0x1_0000 * hi) % 0x1_0000 == lo && (lo + 0x1_0000 * hi) / 0x1_0000 == hi;
    assert data[off..off + 4] == data[off..off + 2] + data[off + 2..off + 4];
    if data[off..off + 4] == EncodeU32(x) {
      var e := EncodeU32(x);
      assert e[..2] == EncodeU16(x % 0x1_0000) && e[2..] == EncodeU16(x / 0x1_0000);
      assert data[off..off + 2] == data[off..off + 4][..2];
      assert data[off + 2..off + 4] == data[off..off + 4][2..];
    }
  }

  /** There is a NUL byte at or after `start`. */
  predicate HasNul(data: seq<byte>, start: nat) {
    exists k :: start <= k < |data| && data[k] == 0
  }

  /** There is a NUL byte among the `n` bytes from `start`. */
  predicate NulWithin(data: seq<byte>, start: int, n: nat) {
    exists k :: start <= k < start + n && 0 <= k < |data| && data[k] == 0
  }

  lemma NulWithinHasNul(data: seq<byte>, start: nat, n: nat)
    requires NulWithin(data, start, n)
    ensures HasNul(data, start)
  {
    var k :| start <= k < start + n && 0 <= k < |data| && data[k] == 0;
  }

  /**
   * The bytes from `start` up to, not including, the first NUL: what an ANSI
   * C-string conversion of a pointer to `start` reads.
   */
  function CStringAt(data: seq<byte>, start: nat): (s: seq<byte>)
    requires HasNul(data, start)
    ensures start + |s| < |data| && data[start + |s|] == 0
    ensures s == data[start..start + |s|]
    ensures forall k :: 0 <= k < |s| ==> s[k] != 0
    decreases |data| - start
  {
    if data[start] == 0 then []
    else
      assert HasNul(data, start + 1) by {
        var k :| start <= k < |data| && data[k] == 0;
        assert k != start;
      }
      [data[start]] + CStringAt(data, start + 1)
  }
}
