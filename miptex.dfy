/**
 * The miptex header overlay shared by the WAD3 directory entries and the BSP
 * texture lump (the MipTexture structs of nb3D/Map/WAD3.cs:29-41 and
 * nb3D/Map/QuakeMap.cs:118-128): a name, a width, a height and four offsets.
 */
module Miptex {
  import opened Common
  import opened Bytes
  import opened Texture

  /**
   * The overlay's size: the name is declared as 16 two-byte chars, so it
   * covers Width and Height; the four offsets end at byte 40.
   */
  const MipHeaderSize: nat := 40

  predicate MipHeaderReadable(data: seq<byte>, p: int) {
    InBuffer(data, p, MipHeaderSize) && NulWithin(data, p, MipHeaderSize)
  }

  function MipWidth(data: seq<byte>, p: int): u32
    requires MipHeaderReadable(data, p)
  {
    U32At(data, p + 16)
  }

  function MipHeight(data: seq<byte>, p: int): u32
    requires MipHeaderReadable(data, p)
  {
    U32At(data, p + 20)
  }

  function MipOffset(data: seq<byte>, p: int, k: nat): u32
    requires MipHeaderReadable(data, p) && k < 4
  {
    U32At(data, p + 24 + 4 * k)
  }

  /** The range of a C# uint: products of two uints wrap modulo 2^32. */
  const UintRange: nat := 0x1_0000_0000

  /**
   * The length of the `new byte[Width * Height]` buffer the full-size pixels
   * are copied into: the uint product, which wraps.
   */
  function MipPixelCount(data: seq<byte>, p: int): (n: nat)
    requires MipHeaderReadable(data, p)
    ensures n < UintRange
  {
    (MipWidth(data, p) * MipHeight(data, p)) % UintRange
  }

  /** The count never exceeds the true product, and equals it when the product fits in a uint. */
  lemma MipPixelCountWraps(data: seq<byte>, p: int)
    requires MipHeaderReadable(data, p)
    ensures var product := MipWidth(data, p) * MipHeight(data, p);
      MipPixelCount(data, p) <= product && (product < UintRange ==> MipPixelCount(data, p) == product)
  {
    var product := MipWidth(data, p) * MipHeight(data, p);
    assert 0 <= product;
    ModBelow(product, UintRange);
  }

  /** The width the loaders pass to the texture constructor: the `(int)` cast of the uint. */
  function MipTextureWidth(data: seq<byte>, p: int): i32
    requires MipHeaderReadable(data, p)
  {
    ToSigned32(MipWidth(data, p))
  }

  /** The height the loaders pass to the texture constructor: the `(int)` cast of the uint. */
  function MipTextureHeight(data: seq<byte>, p: int): i32
    requires MipHeaderReadable(data, p)
  {
    ToSigned32(MipHeight(data, p))
  }

  /** The texture constructor returns on the cast dimensions and the W*H raw pixels. */
  predicate MipFits(data: seq<byte>, p: int)
    requires MipHeaderReadable(data, p)
  {
    Fits(MipTextureWidth(data, p), MipTextureHeight(data, p), MipPixelCount(data, p))
  }

  /**
   * The constructor returns exactly when there are at most MaxTexturePixels
   * raw pixels, and its buffer then holds three bytes per raw pixel and no
   * more: the int product of the cast dimensions agrees with the uint
   * product modulo 2^32.
   */
  lemma MipFitsExactly(data: seq<byte>, p: int)
    requires MipHeaderReadable(data, p)
    ensures MipFits(data, p) <==> MipPixelCount(data, p) <= MaxTexturePixels
    ensures MipFits(data, p) ==>
      PixelBufferLength(MipTextureWidth(data, p), MipTextureHeight(data, p)) == 3 * MipPixelCount(data, p)
  {
    CastFits(MipWidth(data, p), MipHeight(data, p));
  }

  /** MipFitsExactly on the two uints of a header. */
  lemma CastFits(width: u32, height: u32)
    ensures var w, h, n := ToSigned32(width), ToSigned32(height), (width * height) % UintRange;
      (Fits(w, h, n) <==> n <= MaxTexturePixels)
      && (Fits(w, h, n) ==> PixelBufferLength(w, h) == 3 * n)
  {
    var w, h, n := ToSigned32(width), ToSigned32(height), (width * height) % UintRange;
    var product := (w as int) * (h as int);
    CastProductMod(width, height);
    assert Wrap32(product) == ToSigned32(n);
    if n <= MaxTexturePixels {
      assert PixelBufferLength(w, h) == Wrap32(3 * n) == 3 * n;
    } else if Fits(w, h, n) {
      FitsBelowMax(w, h, n);
    }
  }

  /** The int product of the casts agrees with the uint product modulo 2^32. */
  lemma CastProductMod(width: u32, height: u32)
    ensures (ToSigned32(width) * ToSigned32(height)) % UintRange == (width * height) % UintRange
  {
    var k := if width >= 0x8000_0000 then 1 else 0;
    var l := if height >= 0x8000_0000 then 1 else 0;
    assert ToSigned32(width) == width - UintRange * k;
    assert ToSigned32(height) == height - UintRange * l;
    var q := UintRange * k * l - k * height - l * width;
    assert ToSigned32(width) * ToSigned32(height) == width * height + UintRange * q;
    ModAddMultiple(width * height, q);
  }

  /** Adding a multiple of 2^32 leaves the residue unchanged. */
  lemma ModAddMultiple(x: int, q: int)
    ensures (x + UintRange * q) % UintRange == x % UintRange
  {
    var r := x % UintRange;
    var d := x / UintRange;
    assert x == UintRange * d + r;
    assert x + UintRange * q == UintRange * (d + q) + r;
  }

  lemma ModBelow(x: nat, m: nat)
    requires m > 0
    ensures x % m <= x && (x < m ==> x % m == x)
  {
  }

  /** The name: the ANSI bytes up to the first NUL. */
  function MipName(data: seq<byte>, p: int): seq<byte>
    requires MipHeaderReadable(data, p)
  {
    NulWithinHasNul(data, p, MipHeaderSize);
    CStringAt(data, p)
  }

}
