/**
 * Indexed-texture expansion (nb3D/Map/QuakeTexture.cs): 8-bit palette
 * indices become packed RGB bytes. The GL upload is not modelled; the value
 * keeps the pixel buffer that would be uploaded.
 */
module Texture {
  import opened Common
  import opened Bytes
  import opened Palette

  datatype QuakeTexture = QuakeTexture(name: seq<byte>, width: i32, height: i32, pixels: seq<byte>)

  /** The length of BuildTexturePixels' `new byte[Width * Height * 3]`: two int products, each wrapping. */
  function PixelBufferLength(width: i32, height: i32): i32 {
    Wrap32(Wrap32(width * height) * 3)
  }

  /**
   * The constructor returns: the buffer length is not negative and the
   * loop's three stores per raw index stay below it.
   */
  predicate Fits(width: i32, height: i32, rawCount: nat) {
    3 * rawCount <= PixelBufferLength(width, height)
  }

  /** The largest raw pixel count whose three bytes a pixel fit in an int length. */
  const MaxTexturePixels: nat := 715_827_882

  /** Whatever the dimensions, the constructor throws on more raw pixels than MaxTexturePixels. */
  lemma FitsBelowMax(width: i32, height: i32, rawCount: nat)
    requires Fits(width, height, rawCount)
    ensures rawCount <= MaxTexturePixels
  {
    assert 3 * rawCount <= 0x7FFF_FFFF;
  }

  function Channel(c: QuakeColor, k: nat): byte
    requires k < 3
  {
    if k == 0 then c.r else if k == 1 then c.g else c.b
  }

  /** The RGB buffer of a `width` x `height` texture whose first |raw| pixels are indexed by `raw`. */
  function ExpandedPixels(width: i32, height: i32, raw: seq<byte>, palette: QuakePalette): (pixels: seq<byte>)
    requires Valid(palette) && Fits(width, height, |raw|)
  {
    seq(PixelBufferLength(width, height), j =>
      if 0 <= j / 3 < |raw| then Channel(GetColor(palette, raw[j / 3]), j % 3) else 0)
  }

  /**
   * The buffer has the wrapped length Width*Height*3; pixel i is the palette
   * colour of raw[i], and bytes past the last raw pixel stay black.
   */
  lemma ExpandedPixelsContents(width: i32, height: i32, raw: seq<byte>, palette: QuakePalette)
    requires Valid(palette) && Fits(width, height, |raw|)
    ensures |ExpandedPixels(width, height, raw, palette)| == PixelBufferLength(width, height)
    ensures forall i :: 0 <= i < |raw| ==>
      var c := GetColor(palette, raw[i]);
      var px := ExpandedPixels(width, height, raw, palette);
      px[3 * i] == c.r && px[3 * i + 1] == c.g && px[3 * i + 2] == c.b
    ensures forall j :: 3 * |raw| <= j < PixelBufferLength(width, height) ==> ExpandedPixels(width, height, raw, palette)[j] == 0
  {
    var px := ExpandedPixels(width, height, raw, palette);
    forall j | 3 * |raw| <= j < PixelBufferLength(width, height)
      ensures px[j] == 0
    {
      assert j / 3 >= |raw|;
    }
    forall i | 0 <= i < |raw|
      ensures var c := GetColor(palette, raw[i]);
        px[3 * i] == c.r && px[3 * i + 1] == c.g && px[3 * i + 2] == c.b
    {
      assert (3 * i) / 3 == i && (3 * i) % 3 == 0;
      assert (3 * i + 1) / 3 == i && (3 * i + 1) % 3 == 1;
      assert (3 * i + 2) / 3 == i && (3 * i + 2) % 3 == 2;
    }
  }

  /**
   * BuildTexturePixels: the allocation throws on a negative length; else
   * the loop writes the three channels of each raw index, and the first
   * store at the buffer's length throws IndexOutOfRange. The stores' index
   * i * 3 + 2 stays below that length, so it never wraps.
   */
  method BuildTexturePixels(width: i32, height: i32, raw: seq<byte>, palette: QuakePalette)
    returns (r: Result<seq<byte>>)
    requires Valid(palette)
    ensures r.Success? <==> Fits(width, height, |raw|)
    ensures r.Failure? ==>
      r.error == if PixelBufferLength(width, height) < 0 then NegativeArraySize else IndexOutOfRange
    ensures r.Success? ==> r.value == ExpandedPixels(width, height, raw, palette)
  {
    var length := PixelBufferLength(width, height);
    if length < 0 {
      return Failure(NegativeArraySize);
    }
    var buffer := new byte[length];
    forall j | 0 <= j < buffer.Length {
      buffer[j] := 0;
    }
    for i := 0 to |raw|
      invariant 3 * i <= buffer.Length
      invariant forall j :: 0 <= j < 3 * i ==> j / 3 < i && buffer[j] == Channel(GetColor(palette, raw[j / 3]), j % 3)
      invariant forall j :: 3 * i <= j < buffer.Length ==> j / 3 >= i && buffer[j] == 0
    {
      if i * 3 + 2 >= buffer.Length {
        return Failure(IndexOutOfRange);
      }
      var color := GetColor(palette, raw[i]);
      buffer[i * 3] := color.r;
      buffer[i * 3 + 1] := color.g;
      buffer[i * 3 + 2] := color.b;
      assert (3 * i) / 3 == i && (3 * i + 1) / 3 == i && (3 * i + 2) / 3 == i;
    }
    return Success(buffer[..]);
  }

  /**
   * The constructor keeps name, width and height as given and expands the
   * pixels, or throws what BuildTexturePixels throws.
   */
  method NewQuakeTexture(name: seq<byte>, width: i32, height: i32, raw: seq<byte>, palette: QuakePalette)
    returns (r: Result<QuakeTexture>)
    requires Valid(palette)
    ensures r.Success? <==> Fits(width, height, |raw|)
    ensures r.Failure? ==>
      r.error == if PixelBufferLength(width, height) < 0 then NegativeArraySize else IndexOutOfRange
    ensures r.Success? ==> r.value.name == name && r.value.width == width && r.value.height == height
    ensures r.Success? ==> r.value == TextureOf(name, width, height, raw, palette)
  {
    var pixels :- BuildTexturePixels(width, height, raw, palette);
    return Success(QuakeTexture(name, width, height, pixels));
  }

  /** The texture the constructor produces when it returns. */
  function TextureOf(name: seq<byte>, width: i32, height: i32, raw: seq<byte>, palette: QuakePalette): QuakeTexture
    requires Valid(palette) && Fits(width, height, |raw|)
  {
    QuakeTexture(name, width, height, ExpandedPixels(width, height, raw, palette))
  }
}
