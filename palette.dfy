/**
 * The 256-entry colour table shared by in-map and WAD3 texture decoding
 * (nb3D/Map/QuakePalette.cs; nb3D/QuakePalette.cs has the same constructor
 * loop and lookup).
 */
module Palette {
  import opened Common

  datatype QuakeColor = QuakeColor(r: byte, g: byte, b: byte)

  /** A palette is immutable once built: its colours are only written by FromBytes. */
  datatype QuakePalette = QuakePalette(colors: seq<QuakeColor>)

  const ColorCount: nat := 256
  const PaletteBytes: nat := 3 * ColorCount

  predicate Valid(p: QuakePalette) {
    |p.colors| == ColorCount
  }

  /** Colour i is the i-th RGB triple of the data. */
  function TripleAt(data: seq<byte>, i: nat): QuakeColor
    requires i < ColorCount && |data| >= PaletteBytes
  {
    QuakeColor(data[3 * i], data[3 * i + 1], data[3 * i + 2])
  }

  /** The palette the constructor builds from `data`. */
  function PaletteOf(data: seq<byte>): (p: QuakePalette)
    requires |data| >= PaletteBytes
    ensures Valid(p)
  {
    QuakePalette(seq(ColorCount, i requires 0 <= i < ColorCount => TripleAt(data, i)))
  }

  /**
   * The constructor: fills the 256 colours from consecutive RGB triples.
   * It indexes `data` up to byte 767, which throws IndexOutOfRange on a
   * shorter array; the precondition excludes that case, which no modelled
   * caller reaches, since the WAD3 decoder passes exactly 768 bytes.
   */
  method FromBytes(data: seq<byte>) returns (p: QuakePalette)
    requires |data| >= PaletteBytes
    ensures Valid(p)
    ensures forall i :: 0 <= i < ColorCount ==>
      p.colors[i] == QuakeColor(data[3 * i], data[3 * i + 1], data[3 * i + 2])
    ensures p == PaletteOf(data)
  {
    var colors := new QuakeColor[ColorCount];
    for i := 0 to ColorCount
      invariant forall j :: 0 <= j < i ==> colors[j] == TripleAt(data, j)
    {
      var r := data[i * 3 + 0];
      var g := data[i * 3 + 1];
      var b := data[i * 3 + 2];
      colors[i] := QuakeColor(r, g, b);
    }
    p := QuakePalette(colors[..]);
  }

  /** Lookup by 8-bit index: every byte value names a stored colour. */
  function GetColor(p: QuakePalette, index: byte): (c: QuakeColor)
    requires Valid(p)
    ensures c in p.colors
  {
    p.colors[index]
  }

  /** Looking up index i in a palette built from `data` gives bytes 3i, 3i+1, 3i+2. */
  lemma GetColorOfBuilt(data: seq<byte>, index: byte)
    requires |data| >= PaletteBytes
    ensures GetColor(PaletteOf(data), index) == QuakeColor(data[3 * index], data[3 * index + 1], data[3 * index + 2])
  {
  }

  /** Bytes beyond the first 768 do not influence the palette. */
  lemma ExtraBytesIgnored(data: seq<byte>, extra: seq<byte>)
    requires |data| >= PaletteBytes
    ensures PaletteOf(data + extra) == PaletteOf(data)
    ensures PaletteOf(data) == PaletteOf(data[..PaletteBytes])
  {
    assert PaletteOf(data + extra).colors == PaletteOf(data).colors;
    assert PaletteOf(data[..PaletteBytes]).colors == PaletteOf(data).colors;
  }
}
