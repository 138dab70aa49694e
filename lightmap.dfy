/**
 * Lightmap tiles (nb3D/Map/QuakeMap.cs, BuildLightmap and
 * BuildFullLitLightmap): a surface's lightmap block of w x h luxels is
 * copied into the top-left corner of a square RGB tile of side `size`
 * (QuakeLightmap.Size, which the model takes as a parameter), and the rest
 * of the tile stays white. The GL upload is not modelled; a lightmap value
 * keeps the bytes that would be uploaded.
 */
module Lightmap {
  import opened Common
  import opened Bytes
  import opened Arith

  datatype QuakeLightmap = QuakeLightmap(data: seq<byte>)

  /** The side of the full-lit tile. */
  const FullLitSide: nat := 16

  /** The shared tile for surfaces without a lightmap: 16 * 16 RGB texels, all white. */
  function FullLitLightmap(): (l: QuakeLightmap)
    ensures |l.data| == FullLitSide * FullLitSide * 3
    ensures forall j :: 0 <= j < |l.data| ==> l.data[j] == 255
  {
    QuakeLightmap(seq(FullLitSide * FullLitSide * 3, _ => 255))
  }

  /** Bytes per luxel in the map's lightmap lump: 3 for BSP30 (RGB), 1 for BSP29 (gray). */
  function Channels(rgb: bool): nat {
    if rgb then 3 else 1
  }

  /** Tile bytes written per source byte: gray luxels are replicated into three channels. */
  function Copies(rgb: bool): nat {
    if rgb then 1 else 3
  }

  /** Source bytes per block row: w luxels of c bytes. */
  function RowBytes(w: nat, rgb: bool): nat {
    if rgb then 3 * w else w
  }

  /** The w * h * c source bytes the copy loop reads, from `base` on. */
  predicate BlockReadable(data: seq<byte>, base: int, w: nat, h: nat, rgb: bool) {
    InBuffer(data, base, w * h * Channels(rgb))
  }

  // ----- Tile positions -----

  /** Bytes per tile row: `size` RGB texels. */
  function Stride(size: nat): nat {
    3 * size
  }

  /** The luxel column of tile byte column `col`: gray source bytes fill whole texels. */
  function Luxel(col: nat, rgb: bool): nat {
    if rgb then col else col / 3
  }

  /**
   * Tile byte p lies at row p / (3 size) and byte column p % (3 size). It
   * belongs to the block when its row is below h and its column within the
   * first w luxels.
   */
  predicate InBlock(size: nat, w: nat, h: nat, rgb: bool, p: nat)
    requires size > 0
  {
    Div(p, Stride(size)) < h && Luxel(Mod(p, Stride(size)), rgb) < RowBytes(w, rgb)
  }

  /** The source byte that lands at block position p: row-major, w * c bytes per row. */
  function SourceIndex(size: nat, w: nat, rgb: bool, p: nat): nat
    requires size > 0
  {
    Mul(Div(p, Stride(size)), RowBytes(w, rgb)) + Luxel(Mod(p, Stride(size)), rgb)
  }

  /** The tile the copy produces, Size * Size * 3 bytes: the block where it belongs, white elsewhere. */
  function TileOf(data: seq<byte>, base: int, size: nat, w: nat, h: nat, rgb: bool): (tile: seq<byte>)
    requires size > 0 && BlockReadable(data, base, w, h, rgb)
    ensures |tile| == size * size * 3
  {
    seq(size * size * 3, p requires 0 <= p =>
      if InBlock(size, w, h, rgb, p) then
        SourceIndexBound(data, base, size, w, h, rgb, p);
        data[base + SourceIndex(size, w, rgb, p)]
      else 255)
  }

  // ----- Arithmetic about positions -----

  /** The block holds h rows of RowBytes source bytes. */
  lemma BlockRows(w: nat, h: nat, rgb: bool)
    ensures w * h * Channels(rgb) == Mul(h, RowBytes(w, rgb))
  {
    MulNative(h, RowBytes(w, rgb));
  }

  /** A block position reads one of the w * h * c source bytes. */
  lemma SourceIndexBound(data: seq<byte>, base: int, size: nat, w: nat, h: nat, rgb: bool, p: nat)
    requires size > 0 && InBlock(size, w, h, rgb, p) && BlockReadable(data, base, w, h, rgb)
    ensures 0 <= base + SourceIndex(size, w, rgb, p) < |data|
  {
    InRows(Div(p, Stride(size)), Luxel(Mod(p, Stride(size)), rgb), RowBytes(w, rgb), h);
    BlockRows(w, h, rgb);
  }

  /** The tile position of source byte i, where the loop writes it: row y = i / (w c), byte column x or 3x. */
  function TargetOf(size: nat, w: nat, rgb: bool, i: nat): nat
    requires RowBytes(w, rgb) > 0
  {
    var x := Mod(i, RowBytes(w, rgb));
    var y := Div(i, RowBytes(w, rgb));
    Mul(y, Stride(size)) + (if rgb then x else 3 * x)
  }

  /** The copies of source byte i lie inside the tile. */
  lemma TargetInTile(size: nat, w: nat, h: nat, rgb: bool, i: nat)
    requires w <= size && h <= size && i < Mul(h, RowBytes(w, rgb))
    ensures RowBytes(w, rgb) > 0
    ensures TargetOf(size, w, rgb, i) + Copies(rgb) <= Mul(size, Stride(size))
  {
    MulNative(h, RowBytes(w, rgb));
    RowBelow(i, RowBytes(w, rgb), h);
    DivModSplit(i, RowBytes(w, rgb));
    MulLess(Div(i, RowBytes(w, rgb)), size, Stride(size));
  }

  /** Every copy of source byte i is a block position that reads byte i. */
  lemma TargetReadsSource(size: nat, w: nat, h: nat, rgb: bool, i: nat, k: nat)
    requires size > 0 && w <= size && h <= size && i < Mul(h, RowBytes(w, rgb)) && k < Copies(rgb)
    ensures RowBytes(w, rgb) > 0
    ensures InBlock(size, w, h, rgb, TargetOf(size, w, rgb, i) + k)
    ensures SourceIndex(size, w, rgb, TargetOf(size, w, rgb, i) + k) == i
  {
    TargetInTile(size, w, h, rgb, i);
    var rowBytes := RowBytes(w, rgb);
    RowBelow(i, rowBytes, h);
    DivModSplit(i, rowBytes);
    var x := Mod(i, rowBytes);
    var y := Div(i, rowBytes);
    var col := (if rgb then x else 3 * x) + k;
    DivModOf(y, col, Stride(size));
    assert TargetOf(size, w, rgb, i) + k == Mul(y, Stride(size)) + col;
    assert Luxel(col, rgb) == x;
  }

  /** No other block position reads source byte i. */
  lemma OnlyTargetReadsSource(size: nat, w: nat, h: nat, rgb: bool, i: nat, q: nat)
    requires size > 0 && w <= size && h <= size && i < Mul(h, RowBytes(w, rgb))
    requires InBlock(size, w, h, rgb, q) && SourceIndex(size, w, rgb, q) == i
    ensures RowBytes(w, rgb) > 0
    ensures TargetOf(size, w, rgb, i) <= q < TargetOf(size, w, rgb, i) + Copies(rgb)
  {
    TargetInTile(size, w, h, rgb, i);
    var rowBytes := RowBytes(w, rgb);
    var row := Div(q, Stride(size));
    var col := Mod(q, Stride(size));
    DivModSplit(q, Stride(size));
    DivModOf(row, Luxel(col, rgb), rowBytes);
  }

  /** The tile length the source allocates, Size * Size * 3, in recursive terms. */
  lemma TileSize(size: nat)
    ensures size * size * 3 == Mul(size, Stride(size))
  {
    MulNative(size, Stride(size));
  }

  /** The loop's write position y * (Size * 3) + x (or x * 3) is TargetOf(i). */
  lemma TargetNative(size: nat, w: nat, rgb: bool, i: nat)
    requires RowBytes(w, rgb) > 0
    ensures var x := i % RowBytes(w, rgb);
      (i / RowBytes(w, rgb)) * (size * 3) + (if rgb then x else x * 3) == TargetOf(size, w, rgb, i)
  {
    DivModNative(i, RowBytes(w, rgb));
    MulNative(i / RowBytes(w, rgb), Stride(size));
  }

  /** The tile after the loop has copied source bytes 0 .. i-1. */
  function PartialTile(data: seq<byte>, base: int, size: nat, w: nat, h: nat, rgb: bool, i: nat): (tile: seq<byte>)
    requires size > 0 && BlockReadable(data, base, w, h, rgb) && i <= Mul(h, RowBytes(w, rgb))
    ensures |tile| == size * size * 3
  {
    seq(size * size * 3, p requires 0 <= p =>
      if InBlock(size, w, h, rgb, p) && SourceIndex(size, w, rgb, p) < i then
        BlockRows(w, h, rgb);
        data[base + SourceIndex(size, w, rgb, p)]
      else 255)
  }

  /** Before the loop the tile is all white; after it, the tile is TileOf. */
  lemma PartialTileEnds(data: seq<byte>, base: int, size: nat, w: nat, h: nat, rgb: bool)
    requires size > 0 && BlockReadable(data, base, w, h, rgb)
    ensures PartialTile(data, base, size, w, h, rgb, 0) == seq(size * size * 3, _ => 255)
    ensures PartialTile(data, base, size, w, h, rgb, Mul(h, RowBytes(w, rgb))) == TileOf(data, base, size, w, h, rgb)
  {
    BlockRows(w, h, rgb);
    var full := Mul(h, RowBytes(w, rgb));
    forall p | 0 <= p < size * size * 3
      ensures PartialTile(data, base, size, w, h, rgb, full)[p] == TileOf(data, base, size, w, h, rgb)[p]
    {
      if InBlock(size, w, h, rgb, p) {
        InRows(Div(p, Stride(size)), Luxel(Mod(p, Stride(size)), rgb), RowBytes(w, rgb), h);
      }
    }
  }

  /** Copying source byte i changes exactly the Copies(rgb) tile bytes from TargetOf(i), to byte i. */
  lemma PartialTileStepAt(data: seq<byte>, base: int, size: nat, w: nat, h: nat, rgb: bool, i: nat, p: nat)
    requires size > 0 && w <= size && h <= size && BlockReadable(data, base, w, h, rgb)
    requires i < Mul(h, RowBytes(w, rgb)) && p < size * size * 3
    ensures RowBytes(w, rgb) > 0 && 0 <= base + i < |data|
    ensures var t := TargetOf(size, w, rgb, i);
      PartialTile(data, base, size, w, h, rgb, i + 1)[p]
        == if t <= p < t + Copies(rgb) then data[base + i] else PartialTile(data, base, size, w, h, rgb, i)[p]
  {
    BlockRows(w, h, rgb);
    TargetInTile(size, w, h, rgb, i);
    var t := TargetOf(size, w, rgb, i);
    if t <= p < t + Copies(rgb) {
      TargetReadsSource(size, w, h, rgb, i, p - t);
    } else if InBlock(size, w, h, rgb, p) && SourceIndex(size, w, rgb, p) == i {
      OnlyTargetReadsSource(size, w, h, rgb, i, p);
    }
  }

  /** Copying source byte i writes it at TargetOf(i), once for RGB and three times for gray. */
  lemma PartialTileStep(data: seq<byte>, base: int, size: nat, w: nat, h: nat, rgb: bool, i: nat)
    requires size > 0 && w <= size && h <= size && BlockReadable(data, base, w, h, rgb)
    requires i < Mul(h, RowBytes(w, rgb))
    ensures RowBytes(w, rgb) > 0 && TargetOf(size, w, rgb, i) + Copies(rgb) <= size * size * 3
    ensures 0 <= base + i < |data|
    ensures var t := TargetOf(size, w, rgb, i);
      var before := PartialTile(data, base, size, w, h, rgb, i);
      var d := data[base + i];
      PartialTile(data, base, size, w, h, rgb, i + 1)
        == if rgb then before[t := d] else before[t := d][t + 1 := d][t + 2 := d]
  {
    BlockRows(w, h, rgb);
    TargetInTile(size, w, h, rgb, i);
    TileSize(size);
    var t := TargetOf(size, w, rgb, i);
    var before := PartialTile(data, base, size, w, h, rgb, i);
    var d := data[base + i];
    var expected := if rgb then before[t := d] else before[t := d][t + 1 := d][t + 2 := d];
    forall p | 0 <= p < size * size * 3
      ensures PartialTile(data, base, size, w, h, rgb, i + 1)[p] == expected[p]
    {
      PartialTileStepAt(data, base, size, w, h, rgb, i, p);
    }
  }

  /** One pass of BuildLightmap's copy loop: source byte i goes to row i / (w c), byte column x or 3x. */
  method CopySourceByte(tile: array<byte>, data: seq<byte>, base: int, size: nat, w: nat, h: nat, rgb: bool, i: nat)
    requires size > 0 && w <= size && h <= size && BlockReadable(data, base, w, h, rgb)
    requires i < Mul(h, RowBytes(w, rgb))
    requires tile.Length == size * size * 3
    requires tile[..] == PartialTile(data, base, size, w, h, rgb, i)
    modifies tile
    ensures tile[..] == PartialTile(data, base, size, w, h, rgb, i + 1)
  {
    BlockRows(w, h, rgb);
    PartialTileStep(data, base, size, w, h, rgb, i);
    TargetNative(size, w, rgb, i);
    var rowBytes := if rgb then 3 * w else w;
    var x := i % rowBytes;
    var y := i / rowBytes;
    if rgb {
      var p := y * (size * 3) + x;
      tile[p] := data[base + i];
    } else {
      var p := y * (size * 3) + x * 3;
      tile[p] := data[base + i];
      tile[p + 1] := data[base + i];
      tile[p + 2] := data[base + i];
    }
  }

  /**
   * The part of BuildLightmap that copies the block: the size check, then
   * a Size * Size * 3 tile filled with 255 and the w * h * c source bytes
   * from `base` written row by row. `base` is Lightmaps.Offset plus the
   * surface's LightmapOffset; the source reads it through a raw pointer.
   */
  method BuildLightmapTile(data: seq<byte>, base: int, size: nat, w: nat, h: nat, rgb: bool)
    returns (r: Result<QuakeLightmap>)
    requires size > 0
    requires w <= size && h <= size ==> BlockReadable(data, base, w, h, rgb)
    ensures r.Failure? <==> w > size || h > size
    ensures r.Failure? ==> r.error == InvalidLightmapSize
    ensures r.Success? ==> r.value.data == TileOf(data, base, size, w, h, rgb)
  {
    if w > size || h > size {
      return Failure(InvalidLightmapSize);
    }
    var tile := new byte[size * size * 3](_ => 255);
    var channelCount := if rgb then 3 else 1;
    var rowBytes := w * channelCount;
    assert rowBytes == RowBytes(w, rgb);
    var count := w * h * channelCount;
    BlockRows(w, h, rgb);
    PartialTileEnds(data, base, size, w, h, rgb);
    for i := 0 to count
      invariant tile[..] == PartialTile(data, base, size, w, h, rgb, i)
    {
      CopySourceByte(tile, data, base, size, w, h, rgb, i);
    }
    return Success(QuakeLightmap(tile[..]));
  }

  // ----- What the tile contains -----

  /** Copy k of source byte i holds that byte. */
  lemma TileCopy(data: seq<byte>, base: int, size: nat, w: nat, h: nat, rgb: bool, i: nat, k: nat)
    requires size > 0 && w <= size && h <= size && BlockReadable(data, base, w, h, rgb)
    requires i < w * h * Channels(rgb) && k < Copies(rgb)
    ensures RowBytes(w, rgb) > 0 && TargetOf(size, w, rgb, i) + k < size * size * 3
    ensures TileOf(data, base, size, w, h, rgb)[TargetOf(size, w, rgb, i) + k] == data[base + i]
  {
    BlockRows(w, h, rgb);
    TargetInTile(size, w, h, rgb, i);
    TileSize(size);
    TargetReadsSource(size, w, h, rgb, i, k);
  }

  /**
   * Source byte i goes to row i / (w c) and byte column i % (w c) of the
   * tile: as is for RGB data, and into all three channels of luxel i % w
   * for gray data.
   */
  lemma TilePlacement(data: seq<byte>, base: int, size: nat, w: nat, h: nat, rgb: bool, i: nat)
    requires size > 0 && w <= size && h <= size && BlockReadable(data, base, w, h, rgb)
    requires i < w * h * Channels(rgb)
    ensures RowBytes(w, rgb) > 0 && TargetOf(size, w, rgb, i) + Copies(rgb) <= size * size * 3
    ensures TileOf(data, base, size, w, h, rgb)[TargetOf(size, w, rgb, i)] == data[base + i]
    ensures !rgb ==> TileOf(data, base, size, w, h, rgb)[TargetOf(size, w, rgb, i) + 1] == data[base + i]
    ensures !rgb ==> TileOf(data, base, size, w, h, rgb)[TargetOf(size, w, rgb, i) + 2] == data[base + i]
  {
    BlockRows(w, h, rgb);
    TargetInTile(size, w, h, rgb, i);
    TileSize(size);
    TileCopy(data, base, size, w, h, rgb, i, 0);
    if !rgb {
      TileCopy(data, base, size, w, h, rgb, i, 1);
      TileCopy(data, base, size, w, h, rgb, i, 2);
    }
  }

  /**
   * Texels outside the block keep the fill value 255: every tile byte in a
   * row from h on, or in a byte column from 3w on.
   */
  lemma TileOutsideWhite(data: seq<byte>, base: int, size: nat, w: nat, h: nat, rgb: bool, p: nat)
    requires size > 0 && w <= size && h <= size && BlockReadable(data, base, w, h, rgb)
    requires p < size * size * 3
    requires p / (3 * size) >= h || p % (3 * size) >= 3 * w
    ensures TileOf(data, base, size, w, h, rgb)[p] == 255
  {
    DivModNative(p, Stride(size));
  }
}
