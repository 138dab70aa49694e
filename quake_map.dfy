/**
 * The current map class (nb3D/Map/QuakeMap.cs) for BSP29 and BSP30 maps:
 * the version gate, texture resolution with the WAD fallback, and the
 * per-leaf surface meshes with their lightmaps. The object keeps the file
 * bytes and header, and the two dictionaries its constructor fills.
 */
module QuakeMaps {
  import opened Common
  import opened Bytes
  import opened Palette
  import opened Texture
  import opened Miptex
  import opened Wad3
  import opened Bsp
  import opened BspQuery
  import opened Lightmap
  import opened FloatMath
  import opened Folds

  const BSP29: int := 29
  const BSP30: int := 30

  /** The versions the constructor accepts. */
  predicate SupportedVersion(version: int) {
    version == BSP29 || version == BSP30
  }

  // ----- Textures -----

  /** Offset of the miptex lump; it starts with the texture count, an int32. */
  function MiptexBase(h: Header): int
    requires ValidHeader(h)
  {
    h.lumps[MiptexLump].offset
  }

  predicate TextureCountReadable(data: seq<byte>, h: Header)
    requires ValidHeader(h)
  {
    InBuffer(data, MiptexBase(h), 4)
  }

  function TextureCount(data: seq<byte>, h: Header): i32
    requires ValidHeader(h) && TextureCountReadable(data, h)
  {
    I32At(data, MiptexBase(h))
  }

  /** Texture t's miptex header lies at the lump offset plus offsets[t], an int32 at 4 + 4t. */
  function MiptexPos(data: seq<byte>, h: Header, t: int): int
    requires ValidHeader(h) && InBuffer(data, MiptexBase(h) + 4 + 4 * t, 4)
  {
    MiptexBase(h) + I32At(data, MiptexBase(h) + 4 + 4 * t)
  }

  /**
   * What resolving texture t reads: its offset, its header, and embedded
   * pixels when Offset1 is not 0, which the texture constructor accepts.
   */
  predicate MiptexReadable(data: seq<byte>, h: Header, t: int)
    requires ValidHeader(h)
  {
    InBuffer(data, MiptexBase(h) + 4 + 4 * t, 4)
    && var p := MiptexPos(data, h, t);
    MipHeaderReadable(data, p)
    && (MipOffset(data, p, 0) != 0 ==> InBuffer(data, p + MipOffset(data, p, 0), MipPixelCount(data, p)) && MipFits(data, p))
  }

  predicate TexturesReadable(data: seq<byte>, h: Header)
    requires ValidHeader(h)
  {
    TextureCountReadable(data, h)
    && forall t :: 0 <= t < TextureCount(data, h) ==> MiptexReadable(data, h, t)
  }

  /** The texture of that name in the first WAD, in array order, that has one. */
  function FindInWads(wads: seq<Wad3>, name: seq<byte>): Option<QuakeTexture> {
    if |wads| == 0 then None
    else if name in wads[0].textures then Some(wads[0].textures[name])
    else FindInWads(wads[1..], name)
  }

  /** The lookup fails exactly when no WAD has the name, and otherwise the first WAD having it wins. */
  lemma {:induction false} FindInWadsFirstMatch(wads: seq<Wad3>, name: seq<byte>)
    ensures FindInWads(wads, name).None? <==> forall i :: 0 <= i < |wads| ==> name !in wads[i].textures
    ensures forall i :: (0 <= i < |wads| && name in wads[i].textures && (forall j :: 0 <= j < i ==> name !in wads[j].textures)) ==>
      FindInWads(wads, name) == Some(wads[i].textures[name])
  {
    if |wads| > 0 {
      FindInWadsFirstMatch(wads[1..], name);
      assert forall i :: 1 <= i < |wads| ==> wads[i] == wads[1..][i - 1];
    }
  }

  /** TryFindTextureInWADs: the foreach over the WADs, stopping at the first that has the name. */
  method TryFindTextureInWads(wads: seq<Wad3>, name: seq<byte>) returns (found: bool, texture: Option<QuakeTexture>)
    ensures found <==> texture.Some?
    ensures texture == FindInWads(wads, name)
  {
    for i := 0 to |wads|
      invariant FindInWads(wads, name) == FindInWads(wads[i..], name)
    {
      assert wads[i..][1..] == wads[i + 1..];
      if name in wads[i].textures {
        return true, Some(wads[i].textures[name]);
      }
    }
    return false, None;
  }

  /**
   * Texture t of the map: the embedded W*H pixels when Offset1 is not 0,
   * else the same-named texture of the first WAD that has it, if any.
   */
  function ResolveTexture(data: seq<byte>, h: Header, palette: QuakePalette, wads: seq<Wad3>, t: int): Option<QuakeTexture>
    requires ValidHeader(h) && Valid(palette) && MiptexReadable(data, h, t)
  {
    var p := MiptexPos(data, h, t);
    var name := MipName(data, p);
    if MipOffset(data, p, 0) == 0 then FindInWads(wads, name)
    else
      var start := p + MipOffset(data, p, 0);
      Some(TextureOf(name, MipTextureWidth(data, p), MipTextureHeight(data, p), data[start..start + MipPixelCount(data, p)], palette))
  }

  /** Resolving a texture id, as a step of the texture loop. */
  function TextureStep(data: seq<byte>, h: Header, palette: QuakePalette, wads: seq<Wad3>): int --> Option<QuakeTexture>
    requires ValidHeader(h) && Valid(palette)
  {
    (t: int) requires ValidHeader(h) && Valid(palette) && MiptexReadable(data, h, t) =>
      ResolveTexture(data, h, palette, wads, t)
  }

  lemma TextureStepAt(data: seq<byte>, h: Header, palette: QuakePalette, wads: seq<Wad3>, t: int)
    requires ValidHeader(h) && Valid(palette) && MiptexReadable(data, h, t)
    ensures TextureStep(data, h, palette, wads).requires(t)
    ensures TextureStep(data, h, palette, wads)(t) == ResolveTexture(data, h, palette, wads, t)
  {
  }

  /** The dictionary after the ids below n: each id's texture is added when it resolves. */
  function TexturesBelow(data: seq<byte>, h: Header, palette: QuakePalette, wads: seq<Wad3>, n: int): map<int, QuakeTexture>
    requires ValidHeader(h) && Valid(palette) && forall t :: 0 <= t < n ==> MiptexReadable(data, h, t)
  {
    PresentBelow(TextureStep(data, h, palette, wads), n)
  }

  /** The texture dictionary: an entry for each texture id below the count that resolves. */
  function LoadedTextures(data: seq<byte>, h: Header, palette: QuakePalette, wads: seq<Wad3>): map<int, QuakeTexture>
    requires ValidHeader(h) && Valid(palette) && TexturesReadable(data, h)
  {
    TexturesBelow(data, h, palette, wads, TextureCount(data, h))
  }

  /**
   * An embedded texture is always present, decoded from its own header and
   * pixels; a texture stored outside the map (Offset1 == 0) is present
   * exactly when some WAD has its name, and then it is the first such WAD's.
   */
  lemma TextureDictionary(data: seq<byte>, h: Header, palette: QuakePalette, wads: seq<Wad3>, t: int)
    requires ValidHeader(h) && Valid(palette) && TexturesReadable(data, h)
    requires 0 <= t < TextureCount(data, h) && MiptexReadable(data, h, t)
    ensures var p := MiptexPos(data, h, t);
      var textures := LoadedTextures(data, h, palette, wads);
      MipOffset(data, p, 0) != 0 ==>
        t in textures && textures[t].name == MipName(data, p)
        && textures[t].width == MipTextureWidth(data, p) && textures[t].height == MipTextureHeight(data, p)
        && var start := p + MipOffset(data, p, 0);
        textures[t].pixels == ExpandedPixels(MipTextureWidth(data, p), MipTextureHeight(data, p),
                                             data[start..start + MipPixelCount(data, p)], palette)
    ensures var p := MiptexPos(data, h, t);
      var textures := LoadedTextures(data, h, palette, wads);
      MipOffset(data, p, 0) == 0 ==>
        (t in textures <==> exists i :: 0 <= i < |wads| && MipName(data, p) in wads[i].textures)
    ensures var p := MiptexPos(data, h, t);
      var textures := LoadedTextures(data, h, palette, wads);
      forall i :: (0 <= i < |wads| && MipOffset(data, p, 0) == 0 && MipName(data, p) in wads[i].textures
        && (forall j :: 0 <= j < i ==> MipName(data, p) !in wads[j].textures)) ==>
        t in textures && textures[t] == wads[i].textures[MipName(data, p)]
  {
    PresentBelowAt(TextureStep(data, h, palette, wads), TextureCount(data, h), t);
    TextureStepAt(data, h, palette, wads, t);
    FindInWadsFirstMatch(wads, MipName(data, MiptexPos(data, h, t)));
  }

  // ----- Surface meshes -----

  /** A leaf's drawable piece: the interleaved vertices, the fan indices, the texture and the lightmap. */
  datatype MapMesh = MapMesh(vertexData: seq<Float32>, indices: seq<nat>, texture: QuakeTexture, lightmap: QuakeLightmap)

  /** Floats per vertex: position, texture coordinate, lightmap coordinate. */
  const VertexStride: nat := 7

  function VertexRecord(v: Vec3, textureUv: Vec2, lightmapUv: Vec2): (r: seq<Float32>)
    ensures |r| == VertexStride
  {
    [v.x, v.y, v.z, textureUv.x, textureUv.y, lightmapUv.x, lightmapUv.y]
  }

  /** The per-vertex records of a polygon, in polygon order. */
  function VertexRecords(math: SurfaceMath, vertices: seq<Vec3>, lightmapUvs: seq<Vec2>, ti: TextureInfo,
                         texture: QuakeTexture): (records: seq<seq<Float32>>)
    requires |lightmapUvs| == |vertices|
    ensures |records| == |vertices|
    ensures forall i :: 0 <= i < |records| ==> |records[i]| == VertexStride
  {
    if |vertices| == 0 then []
    else
      var n := |vertices| - 1;
      VertexRecords(math, vertices[..n], lightmapUvs[..n], ti, texture)
        + [VertexRecord(vertices[n], math.textureUv(vertices[n], ti, texture.width, texture.height), lightmapUvs[n])]
  }

  lemma {:induction false} VertexRecordAt(math: SurfaceMath, vertices: seq<Vec3>, lightmapUvs: seq<Vec2>, ti: TextureInfo,
                                          texture: QuakeTexture, v: nat)
    requires |lightmapUvs| == |vertices| && v < |vertices|
    ensures VertexRecords(math, vertices, lightmapUvs, ti, texture)[v]
      == VertexRecord(vertices[v], math.textureUv(vertices[v], ti, texture.width, texture.height), lightmapUvs[v])
  {
    var n := |vertices| - 1;
    if v < n {
      VertexRecordAt(math, vertices[..n], lightmapUvs[..n], ti, texture, v);
    }
  }

  /** The vertex buffer of a polygon: the records one after the other. */
  function SurfaceVertexData(math: SurfaceMath, vertices: seq<Vec3>, lightmapUvs: seq<Vec2>, ti: TextureInfo,
                             texture: QuakeTexture): seq<Float32>
    requires |lightmapUvs| == |vertices|
  {
    Flatten(VertexRecords(math, vertices, lightmapUvs, ti, texture))
  }

  /** Floats 7v .. 7v+6 of the buffer are vertex v's record. */
  lemma SurfaceVertexRecordAt(math: SurfaceMath, vertices: seq<Vec3>, lightmapUvs: seq<Vec2>, ti: TextureInfo,
                              texture: QuakeTexture, v: nat)
    requires |lightmapUvs| == |vertices| && v < |vertices|
    ensures var d := SurfaceVertexData(math, vertices, lightmapUvs, ti, texture);
      var record := VertexRecord(vertices[v], math.textureUv(vertices[v], ti, texture.width, texture.height), lightmapUvs[v]);
      |d| == VertexStride * |vertices|
      && forall k :: 0 <= k < VertexStride ==> d[VertexStride * v + k] == record[k]
  {
    var records := VertexRecords(math, vertices, lightmapUvs, ti, texture);
    VertexRecordAt(math, vertices, lightmapUvs, ti, texture, v);
    FlattenLength(records, VertexStride);
    forall k | 0 <= k < VertexStride
      ensures VertexStride * v + k < |Flatten(records)| && Flatten(records)[VertexStride * v + k] == records[v][k]
    {
      FlattenLayout(records, VertexStride, v, k);
    }
  }

  /**
   * The buffer holds 7 floats per vertex: vertex v's position at 7v .. 7v+2,
   * its texture coordinate at 7v+3, 7v+4 and its lightmap coordinate at
   * 7v+5, 7v+6.
   */
  lemma SurfaceVertexLayout(math: SurfaceMath, vertices: seq<Vec3>, lightmapUvs: seq<Vec2>, ti: TextureInfo,
                            texture: QuakeTexture, v: nat)
    requires |lightmapUvs| == |vertices| && v < |vertices|
    ensures var d := SurfaceVertexData(math, vertices, lightmapUvs, ti, texture);
      var uv := math.textureUv(vertices[v], ti, texture.width, texture.height);
      |d| == VertexStride * |vertices|
      && d[7 * v] == vertices[v].x && d[7 * v + 1] == vertices[v].y && d[7 * v + 2] == vertices[v].z
      && d[7 * v + 3] == uv.x && d[7 * v + 4] == uv.y
      && d[7 * v + 5] == lightmapUvs[v].x && d[7 * v + 6] == lightmapUvs[v].y
  {
    var records := VertexRecords(math, vertices, lightmapUvs, ti, texture);
    VertexRecordAt(math, vertices, lightmapUvs, ti, texture, v);
    FlattenLayout(records, VertexStride, v, 0);
    FlattenLayout(records, VertexStride, v, 1);
    FlattenLayout(records, VertexStride, v, 2);
    FlattenLayout(records, VertexStride, v, 3);
    FlattenLayout(records, VertexStride, v, 4);
    FlattenLayout(records, VertexStride, v, 5);
    FlattenLayout(records, VertexStride, v, 6);
  }

  /**
   * BuildSurfaceVertexData: the texture lookup throws for a missing id, the
   * index buffer of n - 2 triangles cannot be allocated below two vertices,
   * a lightmap coordinate list shorter than the polygon is indexed out of
   * range; otherwise the interleaved buffer and the fan indices.
   */
  function VertexBuffers(math: SurfaceMath, textures: map<int, QuakeTexture>, vertices: seq<Vec3>, lightmapUvs: seq<Vec2>,
                         ti: TextureInfo): Result<(seq<Float32>, seq<nat>)>
  {
    if ti.texId !in textures then Failure(KeyNotFound)
    else if |vertices| < 2 then Failure(NegativeArraySize)
    else if |lightmapUvs| < |vertices| then Failure(IndexOutOfRange)
    else
      var n := |vertices|;
      Success((SurfaceVertexData(math, vertices, lightmapUvs[..n], ti, textures[ti.texId]), FanIndices(n)))
  }

  // ----- Lightmaps -----

  /** BuildLightmap reads the block at Lightmaps.Offset + LightmapOffset. */
  function LightmapBase(h: Header, lightmapOffset: int): int
    requires ValidHeader(h)
  {
    h.lumps[LightmapsLump].offset + lightmapOffset
  }

  /** The block copy reads inside the map whenever the block fits the tile. */
  predicate BlockLightmapReadable(data: seq<byte>, h: Header, math: SurfaceMath, size: nat, vertices: seq<Vec3>,
                                  ti: TextureInfo, lightmapOffset: int, rgb: bool)
    requires ValidHeader(h)
  {
    |vertices| > 0 ==>
      var (w, ht) := math.lightmapExtent(vertices, ti, size);
      w <= size && ht <= size ==> BlockReadable(data, LightmapBase(h, lightmapOffset), w, ht, rgb)
  }

  /**
   * BuildLightmap: Min and Max over no vertices throw; a block larger than
   * the tile throws; otherwise the tile holds the block and each vertex gets
   * its remapped coordinate.
   */
  function BlockLightmap(data: seq<byte>, h: Header, math: SurfaceMath, size: nat, vertices: seq<Vec3>,
                         ti: TextureInfo, lightmapOffset: int, rgb: bool): (r: Result<(QuakeLightmap, seq<Vec2>)>)
    requires ValidHeader(h) && size > 0 && BlockLightmapReadable(data, h, math, size, vertices, ti, lightmapOffset, rgb)
    ensures r.Success? ==> |r.value.1| == |vertices|
  {
    if |vertices| == 0 then Failure(EmptySequence)
    else
      var (w, ht) := math.lightmapExtent(vertices, ti, size);
      if w > size || ht > size then Failure(InvalidLightmapSize)
      else
        var tile := QuakeLightmap(TileOf(data, LightmapBase(h, lightmapOffset), size, w, ht, rgb));
        Success((tile, seq(|vertices|, i requires 0 <= i < |vertices| => math.lightmapUv(vertices, ti, w, ht, size, vertices[i]))))
  }

  /** The lightmap of a surface: its block when LightmapOffset is not -1, else the full-lit tile and zero coordinates. */
  function SurfaceLightmap(data: seq<byte>, h: Header, math: SurfaceMath, size: nat, s: Surface, ti: TextureInfo,
                           vertices: seq<Vec3>): (r: Result<(QuakeLightmap, seq<Vec2>)>)
    requires ValidHeader(h) && size > 0
    requires s.lightmapOffset != -1 ==> BlockLightmapReadable(data, h, math, size, vertices, ti, s.lightmapOffset, h.version > BSP29)
    ensures r.Success? ==> |r.value.1| == |vertices|
  {
    if s.lightmapOffset == -1 then Success((FullLitLightmap(), seq(|vertices|, _ => ZeroVec2)))
    else BlockLightmap(data, h, math, size, vertices, ti, s.lightmapOffset, h.version > BSP29)
  }

  // ----- One surface -----

  /** What building surface `surfaceId` reads: its record, its texture info, and for a textured surface the polygon and the block. */
  predicate SurfaceReadable(data: seq<byte>, h: Header, textures: map<int, QuakeTexture>, math: SurfaceMath, size: nat,
                            surfaceId: int)
    requires ValidHeader(h)
  {
    RecordInBuffer(data, h, SurfacesLump, surfaceId, SurfaceSize)
    && var s := GetSurface(data, h, surfaceId);
    RecordInBuffer(data, h, TexinfoLump, s.texinfoId, TextureInfoSize)
    && var ti := GetTextureInfo(data, h, s.texinfoId);
    ti.texId in textures ==>
      PolygonReadable(data, h, s)
      && (s.lightmapOffset != -1 ==>
            BlockLightmapReadable(data, h, math, size, Polygon(data, h, s), ti, s.lightmapOffset, h.version > BSP29))
  }

  /**
   * TryCreateSurfaceMesh: None for a surface whose texture did not resolve;
   * otherwise the fan mesh over its polygon with its texture and lightmap,
   * or the exception its lightmap or its buffers throw.
   */
  function SurfaceMesh(data: seq<byte>, h: Header, textures: map<int, QuakeTexture>, math: SurfaceMath, size: nat,
                       surfaceId: int): Result<Option<MapMesh>>
    requires ValidHeader(h) && size > 0 && SurfaceReadable(data, h, textures, math, size, surfaceId)
  {
    var s := GetSurface(data, h, surfaceId);
    var ti := GetTextureInfo(data, h, s.texinfoId);
    if ti.texId !in textures then Success(None)
    else
      var vertices := Polygon(data, h, s);
      var lm :- SurfaceLightmap(data, h, math, size, s, ti, vertices);
      if |vertices| < 2 then Failure(NegativeArraySize)
      else
        var texture := textures[ti.texId];
        Success(Some(MapMesh(SurfaceVertexData(math, vertices, lm.1, ti, texture), FanIndices(|vertices|), texture, lm.0)))
  }

  /**
   * A surface is dropped exactly when its texture id is not in the
   * dictionary. A textured surface fails when its lightmap block is empty
   * or larger than the tile, or when its polygon has fewer than two
   * vertices; nothing else fails.
   */
  lemma SurfaceMeshOutcome(data: seq<byte>, h: Header, textures: map<int, QuakeTexture>, math: SurfaceMath, size: nat,
                           surfaceId: int)
    requires ValidHeader(h) && size > 0 && SurfaceReadable(data, h, textures, math, size, surfaceId)
    ensures var s := GetSurface(data, h, surfaceId);
      var ti := GetTextureInfo(data, h, s.texinfoId);
      var r := SurfaceMesh(data, h, textures, math, size, surfaceId);
      (r == Success(None) <==> ti.texId !in textures)
      && (ti.texId in textures ==>
        var n := s.edgeCount;
        var (w, ht) := math.lightmapExtent(Polygon(data, h, s), ti, size);
        (r == Failure(EmptySequence) <==> s.lightmapOffset != -1 && n == 0)
        && (r == Failure(InvalidLightmapSize) <==> s.lightmapOffset != -1 && n > 0 && (w > size || ht > size))
        && (r == Failure(NegativeArraySize) <==>
              n < 2 && (s.lightmapOffset == -1 || (n > 0 && w <= size && ht <= size)))
        && (r.Success? <==> n >= 2 && (s.lightmapOffset == -1 || (w <= size && ht <= size))))
  {
  }

  /**
   * A built mesh uses the surface's own texture; its buffer interleaves
   * the polygon's vertices, its indices are the fan over them, and a
   * surface without lightmap gets the full-lit tile and zero lightmap
   * coordinates, else the tile of its block.
   */
  lemma SurfaceMeshContents(data: seq<byte>, h: Header, textures: map<int, QuakeTexture>, math: SurfaceMath, size: nat,
                            surfaceId: int, v: nat)
    requires ValidHeader(h) && size > 0 && SurfaceReadable(data, h, textures, math, size, surfaceId)
    requires SurfaceMesh(data, h, textures, math, size, surfaceId).Success?
    requires SurfaceMesh(data, h, textures, math, size, surfaceId).value.Some?
    ensures var s := GetSurface(data, h, surfaceId);
      var ti := GetTextureInfo(data, h, s.texinfoId);
      var m := SurfaceMesh(data, h, textures, math, size, surfaceId).value.value;
      ti.texId in textures && m.texture == textures[ti.texId]
      && |m.vertexData| == VertexStride * s.edgeCount
      && m.indices == FanIndices(s.edgeCount)
      && (s.lightmapOffset == -1 ==> m.lightmap == FullLitLightmap())
      && (s.lightmapOffset != -1 ==>
            var (w, ht) := math.lightmapExtent(Polygon(data, h, s), ti, size);
            m.lightmap.data == TileOf(data, LightmapBase(h, s.lightmapOffset), size, w, ht, h.version > BSP29))
      && (v < s.edgeCount ==>
            var vertex := Polygon(data, h, s)[v];
            m.vertexData[7 * v] == vertex.x && m.vertexData[7 * v + 1] == vertex.y && m.vertexData[7 * v + 2] == vertex.z
            && (s.lightmapOffset == -1 ==> m.vertexData[7 * v + 5] == ZeroFloat && m.vertexData[7 * v + 6] == ZeroFloat))
  {
    var s := GetSurface(data, h, surfaceId);
    var ti := GetTextureInfo(data, h, s.texinfoId);
    var vertices := Polygon(data, h, s);
    var lm := SurfaceLightmap(data, h, math, size, s, ti, vertices).value;
    if v < s.edgeCount {
      SurfaceVertexLayout(math, vertices, lm.1, ti, textures[ti.texId], v);
    } else if s.edgeCount > 0 {
      SurfaceVertexLayout(math, vertices, lm.1, ti, textures[ti.texId], 0);
    }
  }

  // ----- Leaves -----

  /**
   * The surface-list cursor is a short: the loop ends only when
   * SurfaceListIndex + SurfaceCount is at most 0x7FFF, else the increment
   * wraps and the loop does not end.
   */
  predicate LeafRangeValid(leaf: Leaf) {
    leaf.surfaceCount <= 0 || leaf.surfaceListIndex + leaf.surfaceCount <= 0x7FFF
  }

  /** The short cursor after k increments: `sIndex++` wraps from 0x7FFF to -0x8000. */
  function ShortCursor(start: i16, k: nat): i16 {
    ToSigned16((start + k) % 0x1_0000)
  }

  /**
   * On a leaf outside LeafRangeValid the slot loop never ends: its bound
   * SurfaceListIndex + SurfaceCount is an `int` above 0x7FFF that no short
   * reaches, and the cursor wraps from 0x7FFF to -0x8000.
   */
  lemma ShortCursorNeverEnds(leaf: Leaf, k: nat)
    requires !LeafRangeValid(leaf)
    ensures ShortCursor(leaf.surfaceListIndex, k) < leaf.surfaceListIndex + leaf.surfaceCount
    ensures ShortCursor(leaf.surfaceListIndex, 0x8000 - leaf.surfaceListIndex) == -0x8000
  {
  }

  /** The number of surface-list slots the loop visits. */
  function SlotCount(leaf: Leaf): nat {
    if leaf.surfaceCount > 0 then leaf.surfaceCount else 0
  }

  /** Slot k of a leaf: its surface-list entry and the surface it names are readable. */
  predicate SlotReadable(data: seq<byte>, h: Header, textures: map<int, QuakeTexture>, math: SurfaceMath, size: nat,
                         leaf: Leaf, k: nat)
    requires ValidHeader(h)
  {
    SurfaceIdInBuffer(data, h, leaf.surfaceListIndex + k)
    && SurfaceReadable(data, h, textures, math, size, GetSurfaceId(data, h, leaf.surfaceListIndex + k))
  }

  /** The surface in slot k has a texture in the dictionary. */
  predicate SlotTextured(data: seq<byte>, h: Header, textures: map<int, QuakeTexture>, math: SurfaceMath, size: nat,
                         leaf: Leaf, k: nat)
    requires ValidHeader(h) && SlotReadable(data, h, textures, math, size, leaf, k)
  {
    var s := GetSurface(data, h, GetSurfaceId(data, h, leaf.surfaceListIndex + k));
    GetTextureInfo(data, h, s.texinfoId).texId in textures
  }

  /** A slot whose surface built yields a mesh exactly when it is textured. */
  lemma SurfaceKept(data: seq<byte>, h: Header, textures: map<int, QuakeTexture>, math: SurfaceMath, size: nat,
                    leaf: Leaf, k: nat)
    requires ValidHeader(h) && size > 0 && SlotReadable(data, h, textures, math, size, leaf, k)
    requires SlotMesh(data, h, textures, math, size, leaf, k).Success?
    ensures SlotMesh(data, h, textures, math, size, leaf, k).value.Some? <==> SlotTextured(data, h, textures, math, size, leaf, k)
  {
    SurfaceMeshOutcome(data, h, textures, math, size, GetSurfaceId(data, h, leaf.surfaceListIndex + k));
  }

  /** TryCreateSurfaceMesh on the surface in slot k of a leaf. */
  function SlotMesh(data: seq<byte>, h: Header, textures: map<int, QuakeTexture>, math: SurfaceMath, size: nat,
                    leaf: Leaf, k: nat): Result<Option<MapMesh>>
    requires ValidHeader(h) && size > 0 && SlotReadable(data, h, textures, math, size, leaf, k)
  {
    SurfaceMesh(data, h, textures, math, size, GetSurfaceId(data, h, leaf.surfaceListIndex + k))
  }

  /** One iteration of the leaf loop, as a step defined on the readable slots. */
  function SlotStep(data: seq<byte>, h: Header, textures: map<int, QuakeTexture>, math: SurfaceMath, size: nat,
                    leaf: Leaf): nat --> Result<Option<MapMesh>>
    requires ValidHeader(h) && size > 0
  {
    (k: nat) requires ValidHeader(h) && size > 0 && SlotReadable(data, h, textures, math, size, leaf, k) =>
      SlotMesh(data, h, textures, math, size, leaf, k)
  }

  /** The slots the leaf loop may read. */
  function SlotReady(data: seq<byte>, h: Header, textures: map<int, QuakeTexture>, math: SurfaceMath, size: nat,
                     leaf: Leaf): nat -> bool
    requires ValidHeader(h)
  {
    (k: nat) => SlotReadable(data, h, textures, math, size, leaf, k)
  }

  lemma SlotStepAt(data: seq<byte>, h: Header, textures: map<int, QuakeTexture>, math: SurfaceMath, size: nat,
                   leaf: Leaf, k: nat)
    requires ValidHeader(h) && size > 0
    ensures SlotReady(data, h, textures, math, size, leaf)(k) <==> SlotReadable(data, h, textures, math, size, leaf, k)
    ensures SlotReadable(data, h, textures, math, size, leaf, k) ==>
      SlotStep(data, h, textures, math, size, leaf).requires(k)
      && SlotStep(data, h, textures, math, size, leaf)(k) == SlotMesh(data, h, textures, math, size, leaf, k)
  {
  }

  /** Every slot the leaf loop reaches in its first k iterations is readable. */
  ghost predicate LeafReadable(data: seq<byte>, h: Header, textures: map<int, QuakeTexture>, math: SurfaceMath,
                               size: nat, leaf: Leaf, k: nat)
    requires ValidHeader(h) && size > 0
  {
    Reached(SlotReady(data, h, textures, math, size, leaf), SlotStep(data, h, textures, math, size, leaf), k)
  }

  /** SlotStepAt at every ready slot. */
  lemma SlotSteps(data: seq<byte>, h: Header, textures: map<int, QuakeTexture>, math: SurfaceMath, size: nat, leaf: Leaf)
    requires ValidHeader(h) && size > 0
    ensures var ready, step := SlotReady(data, h, textures, math, size, leaf), SlotStep(data, h, textures, math, size, leaf);
      forall j :: ready(j) ==> (SlotReadable(data, h, textures, math, size, leaf, j) && step.requires(j)
                               && step(j) == SlotMesh(data, h, textures, math, size, leaf, j))
  {
    forall j | SlotReady(data, h, textures, math, size, leaf)(j)
      ensures SlotReadable(data, h, textures, math, size, leaf, j)
      ensures SlotStep(data, h, textures, math, size, leaf).requires(j)
      ensures SlotStep(data, h, textures, math, size, leaf)(j) == SlotMesh(data, h, textures, math, size, leaf, j)
    {
      SlotStepAt(data, h, textures, math, size, leaf, j);
    }
  }

  /** The meshes of slots 0 .. k-1: the first failure aborts, dropped surfaces are skipped. */
  function LeafMeshes(data: seq<byte>, h: Header, textures: map<int, QuakeTexture>, math: SurfaceMath, size: nat,
                      leaf: Leaf, k: nat): Result<seq<MapMesh>>
    requires ValidHeader(h) && size > 0 && LeafReadable(data, h, textures, math, size, leaf, k)
  {
    RunSomes(SlotReady(data, h, textures, math, size, leaf), SlotStep(data, h, textures, math, size, leaf), k)
  }

  /** The kept slots of a leaf whose surfaces all built: the slots of the meshes TryCreateSurfaceMesh returned. */
  function KeptSlots(data: seq<byte>, h: Header, textures: map<int, QuakeTexture>, math: SurfaceMath, size: nat,
                     leaf: Leaf, k: nat): seq<nat>
    requires ValidHeader(h) && size > 0 && LeafReadable(data, h, textures, math, size, leaf, k)
    requires LeafMeshes(data, h, textures, math, size, leaf, k).Success?
  {
    SomeIndices(Run(SlotReady(data, h, textures, math, size, leaf), SlotStep(data, h, textures, math, size, leaf), k).value)
  }

  /**
   * A leaf keeps the meshes of exactly its textured surfaces, in
   * surface-list order: every slot was read and built, the kept slots are
   * strictly increasing, slot j is kept exactly when its surface is
   * textured, and mesh i is the mesh of the i-th kept slot.
   */
  lemma LeafMeshesInOrder(data: seq<byte>, h: Header, textures: map<int, QuakeTexture>, math: SurfaceMath,
                          size: nat, leaf: Leaf, k: nat)
    requires ValidHeader(h) && size > 0 && LeafReadable(data, h, textures, math, size, leaf, k)
    requires LeafMeshes(data, h, textures, math, size, leaf, k).Success?
    ensures forall j :: 0 <= j < k ==>
      (SlotReadable(data, h, textures, math, size, leaf, j)
       && SlotMesh(data, h, textures, math, size, leaf, j).Success?)
    ensures var kept := KeptSlots(data, h, textures, math, size, leaf, k);
      var meshes := LeafMeshes(data, h, textures, math, size, leaf, k).value;
      |meshes| == |kept|
      && (forall i, i' :: 0 <= i < i' < |kept| ==> kept[i] < kept[i'])
      && (forall j :: 0 <= j < k ==> (j in kept <==> SlotTextured(data, h, textures, math, size, leaf, j)))
      && (forall i :: 0 <= i < |kept| ==>
            (kept[i] < k
             && SlotMesh(data, h, textures, math, size, leaf, kept[i])
                  == Success(Some(meshes[i]))))
  {
    var ready, step := SlotReady(data, h, textures, math, size, leaf), SlotStep(data, h, textures, math, size, leaf);
    RunSomesInOrder(ready, step, k);
    var kept, meshes := KeptSlots(data, h, textures, math, size, leaf, k), LeafMeshes(data, h, textures, math, size, leaf, k).value;
    forall j | 0 <= j < k
      ensures SlotReadable(data, h, textures, math, size, leaf, j) && SlotMesh(data, h, textures, math, size, leaf, j).Success?
    {
      SlotStepAt(data, h, textures, math, size, leaf, j);
    }
    forall i | 0 <= i < |kept|
      ensures kept[i] < k && SlotMesh(data, h, textures, math, size, leaf, kept[i]) == Success(Some(meshes[i]))
    {
      SlotStepAt(data, h, textures, math, size, leaf, kept[i]);
    }
    KeptSlotsTextured(data, h, textures, math, size, leaf, k);
  }

  /** A slot is kept exactly when its surface's texture is in the dictionary. */
  lemma KeptSlotsTextured(data: seq<byte>, h: Header, textures: map<int, QuakeTexture>, math: SurfaceMath,
                          size: nat, leaf: Leaf, k: nat)
    requires ValidHeader(h) && size > 0 && LeafReadable(data, h, textures, math, size, leaf, k)
    requires LeafMeshes(data, h, textures, math, size, leaf, k).Success?
    ensures forall j :: 0 <= j < k ==>
      SlotReadable(data, h, textures, math, size, leaf, j)
      && (j in KeptSlots(data, h, textures, math, size, leaf, k) <==> SlotTextured(data, h, textures, math, size, leaf, j))
  {
    var ready, step := SlotReady(data, h, textures, math, size, leaf), SlotStep(data, h, textures, math, size, leaf);
    SlotSteps(data, h, textures, math, size, leaf);
    RunSomesInOrder(ready, step, k);
    forall j | 0 <= j < k
      ensures SlotReadable(data, h, textures, math, size, leaf, j)
      ensures SlotTextured(data, h, textures, math, size, leaf, j) <==> Run(ready, step, k).value[j].Some?
    {
      assert SlotMesh(data, h, textures, math, size, leaf, j) == Success(Run(ready, step, k).value[j]);
      SurfaceKept(data, h, textures, math, size, leaf, j);
    }
  }

  /** The first slot whose surface throws aborts the leaf with that exception. */
  lemma LeafMeshesFailure(data: seq<byte>, h: Header, textures: map<int, QuakeTexture>, math: SurfaceMath,
                          size: nat, leaf: Leaf, k: nat, j: nat)
    requires ValidHeader(h) && size > 0 && LeafReadable(data, h, textures, math, size, leaf, k) && j < k
    requires forall i :: 0 <= i <= j ==> SlotReadable(data, h, textures, math, size, leaf, i)
    requires forall i :: 0 <= i < j ==> SlotMesh(data, h, textures, math, size, leaf, i).Success?
    requires SlotMesh(data, h, textures, math, size, leaf, j).Failure?
    ensures LeafMeshes(data, h, textures, math, size, leaf, k) == Failure(SlotMesh(data, h, textures, math, size, leaf, j).error)
  {
    forall i | 0 <= i <= j {
      SlotStepAt(data, h, textures, math, size, leaf, i);
    }
    RunFailure(SlotReady(data, h, textures, math, size, leaf), SlotStep(data, h, textures, math, size, leaf), k, j);
  }

  // ----- All leaves -----

  /** The leaves the mesh loop visits: LeafCount of them, none when the count is not positive. */
  function LeafTotal(h: Header): nat
    requires ValidHeader(h)
  {
    if LeafCount(h) > 0 then LeafCount(h) else 0
  }

  /** Leaf l's record and every slot its loop reaches. */
  ghost predicate LeafEntryReadable(data: seq<byte>, h: Header, textures: map<int, QuakeTexture>, math: SurfaceMath,
                                    size: nat, l: nat)
    requires ValidHeader(h) && size > 0
  {
    RecordInBuffer(data, h, LeavesLump, l, LeafSize)
    && var leaf := GetLeaf(data, h, l);
    LeafRangeValid(leaf) && LeafReadable(data, h, textures, math, size, leaf, SlotCount(leaf))
  }

  /** The meshes of leaf l, over all its slots. */
  function LeafEntryMeshes(data: seq<byte>, h: Header, textures: map<int, QuakeTexture>, math: SurfaceMath, size: nat,
                           l: nat): Result<seq<MapMesh>>
    requires ValidHeader(h) && size > 0 && LeafEntryReadable(data, h, textures, math, size, l)
  {
    var leaf := GetLeaf(data, h, l);
    LeafMeshes(data, h, textures, math, size, leaf, SlotCount(leaf))
  }

  /** One iteration of the mesh loop, as a step defined on the readable leaves. */
  function LeafStep(data: seq<byte>, h: Header, textures: map<int, QuakeTexture>, math: SurfaceMath, size: nat)
    : nat --> Result<seq<MapMesh>>
    requires ValidHeader(h) && size > 0
  {
    (l: nat) requires ValidHeader(h) && size > 0 && LeafEntryReadable(data, h, textures, math, size, l) =>
      LeafEntryMeshes(data, h, textures, math, size, l)
  }

  /** The leaves the mesh loop may read. */
  ghost function LeafReady(data: seq<byte>, h: Header, textures: map<int, QuakeTexture>, math: SurfaceMath, size: nat)
    : nat -> bool
    requires ValidHeader(h) && size > 0
  {
    (l: nat) => LeafEntryReadable(data, h, textures, math, size, l)
  }

  lemma LeafStepAt(data: seq<byte>, h: Header, textures: map<int, QuakeTexture>, math: SurfaceMath, size: nat, l: nat)
    requires ValidHeader(h) && size > 0
    ensures LeafReady(data, h, textures, math, size)(l) <==> LeafEntryReadable(data, h, textures, math, size, l)
    ensures LeafEntryReadable(data, h, textures, math, size, l) ==>
      LeafStep(data, h, textures, math, size).requires(l)
      && LeafStep(data, h, textures, math, size)(l) == LeafEntryMeshes(data, h, textures, math, size, l)
  {
  }

  /** LeafStepAt at every ready leaf. */
  lemma LeafSteps(data: seq<byte>, h: Header, textures: map<int, QuakeTexture>, math: SurfaceMath, size: nat)
    requires ValidHeader(h) && size > 0
    ensures var ready, step := LeafReady(data, h, textures, math, size), LeafStep(data, h, textures, math, size);
      forall l :: ready(l) ==> (LeafEntryReadable(data, h, textures, math, size, l) && step.requires(l)
                               && step(l) == LeafEntryMeshes(data, h, textures, math, size, l))
  {
    forall l | LeafReady(data, h, textures, math, size)(l)
      ensures LeafEntryReadable(data, h, textures, math, size, l)
      ensures LeafStep(data, h, textures, math, size).requires(l)
      ensures LeafStep(data, h, textures, math, size)(l) == LeafEntryMeshes(data, h, textures, math, size, l)
    {
      LeafStepAt(data, h, textures, math, size, l);
    }
  }

  /** Every leaf the mesh loop reaches in its first n iterations is readable. */
  ghost predicate MeshesReadable(data: seq<byte>, h: Header, textures: map<int, QuakeTexture>, math: SurfaceMath,
                                 size: nat, n: nat)
    requires ValidHeader(h) && size > 0
  {
    Reached(LeafReady(data, h, textures, math, size), LeafStep(data, h, textures, math, size), n)
  }

  /** The mesh dictionary after leaves 0 .. n-1, or the first exception. */
  function MeshesOf(data: seq<byte>, h: Header, textures: map<int, QuakeTexture>, math: SurfaceMath, size: nat,
                    n: nat): Result<map<int, seq<MapMesh>>>
    requires ValidHeader(h) && size > 0 && MeshesReadable(data, h, textures, math, size, n)
  {
    var all :- Run(LeafReady(data, h, textures, math, size), LeafStep(data, h, textures, math, size), n);
    Success(IndexMap(all))
  }

  /** After the loop every leaf below the count has an entry holding its own meshes, and there are no others. */
  lemma MeshesOfLeaves(data: seq<byte>, h: Header, textures: map<int, QuakeTexture>, math: SurfaceMath, size: nat, n: nat)
    requires ValidHeader(h) && size > 0 && MeshesReadable(data, h, textures, math, size, n)
    requires MeshesOf(data, h, textures, math, size, n).Success?
    ensures forall l :: 0 <= l < n ==> LeafEntryReadable(data, h, textures, math, size, l)
    ensures var meshes := MeshesOf(data, h, textures, math, size, n).value;
      (forall l :: l in meshes <==> 0 <= l < n)
      && forall l :: 0 <= l < n ==> LeafEntryMeshes(data, h, textures, math, size, l) == Success(meshes[l])
  {
    var ready, step := LeafReady(data, h, textures, math, size), LeafStep(data, h, textures, math, size);
    forall l | 0 <= l < n
      ensures LeafEntryReadable(data, h, textures, math, size, l)
      ensures LeafEntryMeshes(data, h, textures, math, size, l) == Success(Run(ready, step, n).value[l])
    {
      LeafStepAt(data, h, textures, math, size, l);
    }
  }

  /** The first leaf that throws aborts the loop with that exception. */
  lemma MeshesOfFailure(data: seq<byte>, h: Header, textures: map<int, QuakeTexture>, math: SurfaceMath, size: nat,
                        n: nat, j: nat)
    requires ValidHeader(h) && size > 0 && MeshesReadable(data, h, textures, math, size, n) && j < n
    requires forall l :: 0 <= l <= j ==> LeafEntryReadable(data, h, textures, math, size, l)
    requires forall l :: 0 <= l < j ==> LeafEntryMeshes(data, h, textures, math, size, l).Success?
    requires LeafEntryMeshes(data, h, textures, math, size, j).Failure?
    ensures MeshesOf(data, h, textures, math, size, n) == Failure(LeafEntryMeshes(data, h, textures, math, size, j).error)
  {
    forall l | 0 <= l <= j {
      LeafStepAt(data, h, textures, math, size, l);
    }
    RunFailure(LeafReady(data, h, textures, math, size), LeafStep(data, h, textures, math, size), n, j);
  }

  // ----- The map object -----

  /**
   * The map: the file bytes, its header, the palette and the WADs it was
   * opened with, the surface float math and the lightmap tile side
   * (QuakeLightmap.Size), the full-lit tile, and the texture and mesh
   * dictionaries the constructor fills.
   */
  class QuakeMap {
    const data: seq<byte>
    const header: Header
    const palette: QuakePalette
    const wads: seq<Wad3>
    const math: SurfaceMath
    const size: nat
    const fullLitLightmap: QuakeLightmap
    var textures: map<int, QuakeTexture>
    var meshes: map<int, seq<MapMesh>>

    /** What every method relies on: a decoded header, a tile side, a full palette and the full-lit tile. */
    predicate Wellformed() {
      ValidHeader(header) && SupportedVersion(header.version) && size > 0 && Valid(palette)
      && fullLitLightmap == FullLitLightmap()
    }

    /** The fields the constructor sets before it loads anything; both dictionaries start empty. */
    constructor Init(data: seq<byte>, header: Header, palette: QuakePalette, wads: seq<Wad3>, math: SurfaceMath, size: nat)
      ensures this.data == data && this.header == header && this.palette == palette && this.wads == wads
      ensures this.math == math && this.size == size && fullLitLightmap == FullLitLightmap()
      ensures textures == map[] && meshes == map[]
    {
      this.data := data;
      this.header := header;
      this.palette := palette;
      this.wads := wads;
      this.math := math;
      this.size := size;
      fullLitLightmap := FullLitLightmap();
      textures := map[];
      meshes := map[];
    }

    /**
     * The constructor: the header is copied from the start of the file and
     * an unsupported version throws before anything else is read; then the
     * textures and the meshes are loaded, and the first exception of the
     * mesh loop escapes.
     */
    static method Open(data: seq<byte>, palette: QuakePalette, wads: seq<Wad3>, math: SurfaceMath, size: nat)
      returns (r: Result<QuakeMap>)
      requires |data| >= Bsp.HeaderSize && Valid(palette) && size > 0
      requires var h := ReadHeader(data);
        SupportedVersion(h.version) ==>
          TexturesReadable(data, h)
          && MeshesReadable(data, h, LoadedTextures(data, h, palette, wads), math, size, LeafTotal(h))
      ensures var h := ReadHeader(data);
        !SupportedVersion(h.version) ==> r == Failure(UnsupportedVersion(h.version))
      ensures var h := ReadHeader(data);
        SupportedVersion(h.version) ==>
          var textures := LoadedTextures(data, h, palette, wads);
          var outcome := MeshesOf(data, h, textures, math, size, LeafTotal(h));
          (r.Success? <==> outcome.Success?)
          && (r.Failure? ==> r.error == outcome.error)
          && (r.Success? ==>
                fresh(r.value) && r.value.Wellformed()
                && r.value.data == data && r.value.header == h && r.value.palette == palette && r.value.wads == wads
                && r.value.math == math && r.value.size == size
                && r.value.textures == textures && r.value.meshes == outcome.value)
    {
      var header := ReadHeader(data);
      if !SupportedVersion(header.version) {
        return Failure(UnsupportedVersion(header.version));
      }
      r := Load(data, header, palette, wads, math, size);
    }

    /** The constructor past its version check: both dictionaries are filled in turn. */
    static method Load(data: seq<byte>, header: Header, palette: QuakePalette, wads: seq<Wad3>, math: SurfaceMath, size: nat)
      returns (r: Result<QuakeMap>)
      requires ValidHeader(header) && SupportedVersion(header.version) && Valid(palette) && size > 0
      requires TexturesReadable(data, header)
      requires MeshesReadable(data, header, LoadedTextures(data, header, palette, wads), math, size, LeafTotal(header))
      ensures var textures := LoadedTextures(data, header, palette, wads);
        var outcome := MeshesOf(data, header, textures, math, size, LeafTotal(header));
        (r.Success? <==> outcome.Success?)
        && (r.Failure? ==> r.error == outcome.error)
        && (r.Success? ==>
              fresh(r.value) && r.value.Wellformed()
              && r.value.data == data && r.value.header == header && r.value.palette == palette && r.value.wads == wads
              && r.value.math == math && r.value.size == size
              && r.value.textures == textures && r.value.meshes == outcome.value)
    {
      ghost var textures := LoadedTextures(data, header, palette, wads);
      ghost var outcome := MeshesOf(data, header, textures, math, size, LeafTotal(header));
      var m := new QuakeMap.Init(data, header, palette, wads, math, size);
      m.LoadTextures();
      EmptyUnion(textures);
      var loaded := m.LoadMeshes();
      if loaded.Fail? {
        return Failure(loaded.error);
      }
      EmptyUnion(outcome.value);
      return Success(m);
    }

    /**
     * LoadTextures: for each id below the count, the texture it resolves
     * to is stored under that id; an id whose texture is in no WAD gets no
     * entry.
     */
    method LoadTextures()
      requires Wellformed() && TexturesReadable(data, header)
      modifies this
      ensures textures == old(textures) + LoadedTextures(data, header, palette, wads)
      ensures meshes == old(meshes)
    {
      var collected := CollectTextures();
      textures := textures + collected;
    }

    /** The loop of LoadTextures, collecting into a local dictionary. */
    method CollectTextures() returns (collected: map<int, QuakeTexture>)
      requires Wellformed() && TexturesReadable(data, header)
      ensures collected == LoadedTextures(data, header, palette, wads)
    {
      var count := TextureCount(data, header);
      collected := map[];
      var t := 0;
      while t < count
        invariant 0 <= t && (t <= count || t == 0)
        invariant collected == TexturesBelow(data, header, palette, wads, t)
      {
        collected := AddTexture(collected, t);
        t := t + 1;
      }
    }

    /** One iteration of LoadTextures: texture t is stored when it resolves. */
    method AddTexture(collected: map<int, QuakeTexture>, t: nat) returns (next: map<int, QuakeTexture>)
      requires Wellformed() && TexturesReadable(data, header) && t < TextureCount(data, header)
      requires collected == TexturesBelow(data, header, palette, wads, t)
      ensures next == TexturesBelow(data, header, palette, wads, t + 1)
    {
      assert MiptexReadable(data, header, t);
      var quakeTexture := LoadTexture(t);
      TextureStepAt(data, header, palette, wads, t);
      next := collected;
      if quakeTexture.Some? {
        next := next[t := quakeTexture.value];
      }
    }

    /**
     * One iteration of LoadTextures: texture t's header at the offset the
     * table gives, then the embedded pixels when Offset1 is not 0, else the
     * lookup in the WADs.
     */
    method LoadTexture(t: int) returns (quakeTexture: Option<QuakeTexture>)
      requires Wellformed() && MiptexReadable(data, header, t)
      ensures quakeTexture == ResolveTexture(data, header, palette, wads, t)
    {
      var p := MiptexPos(data, header, t);
      var name := MipName(data, p);
      if MipOffset(data, p, 0) == 0 {
        var found;
        found, quakeTexture := TryFindTextureInWads(wads, name);
      } else {
        var start := p + MipOffset(data, p, 0);
        var raw := data[start..start + MipPixelCount(data, p)];
        var texture := NewQuakeTexture(name, MipTextureWidth(data, p), MipTextureHeight(data, p), raw, palette);
        quakeTexture := Some(texture.value);
      }
    }

    /**
     * BuildLightmap: the block's tile and one lightmap coordinate per
     * vertex, or the exception of Min/Max over no vertices or of a block
     * larger than the tile.
     */
    method BuildLightmap(vertices: seq<Vec3>, ti: TextureInfo, lightmapOffset: int, rgb: bool)
      returns (r: Result<(QuakeLightmap, seq<Vec2>)>)
      requires Wellformed() && BlockLightmapReadable(data, header, math, size, vertices, ti, lightmapOffset, rgb)
      ensures r == BlockLightmap(data, header, math, size, vertices, ti, lightmapOffset, rgb)
    {
      if |vertices| == 0 {
        return Failure(EmptySequence);
      }
      var (w, ht) := math.lightmapExtent(vertices, ti, size);
      var tile :- BuildLightmapTile(data, LightmapBase(header, lightmapOffset), size, w, ht, rgb);
      var uvs := seq(|vertices|, i requires 0 <= i < |vertices| => math.lightmapUv(vertices, ti, w, ht, size, vertices[i]));
      return Success((tile, uvs));
    }

    /** The seven floats of one vertex record, written at `dataIndex` and nowhere else. */
    static method WriteVertexRecord(vertexData: array<Float32>, dataIndex: nat, vertex: Vec3, textureUv: Vec2, lightmapUv: Vec2)
      requires dataIndex + VertexStride <= vertexData.Length
      modifies vertexData
      ensures forall j :: 0 <= j < vertexData.Length && !(dataIndex <= j < dataIndex + VertexStride) ==>
        vertexData[j] == old(vertexData[j])
      ensures forall k :: 0 <= k < VertexStride ==> vertexData[dataIndex + k] == VertexRecord(vertex, textureUv, lightmapUv)[k]
    {
      vertexData[dataIndex] := vertex.x;
      vertexData[dataIndex + 1] := vertex.y;
      vertexData[dataIndex + 2] := vertex.z;
      vertexData[dataIndex + 3] := textureUv.x;
      vertexData[dataIndex + 4] := textureUv.y;
      vertexData[dataIndex + 5] := lightmapUv.x;
      vertexData[dataIndex + 6] := lightmapUv.y;
    }

    /**
     * BuildSurfaceVertexData: the interleaved 7-float records and the fan
     * indices, or the exception of its texture lookup, its index buffer or
     * its lightmap coordinates.
     */
    method BuildSurfaceVertexData(vertices: seq<Vec3>, lightmapUvs: seq<Vec2>, ti: TextureInfo)
      returns (r: Result<(seq<Float32>, seq<nat>)>)
      ensures r == VertexBuffers(math, textures, vertices, lightmapUvs, ti)
    {
      if ti.texId !in textures {
        return Failure(KeyNotFound);
      }
      var texture := textures[ti.texId];
      var n := |vertices|;
      if n < 2 {
        return Failure(NegativeArraySize);
      }
      // The loop throws at its first vertex without a lightmap coordinate; nothing is kept.
      if |lightmapUvs| < n {
        return Failure(IndexOutOfRange);
      }
      var uvs := lightmapUvs[..n];
      ghost var expected := SurfaceVertexData(math, vertices, uvs, ti, texture);
      SurfaceVertexLayout(math, vertices, uvs, ti, texture, 0);
      var vertexData := new Float32[n * VertexStride](_ => ZeroFloat);
      for v := 0 to n
        invariant forall j :: 0 <= j < VertexStride * v ==> vertexData[j] == expected[j]
      {
        var vertex := vertices[v];
        var lightmapUv := uvs[v];
        var dataIndex := v * VertexStride;
        var textureUv := math.textureUv(vertex, ti, texture.width, texture.height);
        SurfaceVertexRecordAt(math, vertices, uvs, ti, texture, v);
        WriteVertexRecord(vertexData, dataIndex, vertex, textureUv, lightmapUv);
        forall j | dataIndex <= j < dataIndex + VertexStride
          ensures vertexData[j] == expected[j]
        {
          var k := j - dataIndex;
          assert dataIndex == VertexStride * v;
          assert vertexData[dataIndex + k] == VertexRecord(vertex, textureUv, lightmapUv)[k];
          assert expected[VertexStride * v + k] == VertexRecord(vertex, textureUv, lightmapUv)[k];
        }
      }
      assert vertexData[..] == expected;
      var indices := WriteFanIndices(n);
      return Success((vertexData[..], indices));
    }

    /**
     * TryCreateSurfaceMesh: None when the surface's texture is not in the
     * dictionary; otherwise the surface's polygon, its lightmap (the
     * full-lit tile when LightmapOffset is -1, RGB blocks from BSP30 on)
     * and its vertex buffers.
     */
    method TryCreateSurfaceMesh(surfaceId: int) returns (r: Result<Option<MapMesh>>)
      requires Wellformed() && SurfaceReadable(data, header, textures, math, size, surfaceId)
      ensures r == SurfaceMesh(data, header, textures, math, size, surfaceId)
    {
      var surface := GetSurface(data, header, surfaceId);
      var textureInfo := GetTextureInfo(data, header, surface.texinfoId);
      if textureInfo.texId !in textures {
        return Success(None);
      }
      var vertices := BuildPolygon(data, header, surface);
      var lightmap: QuakeLightmap;
      var lightmapUvs: seq<Vec2>;
      if surface.lightmapOffset != -1 {
        var rgb := header.version > BSP29;
        var built :- BuildLightmap(vertices, textureInfo, surface.lightmapOffset, rgb);
        lightmap, lightmapUvs := built.0, built.1;
      } else {
        lightmap, lightmapUvs := fullLitLightmap, seq(|vertices|, _ => ZeroVec2);
      }
      var buffers :- BuildSurfaceVertexData(vertices, lightmapUvs, textureInfo);
      assert lightmapUvs[..|vertices|] == lightmapUvs;
      return Success(Some(MapMesh(buffers.0, buffers.1, textures[textureInfo.texId], lightmap)));
    }

    /** One iteration of the inner loop of LoadMeshes: TryCreateSurfaceMesh on the surface in slot sIndex. */
    method TryCreateSlotMesh(leaf: Leaf, sIndex: int) returns (r: Result<Option<MapMesh>>)
      requires Wellformed() && sIndex >= leaf.surfaceListIndex
      requires SlotReadable(data, header, textures, math, size, leaf, sIndex - leaf.surfaceListIndex)
      ensures r == SlotMesh(data, header, textures, math, size, leaf, sIndex - leaf.surfaceListIndex)
    {
      var surfaceId := GetSurfaceId(data, header, sIndex);
      r := TryCreateSurfaceMesh(surfaceId);
    }

    /**
     * The inner loop of LoadMeshes over one leaf's surface-list slots,
     * proved against any step that agrees with TryCreateSurfaceMesh on the
     * slots it is ready for: the meshes of the textured surfaces in slot
     * order, or the first exception. The cursor is a short; the range
     * precondition is what keeps its increment from wrapping.
     */
    method LoadLeafMeshes(leaf: Leaf, ghost ready: nat -> bool, ghost step: nat --> Result<Option<MapMesh>>)
      returns (r: Result<seq<MapMesh>>)
      requires Wellformed() && LeafRangeValid(leaf) && Reached(ready, step, SlotCount(leaf))
      requires forall j :: ready(j) ==> (SlotReadable(data, header, textures, math, size, leaf, j) && step.requires(j)
                                        && step(j) == SlotMesh(data, header, textures, math, size, leaf, j))
      ensures r == RunSomes(ready, step, SlotCount(leaf))
    {
      ghost var count := SlotCount(leaf);
      var leafMeshes: seq<MapMesh> := [];
      var sIndex: int := leaf.surfaceListIndex;
      ghost var k: nat := 0;
      while sIndex < leaf.surfaceListIndex + leaf.surfaceCount
        invariant sIndex == leaf.surfaceListIndex + k && k <= count
        invariant Reached(ready, step, k) && Run(ready, step, k).Success?
        invariant leafMeshes == Somes(Run(ready, step, k).value)
        decreases count - k
      {
        ReachedPrefix(ready, step, k + 1, count);
        RunStep(ready, step, k);
        var mapMesh := TryCreateSlotMesh(leaf, sIndex);
        if mapMesh.Failure? {
          RunStops(ready, step, k + 1, count);
          return Failure(mapMesh.error);
        }
        SomesAppend(Run(ready, step, k).value, mapMesh.value);
        if mapMesh.value.Some? {
          leafMeshes := leafMeshes + [mapMesh.value.value];
        }
        sIndex := sIndex + 1;
        k := k + 1;
      }
      assert k == count;
      return Success(leafMeshes);
    }

    /** One iteration of LoadMeshes: the meshes of leaf l over all its slots. */
    method LoadLeaf(l: nat) returns (r: Result<seq<MapMesh>>)
      requires Wellformed() && LeafEntryReadable(data, header, textures, math, size, l)
      ensures r == LeafEntryMeshes(data, header, textures, math, size, l)
    {
      var leaf := GetLeaf(data, header, l);
      SlotSteps(data, header, textures, math, size, leaf);
      r := LoadLeafMeshes(leaf, SlotReady(data, header, textures, math, size, leaf),
                          SlotStep(data, header, textures, math, size, leaf));
    }

    /**
     * The loop of LoadMeshes, proved against any step that agrees with the
     * leaf loop on the leaves it is ready for: the meshes of every leaf
     * below LeafCount under its id, or the first exception of a leaf.
     */
    method LoadLeaves(ghost ready: nat -> bool, ghost step: nat --> Result<seq<MapMesh>>)
      returns (r: Result<map<int, seq<MapMesh>>>)
      requires Wellformed() && Reached(ready, step, LeafTotal(header))
      requires forall l :: ready(l) ==> (LeafEntryReadable(data, header, textures, math, size, l) && step.requires(l)
                                        && step(l) == LeafEntryMeshes(data, header, textures, math, size, l))
      ensures r.Success? <==> Run(ready, step, LeafTotal(header)).Success?
      ensures r.Failure? ==> r.error == Run(ready, step, LeafTotal(header)).error
      ensures r.Success? ==> r.value == IndexMap(Run(ready, step, LeafTotal(header)).value)
    {
      ghost var total := LeafTotal(header);
      var loaded: map<int, seq<MapMesh>> := map[];
      var leafCount := LeafCount(header);
      var l := 0;
      while l < leafCount
        invariant 0 <= l <= total
        invariant Reached(ready, step, l) && Run(ready, step, l).Success?
        invariant loaded == IndexMap(Run(ready, step, l).value)
      {
        ReachedPrefix(ready, step, l + 1, total);
        RunStep(ready, step, l);
        var leafMeshes := LoadLeaf(l);
        if leafMeshes.Failure? {
          RunStops(ready, step, l + 1, total);
          return Failure(leafMeshes.error);
        }
        IndexMapAppend(Run(ready, step, l).value, leafMeshes.value);
        loaded := loaded[l := leafMeshes.value];
        l := l + 1;
      }
      assert l == total;
      return Success(loaded);
    }

    /**
     * LoadMeshes: each leaf below LeafCount gets the entry holding its
     * meshes; the first exception of a leaf escapes.
     */
    method LoadMeshes() returns (o: Outcome)
      requires Wellformed() && MeshesReadable(data, header, textures, math, size, LeafTotal(header))
      modifies this
      ensures textures == old(textures)
      ensures o.Pass? <==> MeshesOf(data, header, textures, math, size, LeafTotal(header)).Success?
      ensures o.Fail? ==> o.error == MeshesOf(data, header, textures, math, size, LeafTotal(header)).error
      ensures o.Pass? ==> meshes == old(meshes) + MeshesOf(data, header, textures, math, size, LeafTotal(header)).value
    {
      LeafSteps(data, header, textures, math, size);
      var loaded := LoadLeaves(LeafReady(data, header, textures, math, size), LeafStep(data, header, textures, math, size));
      if loaded.Failure? {
        return Fail(loaded.error);
      }
      meshes := meshes + loaded.value;
      return Pass;
    }

    /** GetLeafMeshes: the dictionary lookup throws for a leaf without an entry. */
    function GetLeafMeshes(leafId: int): (r: Result<seq<MapMesh>>)
      reads this
      ensures r.Success? <==> leafId in meshes
      ensures r.Success? ==> r.value == meshes[leafId]
      ensures r.Failure? ==> r.error == KeyNotFound
    {
      if leafId in meshes then Success(meshes[leafId]) else Failure(KeyNotFound)
    }
  }
}
