/**
 * The older map class (class Map of nb3D/QuakeMapLoader.cs), for BSP29
 * maps only: the version gate, a texture array decoded from the map alone,
 * one mesh per surface-list slot with 5-float vertex records, and the edge
 * endpoints of its debug dump. Lump layout, BSP descent, hull first-leaf
 * ids, the polygon and the fan are the same code as in the current
 * revision and are shared with it.
 */
module QuakeMapLoader {
  import opened Common
  import opened Bytes
  import opened Palette
  import opened Texture
  import opened Miptex
  import opened Bsp
  import opened BspQuery
  import opened FloatMath
  import opened Folds
  import Wad3
  import QuakeMaps

  /** The only version the constructor accepts. */
  const Version: int := 29

  // ----- Textures -----

  /**
   * What decoding texture t reads: its offset, its header, and W*H bytes at
   * Offset1 past the header, which the texture constructor accepts.
   */
  predicate EmbeddedReadable(data: seq<byte>, h: Header, t: int)
    requires ValidHeader(h)
  {
    InBuffer(data, QuakeMaps.MiptexBase(h) + 4 + 4 * t, 4)
    && var p := QuakeMaps.MiptexPos(data, h, t);
    MipHeaderReadable(data, p) && InBuffer(data, p + MipOffset(data, p, 0), MipPixelCount(data, p)) && MipFits(data, p)
  }

  predicate TexturesReadable(data: seq<byte>, h: Header)
    requires ValidHeader(h)
  {
    QuakeMaps.TextureCountReadable(data, h)
    && forall t :: 0 <= t < QuakeMaps.TextureCount(data, h) ==> EmbeddedReadable(data, h, t)
  }

  /** Texture t: its header's name and size, with the pixels at Offset1, whatever Offset1 is. */
  function EmbeddedTexture(data: seq<byte>, h: Header, palette: QuakePalette, t: int): QuakeTexture
    requires ValidHeader(h) && Valid(palette) && EmbeddedReadable(data, h, t)
  {
    var p := QuakeMaps.MiptexPos(data, h, t);
    var start := p + MipOffset(data, p, 0);
    TextureOf(MipName(data, p), MipTextureWidth(data, p), MipTextureHeight(data, p), data[start..start + MipPixelCount(data, p)], palette)
  }

  /** LoadTextures: the array of the count's length cannot be allocated for a negative count. */
  function TextureArray(data: seq<byte>, h: Header, palette: QuakePalette): Result<seq<QuakeTexture>>
    requires ValidHeader(h) && Valid(palette) && TexturesReadable(data, h)
  {
    var count := QuakeMaps.TextureCount(data, h);
    if count < 0 then Failure(NegativeArraySize)
    else Success(seq(count, t requires 0 <= t < count => EmbeddedTexture(data, h, palette, t)))
  }

  /**
   * The array has one entry per id below the count, the first int32 of the
   * miptex lump; entry t always comes from the map, with its header's name,
   * the int casts of its uint width and height, and the palette expansion
   * of the W*H bytes at Offset1.
   */
  lemma TextureArrayContents(data: seq<byte>, h: Header, palette: QuakePalette, t: int)
    requires ValidHeader(h) && Valid(palette) && TexturesReadable(data, h)
    ensures TextureArray(data, h, palette).Failure? <==> QuakeMaps.TextureCount(data, h) < 0
    ensures TextureArray(data, h, palette).Failure? ==> TextureArray(data, h, palette).error == NegativeArraySize
    ensures TextureArray(data, h, palette).Success? ==>
      var textures := TextureArray(data, h, palette).value;
      |textures| == QuakeMaps.TextureCount(data, h)
      && (0 <= t < |textures| ==>
            EmbeddedReadable(data, h, t)
            && var p := QuakeMaps.MiptexPos(data, h, t);
            var start := p + MipOffset(data, p, 0);
            textures[t].name == MipName(data, p)
            && textures[t].width == MipTextureWidth(data, p) && textures[t].height == MipTextureHeight(data, p)
            && textures[t].pixels == ExpandedPixels(MipTextureWidth(data, p), MipTextureHeight(data, p),
                                                    data[start..start + MipPixelCount(data, p)], palette))
  {
  }

  /**
   * Where every texture is embedded, the two revisions agree: the current
   * one has an entry for exactly the ids of the array, each the same
   * texture.
   */
  lemma EmbeddedTexturesAgree(data: seq<byte>, h: Header, palette: QuakePalette, wads: seq<Wad3.Wad3>)
    requires ValidHeader(h) && Valid(palette) && TexturesReadable(data, h)
    requires QuakeMaps.TextureCount(data, h) >= 0
    requires forall t :: 0 <= t < QuakeMaps.TextureCount(data, h) ==>
      EmbeddedReadable(data, h, t) && MipOffset(data, QuakeMaps.MiptexPos(data, h, t), 0) != 0
    ensures QuakeMaps.TexturesReadable(data, h)
    ensures var current := QuakeMaps.LoadedTextures(data, h, palette, wads);
      var textures := TextureArray(data, h, palette).value;
      (forall t :: t in current <==> 0 <= t < |textures|)
      && forall t :: 0 <= t < |textures| ==> current[t] == textures[t]
  {
    var count := QuakeMaps.TextureCount(data, h);
    forall t | 0 <= t < count
      ensures QuakeMaps.MiptexReadable(data, h, t)
    {
      assert EmbeddedReadable(data, h, t);
    }
    var step := QuakeMaps.TextureStep(data, h, palette, wads);
    forall t
      ensures t in QuakeMaps.LoadedTextures(data, h, palette, wads) <==> 0 <= t < count
      ensures 0 <= t < count ==>
        QuakeMaps.LoadedTextures(data, h, palette, wads)[t] == TextureArray(data, h, palette).value[t]
    {
      PresentBelowAt(step, count, t);
      if 0 <= t < count {
        QuakeMaps.TextureStepAt(data, h, palette, wads, t);
      }
    }
  }

  // ----- Surface meshes -----

  /** A leaf's drawable piece: the interleaved vertices, the fan indices and the texture. */
  datatype LoaderMesh = LoaderMesh(vertexData: seq<Float32>, indices: seq<nat>, texture: QuakeTexture)

  /** Floats per vertex: position and texture coordinate. */
  const VertexStride: nat := 5

  function VertexRecord(v: Vec3, textureUv: Vec2): (r: seq<Float32>)
    ensures |r| == VertexStride
  {
    [v.x, v.y, v.z, textureUv.x, textureUv.y]
  }

  /** The per-vertex records of a polygon, in polygon order. */
  function VertexRecords(math: SurfaceMath, vertices: seq<Vec3>, ti: TextureInfo, texture: QuakeTexture)
    : (records: seq<seq<Float32>>)
    ensures |records| == |vertices|
    ensures forall i :: 0 <= i < |vertices| ==>
      records[i] == VertexRecord(vertices[i], math.textureUv(vertices[i], ti, texture.width, texture.height))
      && |records[i]| == VertexStride
  {
    seq(|vertices|, i requires 0 <= i < |vertices| =>
      VertexRecord(vertices[i], math.textureUv(vertices[i], ti, texture.width, texture.height)))
  }

  /** The vertex buffer of a polygon: the records one after the other. */
  function SurfaceVertexData(math: SurfaceMath, vertices: seq<Vec3>, ti: TextureInfo, texture: QuakeTexture): seq<Float32>
  {
    Flatten(VertexRecords(math, vertices, ti, texture))
  }

  /** Floats 5v .. 5v+4 of the buffer are vertex v's record. */
  lemma SurfaceVertexRecordAt(math: SurfaceMath, vertices: seq<Vec3>, ti: TextureInfo, texture: QuakeTexture, v: nat)
    requires v < |vertices|
    ensures var d := SurfaceVertexData(math, vertices, ti, texture);
      var record := VertexRecord(vertices[v], math.textureUv(vertices[v], ti, texture.width, texture.height));
      |d| == VertexStride * |vertices|
      && forall k :: 0 <= k < VertexStride ==> d[VertexStride * v + k] == record[k]
  {
    var records := VertexRecords(math, vertices, ti, texture);
    FlattenLength(records, VertexStride);
    forall k | 0 <= k < VertexStride
      ensures VertexStride * v + k < |Flatten(records)| && Flatten(records)[VertexStride * v + k] == records[v][k]
    {
      FlattenLayout(records, VertexStride, v, k);
    }
  }

  /**
   * The buffer holds 5 floats per vertex: vertex v's position at 5v .. 5v+2
   * and its texture coordinate at 5v+3, 5v+4.
   */
  lemma SurfaceVertexLayout(math: SurfaceMath, vertices: seq<Vec3>, ti: TextureInfo, texture: QuakeTexture, v: nat)
    requires v < |vertices|
    ensures var d := SurfaceVertexData(math, vertices, ti, texture);
      var uv := math.textureUv(vertices[v], ti, texture.width, texture.height);
      |d| == VertexStride * |vertices|
      && d[5 * v] == vertices[v].x && d[5 * v + 1] == vertices[v].y && d[5 * v + 2] == vertices[v].z
      && d[5 * v + 3] == uv.x && d[5 * v + 4] == uv.y
  {
    SurfaceVertexRecordAt(math, vertices, ti, texture, v);
    var d := SurfaceVertexData(math, vertices, ti, texture);
    var record := VertexRecord(vertices[v], math.textureUv(vertices[v], ti, texture.width, texture.height));
    assert d[VertexStride * v + 0] == record[0] && d[VertexStride * v + 1] == record[1];
    assert d[VertexStride * v + 2] == record[2] && d[VertexStride * v + 3] == record[3];
    assert d[VertexStride * v + 4] == record[4];
  }

  /**
   * BuildSurfaceVertexData: the texture array is indexed by the texture
   * id, and the index buffer of n - 2 triangles cannot be allocated below
   * two vertices; otherwise the interleaved buffer and the fan indices.
   */
  function VertexBuffers(math: SurfaceMath, textures: seq<QuakeTexture>, vertices: seq<Vec3>, ti: TextureInfo)
    : Result<(seq<Float32>, seq<nat>)>
  {
    if !(0 <= ti.texId < |textures|) then Failure(IndexOutOfRange)
    else if |vertices| < 2 then Failure(NegativeArraySize)
    else Success((SurfaceVertexData(math, vertices, ti, textures[ti.texId]), FanIndices(|vertices|)))
  }

  /**
   * What building surface `surfaceId` reads: its record and texture info,
   * and, once its texture id indexes the array, its plane and its polygon.
   */
  predicate SurfaceReadable(data: seq<byte>, h: Header, textures: seq<QuakeTexture>, surfaceId: int)
    requires ValidHeader(h)
  {
    RecordInBuffer(data, h, SurfacesLump, surfaceId, SurfaceSize)
    && var s := GetSurface(data, h, surfaceId);
    RecordInBuffer(data, h, TexinfoLump, s.texinfoId, TextureInfoSize)
    && var ti := GetTextureInfo(data, h, s.texinfoId);
    0 <= ti.texId < |textures| ==>
      RecordInBuffer(data, h, PlanesLump, s.planeId, PlaneSize) && PolygonReadable(data, h, s)
  }

  /** CreateSurfaceMesh: the fan mesh over the surface's polygon with its texture, or the exception it throws. */
  function SurfaceMesh(data: seq<byte>, h: Header, textures: seq<QuakeTexture>, math: SurfaceMath, surfaceId: int)
    : Result<LoaderMesh>
    requires ValidHeader(h) && SurfaceReadable(data, h, textures, surfaceId)
  {
    var s := GetSurface(data, h, surfaceId);
    var ti := GetTextureInfo(data, h, s.texinfoId);
    if !(0 <= ti.texId < |textures|) then Failure(IndexOutOfRange)
    else
      var buffers :- VertexBuffers(math, textures, Polygon(data, h, s), ti);
      Success(LoaderMesh(buffers.0, buffers.1, textures[ti.texId]))
  }

  /**
   * A surface whose texture id is outside the array throws an index
   * error; one with fewer than two edges cannot allocate its index
   * buffer; every other surface builds.
   */
  lemma SurfaceMeshOutcome(data: seq<byte>, h: Header, textures: seq<QuakeTexture>, math: SurfaceMath, surfaceId: int)
    requires ValidHeader(h) && SurfaceReadable(data, h, textures, surfaceId)
    ensures var s := GetSurface(data, h, surfaceId);
      var ti := GetTextureInfo(data, h, s.texinfoId);
      var r := SurfaceMesh(data, h, textures, math, surfaceId);
      (r == Failure(IndexOutOfRange) <==> !(0 <= ti.texId < |textures|))
      && (r == Failure(NegativeArraySize) <==> 0 <= ti.texId < |textures| && s.edgeCount < 2)
      && (r.Success? <==> 0 <= ti.texId < |textures| && s.edgeCount >= 2)
  {
  }

  /**
   * A built mesh uses the surface's own texture, its buffer holds the
   * 5-float records of the polygon's vertices, and its indices are the fan
   * over them.
   */
  lemma SurfaceMeshContents(data: seq<byte>, h: Header, textures: seq<QuakeTexture>, math: SurfaceMath,
                            surfaceId: int, v: nat)
    requires ValidHeader(h) && SurfaceReadable(data, h, textures, surfaceId)
    requires SurfaceMesh(data, h, textures, math, surfaceId).Success?
    ensures var s := GetSurface(data, h, surfaceId);
      var ti := GetTextureInfo(data, h, s.texinfoId);
      var m := SurfaceMesh(data, h, textures, math, surfaceId).value;
      0 <= ti.texId < |textures| && m.texture == textures[ti.texId]
      && |m.vertexData| == VertexStride * s.edgeCount
      && m.indices == FanIndices(s.edgeCount)
      && (v < s.edgeCount ==>
            var vertex := Polygon(data, h, s)[v];
            var uv := math.textureUv(vertex, ti, m.texture.width, m.texture.height);
            m.vertexData[5 * v] == vertex.x && m.vertexData[5 * v + 1] == vertex.y && m.vertexData[5 * v + 2] == vertex.z
            && m.vertexData[5 * v + 3] == uv.x && m.vertexData[5 * v + 4] == uv.y)
  {
    var s := GetSurface(data, h, surfaceId);
    var ti := GetTextureInfo(data, h, s.texinfoId);
    if v < s.edgeCount {
      SurfaceVertexLayout(math, Polygon(data, h, s), ti, textures[ti.texId], v);
    } else {
      SurfaceVertexLayout(math, Polygon(data, h, s), ti, textures[ti.texId], 0);
    }
  }

  // ----- Leaves -----

  /** Slot k of a leaf: its surface-list entry and the surface it names are readable. */
  predicate SlotReadable(data: seq<byte>, h: Header, textures: seq<QuakeTexture>, leaf: Leaf, k: nat)
    requires ValidHeader(h)
  {
    SurfaceIdInBuffer(data, h, leaf.surfaceListIndex + k)
    && SurfaceReadable(data, h, textures, GetSurfaceId(data, h, leaf.surfaceListIndex + k))
  }

  /** CreateSurfaceMesh on the surface in slot k of a leaf. */
  function SlotMesh(data: seq<byte>, h: Header, textures: seq<QuakeTexture>, math: SurfaceMath, leaf: Leaf, k: nat)
    : Result<LoaderMesh>
    requires ValidHeader(h) && SlotReadable(data, h, textures, leaf, k)
  {
    SurfaceMesh(data, h, textures, math, GetSurfaceId(data, h, leaf.surfaceListIndex + k))
  }

  /** The step agrees with CreateSurfaceMesh on every slot it is ready for. */
  ghost predicate SlotStepsAgree(data: seq<byte>, h: Header, textures: seq<QuakeTexture>, math: SurfaceMath, leaf: Leaf,
                                 ready: nat -> bool, step: nat --> Result<LoaderMesh>)
    requires ValidHeader(h)
  {
    forall j {:trigger SlotReadable(data, h, textures, leaf, j)} ::
      ready(j) ==> (SlotReadable(data, h, textures, leaf, j) && step.requires(j)
                    && step(j) == SlotMesh(data, h, textures, math, leaf, j))
  }

  /** One iteration of the leaf loop, as a step defined on the readable slots. */
  function SlotStep(data: seq<byte>, h: Header, textures: seq<QuakeTexture>, math: SurfaceMath, leaf: Leaf)
    : nat --> Result<LoaderMesh>
    requires ValidHeader(h)
  {
    (k: nat) requires ValidHeader(h) && SlotReadable(data, h, textures, leaf, k) =>
      SlotMesh(data, h, textures, math, leaf, k)
  }

  /** The slots the leaf loop may read. */
  function SlotReady(data: seq<byte>, h: Header, textures: seq<QuakeTexture>, leaf: Leaf): nat -> bool
    requires ValidHeader(h)
  {
    (k: nat) => SlotReadable(data, h, textures, leaf, k)
  }

  lemma SlotStepAt(data: seq<byte>, h: Header, textures: seq<QuakeTexture>, math: SurfaceMath, leaf: Leaf, k: nat)
    requires ValidHeader(h)
    ensures SlotReady(data, h, textures, leaf)(k) <==> SlotReadable(data, h, textures, leaf, k)
    ensures SlotReadable(data, h, textures, leaf, k) ==>
      SlotStep(data, h, textures, math, leaf).requires(k)
      && SlotStep(data, h, textures, math, leaf)(k) == SlotMesh(data, h, textures, math, leaf, k)
  {
  }

  /** SlotStepAt at every ready slot. */
  lemma SlotSteps(data: seq<byte>, h: Header, textures: seq<QuakeTexture>, math: SurfaceMath, leaf: Leaf)
    requires ValidHeader(h)
    ensures var ready, step := SlotReady(data, h, textures, leaf), SlotStep(data, h, textures, math, leaf);
      forall j :: ready(j) ==> (SlotReadable(data, h, textures, leaf, j) && step.requires(j)
                               && step(j) == SlotMesh(data, h, textures, math, leaf, j))
  {
    forall j | SlotReady(data, h, textures, leaf)(j)
      ensures SlotReadable(data, h, textures, leaf, j)
      ensures SlotStep(data, h, textures, math, leaf).requires(j)
      ensures SlotStep(data, h, textures, math, leaf)(j) == SlotMesh(data, h, textures, math, leaf, j)
    {
      SlotStepAt(data, h, textures, math, leaf, j);
    }
  }

  /** Every slot the leaf loop reaches in its first k iterations is readable. */
  ghost predicate LeafReadable(data: seq<byte>, h: Header, textures: seq<QuakeTexture>, math: SurfaceMath,
                               leaf: Leaf, k: nat)
    requires ValidHeader(h)
  {
    Reached(SlotReady(data, h, textures, leaf), SlotStep(data, h, textures, math, leaf), k)
  }

  /** The meshes of slots 0 .. k-1: the first failure aborts. */
  function LeafMeshes(data: seq<byte>, h: Header, textures: seq<QuakeTexture>, math: SurfaceMath, leaf: Leaf, k: nat)
    : Result<seq<LoaderMesh>>
    requires ValidHeader(h) && LeafReadable(data, h, textures, math, leaf, k)
  {
    Run(SlotReady(data, h, textures, leaf), SlotStep(data, h, textures, math, leaf), k)
  }

  /**
   * A leaf whose surfaces all built has exactly one mesh per slot, in
   * surface-list order: mesh j is the mesh of the surface in slot j.
   */
  lemma LeafMeshesPerSlot(data: seq<byte>, h: Header, textures: seq<QuakeTexture>, math: SurfaceMath, leaf: Leaf, k: nat)
    requires ValidHeader(h) && LeafReadable(data, h, textures, math, leaf, k)
    requires LeafMeshes(data, h, textures, math, leaf, k).Success?
    ensures |LeafMeshes(data, h, textures, math, leaf, k).value| == k
    ensures forall j :: 0 <= j < k ==>
      SlotReadable(data, h, textures, leaf, j)
      && SlotMesh(data, h, textures, math, leaf, j) == Success(LeafMeshes(data, h, textures, math, leaf, k).value[j])
  {
    forall j | 0 <= j < k
      ensures SlotReadable(data, h, textures, leaf, j)
      ensures SlotMesh(data, h, textures, math, leaf, j) == Success(LeafMeshes(data, h, textures, math, leaf, k).value[j])
    {
      SlotStepAt(data, h, textures, math, leaf, j);
    }
  }

  /** The first slot whose surface throws aborts the leaf with that exception. */
  lemma LeafMeshesFailure(data: seq<byte>, h: Header, textures: seq<QuakeTexture>, math: SurfaceMath,
                          leaf: Leaf, k: nat, j: nat)
    requires ValidHeader(h) && LeafReadable(data, h, textures, math, leaf, k) && j < k
    requires forall i :: 0 <= i <= j ==> SlotReadable(data, h, textures, leaf, i)
    requires forall i :: 0 <= i < j ==> SlotMesh(data, h, textures, math, leaf, i).Success?
    requires SlotMesh(data, h, textures, math, leaf, j).Failure?
    ensures LeafMeshes(data, h, textures, math, leaf, k) == Failure(SlotMesh(data, h, textures, math, leaf, j).error)
  {
    forall i | 0 <= i <= j {
      SlotStepAt(data, h, textures, math, leaf, i);
    }
    RunFailure(SlotReady(data, h, textures, leaf), SlotStep(data, h, textures, math, leaf), k, j);
  }

  // ----- All leaves -----

  /** Leaf l's record and every slot its loop reaches. */
  ghost predicate LeafEntryReadable(data: seq<byte>, h: Header, textures: seq<QuakeTexture>, math: SurfaceMath, l: nat)
    requires ValidHeader(h)
  {
    RecordInBuffer(data, h, LeavesLump, l, LeafSize)
    && var leaf := GetLeaf(data, h, l);
    QuakeMaps.LeafRangeValid(leaf) && LeafReadable(data, h, textures, math, leaf, QuakeMaps.SlotCount(leaf))
  }

  /** The meshes of leaf l, over all its slots. */
  function LeafEntryMeshes(data: seq<byte>, h: Header, textures: seq<QuakeTexture>, math: SurfaceMath, l: nat)
    : Result<seq<LoaderMesh>>
    requires ValidHeader(h) && LeafEntryReadable(data, h, textures, math, l)
  {
    var leaf := GetLeaf(data, h, l);
    LeafMeshes(data, h, textures, math, leaf, QuakeMaps.SlotCount(leaf))
  }

  /** One iteration of the mesh loop, as a step defined on the readable leaves. */
  function LeafStep(data: seq<byte>, h: Header, textures: seq<QuakeTexture>, math: SurfaceMath)
    : nat --> Result<seq<LoaderMesh>>
    requires ValidHeader(h)
  {
    (l: nat) requires ValidHeader(h) && LeafEntryReadable(data, h, textures, math, l) =>
      LeafEntryMeshes(data, h, textures, math, l)
  }

  /** The leaves the mesh loop may read. */
  ghost function LeafReady(data: seq<byte>, h: Header, textures: seq<QuakeTexture>, math: SurfaceMath): nat -> bool
    requires ValidHeader(h)
  {
    (l: nat) => LeafEntryReadable(data, h, textures, math, l)
  }

  lemma LeafStepAt(data: seq<byte>, h: Header, textures: seq<QuakeTexture>, math: SurfaceMath, l: nat)
    requires ValidHeader(h)
    ensures LeafReady(data, h, textures, math)(l) <==> LeafEntryReadable(data, h, textures, math, l)
    ensures LeafEntryReadable(data, h, textures, math, l) ==>
      LeafStep(data, h, textures, math).requires(l)
      && LeafStep(data, h, textures, math)(l) == LeafEntryMeshes(data, h, textures, math, l)
  {
  }

  /** LeafStepAt at every ready leaf. */
  lemma LeafSteps(data: seq<byte>, h: Header, textures: seq<QuakeTexture>, math: SurfaceMath)
    requires ValidHeader(h)
    ensures var ready, step := LeafReady(data, h, textures, math), LeafStep(data, h, textures, math);
      forall l :: ready(l) ==> (LeafEntryReadable(data, h, textures, math, l) && step.requires(l)
                               && step(l) == LeafEntryMeshes(data, h, textures, math, l))
  {
    forall l | LeafReady(data, h, textures, math)(l)
      ensures LeafEntryReadable(data, h, textures, math, l)
      ensures LeafStep(data, h, textures, math).requires(l)
      ensures LeafStep(data, h, textures, math)(l) == LeafEntryMeshes(data, h, textures, math, l)
    {
      LeafStepAt(data, h, textures, math, l);
    }
  }

  /** Every leaf the mesh loop reaches in its first n iterations is readable. */
  ghost predicate MeshesReadable(data: seq<byte>, h: Header, textures: seq<QuakeTexture>, math: SurfaceMath, n: nat)
    requires ValidHeader(h)
  {
    Reached(LeafReady(data, h, textures, math), LeafStep(data, h, textures, math), n)
  }

  /** The mesh dictionary after leaves 0 .. n-1, or the first exception. */
  function MeshesOf(data: seq<byte>, h: Header, textures: seq<QuakeTexture>, math: SurfaceMath, n: nat)
    : Result<map<int, seq<LoaderMesh>>>
    requires ValidHeader(h) && MeshesReadable(data, h, textures, math, n)
  {
    var all :- Run(LeafReady(data, h, textures, math), LeafStep(data, h, textures, math), n);
    Success(IndexMap(all))
  }

  /**
   * After the loop every leaf below the count has an entry holding one
   * mesh per surface-list slot, mesh k being that of slot k, and there are
   * no other entries.
   */
  lemma MeshesOfLeaves(data: seq<byte>, h: Header, textures: seq<QuakeTexture>, math: SurfaceMath, n: nat)
    requires ValidHeader(h) && MeshesReadable(data, h, textures, math, n)
    requires MeshesOf(data, h, textures, math, n).Success?
    ensures var meshes := MeshesOf(data, h, textures, math, n).value;
      (forall l :: l in meshes <==> 0 <= l < n)
      && forall l :: 0 <= l < n ==>
        LeafEntryReadable(data, h, textures, math, l)
        && var leaf := GetLeaf(data, h, l);
        |meshes[l]| == QuakeMaps.SlotCount(leaf)
        && forall k :: 0 <= k < QuakeMaps.SlotCount(leaf) ==>
             SlotReadable(data, h, textures, leaf, k)
             && SlotMesh(data, h, textures, math, leaf, k) == Success(meshes[l][k])
  {
    var ready, step := LeafReady(data, h, textures, math), LeafStep(data, h, textures, math);
    var meshes := MeshesOf(data, h, textures, math, n).value;
    forall l | 0 <= l < n
      ensures LeafEntryReadable(data, h, textures, math, l)
      ensures var leaf := GetLeaf(data, h, l);
        |meshes[l]| == QuakeMaps.SlotCount(leaf)
        && forall k :: 0 <= k < QuakeMaps.SlotCount(leaf) ==>
             SlotReadable(data, h, textures, leaf, k)
             && SlotMesh(data, h, textures, math, leaf, k) == Success(meshes[l][k])
    {
      LeafStepAt(data, h, textures, math, l);
      assert LeafEntryMeshes(data, h, textures, math, l) == Success(meshes[l]);
      var leaf := GetLeaf(data, h, l);
      LeafMeshesPerSlot(data, h, textures, math, leaf, QuakeMaps.SlotCount(leaf));
    }
  }

  /** The first leaf that throws aborts the loop with that exception. */
  lemma MeshesOfFailure(data: seq<byte>, h: Header, textures: seq<QuakeTexture>, math: SurfaceMath, n: nat, j: nat)
    requires ValidHeader(h) && MeshesReadable(data, h, textures, math, n) && j < n
    requires forall l :: 0 <= l <= j ==> LeafEntryReadable(data, h, textures, math, l)
    requires forall l :: 0 <= l < j ==> LeafEntryMeshes(data, h, textures, math, l).Success?
    requires LeafEntryMeshes(data, h, textures, math, j).Failure?
    ensures MeshesOf(data, h, textures, math, n) == Failure(LeafEntryMeshes(data, h, textures, math, j).error)
  {
    forall l | 0 <= l <= j {
      LeafStepAt(data, h, textures, math, l);
    }
    RunFailure(LeafReady(data, h, textures, math), LeafStep(data, h, textures, math), n, j);
  }

  // ----- Debug dump -----

  /** What dumping edge e of surface s reads: its edge-list entry, its edge and both endpoints. */
  predicate DebugEdgeReadable(data: seq<byte>, h: Header, s: Surface, e: int)
    requires ValidHeader(h)
  {
    EdgeIdInBuffer(data, h, s.edgeListIndex + e)
    && var edgeId := GetEdgeId(data, h, s.edgeListIndex + e);
    RecordInBuffer(data, h, EdgesLump, EdgeIndex(edgeId), EdgeSize)
    && var edge := GetEdge(data, h, EdgeIndex(edgeId));
    RecordInBuffer(data, h, VerticesLump, edge.vertex0, VertexSize)
    && RecordInBuffer(data, h, VerticesLump, edge.vertex1, VertexSize)
  }

  /** The start and end vertex ids of edge e in the dump of surface s. */
  function DebugEdgeIds(data: seq<byte>, h: Header, s: Surface, e: int): (ids: (u16, u16))
    requires ValidHeader(h) && DebugEdgeReadable(data, h, s, e)
    ensures RecordInBuffer(data, h, VerticesLump, ids.0, VertexSize)
    ensures RecordInBuffer(data, h, VerticesLump, ids.1, VertexSize)
  {
    var edgeId := GetEdgeId(data, h, s.edgeListIndex + e);
    var edge := GetEdge(data, h, EdgeIndex(edgeId));
    if edgeId > 0 then (edge.vertex0, edge.vertex1) else (edge.vertex1, edge.vertex0)
  }

  /**
   * GetSurfaceDebugStr, without its text formatting: the start and end
   * vertex of each of the surface's edges, in edge-list order.
   */
  method SurfaceDebugEdges(data: seq<byte>, h: Header, s: Surface) returns (edges: seq<(Vec3, Vec3)>)
    requires ValidHeader(h) && forall e :: 0 <= e < s.edgeCount ==> DebugEdgeReadable(data, h, s, e)
    ensures |edges| == s.edgeCount
    ensures forall e :: 0 <= e < s.edgeCount ==>
      var (start, end) := DebugEdgeIds(data, h, s, e);
      edges[e] == (GetVertex(data, h, start), GetVertex(data, h, end))
  {
    edges := [];
    for e := 0 to s.edgeCount
      invariant |edges| == e
      invariant forall i :: 0 <= i < e ==>
        var (start, end) := DebugEdgeIds(data, h, s, i);
        edges[i] == (GetVertex(data, h, start), GetVertex(data, h, end))
    {
      assert DebugEdgeReadable(data, h, s, e);
      var edgeListIndex := s.edgeListIndex + e;
      var edgeId := GetEdgeId(data, h, edgeListIndex);
      var edgeIndex := if edgeId > 0 then edgeId else Wrap32(-(edgeId as int));
      var edge := GetEdge(data, h, edgeIndex);
      var startVertex := GetVertex(data, h, if edgeId > 0 then edge.vertex0 else edge.vertex1);
      var endVertex := GetVertex(data, h, if edgeId > 0 then edge.vertex1 else edge.vertex0);
      edges := edges + [(startVertex, endVertex)];
    }
  }

  /**
   * Each dumped edge runs between the two endpoints of edge EdgeIndex(id), Vertex0
   * to Vertex1 for a positive id and Vertex1 to Vertex0 otherwise; its
   * start is the polygon vertex mesh building uses for that entry.
   */
  lemma DebugEdgeEndpoints(data: seq<byte>, h: Header, s: Surface, e: int)
    requires ValidHeader(h) && DebugEdgeReadable(data, h, s, e)
    ensures var edgeId := GetEdgeId(data, h, s.edgeListIndex + e);
      var edge := GetEdge(data, h, EdgeIndex(edgeId));
      var (start, end) := DebugEdgeIds(data, h, s, e);
      {start, end} == {edge.vertex0, edge.vertex1}
      && (edgeId > 0 ==> (start, end) == (edge.vertex0, edge.vertex1))
      && (edgeId <= 0 ==> (start, end) == (edge.vertex1, edge.vertex0))
      && start == WindingVertex(edge, edgeId)
    ensures PolygonVertexReadable(data, h, s, e)
    ensures PolygonVertex(data, h, s, e) == GetVertex(data, h, DebugEdgeIds(data, h, s, e).0)
  {
  }

  // ----- The map object -----

  /**
   * The map: the file bytes and header, the surface float math, the
   * texture array, and the mesh dictionary the constructor fills.
   */
  class Map {
    const data: seq<byte>
    const header: Header
    const math: SurfaceMath
    const textures: seq<QuakeTexture>
    var meshes: map<int, seq<LoaderMesh>>

    predicate Wellformed() {
      ValidHeader(header) && header.version == Version
    }

    /** The fields the constructor sets before it creates the meshes; the dictionary starts empty. */
    constructor Init(data: seq<byte>, header: Header, math: SurfaceMath, textures: seq<QuakeTexture>)
      ensures this.data == data && this.header == header && this.math == math && this.textures == textures
      ensures meshes == map[]
    {
      this.data := data;
      this.header := header;
      this.math := math;
      this.textures := textures;
      meshes := map[];
    }

    /**
     * The constructor: a header version other than 29 throws before
     * anything else is read; then the texture array is loaded and the
     * meshes are created, and the first exception of either escapes.
     */
    static method Open(data: seq<byte>, palette: QuakePalette, math: SurfaceMath) returns (r: Result<Map>)
      requires |data| >= Bsp.HeaderSize && Valid(palette)
      requires var h := ReadHeader(data);
        h.version == Version ==>
          TexturesReadable(data, h)
          && (TextureArray(data, h, palette).Success? ==>
                MeshesReadable(data, h, TextureArray(data, h, palette).value, math, QuakeMaps.LeafTotal(h)))
      ensures var h := ReadHeader(data);
        h.version != Version ==> r == Failure(UnsupportedVersion(h.version))
      ensures var h := ReadHeader(data);
        h.version == Version && TextureArray(data, h, palette).Failure? ==>
          r == Failure(TextureArray(data, h, palette).error)
      ensures var h := ReadHeader(data);
        h.version == Version && TextureArray(data, h, palette).Success? ==>
          var textures := TextureArray(data, h, palette).value;
          var outcome := MeshesOf(data, h, textures, math, QuakeMaps.LeafTotal(h));
          (r.Success? <==> outcome.Success?)
          && (r.Failure? ==> r.error == outcome.error)
          && (r.Success? ==>
                fresh(r.value) && r.value.Wellformed()
                && r.value.data == data && r.value.header == h && r.value.math == math
                && r.value.textures == textures && r.value.meshes == outcome.value)
    {
      var header := ReadHeader(data);
      if header.version != Version {
        return Failure(UnsupportedVersion(header.version));
      }
      var textures :- LoadTextures(data, header, palette);
      var m := new Map.Init(data, header, math, textures);
      var created := m.CreateMeshes();
      if created.Fail? {
        return Failure(created.error);
      }
      EmptyUnion(MeshesOf(data, header, textures, math, QuakeMaps.LeafTotal(header)).value);
      return Success(m);
    }

    /** LoadTextures: a negative count fails the allocation; else entry t is texture t decoded from the map. */
    static method LoadTextures(data: seq<byte>, header: Header, palette: QuakePalette) returns (r: Result<seq<QuakeTexture>>)
      requires ValidHeader(header) && Valid(palette) && TexturesReadable(data, header)
      ensures r == TextureArray(data, header, palette)
    {
      var textureCount := QuakeMaps.TextureCount(data, header);
      if textureCount < 0 {
        return Failure(NegativeArraySize);
      }
      // Entries not yet written hold an empty texture where C# holds null.
      ghost var expected := TextureArray(data, header, palette).value;
      var textures := new QuakeTexture[textureCount](_ => QuakeTexture([], 0, 0, []));
      for t := 0 to textureCount
        invariant forall i :: 0 <= i < t ==> textures[i] == expected[i]
      {
        StoreTexture(data, header, palette, textures, t);
      }
      assert textures[..] == expected;
      return Success(textures[..]);
    }

    /** One iteration of LoadTextures: entry t of the array is texture t, and no other entry changes. */
    static method StoreTexture(data: seq<byte>, header: Header, palette: QuakePalette, textures: array<QuakeTexture>, t: nat)
      requires ValidHeader(header) && Valid(palette) && TexturesReadable(data, header)
      requires t < textures.Length == QuakeMaps.TextureCount(data, header)
      modifies textures
      ensures TextureArray(data, header, palette).Success?
      ensures textures[t] == TextureArray(data, header, palette).value[t]
      ensures forall i :: 0 <= i < textures.Length && i != t ==> textures[i] == old(textures[i])
    {
      assert EmbeddedReadable(data, header, t);
      textures[t] := LoadTexture(data, header, palette, t);
    }

    /** Texture t of LoadTextures: the header at offsets[t], then W*H pixel bytes at Offset1 past it. */
    static method LoadTexture(data: seq<byte>, header: Header, palette: QuakePalette, t: int) returns (texture: QuakeTexture)
      requires ValidHeader(header) && Valid(palette) && EmbeddedReadable(data, header, t)
      ensures texture == EmbeddedTexture(data, header, palette, t)
    {
      var p := QuakeMaps.MiptexPos(data, header, t);
      var start := p + MipOffset(data, p, 0);
      var raw := data[start..start + MipPixelCount(data, p)];
      var r := NewQuakeTexture(MipName(data, p), MipTextureWidth(data, p), MipTextureHeight(data, p), raw, palette);
      texture := r.value;
    }

    /** The five floats of one vertex record, written at `dataIndex` and nowhere else. */
    static method WriteVertexRecord(vertexData: array<Float32>, dataIndex: nat, vertex: Vec3, textureUv: Vec2)
      requires dataIndex + VertexStride <= vertexData.Length
      modifies vertexData
      ensures forall j :: 0 <= j < vertexData.Length && !(dataIndex <= j < dataIndex + VertexStride) ==>
        vertexData[j] == old(vertexData[j])
      ensures forall k :: 0 <= k < VertexStride ==> vertexData[dataIndex + k] == VertexRecord(vertex, textureUv)[k]
    {
      vertexData[dataIndex] := vertex.x;
      vertexData[dataIndex + 1] := vertex.y;
      vertexData[dataIndex + 2] := vertex.z;
      vertexData[dataIndex + 3] := textureUv.x;
      vertexData[dataIndex + 4] := textureUv.y;
    }

    /**
     * BuildSurfaceVertexData: the 5-float records and the fan indices, or
     * the exception of its texture lookup or its index buffer; the
     * lightmap lookup it starts with does nothing.
     */
    method BuildSurfaceVertexData(vertices: seq<Vec3>, ti: TextureInfo) returns (r: Result<(seq<Float32>, seq<nat>)>)
      ensures r == VertexBuffers(math, textures, vertices, ti)
    {
      if !(0 <= ti.texId < |textures|) {
        return Failure(IndexOutOfRange);
      }
      var texture := textures[ti.texId];
      var n := |vertices|;
      if n < 2 {
        return Failure(NegativeArraySize);
      }
      ghost var expected := SurfaceVertexData(math, vertices, ti, texture);
      SurfaceVertexLayout(math, vertices, ti, texture, 0);
      var vertexData := new Float32[n * VertexStride](_ => ZeroFloat);
      for v := 0 to n
        invariant forall j :: 0 <= j < VertexStride * v ==> vertexData[j] == expected[j]
      {
        var vertex := vertices[v];
        var dataIndex := v * VertexStride;
        var textureUv := math.textureUv(vertex, ti, texture.width, texture.height);
        SurfaceVertexRecordAt(math, vertices, ti, texture, v);
        WriteVertexRecord(vertexData, dataIndex, vertex, textureUv);
        forall j | dataIndex <= j < dataIndex + VertexStride
          ensures vertexData[j] == expected[j]
        {
          var k := j - dataIndex;
          assert dataIndex == VertexStride * v;
          assert vertexData[dataIndex + k] == VertexRecord(vertex, textureUv)[k];
          assert expected[VertexStride * v + k] == VertexRecord(vertex, textureUv)[k];
        }
      }
      assert vertexData[..] == expected;
      var indices := WriteFanIndices(n);
      return Success((vertexData[..], indices));
    }

    /**
     * CreateSurfaceMesh: the texture array lookup, the plane read, the
     * polygon, then the buffers.
     */
    method CreateSurfaceMesh(surfaceId: int) returns (r: Result<LoaderMesh>)
      requires Wellformed() && SurfaceReadable(data, header, textures, surfaceId)
      ensures r == SurfaceMesh(data, header, textures, math, surfaceId)
    {
      var surface := GetSurface(data, header, surfaceId);
      var textureInfo := GetTextureInfo(data, header, surface.texinfoId);
      if !(0 <= textureInfo.texId < |textures|) {
        return Failure(IndexOutOfRange);
      }
      var texture := textures[textureInfo.texId];
      var planeType := GetPlane(data, header, surface.planeId).kind;
      var vertices := BuildPolygon(data, header, surface);
      var buffers :- BuildSurfaceVertexData(vertices, textureInfo);
      return Success(LoaderMesh(buffers.0, buffers.1, texture));
    }

    /** One iteration of the inner loop of CreateMeshes: CreateSurfaceMesh on the surface in slot sIndex. */
    method CreateSlotMesh(leaf: Leaf, sIndex: int) returns (r: Result<LoaderMesh>)
      requires Wellformed() && sIndex >= leaf.surfaceListIndex
      requires SlotReadable(data, header, textures, leaf, sIndex - leaf.surfaceListIndex)
      ensures r == SlotMesh(data, header, textures, math, leaf, sIndex - leaf.surfaceListIndex)
    {
      r := CreateSurfaceMesh(GetSurfaceId(data, header, sIndex));
    }

    /**
     * One iteration of the inner loop, on slot k: the meshes of slots 0 .. k,
     * or the exception of slot k.
     */
    method CreateNextSlot(leaf: Leaf, sIndex: int, leafMeshes: seq<LoaderMesh>, ghost ready: nat -> bool,
                          ghost step: nat --> Result<LoaderMesh>, ghost k: nat)
      returns (r: Result<seq<LoaderMesh>>)
      requires Wellformed() && sIndex == leaf.surfaceListIndex + k
      requires Reached(ready, step, k + 1) && Run(ready, step, k) == Success(leafMeshes)
      requires SlotStepsAgree(data, header, textures, math, leaf, ready, step)
      ensures r == Run(ready, step, k + 1)
    {
      RunStep(ready, step, k);
      var mesh := CreateSlotMesh(leaf, sIndex);
      if mesh.Failure? {
        return Failure(mesh.error);
      }
      return Success(leafMeshes + [mesh.value]);
    }

    /**
     * The inner loop of CreateMeshes over one leaf's surface-list slots,
     * proved against any step that agrees with CreateSurfaceMesh on the
     * slots it is ready for. The cursor is a short; the range precondition
     * is what keeps its increment from wrapping.
     */
    method CreateLeafMeshes(leaf: Leaf, ghost ready: nat -> bool, ghost step: nat --> Result<LoaderMesh>)
      returns (r: Result<seq<LoaderMesh>>)
      requires Wellformed() && QuakeMaps.LeafRangeValid(leaf) && Reached(ready, step, QuakeMaps.SlotCount(leaf))
      requires SlotStepsAgree(data, header, textures, math, leaf, ready, step)
      ensures r == Run(ready, step, QuakeMaps.SlotCount(leaf))
    {
      ghost var count := QuakeMaps.SlotCount(leaf);
      var leafMeshes: seq<LoaderMesh> := [];
      var sIndex: int := leaf.surfaceListIndex;
      ghost var k: nat := 0;
      while sIndex < leaf.surfaceListIndex + leaf.surfaceCount
        invariant sIndex == leaf.surfaceListIndex + k && k <= count
        invariant Reached(ready, step, k) && Run(ready, step, k) == Success(leafMeshes)
        decreases count - k
      {
        ReachedPrefix(ready, step, k + 1, count);
        var next := CreateNextSlot(leaf, sIndex, leafMeshes, ready, step, k);
        if next.Failure? {
          RunStops(ready, step, k + 1, count);
          return next;
        }
        leafMeshes := next.value;
        sIndex := sIndex + 1;
        k := k + 1;
      }
      assert k == count;
      return Success(leafMeshes);
    }

    /** One iteration of CreateMeshes: the meshes of leaf l over all its slots. */
    method CreateLeaf(l: nat) returns (r: Result<seq<LoaderMesh>>)
      requires Wellformed() && LeafEntryReadable(data, header, textures, math, l)
      ensures r == LeafEntryMeshes(data, header, textures, math, l)
    {
      var leaf := GetLeaf(data, header, l);
      SlotSteps(data, header, textures, math, leaf);
      r := CreateLeafMeshes(leaf, SlotReady(data, header, textures, leaf), SlotStep(data, header, textures, math, leaf));
    }

    /**
     * The loop of CreateMeshes, proved against any step that agrees with
     * the leaf loop on the leaves it is ready for.
     */
    method CreateLeaves(ghost ready: nat -> bool, ghost step: nat --> Result<seq<LoaderMesh>>)
      returns (r: Result<map<int, seq<LoaderMesh>>>)
      requires Wellformed() && Reached(ready, step, QuakeMaps.LeafTotal(header))
      requires forall l :: ready(l) ==> (LeafEntryReadable(data, header, textures, math, l) && step.requires(l)
                                        && step(l) == LeafEntryMeshes(data, header, textures, math, l))
      ensures r.Success? <==> Run(ready, step, QuakeMaps.LeafTotal(header)).Success?
      ensures r.Failure? ==> r.error == Run(ready, step, QuakeMaps.LeafTotal(header)).error
      ensures r.Success? ==> r.value == IndexMap(Run(ready, step, QuakeMaps.LeafTotal(header)).value)
    {
      ghost var total := QuakeMaps.LeafTotal(header);
      var created: map<int, seq<LoaderMesh>> := map[];
      var leafCount := LeafCount(header);
      var l := 0;
      while l < leafCount
        invariant 0 <= l <= total
        invariant Reached(ready, step, l) && Run(ready, step, l).Success?
        invariant created == IndexMap(Run(ready, step, l).value)
      {
        ReachedPrefix(ready, step, l + 1, total);
        RunStep(ready, step, l);
        var leafMeshes := CreateLeaf(l);
        if leafMeshes.Failure? {
          RunStops(ready, step, l + 1, total);
          return Failure(leafMeshes.error);
        }
        IndexMapAppend(Run(ready, step, l).value, leafMeshes.value);
        created := created[l := leafMeshes.value];
        l := l + 1;
      }
      assert l == total;
      return Success(created);
    }

    /**
     * CreateMeshes: each leaf below LeafCount gets the entry holding one
     * mesh per surface-list slot; the first exception of a surface escapes.
     */
    method CreateMeshes() returns (o: Outcome)
      requires Wellformed() && MeshesReadable(data, header, textures, math, QuakeMaps.LeafTotal(header))
      modifies this
      ensures o.Pass? <==> MeshesOf(data, header, textures, math, QuakeMaps.LeafTotal(header)).Success?
      ensures o.Fail? ==> o.error == MeshesOf(data, header, textures, math, QuakeMaps.LeafTotal(header)).error
      ensures o.Pass? ==> meshes == old(meshes) + MeshesOf(data, header, textures, math, QuakeMaps.LeafTotal(header)).value
    {
      LeafSteps(data, header, textures, math);
      var created := CreateLeaves(LeafReady(data, header, textures, math), LeafStep(data, header, textures, math));
      if created.Failure? {
        return Fail(created.error);
      }
      meshes := meshes + created.value;
      return Pass;
    }
  }
}
