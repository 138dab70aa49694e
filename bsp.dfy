/**
 * The BSP29/BSP30 file layout shared by both map revisions
 * (nb3D/Map/QuakeMap.cs and nb3D/QuakeMapLoader.cs declare the same
 * structs): the 124-byte header of 15 lumps, the fixed-stride records, the
 * record counts, and the two index lists.
 */
module Bsp {
  import opened Common
  import opened Bytes

  // ----- Header -----

  /** The version word, then 15 lumps of (offset, size). */
  const HeaderSize: nat := 124
  const LumpCount: nat := 15

  // Lump positions in header order.
  const EntitiesLump: nat := 0
  const PlanesLump: nat := 1
  const MiptexLump: nat := 2
  const VerticesLump: nat := 3
  const VisilistLump: nat := 4
  const NodesLump: nat := 5
  const TexinfoLump: nat := 6
  const SurfacesLump: nat := 7
  const LightmapsLump: nat := 8
  const BoundNodesLump: nat := 9
  const LeavesLump: nat := 10
  const SurfaceListLump: nat := 11
  const EdgesLump: nat := 12
  const EdgeListLump: nat := 13
  const HullsLump: nat := 14

  // Record strides: the sizes of the sequential C# structs.
  const PlaneSize: nat := 20
  const NodeSize: nat := 24
  const LeafSize: nat := 28
  const SurfaceSize: nat := 20
  const EdgeSize: nat := 4
  const VertexSize: nat := 12
  const TextureInfoSize: nat := 40
  const HullSize: nat := 64

  datatype Lump = Lump(offset: i32, size: i32)
  datatype Header = Header(version: i32, lumps: seq<Lump>)

  predicate ValidHeader(h: Header) {
    |h.lumps| == LumpCount
  }

  /** Lump k is the pair of int32 at 4 + 8k and 8 + 8k. */
  function LumpAt(data: seq<byte>, k: nat): Lump
    requires |data| >= HeaderSize && k < LumpCount
  {
    Lump(I32At(data, 4 + 8 * k), I32At(data, 8 + 8 * k))
  }

  /** The header the constructor copies out of the file's first 124 bytes. */
  function ReadHeader(data: seq<byte>): (h: Header)
    requires |data| >= HeaderSize
    ensures ValidHeader(h)
    ensures h.version == I32At(data, 0)
  {
    Header(I32At(data, 0), seq(LumpCount, k requires 0 <= k < LumpCount => LumpAt(data, k)))
  }

  /** Every lump field is decoded from its own eight bytes of the header. */
  lemma ReadHeaderLumps(data: seq<byte>, k: nat)
    requires |data| >= HeaderSize && k < LumpCount
    ensures ReadHeader(data).lumps[k].offset == I32At(data, 4 + 8 * k)
    ensures ReadHeader(data).lumps[k].size == I32At(data, 8 + 8 * k)
    ensures 8 + 8 * k + 4 <= HeaderSize
  {
  }

  // ----- Counts -----

  /**
   * C# integer division of a lump size by a record stride: it truncates
   * toward zero, so a size that is not a multiple of the stride loses its
   * tail, and a negative size gives a count <= 0.
   */
  function Count(size: int, stride: nat): (r: int)
    requires stride > 0
    ensures size >= 0 ==> r >= 0
    ensures size < 0 ==> r <= 0
  {
    if size >= 0 then size / stride else -((-size) / stride)
  }

  /** Count truncates toward zero: the counted records never overrun the size, and one more record would. */
  lemma CountTruncates(size: int, stride: nat)
    requires stride > 0
    ensures var r := Count(size, stride);
      size >= 0 ==> r * stride <= size < (r + 1) * stride
    ensures var r := Count(size, stride);
      size < 0 ==> (r - 1) * stride < size <= r * stride
  {
    if size >= 0 {
      DivBounds(size, stride);
    } else {
      DivBounds(-size, stride);
    }
  }

  /** The quotient brackets the dividend, also with both sides negated. */
  lemma DivBounds(a: nat, m: nat)
    requires m > 0
    ensures (a / m) * m <= a < (a / m + 1) * m
    ensures (-(a / m)) * m == -((a / m) * m) && (-(a / m) - 1) * m == -((a / m + 1) * m)
  {
    var q, r := a / m, a % m;
    assert a == q * m + r;
    assert (q + 1) * m == q * m + m;
    assert (-q - 1) * m == -q * m - m;
  }

  function LumpRecords(h: Header, lump: nat, stride: nat): int
    requires ValidHeader(h) && lump < LumpCount && stride > 0
  {
    Count(h.lumps[lump].size, stride)
  }

  function PlaneCount(h: Header): int requires ValidHeader(h) { LumpRecords(h, PlanesLump, PlaneSize) }
  function NodeCount(h: Header): int requires ValidHeader(h) { LumpRecords(h, NodesLump, NodeSize) }
  function LeafCount(h: Header): int requires ValidHeader(h) { LumpRecords(h, LeavesLump, LeafSize) }
  function SurfaceCount(h: Header): int requires ValidHeader(h) { LumpRecords(h, SurfacesLump, SurfaceSize) }
  function HullCount(h: Header): int requires ValidHeader(h) { LumpRecords(h, HullsLump, HullSize) }
  function TextureInfoCount(h: Header): int requires ValidHeader(h) { LumpRecords(h, TexinfoLump, TextureInfoSize) }

  /** As written, the lightmap lump size is divided by the texture-info stride. */
  function LightMapCount(h: Header): int requires ValidHeader(h) { LumpRecords(h, LightmapsLump, TextureInfoSize) }

  /** The counted records of a lump of non-negative size all lie inside the lump. */
  lemma CountedRecordsInLump(h: Header, lump: nat, stride: nat, id: int)
    requires ValidHeader(h) && lump < LumpCount && stride > 0
    requires h.lumps[lump].size >= 0 && 0 <= id < LumpRecords(h, lump, stride)
    ensures 0 <= id * stride && id * stride + stride <= h.lumps[lump].size
  {
    var r := LumpRecords(h, lump, stride);
    CountTruncates(h.lumps[lump].size, stride);
    assert id + 1 <= r;
    assert (id + 1) * stride <= r * stride by {
      MulMonotone(id + 1, r, stride);
    }
  }

  lemma MulMonotone(a: int, b: int, c: nat)
    requires a <= b
    ensures a * c <= b * c
  {
  }

  // ----- Records -----

  /**
   * Record `id` of a lump is read at the lump offset plus id * stride,
   * without a bounds check. GetEntry computes the offset in `int`, so it
   * wraps around at 32 bits.
   */
  function RecordPos(h: Header, lump: nat, id: int, stride: nat): int
    requires ValidHeader(h) && lump < LumpCount
  {
    Wrap32(h.lumps[lump].offset + id * stride)
  }

  predicate RecordInBuffer(data: seq<byte>, h: Header, lump: nat, id: int, stride: nat)
    requires ValidHeader(h) && lump < LumpCount
  {
    InBuffer(data, RecordPos(h, lump, id, stride), stride)
  }

  datatype Plane = Plane(normal: Vec3, dist: Float32, kind: i32)
  datatype Node = Node(planeId: i32, front: i16, back: i16, surfaceId: u16, surfaceCount: u16)
  datatype Leaf = Leaf(kind: i32, visList: i32, surfaceListIndex: i16, surfaceCount: i16)
  datatype Hull = Hull(nodeId0: i32, nodeId1: i32, nodeId2: i32, nodeId3: i32,
                       visLeafCount: i32, surfaceListIndex: i32, surfaceCount: i32)
  datatype Surface = Surface(planeId: u16, side: u16, edgeListIndex: i32, edgeCount: u16,
                             texinfoId: u16, lightmapOffset: i32)
  datatype Edge = Edge(vertex0: u16, vertex1: u16)
  datatype TextureInfo = TextureInfo(snrm: Vec3, soff: Float32, tnrm: Vec3, toff: Float32, texId: i32, flag: i32)

  function PlaneAt(data: seq<byte>, pos: int): Plane
    requires InBuffer(data, pos, PlaneSize)
  {
    Plane(Vec3At(data, pos), FloatAt(data, pos + 12), I32At(data, pos + 16))
  }

  /** The bounding box at 8..20 is not decoded. */
  function NodeAt(data: seq<byte>, pos: int): Node
    requires InBuffer(data, pos, NodeSize)
  {
    Node(I32At(data, pos), I16At(data, pos + 4), I16At(data, pos + 6), U16At(data, pos + 20), U16At(data, pos + 22))
  }

  /** The bounding box at 8..20 and the four ambient sound bytes at 24..28 are not decoded. */
  function LeafAt(data: seq<byte>, pos: int): Leaf
    requires InBuffer(data, pos, LeafSize)
  {
    Leaf(I32At(data, pos), I32At(data, pos + 4), I16At(data, pos + 20), I16At(data, pos + 22))
  }

  /** The float bounding box and origin at 0..36 are not decoded. */
  function HullAt(data: seq<byte>, pos: int): Hull
    requires InBuffer(data, pos, HullSize)
  {
    Hull(I32At(data, pos + 36), I32At(data, pos + 40), I32At(data, pos + 44), I32At(data, pos + 48),
         I32At(data, pos + 52), I32At(data, pos + 56), I32At(data, pos + 60))
  }

  /** The four light-style bytes at 12..16 are not decoded. */
  function SurfaceAt(data: seq<byte>, pos: int): Surface
    requires InBuffer(data, pos, SurfaceSize)
  {
    Surface(U16At(data, pos), U16At(data, pos + 2), I32At(data, pos + 4), U16At(data, pos + 8),
            U16At(data, pos + 10), I32At(data, pos + 16))
  }

  function EdgeAt(data: seq<byte>, pos: int): Edge
    requires InBuffer(data, pos, EdgeSize)
  {
    Edge(U16At(data, pos), U16At(data, pos + 2))
  }

  function VertexAt(data: seq<byte>, pos: int): Vec3
    requires InBuffer(data, pos, VertexSize)
  {
    Vec3At(data, pos)
  }

  function TextureInfoAt(data: seq<byte>, pos: int): TextureInfo
    requires InBuffer(data, pos, TextureInfoSize)
  {
    TextureInfo(Vec3At(data, pos), FloatAt(data, pos + 12), Vec3At(data, pos + 16), FloatAt(data, pos + 28),
                I32At(data, pos + 32), I32At(data, pos + 36))
  }

  // The GetEntry accessors of both revisions.

  function GetPlane(data: seq<byte>, h: Header, id: int): Plane
    requires ValidHeader(h) && RecordInBuffer(data, h, PlanesLump, id, PlaneSize)
  {
    PlaneAt(data, RecordPos(h, PlanesLump, id, PlaneSize))
  }

  function GetNode(data: seq<byte>, h: Header, id: int): Node
    requires ValidHeader(h) && RecordInBuffer(data, h, NodesLump, id, NodeSize)
  {
    NodeAt(data, RecordPos(h, NodesLump, id, NodeSize))
  }

  function GetLeaf(data: seq<byte>, h: Header, id: int): Leaf
    requires ValidHeader(h) && RecordInBuffer(data, h, LeavesLump, id, LeafSize)
  {
    LeafAt(data, RecordPos(h, LeavesLump, id, LeafSize))
  }

  function GetHull(data: seq<byte>, h: Header, id: int): Hull
    requires ValidHeader(h) && RecordInBuffer(data, h, HullsLump, id, HullSize)
  {
    HullAt(data, RecordPos(h, HullsLump, id, HullSize))
  }

  function GetSurface(data: seq<byte>, h: Header, id: int): Surface
    requires ValidHeader(h) && RecordInBuffer(data, h, SurfacesLump, id, SurfaceSize)
  {
    SurfaceAt(data, RecordPos(h, SurfacesLump, id, SurfaceSize))
  }

  function GetEdge(data: seq<byte>, h: Header, id: int): Edge
    requires ValidHeader(h) && RecordInBuffer(data, h, EdgesLump, id, EdgeSize)
  {
    EdgeAt(data, RecordPos(h, EdgesLump, id, EdgeSize))
  }

  function GetVertex(data: seq<byte>, h: Header, id: int): Vec3
    requires ValidHeader(h) && RecordInBuffer(data, h, VerticesLump, id, VertexSize)
  {
    VertexAt(data, RecordPos(h, VerticesLump, id, VertexSize))
  }

  function GetTextureInfo(data: seq<byte>, h: Header, id: int): TextureInfo
    requires ValidHeader(h) && RecordInBuffer(data, h, TexinfoLump, id, TextureInfoSize)
  {
    TextureInfoAt(data, RecordPos(h, TexinfoLump, id, TextureInfoSize))
  }

  // ----- Index lists -----

  /** Surface-list entry i: an unsigned 16-bit surface id at SurfaceList.Offset + 2i. */
  predicate SurfaceIdInBuffer(data: seq<byte>, h: Header, listIndex: int)
    requires ValidHeader(h)
  {
    InBuffer(data, h.lumps[SurfaceListLump].offset + 2 * listIndex, 2)
  }

  function GetSurfaceId(data: seq<byte>, h: Header, listIndex: int): (id: u16)
    requires ValidHeader(h) && SurfaceIdInBuffer(data, h, listIndex)
  {
    U16At(data, h.lumps[SurfaceListLump].offset + 2 * listIndex)
  }

  /** Edge-list entry i: a signed 32-bit edge id at EdgeList.Offset + 4i; its sign is the winding. */
  predicate EdgeIdInBuffer(data: seq<byte>, h: Header, listIndex: int)
    requires ValidHeader(h)
  {
    InBuffer(data, h.lumps[EdgeListLump].offset + 4 * listIndex, 4)
  }

  function GetEdgeId(data: seq<byte>, h: Header, listIndex: int): (id: i32)
    requires ValidHeader(h) && EdgeIdInBuffer(data, h, listIndex)
  {
    I32At(data, h.lumps[EdgeListLump].offset + 4 * listIndex)
  }

  /**
   * An edge-list entry is negative (the reversed winding) exactly when the
   * top bit of its last byte is set.
   */
  lemma EdgeIdLayout(data: seq<byte>, h: Header, listIndex: int)
    requires ValidHeader(h) && EdgeIdInBuffer(data, h, listIndex)
    ensures var off := h.lumps[EdgeListLump].offset + 4 * listIndex;
      GetEdgeId(data, h, listIndex) < 0 <==> data[off + 3] >= 0x80
  {
  }

  // ----- Layout properties -----

  /** A record is decoded from exactly its own bytes: the same bytes anywhere give the same record. */
  lemma NodeRecordLocal(data: seq<byte>, h: Header, id: int)
    requires ValidHeader(h) && RecordInBuffer(data, h, NodesLump, id, NodeSize)
    ensures var pos := RecordPos(h, NodesLump, id, NodeSize);
      GetNode(data, h, id) == NodeAt(data[pos..pos + NodeSize], 0)
  {
  }

  lemma SurfaceRecordLocal(data: seq<byte>, h: Header, id: int)
    requires ValidHeader(h) && RecordInBuffer(data, h, SurfacesLump, id, SurfaceSize)
    ensures var pos := RecordPos(h, SurfacesLump, id, SurfaceSize);
      GetSurface(data, h, id) == SurfaceAt(data[pos..pos + SurfaceSize], 0)
  {
  }

  lemma LeafRecordLocal(data: seq<byte>, h: Header, id: int)
    requires ValidHeader(h) && RecordInBuffer(data, h, LeavesLump, id, LeafSize)
    ensures var pos := RecordPos(h, LeavesLump, id, LeafSize);
      GetLeaf(data, h, id) == LeafAt(data[pos..pos + LeafSize], 0)
  {
  }

  /**
   * In a lump that starts at a non-negative offset and ends below 2^31, the
   * counted records are read without wrap-around, each lies inside the
   * lump, and two distinct ids read disjoint byte ranges.
   */
  lemma CountedRecordsDisjoint(h: Header, lump: nat, stride: nat, i: int, j: int)
    requires ValidHeader(h) && lump < LumpCount && stride > 0
    requires h.lumps[lump].offset >= 0 && h.lumps[lump].size >= 0
    requires h.lumps[lump].offset + h.lumps[lump].size < 0x8000_0000
    requires 0 <= i < LumpRecords(h, lump, stride) && 0 <= j < LumpRecords(h, lump, stride) && i != j
    ensures var range := h.lumps[lump];
      range.offset <= RecordPos(h, lump, i, stride) && RecordPos(h, lump, i, stride) + stride <= range.offset + range.size
    ensures RecordPos(h, lump, i, stride) + stride <= RecordPos(h, lump, j, stride)
         || RecordPos(h, lump, j, stride) + stride <= RecordPos(h, lump, i, stride)
  {
    CountedRecordsInLump(h, lump, stride, i);
    CountedRecordsInLump(h, lump, stride, j);
    if i < j {
      MulMonotone(i + 1, j, stride);
    } else {
      MulMonotone(j + 1, i, stride);
    }
  }
}
