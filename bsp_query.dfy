/**
 * The tree queries and surface geometry that both map revisions implement
 * with the same code: the point-to-leaf descent, the first leaf of a hull,
 * the polygon of a surface, and its fan triangulation.
 */
module BspQuery {
  import opened Common
  import opened Bytes
  import opened Bsp

  // ----- Point-to-leaf descent (TryFindLeafAt) -----

  /**
   * The child taken at a node: front when the point lies on or in front of
   * the node's plane, back otherwise. `inFront(plane)` stands for the float
   * test `dot(normal, position) - dist >= 0` for the fixed query position.
   */
  function NextChild(node: Node, front: bool): i16 {
    if front then node.front else node.back
  }

  /** A negative child n encodes leaf -(n+1), that is ~n. */
  function LeafOfChild(child: i16): (leaf: nat)
    requires child < 0
    ensures leaf < 0x8000
    ensures child == -(leaf as int) - 1
  {
    -(child + 1)
  }

  /** The node and the plane it names lie inside the buffer. */
  predicate NodeReadable(data: seq<byte>, h: Header, id: int)
    requires ValidHeader(h)
  {
    RecordInBuffer(data, h, NodesLump, id, NodeSize)
    && RecordInBuffer(data, h, PlanesLump, GetNode(data, h, id).planeId, PlaneSize)
  }

  function ChildOf(data: seq<byte>, h: Header, inFront: Plane -> bool, id: int): i16
    requires ValidHeader(h) && NodeReadable(data, h, id)
  {
    var node := GetNode(data, h, id);
    NextChild(node, inFront(GetPlane(data, h, node.planeId)))
  }

  /**
   * The descent from node `id` reaches a leaf within `fuel` nodes, and every
   * node and plane on the way lies inside the buffer. The source loops
   * forever on a cyclic tree; a finite `fuel` is the assumption that it
   * does not.
   */
  predicate Reaches(data: seq<byte>, h: Header, inFront: Plane -> bool, id: int, fuel: nat)
    requires ValidHeader(h)
    decreases fuel
  {
    fuel > 0 && NodeReadable(data, h, id)
    && (ChildOf(data, h, inFront, id) >= 0 ==> Reaches(data, h, inFront, ChildOf(data, h, inFront, id), fuel - 1))
  }

  /** The leaf the descent from node `id` stops at. */
  function LeafReached(data: seq<byte>, h: Header, inFront: Plane -> bool, id: int, fuel: nat): (leaf: int)
    requires ValidHeader(h) && Reaches(data, h, inFront, id, fuel)
    ensures 0 <= leaf < 0x8000
    decreases fuel
  {
    var next := ChildOf(data, h, inFront, id);
    if next >= 0 then LeafReached(data, h, inFront, next, fuel - 1) else LeafOfChild(next)
  }

  /** More fuel never hurts: a descent that ends within f1 nodes ends within any f2 >= f1. */
  lemma {:induction false} ReachesMonotone(data: seq<byte>, h: Header, inFront: Plane -> bool, id: int, f1: nat, f2: nat)
    requires ValidHeader(h) && Reaches(data, h, inFront, id, f1) && f1 <= f2
    ensures Reaches(data, h, inFront, id, f2)
    ensures LeafReached(data, h, inFront, id, f2) == LeafReached(data, h, inFront, id, f1)
    decreases f1
  {
    var next := ChildOf(data, h, inFront, id);
    if next >= 0 {
      ReachesMonotone(data, h, inFront, next, f1 - 1, f2 - 1);
    }
  }

  /** The leaf found does not depend on the fuel bound, only on the tree and the point. */
  lemma LeafReachedFuelIndependent(data: seq<byte>, h: Header, inFront: Plane -> bool, id: int, f1: nat, f2: nat)
    requires ValidHeader(h) && Reaches(data, h, inFront, id, f1) && Reaches(data, h, inFront, id, f2)
    ensures LeafReached(data, h, inFront, id, f1) == LeafReached(data, h, inFront, id, f2)
  {
    if f1 <= f2 {
      ReachesMonotone(data, h, inFront, id, f1, f2);
    } else {
      ReachesMonotone(data, h, inFront, id, f2, f1);
    }
  }

  /**
   * One step of the descent, as an unfolding of LeafReached by one node: a
   * non-negative child continues there, a negative child n stops at leaf
   * -(n+1).
   */
  lemma DescentStep(data: seq<byte>, h: Header, inFront: Plane -> bool, id: int, fuel: nat)
    requires ValidHeader(h) && Reaches(data, h, inFront, id, fuel)
    ensures var node := GetNode(data, h, id);
      var next := if inFront(GetPlane(data, h, node.planeId)) then node.front else node.back;
      LeafReached(data, h, inFront, id, fuel) ==
        (if next >= 0 then LeafReached(data, h, inFront, next, fuel - 1) else -(next + 1))
  {
  }

  /**
   * TryFindLeafAt: start at the hull's first node and follow children until
   * a negative one; the result flag is always true.
   */
  method TryFindLeafAt(data: seq<byte>, h: Header, inFront: Plane -> bool, hullId: int, ghost fuel: nat)
    returns (found: bool, leafId: int)
    requires ValidHeader(h) && RecordInBuffer(data, h, HullsLump, hullId, HullSize)
    requires Reaches(data, h, inFront, GetHull(data, h, hullId).nodeId0, fuel)
    ensures found
    ensures 0 <= leafId < 0x8000
    ensures leafId == LeafReached(data, h, inFront, GetHull(data, h, hullId).nodeId0, fuel)
  {
    ghost var root := GetHull(data, h, hullId).nodeId0;
    ghost var id := root;
    ghost var f := fuel;
    var currentNode := GetNode(data, h, GetHull(data, h, hullId).nodeId0);
    found := false;
    leafId := -1;
    while !found
      invariant !found ==>
        (Reaches(data, h, inFront, id, f) && currentNode == GetNode(data, h, id)
         && LeafReached(data, h, inFront, id, f) == LeafReached(data, h, inFront, root, fuel))
      invariant found ==> leafId == LeafReached(data, h, inFront, root, fuel)
      decreases if found then 0 else f
    {
      var plane := GetPlane(data, h, currentNode.planeId);
      var nextNodeId := if inFront(plane) then currentNode.front else currentNode.back;
      if nextNodeId >= 0 {
        currentNode := GetNode(data, h, nextNodeId);
        id, f := nextNodeId, f - 1;
      } else {
        leafId := -(nextNodeId + 1);
        found := true;
      }
    }
  }

  // ----- First leaf of a hull (GetHullFirstLeafId) -----

  function Sum(s: seq<int>): int {
    if |s| == 0 then 0 else s[0] + Sum(s[1..])
  }

  lemma {:induction false} SumAppend(s: seq<int>, x: int)
    ensures Sum(s + [x]) == Sum(s) + x
  {
    if |s| > 0 {
      assert (s + [x])[1..] == s[1..] + [x];
      SumAppend(s[1..], x);
    }
  }

  predicate HullsReadable(data: seq<byte>, h: Header, n: int)
    requires ValidHeader(h)
  {
    forall k :: 0 <= k < n ==> RecordInBuffer(data, h, HullsLump, k, HullSize)
  }

  /** The VisLeafCount of hulls 0 .. n-1. */
  function VisLeafCounts(data: seq<byte>, h: Header, n: nat): (counts: seq<int>)
    requires ValidHeader(h) && HullsReadable(data, h, n)
    ensures |counts| == n
  {
    seq(n, k requires 0 <= k < n => GetHull(data, h, k).visLeafCount)
  }

  /**
   * The first leaf of hull `hullId`: the leaves of all earlier hulls come
   * before it. The source sums in `int`, so the sum wraps around at 32 bits.
   */
  function FirstLeafId(data: seq<byte>, h: Header, hullId: int): i32
    requires ValidHeader(h) && HullsReadable(data, h, hullId)
  {
    if hullId <= 0 then 0 else Wrap32(Sum(VisLeafCounts(data, h, hullId)))
  }

  /**
   * Hull 0 starts at leaf 0, and hull k+1 starts VisLeafCount(k) leaves
   * after hull k, in 32-bit arithmetic.
   */
  lemma FirstLeafIdStep(data: seq<byte>, h: Header, k: nat)
    requires ValidHeader(h) && HullsReadable(data, h, k + 1)
    ensures FirstLeafId(data, h, 0) == 0
    ensures FirstLeafId(data, h, k + 1) == Wrap32(FirstLeafId(data, h, k) + GetHull(data, h, k).visLeafCount)
  {
    var counts := VisLeafCounts(data, h, k);
    var c := GetHull(data, h, k).visLeafCount;
    assert VisLeafCounts(data, h, k + 1) == counts + [c];
    SumAppend(counts, c);
    if k > 0 {
      Wrap32Add(Sum(counts), c);
    } else {
      assert counts == [];
    }
  }

  /** When the earlier hulls' counts add up to an int, the first leaf is their exact sum. */
  lemma FirstLeafIdExact(data: seq<byte>, h: Header, hullId: nat)
    requires ValidHeader(h) && HullsReadable(data, h, hullId)
    requires -0x8000_0000 <= Sum(VisLeafCounts(data, h, hullId)) < 0x8000_0000
    ensures FirstLeafId(data, h, hullId) == Sum(VisLeafCounts(data, h, hullId))
  {
    if hullId == 0 {
      assert VisLeafCounts(data, h, 0) == [];
    }
  }

  /** GetHullFirstLeafId: the running `int` sum of VisLeafCount over hulls 0 .. hullId-1. */
  method GetHullFirstLeafId(data: seq<byte>, h: Header, hullId: int) returns (leafId: i32)
    requires ValidHeader(h) && HullsReadable(data, h, hullId)
    ensures leafId == FirstLeafId(data, h, hullId)
  {
    leafId := 0;
    var k := 0;
    while k < hullId
      invariant 0 <= k <= (if hullId > 0 then hullId else 0)
      invariant HullsReadable(data, h, k)
      invariant leafId == FirstLeafId(data, h, k)
    {
      assert HullsReadable(data, h, k + 1);
      FirstLeafIdStep(data, h, k);
      leafId := Wrap32(leafId + GetHull(data, h, k).visLeafCount);
      k := k + 1;
    }
  }

  // ----- Surface polygon -----

  /**
   * The edge an edge-list entry names: `edgeId > 0 ? edgeId : -edgeId` in
   * `int`, so |id|, except that the negation of int.MinValue wraps to itself.
   */
  function EdgeIndex(edgeId: i32): (index: i32)
    ensures edgeId > -0x8000_0000 ==> index == (if edgeId > 0 then edgeId else -edgeId)
  {
    if edgeId > 0 then edgeId else Wrap32(-(edgeId as int))
  }

  /**
   * Entry int.MinValue names edge int.MinValue, whose record offset
   * id * 4 wraps to 0: it is read as edge 0.
   */
  lemma MinEdgeIdReadsEdgeZero(h: Header)
    requires ValidHeader(h)
    ensures EdgeIndex(-0x8000_0000) == -0x8000_0000
    ensures RecordPos(h, EdgesLump, EdgeIndex(-0x8000_0000), EdgeSize) == RecordPos(h, EdgesLump, 0, EdgeSize)
  {
    var off: int := h.lumps[EdgesLump].offset;
    assert Wrap32(0x8000_0000) == -0x8000_0000;
    assert off + (-0x8000_0000) * 4 == off - 2 * 0x1_0000_0000;
    assert (off - 2 * 0x1_0000_0000) % 0x1_0000_0000 == off % 0x1_0000_0000;
  }

  /** The vertex an edge-list entry contributes: Vertex0 for a positive id, Vertex1 otherwise (zero included). */
  function WindingVertex(edge: Edge, edgeId: int): u16 {
    if edgeId > 0 then edge.vertex0 else edge.vertex1
  }

  /** Everything read for polygon vertex e of surface s lies inside the buffer. */
  predicate PolygonVertexReadable(data: seq<byte>, h: Header, s: Surface, e: int)
    requires ValidHeader(h)
  {
    EdgeIdInBuffer(data, h, s.edgeListIndex + e)
    && var edgeId := GetEdgeId(data, h, s.edgeListIndex + e);
    RecordInBuffer(data, h, EdgesLump, EdgeIndex(edgeId), EdgeSize)
    && RecordInBuffer(data, h, VerticesLump, WindingVertex(GetEdge(data, h, EdgeIndex(edgeId)), edgeId), VertexSize)
  }

  predicate PolygonReadable(data: seq<byte>, h: Header, s: Surface)
    requires ValidHeader(h)
  {
    forall e :: 0 <= e < s.edgeCount ==> PolygonVertexReadable(data, h, s, e)
  }

  /** Polygon vertex e: the winding vertex of edge-list entry EdgeListIndex + e. */
  function PolygonVertex(data: seq<byte>, h: Header, s: Surface, e: int): Vec3
    requires ValidHeader(h) && PolygonVertexReadable(data, h, s, e)
  {
    var edgeId := GetEdgeId(data, h, s.edgeListIndex + e);
    GetVertex(data, h, WindingVertex(GetEdge(data, h, EdgeIndex(edgeId)), edgeId))
  }

  function Polygon(data: seq<byte>, h: Header, s: Surface): (vertices: seq<Vec3>)
    requires ValidHeader(h) && PolygonReadable(data, h, s)
    ensures |vertices| == s.edgeCount
  {
    seq(s.edgeCount, e requires 0 <= e < s.edgeCount => PolygonVertex(data, h, s, e))
  }

  /**
   * The vertex loop of surface-mesh creation: one vertex per edge-list
   * entry, in list order.
   */
  method BuildPolygon(data: seq<byte>, h: Header, s: Surface) returns (vertices: seq<Vec3>)
    requires ValidHeader(h) && PolygonReadable(data, h, s)
    ensures vertices == Polygon(data, h, s)
  {
    var result := new Vec3[s.edgeCount](_ => Vec3(ZeroFloat, ZeroFloat, ZeroFloat));
    for e := 0 to s.edgeCount
      invariant forall k :: 0 <= k < e ==> result[k] == PolygonVertex(data, h, s, k)
    {
      assert PolygonVertexReadable(data, h, s, e);
      var vertex := ReadPolygonVertex(data, h, s, e);
      result[e] := vertex;
    }
    vertices := result[..];
  }

  /** One pass of the vertex loop: the winding vertex of edge-list entry EdgeListIndex + e. */
  method ReadPolygonVertex(data: seq<byte>, h: Header, s: Surface, e: int) returns (vertex: Vec3)
    requires ValidHeader(h) && PolygonVertexReadable(data, h, s, e)
    ensures vertex == PolygonVertex(data, h, s, e)
  {
    var edgeListIndex := s.edgeListIndex + e;
    var edgeId := GetEdgeId(data, h, edgeListIndex);
    var edgeIndex := if edgeId > 0 then edgeId else Wrap32(-(edgeId as int));
    var edge := GetEdge(data, h, edgeIndex);
    vertex := GetVertex(data, h, if edgeId > 0 then edge.vertex0 else edge.vertex1);
  }

  /**
   * A surface polygon has EdgeCount vertices; vertex e is Vertex0 of edge
   * EdgeIndex(id) for a positive edge-list id, and Vertex1 otherwise, id 0
   * included.
   */
  lemma PolygonWinding(data: seq<byte>, h: Header, s: Surface, e: int)
    requires ValidHeader(h) && PolygonReadable(data, h, s) && 0 <= e < s.edgeCount
    ensures |Polygon(data, h, s)| == s.edgeCount
    ensures EdgeIdInBuffer(data, h, s.edgeListIndex + e)
    ensures var edgeId := GetEdgeId(data, h, s.edgeListIndex + e);
      RecordInBuffer(data, h, EdgesLump, EdgeIndex(edgeId), EdgeSize)
      && var edge := GetEdge(data, h, EdgeIndex(edgeId));
      var v := if edgeId > 0 then edge.vertex0 else edge.vertex1;
      RecordInBuffer(data, h, VerticesLump, v, VertexSize)
      && Polygon(data, h, s)[e] == GetVertex(data, h, v)
  {
    assert PolygonVertexReadable(data, h, s, e);
  }

  // ----- Fan triangulation -----

  /** Entry j of the fan index buffer: triangle j/3 is (0, j/3+1, j/3+2). */
  function FanIndex(j: nat): nat {
    if j % 3 == 0 then 0 else j / 3 + j % 3
  }

  /** The 3(n-2) indices of the fan over a convex polygon with n vertices. */
  function FanIndices(n: nat): (indices: seq<nat>)
    requires n >= 2
    ensures |indices| == 3 * (n - 2)
  {
    seq(3 * (n - 2), j requires 0 <= j => FanIndex(j))
  }

  /** Triangle k of the fan is (0, k+1, k+2), and every index names a polygon vertex. */
  lemma FanTriangles(n: nat)
    requires n >= 2
    ensures forall k :: 0 <= k < n - 2 ==>
      FanIndices(n)[3 * k] == 0 && FanIndices(n)[3 * k + 1] == k + 1 && FanIndices(n)[3 * k + 2] == k + 2
    ensures forall j :: 0 <= j < |FanIndices(n)| ==> FanIndices(n)[j] < n
  {
    forall k | 0 <= k < n - 2
      ensures FanIndices(n)[3 * k] == 0 && FanIndices(n)[3 * k + 1] == k + 1 && FanIndices(n)[3 * k + 2] == k + 2
    {
      assert (3 * k) % 3 == 0;
      assert (3 * k + 1) / 3 == k && (3 * k + 1) % 3 == 1;
      assert (3 * k + 2) / 3 == k && (3 * k + 2) % 3 == 2;
    }
    forall j | 0 <= j < |FanIndices(n)|
      ensures FanIndices(n)[j] < n
    {
      assert j / 3 < n - 2;
    }
  }

  /**
   * The index-buffer loop of BuildSurfaceVertexData: `new uint[(n-2)*3]`,
   * then triangle (0, v, v+1) written at 3(v-1) for v = 1 .. n-2.
   */
  method WriteFanIndices(n: nat) returns (indices: seq<nat>)
    requires n >= 2
    ensures indices == FanIndices(n)
  {
    var buffer := new nat[(n - 2) * 3];
    var triangleIndex := 0;
    var v := 1;
    while v < n - 1
      invariant 1 <= v <= n - 1 && triangleIndex == 3 * (v - 1)
      invariant forall j :: 0 <= j < triangleIndex ==> buffer[j] == FanIndex(j)
    {
      buffer[triangleIndex] := 0;
      buffer[triangleIndex + 1] := v;
      buffer[triangleIndex + 2] := v + 1;
      assert (3 * (v - 1) + 1) / 3 == v - 1 && (3 * (v - 1) + 1) % 3 == 1;
      assert (3 * (v - 1) + 2) / 3 == v - 1 && (3 * (v - 1) + 2) % 3 == 2;
      v := v + 1;
      triangleIndex := triangleIndex + 3;
    }
    indices := buffer[..];
  }

  // ----- Interleaved vertex data -----

  /** The vertex buffer: the per-vertex records one after the other. */
  function Flatten(records: seq<seq<Float32>>): seq<Float32> {
    if |records| == 0 then [] else records[0] + Flatten(records[1..])
  }

  /**
   * With records of `stride` floats each, the buffer holds stride floats per
   * record and field k of record v sits at stride * v + k.
   */
  lemma {:induction false} FlattenLayout(records: seq<seq<Float32>>, stride: nat, v: nat, k: nat)
    requires forall i :: 0 <= i < |records| ==> |records[i]| == stride
    requires v < |records| && k < stride
    ensures |Flatten(records)| == stride * |records|
    ensures stride * v + k < |Flatten(records)| && Flatten(records)[stride * v + k] == records[v][k]
  {
    FlattenLength(records, stride);
    if v > 0 {
      FlattenLayout(records[1..], stride, v - 1, k);
      assert stride * v + k == stride + (stride * (v - 1) + k);
    }
  }

  lemma {:induction false} FlattenLength(records: seq<seq<Float32>>, stride: nat)
    requires forall i :: 0 <= i < |records| ==> |records[i]| == stride
    ensures |Flatten(records)| == stride * |records|
  {
    if |records| > 0 {
      FlattenLength(records[1..], stride);
    }
  }
}
