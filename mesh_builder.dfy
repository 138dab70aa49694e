/**
 * MeshBuilder.Build (nb3D/MeshBuilder.cs): the interleaved vertex buffer
 * and the triangle index buffer of a MeshDef. Each vertex def is written at
 * its element index times the stride, so the buffer's order is that of the
 * element indices, not that of the dictionary.
 */
module MeshBuilders {
  import opened Common
  import opened MeshDefs

  /** The mesh Build hands to the GPU: the vertex floats and the element indices, three per face. */
  datatype Mesh = Mesh(vertices: seq<Float32>, indices: seq<nat>)

  /** Position only, or position, uv and layer once the library has a material. */
  function Stride(hasTextures: bool): nat {
    if hasTextures then 6 else 3
  }

  /** Where the record of element index e starts: e times the stride. */
  function Slot(e: nat, hasTextures: bool): nat {
    if hasTextures then 6 * e else 3 * e
  }

  /** The floats Build writes for one vertex def; the layer is converted from int to float. */
  function VertexRecord(d: VertexDef, hasTextures: bool): (rec: seq<Float32>)
    ensures |rec| == Stride(hasTextures)
  {
    [d.position.x, d.position.y, d.position.z]
    + (if hasTextures then [d.textureCoord.x, d.textureCoord.y, FromInt(d.textureIndex)] else [])
  }

  /** `rec` written over `buf` from position `at` on. */
  function Spliced(buf: seq<Float32>, at: nat, rec: seq<Float32>): (r: seq<Float32>)
    requires at + |rec| <= |buf|
    ensures |r| == |buf|
    ensures forall p :: 0 <= p < |buf| ==> r[p] == if at <= p < at + |rec| then rec[p - at] else buf[p]
  {
    buf[..at] + rec + buf[at + |rec|..]
  }

  /**
   * The vertex loop over `defs`, in enumeration order: each def's record is
   * written at ElementIndex * stride. The buffer holds whole records, so the
   * first write of a def lies past its end exactly when the record does not
   * fit, and that write throws.
   */
  function WrittenVertices(buf: seq<Float32>, defs: seq<VertexDef>, hasTextures: bool): Result<seq<Float32>>
    decreases |defs|
  {
    if |defs| == 0 then Success(buf)
    else
      var at := Slot(defs[0].elementIndex, hasTextures);
      if at + Stride(hasTextures) > |buf| then Failure(IndexOutOfRange)
      else WrittenVertices(Spliced(buf, at, VertexRecord(defs[0], hasTextures)), defs[1..], hasTextures)
  }

  /** The index buffer: face i's three element indices at 3i, 3i+1 and 3i+2, in vertex order. */
  function FaceIndices(faces: seq<FaceDef>): (ix: seq<nat>)
    ensures |ix| == 3 * |faces|
    ensures forall i :: 0 <= i < |faces| ==>
      ix[3 * i] == faces[i].vertex1.elementIndex
      && ix[3 * i + 1] == faces[i].vertex2.elementIndex
      && ix[3 * i + 2] == faces[i].vertex3.elementIndex
  {
    if |faces| == 0 then []
    else
      var f := faces[|faces| - 1];
      var prev := FaceIndices(faces[..|faces| - 1]);
      assert forall i :: 0 <= i < |faces| - 1 ==> faces[..|faces| - 1][i] == faces[i];
      prev + [f.vertex1.elementIndex, f.vertex2.elementIndex, f.vertex3.elementIndex]
  }

  /** A fresh float array: every entry 0.0f. */
  function Zeros(n: nat): (z: seq<Float32>)
    ensures |z| == n && forall p :: 0 <= p < n ==> z[p] == ZeroFloat
  {
    seq(n, _ => ZeroFloat)
  }

  /** What Build produces from the vertex defs in enumeration order, the faces and whether there are textures. */
  function Built(defs: seq<VertexDef>, faces: seq<FaceDef>, hasTextures: bool): Result<Mesh> {
    var vertices :- WrittenVertices(Zeros(Slot(|defs|, hasTextures)), defs, hasTextures);
    Success(Mesh(vertices, FaceIndices(faces)))
  }

  method Build(meshDef: MeshDef) returns (r: Result<Mesh>)
    requires meshDef.Valid()
    ensures r == Built(meshDef.Vertices(), meshDef.faces, |meshDef.materials| > 0)
  {
    var hasTextures := |meshDef.materials| > 0;
    var vertices :- BuildVertices(meshDef.Vertices(), hasTextures);
    var faceVertexIndices := BuildFaceIndices(meshDef.faces);
    r := Success(Mesh(vertices, faceVertexIndices));
  }

  /** The first loop of Build: the vertex buffer, written def by def in enumeration order. */
  method BuildVertices(defs: seq<VertexDef>, hasTextures: bool) returns (r: Result<seq<Float32>>)
    ensures r == WrittenVertices(Zeros(Slot(|defs|, hasTextures)), defs, hasTextures)
  {
    var stride := if hasTextures then 6 else 3;
    var vertices := new Float32[|defs| * stride](_ => ZeroFloat);
    assert vertices[..] == Zeros(Slot(|defs|, hasTextures));
    for i := 0 to |defs|
      invariant WrittenVertices(vertices[..], defs[i..], hasTextures)
             == WrittenVertices(Zeros(Slot(|defs|, hasTextures)), defs, hasTextures)
    {
      assert defs[i..][0] == defs[i] && defs[i..][1..] == defs[i + 1..];
      var ok := WriteVertex(vertices, defs[i], hasTextures, |defs|);
      if !ok {
        return Failure(IndexOutOfRange);
      }
    }
    assert defs[|defs|..] == [];
    r := Success(vertices[..]);
  }

  /** The index buffer of the first i + 1 faces extends that of the first i by face i's three indices. */
  lemma FaceIndicesSnoc(faces: seq<FaceDef>, i: nat)
    requires i < |faces|
    ensures FaceIndices(faces[..i + 1])
      == FaceIndices(faces[..i]) + [faces[i].vertex1.elementIndex, faces[i].vertex2.elementIndex, faces[i].vertex3.elementIndex]
  {
    assert faces[..i + 1][..i] == faces[..i];
  }

  /** The second loop of Build: the index buffer, face by face. */
  method BuildFaceIndices(faces: seq<FaceDef>) returns (ix: seq<nat>)
    ensures ix == FaceIndices(faces)
  {
    var faceVertexIndices := new nat[|faces| * 3](_ => 0);
    for i := 0 to |faces|
      invariant faceVertexIndices[..3 * i] == FaceIndices(faces[..i])
    {
      WriteFace(faceVertexIndices, i * 3, faces[i]);
      FaceIndicesSnoc(faces, i);
    }
    assert faces[..|faces|] == faces;
    assert faceVertexIndices[..] == faceVertexIndices[..3 * |faces|];
    ix := faceVertexIndices[..];
  }

  /** One iteration of the index loop: face f's three element indices from `bufferIndex` on. */
  method WriteFace(faceVertexIndices: array<nat>, bufferIndex: nat, f: FaceDef)
    requires bufferIndex + 3 <= faceVertexIndices.Length
    modifies faceVertexIndices
    ensures faceVertexIndices[..bufferIndex + 3]
      == old(faceVertexIndices[..bufferIndex]) + [f.vertex1.elementIndex, f.vertex2.elementIndex, f.vertex3.elementIndex]
  {
    ghost var done := faceVertexIndices[..bufferIndex];
    faceVertexIndices[bufferIndex] := f.vertex1.elementIndex;
    faceVertexIndices[bufferIndex + 1] := f.vertex2.elementIndex;
    faceVertexIndices[bufferIndex + 2] := f.vertex3.elementIndex;
    assert faceVertexIndices[..bufferIndex + 3] == done + [f.vertex1.elementIndex, f.vertex2.elementIndex, f.vertex3.elementIndex];
  }

  /** One iteration of the vertex loop: the record of `d` at its slot, or false where the first write throws. */
  method WriteVertex(vertices: array<Float32>, d: VertexDef, hasTextures: bool, ghost count: nat) returns (ok: bool)
    requires vertices.Length == Slot(count, hasTextures)
    modifies vertices
    ensures ok <==> Slot(d.elementIndex, hasTextures) + Stride(hasTextures) <= vertices.Length
    ensures ok ==> vertices[..] == Spliced(old(vertices[..]), Slot(d.elementIndex, hasTextures), VertexRecord(d, hasTextures))
    ensures !ok ==> vertices[..] == old(vertices[..])
  {
    var stride := if hasTextures then 6 else 3;
    var bufferIndex := d.elementIndex * stride;
    assert bufferIndex == Slot(d.elementIndex, hasTextures);
    if bufferIndex >= vertices.Length {
      return false;
    }
    vertices[bufferIndex] := d.position.x;
    vertices[bufferIndex + 1] := d.position.y;
    vertices[bufferIndex + 2] := d.position.z;
    if hasTextures {
      vertices[bufferIndex + 3] := d.textureCoord.x;
      vertices[bufferIndex + 4] := d.textureCoord.y;
      vertices[bufferIndex + 5] := FromInt(d.textureIndex);
    }
    ok := true;
  }

  /** Every def has its own element index, below `count`. */
  predicate Placed(defs: seq<VertexDef>, count: nat) {
    (forall i :: 0 <= i < |defs| ==> defs[i].elementIndex < count)
    && (forall i, j :: 0 <= i < j < |defs| ==> defs[i].elementIndex != defs[j].elementIndex)
  }

  /** Position p lies in no def's slot. */
  predicate Unwritten(defs: seq<VertexDef>, p: int, hasTextures: bool) {
    forall i :: 0 <= i < |defs| ==>
      p < Slot(defs[i].elementIndex, hasTextures) || Slot(defs[i].elementIndex, hasTextures) + Stride(hasTextures) <= p
  }

  /** With distinct element indices below the record count, the vertex loop never throws and keeps the length. */
  lemma {:induction false} WrittenSucceeds(buf: seq<Float32>, defs: seq<VertexDef>, hasTextures: bool, count: nat)
    requires |buf| == Slot(count, hasTextures) && Placed(defs, count)
    ensures WrittenVertices(buf, defs, hasTextures).Success?
    ensures |WrittenVertices(buf, defs, hasTextures).value| == |buf|
    decreases |defs|
  {
    if |defs| > 0 {
      var d := defs[0];
      assert d.elementIndex < count;
      var buf' := Spliced(buf, Slot(d.elementIndex, hasTextures), VertexRecord(d, hasTextures));
      assert Placed(defs[1..], count);
      WrittenSucceeds(buf', defs[1..], hasTextures, count);
    }
  }

  /** A def whose element index is not below the record count makes the vertex loop throw. */
  lemma {:induction false} WrittenFails(buf: seq<Float32>, defs: seq<VertexDef>, hasTextures: bool, count: nat, i: int)
    requires |buf| == Slot(count, hasTextures) && 0 <= i < |defs| && defs[i].elementIndex >= count
    ensures WrittenVertices(buf, defs, hasTextures) == Failure(IndexOutOfRange)
    decreases |defs|
  {
    var at := Slot(defs[0].elementIndex, hasTextures);
    if at + Stride(hasTextures) <= |buf| {
      assert i > 0;
      WrittenFails(Spliced(buf, at, VertexRecord(defs[0], hasTextures)), defs[1..], hasTextures, count, i - 1);
    }
  }

  /** ... and leaves a position outside every written slot as it was. */
  lemma {:induction false} WrittenKeepsAt(buf: seq<Float32>, defs: seq<VertexDef>, hasTextures: bool, count: nat, p: int)
    requires |buf| == Slot(count, hasTextures) && Placed(defs, count)
    requires 0 <= p < |buf| && Unwritten(defs, p, hasTextures)
    ensures WrittenVertices(buf, defs, hasTextures).Success?
    ensures |WrittenVertices(buf, defs, hasTextures).value| == |buf|
    ensures WrittenVertices(buf, defs, hasTextures).value[p] == buf[p]
    decreases |defs|
  {
    WrittenSucceeds(buf, defs, hasTextures, count);
    if |defs| > 0 {
      var d := defs[0];
      var at := Slot(d.elementIndex, hasTextures);
      assert d.elementIndex < count;
      var buf' := Spliced(buf, at, VertexRecord(d, hasTextures));
      var rest := defs[1..];
      assert Placed(rest, count);
      assert Unwritten(rest, p, hasTextures) by {
        forall i | 0 <= i < |rest|
          ensures p < Slot(rest[i].elementIndex, hasTextures) || Slot(rest[i].elementIndex, hasTextures) + Stride(hasTextures) <= p
        {
          assert rest[i] == defs[i + 1];
        }
      }
      WrittenKeepsAt(buf', rest, hasTextures, count, p);
      assert p < at || at + Stride(hasTextures) <= p;
      assert buf'[p] == buf[p];
    }
  }

  /**
   * With distinct element indices below the record count, each def's record
   * sits at its element index times the stride.
   */
  lemma {:induction false} WrittenSlots(buf: seq<Float32>, defs: seq<VertexDef>, hasTextures: bool, count: nat,
                                        i: int, k: int)
    requires |buf| == Slot(count, hasTextures) && Placed(defs, count)
    requires 0 <= i < |defs| && 0 <= k < Stride(hasTextures)
    ensures WrittenVertices(buf, defs, hasTextures).Success?
    ensures var out := WrittenVertices(buf, defs, hasTextures).value;
      Slot(defs[i].elementIndex, hasTextures) + k < |out|
      && out[Slot(defs[i].elementIndex, hasTextures) + k] == VertexRecord(defs[i], hasTextures)[k]
    decreases |defs|
  {
    if i > 0 {
      var d := defs[0];
      assert d.elementIndex < count;
      var buf' := Spliced(buf, Slot(d.elementIndex, hasTextures), VertexRecord(d, hasTextures));
      var rest := defs[1..];
      assert Placed(rest, count);
      assert WrittenVertices(buf, defs, hasTextures) == WrittenVertices(buf', rest, hasTextures);
      assert defs[i] == rest[i - 1];
      WrittenSlots(buf', rest, hasTextures, count, i - 1, k);
    } else {
      WrittenFirstSlot(buf, defs, hasTextures, count, k);
    }
  }

  /** The slots of two different element indices do not overlap. */
  lemma SlotsApart(a: nat, b: nat, hasTextures: bool, k: int)
    requires a != b && 0 <= k < Stride(hasTextures)
    ensures Slot(a, hasTextures) + k < Slot(b, hasTextures) || Slot(b, hasTextures) + Stride(hasTextures) <= Slot(a, hasTextures) + k
  {
  }

  /** No later def's slot covers a position of the first def's slot. */
  lemma {:induction false} FirstSlotUnwritten(defs: seq<VertexDef>, hasTextures: bool, count: nat, k: int)
    requires Placed(defs, count) && 0 < |defs| && 0 <= k < Stride(hasTextures)
    ensures Unwritten(defs[1..], Slot(defs[0].elementIndex, hasTextures) + k, hasTextures)
  {
    var rest := defs[1..];
    forall j | 0 <= j < |rest|
      ensures Slot(defs[0].elementIndex, hasTextures) + k < Slot(rest[j].elementIndex, hasTextures)
              || Slot(rest[j].elementIndex, hasTextures) + Stride(hasTextures) <= Slot(defs[0].elementIndex, hasTextures) + k
    {
      assert rest[j] == defs[j + 1];
      SlotsApart(defs[0].elementIndex, rest[j].elementIndex, hasTextures, k);
    }
  }

  /** With the first def inside the buffer, the loop writes it and goes on with the rest. */
  lemma WrittenStep(buf: seq<Float32>, defs: seq<VertexDef>, hasTextures: bool, count: nat)
    requires |buf| == Slot(count, hasTextures) && Placed(defs, count) && 0 < |defs|
    ensures Slot(defs[0].elementIndex, hasTextures) + Stride(hasTextures) <= |buf|
    ensures Placed(defs[1..], count)
    ensures WrittenVertices(buf, defs, hasTextures)
      == WrittenVertices(Spliced(buf, Slot(defs[0].elementIndex, hasTextures), VertexRecord(defs[0], hasTextures)),
                         defs[1..], hasTextures)
  {
    assert defs[0].elementIndex < count;
  }

  /** The first def's record: written first, and no later def writes over its slot. */
  lemma {:induction false} WrittenFirstSlot(buf: seq<Float32>, defs: seq<VertexDef>, hasTextures: bool, count: nat, k: int)
    requires |buf| == Slot(count, hasTextures) && Placed(defs, count)
    requires 0 < |defs| && 0 <= k < Stride(hasTextures)
    ensures WrittenVertices(buf, defs, hasTextures).Success?
    ensures var out := WrittenVertices(buf, defs, hasTextures).value;
      Slot(defs[0].elementIndex, hasTextures) + k < |out|
      && out[Slot(defs[0].elementIndex, hasTextures) + k] == VertexRecord(defs[0], hasTextures)[k]
  {
    var at := Slot(defs[0].elementIndex, hasTextures);
    WrittenStep(buf, defs, hasTextures, count);
    var buf' := Spliced(buf, at, VertexRecord(defs[0], hasTextures));
    FirstSlotUnwritten(defs, hasTextures, count, k);
    WrittenKeepsAt(buf', defs[1..], hasTextures, count, at + k);
    assert buf'[at + k] == VertexRecord(defs[0], hasTextures)[k];
  }

  /** Every entry of the index buffer is below n when every face corner is. */
  lemma {:induction false} FaceIndicesBelow(faces: seq<FaceDef>, n: nat)
    requires forall i :: 0 <= i < |faces| ==>
      faces[i].vertex1.elementIndex < n && faces[i].vertex2.elementIndex < n && faces[i].vertex3.elementIndex < n
    ensures forall k :: 0 <= k < |FaceIndices(faces)| ==> FaceIndices(faces)[k] < n
  {
    if |faces| > 0 {
      FaceIndicesBelow(faces[..|faces| - 1], n);
    }
  }
}
