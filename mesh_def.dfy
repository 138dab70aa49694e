/**
 * The mesh description the OBJ importer fills and the mesh builder reads
 * (nb3D/MeshDef.cs, nb3D/MaterialDef.cs): vertex definitions under their
 * identity key, the faces in order, and the material library by name.
 * The operations are stated on the value `MeshData` and carried out on the
 * class `MeshDef`, whose fields are the three collections of the source.
 */
module MeshDefs {
  import opened Common

  /** A material: its name, its texture path and its position in the library. */
  datatype MaterialDef = MaterialDef(name: string, texturePath: string, index: int)

  /** A distinct vertex: position, uv, array-texture layer, and its place in the element array. */
  datatype VertexDef = VertexDef(position: Vec3, textureCoord: Vec2, textureIndex: int, elementIndex: nat)

  datatype FaceDef = FaceDef(vertex1: VertexDef, vertex2: VertexDef, vertex3: VertexDef)

  /**
   * The identity of a vertex. BuildVertexDefId hashes exactly these three
   * values; the key keeps them whole, so two vertices share a key only when
   * they agree on all three.
   */
  datatype VertexKey = VertexKey(position: Vec3, textureCoord: Vec2, textureIndex: int)

  function BuildVertexDefId(position: Vec3, textureCoord: Vec2, textureIndex: int): VertexKey {
    VertexKey(position, textureCoord, textureIndex)
  }

  /** The key a vertex def is stored under: that of its own three values. */
  function KeyOf(v: VertexDef): VertexKey {
    BuildVertexDefId(v.position, v.textureCoord, v.textureIndex)
  }

  /** The contents of a MeshDef; `vertexOrder` is the order the vertex dictionary enumerates its values in. */
  datatype MeshData = MeshData(vertices: map<VertexKey, VertexDef>, vertexOrder: seq<VertexKey>,
                               faces: seq<FaceDef>, materials: map<string, MaterialDef>)

  const EmptyMesh := MeshData(map[], [], [], map[])

  /** The enumeration order lists every key of the vertex dictionary once. */
  predicate Indexed(m: MeshData) {
    (forall id :: id in m.vertices ==> id in m.vertexOrder)
    && (forall i :: 0 <= i < |m.vertexOrder| ==> m.vertexOrder[i] in m.vertices)
    && (forall i, j :: 0 <= i < j < |m.vertexOrder| ==> m.vertexOrder[i] != m.vertexOrder[j])
  }

  /** The vertex defs in enumeration order. */
  function VertexValues(m: MeshData): (vs: seq<VertexDef>)
    requires Indexed(m)
    ensures |vs| == |m.vertexOrder| && forall i :: 0 <= i < |vs| ==> vs[i] == m.vertices[m.vertexOrder[i]]
  {
    seq(|m.vertexOrder|, i requires 0 <= i < |m.vertexOrder| => m.vertices[m.vertexOrder[i]])
  }

  /** AddVertex: Dictionary.Add throws on a key already present. */
  function AddedVertex(m: MeshData, id: VertexKey, v: VertexDef): Result<MeshData> {
    if id in m.vertices then Failure(DuplicateKey)
    else Success(m.(vertices := m.vertices[id := v], vertexOrder := m.vertexOrder + [id]))
  }

  /** TryGetVertex. */
  function VertexLookup(m: MeshData, id: VertexKey): Option<VertexDef> {
    if id in m.vertices then Some(m.vertices[id]) else None
  }

  /** AddFace: List.Add. */
  function AddedFace(m: MeshData, f: FaceDef): MeshData {
    m.(faces := m.faces + [f])
  }

  /** AddMaterial: Dictionary.Add throws on a name already present. */
  function AddedMaterial(m: MeshData, name: string, d: MaterialDef): Result<MeshData> {
    if name in m.materials then Failure(DuplicateKey)
    else Success(m.(materials := m.materials[name := d]))
  }

  /** GetMaterialIndex: the dictionary indexer throws on a missing name. */
  function MaterialIndex(m: MeshData, name: string): Result<int> {
    if name in m.materials then Success(m.materials[name].index) else Failure(KeyNotFound)
  }

  /**
   * Adding a vertex fails exactly on a key already present, and otherwise
   * TryGetVertex finds the vertex under its key, every other key keeps its
   * vertex, the vertex is enumerated last, and faces and materials are
   * untouched.
   */
  lemma AddedVertexFound(m: MeshData, id: VertexKey, v: VertexDef, other: VertexKey)
    requires Indexed(m)
    ensures AddedVertex(m, id, v).Failure? <==> VertexLookup(m, id).Some?
    ensures AddedVertex(m, id, v).Success? ==>
      var m' := AddedVertex(m, id, v).value;
      Indexed(m') && VertexLookup(m', id) == Some(v)
      && (other != id ==> VertexLookup(m', other) == VertexLookup(m, other))
      && VertexValues(m') == VertexValues(m) + [v]
      && m'.faces == m.faces && m'.materials == m.materials
  {
    if id !in m.vertices {
      var m' := AddedVertex(m, id, v).value;
      assert VertexValues(m') == VertexValues(m) + [v];
    }
  }

  /**
   * Adding a material fails exactly on a name already present, and
   * otherwise GetMaterialIndex answers that material's index for its name
   * and what it answered before for every other name.
   */
  lemma AddedMaterialIndex(m: MeshData, name: string, d: MaterialDef, other: string)
    ensures AddedMaterial(m, name, d).Failure? <==> MaterialIndex(m, name).Success?
    ensures AddedMaterial(m, name, d).Success? ==>
      var m' := AddedMaterial(m, name, d).value;
      MaterialIndex(m', name) == Success(d.index)
      && (other != name ==> MaterialIndex(m', other) == MaterialIndex(m, other))
      && |m'.materials| == |m.materials| + 1
      && m'.vertices == m.vertices && m'.vertexOrder == m.vertexOrder && m'.faces == m.faces
  {
  }

  /** A MeshDef: the three collections of nb3D/MeshDef.cs, the vertex dictionary with its enumeration order. */
  class MeshDef {
    var vertices: map<VertexKey, VertexDef>
    var vertexOrder: seq<VertexKey>
    var faces: seq<FaceDef>
    var materials: map<string, MaterialDef>

    function Data(): MeshData
      reads this
    {
      MeshData(vertices, vertexOrder, faces, materials)
    }

    ghost predicate Valid()
      reads this
    {
      Indexed(Data())
    }

    constructor ()
      ensures Valid() && Data() == EmptyMesh
    {
      vertices, vertexOrder, faces, materials := map[], [], [], map[];
    }

    /** The Vertices property: the dictionary's values in enumeration order. */
    function Vertices(): seq<VertexDef>
      requires Valid()
      reads this
    {
      VertexValues(Data())
    }

    method AddVertex(id: VertexKey, v: VertexDef) returns (r: Outcome)
      requires Valid()
      modifies this
      ensures Valid()
      ensures r.Pass? <==> AddedVertex(old(Data()), id, v).Success?
      ensures r.Pass? ==> Data() == AddedVertex(old(Data()), id, v).value
      ensures r.Fail? ==> r.error == DuplicateKey && Data() == old(Data())
    {
      if id in vertices {
        return Fail(DuplicateKey);
      }
      vertices := vertices[id := v];
      vertexOrder := vertexOrder + [id];
      r := Pass;
    }

    method TryGetVertex(id: VertexKey) returns (found: bool, v: VertexDef)
      ensures found <==> VertexLookup(Data(), id).Some?
      ensures found ==> v == VertexLookup(Data(), id).value
    {
      found := id in vertices;
      v := if found then vertices[id] else VertexDef(Vec3(ZeroFloat, ZeroFloat, ZeroFloat), ZeroVec2, 0, 0);
    }

    method AddFace(f: FaceDef)
      modifies this
      ensures Data() == AddedFace(old(Data()), f)
    {
      faces := faces + [f];
    }

    method AddMaterial(name: string, d: MaterialDef) returns (r: Outcome)
      modifies this
      ensures r.Pass? <==> AddedMaterial(old(Data()), name, d).Success?
      ensures r.Pass? ==> Data() == AddedMaterial(old(Data()), name, d).value
      ensures r.Fail? ==> r.error == DuplicateKey && Data() == old(Data())
    {
      if name in materials {
        return Fail(DuplicateKey);
      }
      materials := materials[name := d];
      r := Pass;
    }

    method GetMaterialIndex(name: string) returns (r: Result<int>)
      ensures r == MaterialIndex(Data(), name)
    {
      if name !in materials {
        return Failure(KeyNotFound);
      }
      r := Success(materials[name].index);
    }
  }
}
