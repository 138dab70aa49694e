/**
 * WavefrontImporter (nb3D/WavefrontImporter.cs): the MTL material library
 * and the OBJ geometry, read line by line into a MeshDef. A file is the
 * sequence of lines StreamReader.ReadLine returns. Each parser is stated as
 * a function over those lines and the mesh contents (MtlFrom, ObjRun), and
 * carried out by methods with the source's loops, proved to agree with it.
 */
module Wavefront {
  import opened Common
  import opened Text
  import opened MeshDefs
  import MeshBuilders

  /**
   * The number parsers the importer calls: float.Parse with the invariant
   * culture, uint.Parse and int.Parse, each None where it throws.
   */
  datatype NumberParsers = NumberParsers(parseFloat: string -> Option<Float32>,
                                         parseUInt: string -> Option<u32>,
                                         parseInt: string -> Option<i32>)

  // ----- MTL -----

  /** The end of the material block that starts at `pos`: its first empty line, or the end of the file. */
  function BlockEnd(lines: seq<string>, pos: nat): (e: nat)
    requires pos <= |lines|
    ensures pos <= e <= |lines|
    ensures forall j :: pos <= j < e ==> lines[j] != ""
    ensures e < |lines| ==> lines[e] == ""
    decreases |lines| - pos
  {
    if pos == |lines| || lines[pos] == "" then pos else BlockEnd(lines, pos + 1)
  }

  /** Where reading resumes after a block ending at `e`: past its empty line, which the block loop consumed. */
  function AfterBlock(lines: seq<string>, e: nat): nat {
    if e < |lines| then e + 1 else e
  }

  /**
   * The texture path a block's loop leaves behind, starting from `current`:
   * every map_Kd line sets it to its second space-separated token, and one
   * without a second token throws.
   */
  function BlockTexture(block: seq<string>, current: Option<string>): Result<Option<string>>
    decreases |block|
  {
    if |block| == 0 then Success(current)
    else if StartsWith(block[0], "map_Kd") then
      var parts := Split(block[0], ' ');
      if |parts| < 2 then Failure(IndexOutOfRange) else BlockTexture(block[1..], Some(parts[1]))
    else BlockTexture(block[1..], current)
  }

  /** A map_Kd line; it is well-formed when it has a second token. */
  predicate MapKdLine(line: string) {
    StartsWith(line, "map_Kd")
  }

  /** Every map_Kd line of the block has a second token. */
  predicate MapKdWellFormed(block: seq<string>) {
    forall j :: 0 <= j < |block| && MapKdLine(block[j]) ==> |Split(block[j], ' ')| >= 2
  }

  /** Line j is the block's last map_Kd line. */
  predicate LastMapKd(block: seq<string>, j: int) {
    0 <= j < |block| && MapKdLine(block[j]) && forall j' :: j < j' < |block| ==> !MapKdLine(block[j'])
  }

  /** The block has no map_Kd line. */
  predicate NoMapKd(block: seq<string>) {
    forall j :: 0 <= j < |block| ==> !MapKdLine(block[j])
  }

  /**
   * A block whose map_Kd lines all have a second token yields the second
   * token of the last of them, or `current` when it has none.
   */
  lemma {:induction false} BlockTextureLast(block: seq<string>, current: Option<string>)
    requires MapKdWellFormed(block)
    ensures BlockTexture(block, current).Success?
    ensures NoMapKd(block) ==> BlockTexture(block, current).value == current
    ensures forall j :: LastMapKd(block, j) ==> BlockTexture(block, current).value == Some(Split(block[j], ' ')[1])
    decreases |block|
  {
    if |block| > 0 {
      var next := if MapKdLine(block[0]) then Some(Split(block[0], ' ')[1]) else current;
      assert forall j :: 1 <= j < |block| ==> block[1..][j - 1] == block[j];
      BlockTextureLast(block[1..], next);
    }
  }

  /** A block with a map_Kd line that has no second token throws. */
  lemma {:induction false} BlockTextureThrows(block: seq<string>, current: Option<string>, j: int)
    requires 0 <= j < |block| && MapKdLine(block[j]) && |Split(block[j], ' ')| < 2
    ensures BlockTexture(block, current) == Failure(IndexOutOfRange)
    decreases |block|
  {
    if j > 0 {
      if !MapKdLine(block[0]) || |Split(block[0], ' ')| >= 2 {
        var next := if MapKdLine(block[0]) then Some(Split(block[0], ' ')[1]) else current;
        assert block[1..][j - 1] == block[j];
        BlockTextureThrows(block[1..], next, j - 1);
      }
    }
  }

  /** ParseMaterial: the material of the block from `pos` on; a block without a texture throws. */
  function MaterialBlock(lines: seq<string>, pos: nat, name: string, index: int): Result<MaterialDef>
    requires pos <= |lines|
  {
    var texture :- BlockTexture(lines[pos..BlockEnd(lines, pos)], None);
    if texture.None? then Failure(MissingTexturePath) else Success(MaterialDef(name, texture.value, index))
  }

  /**
   * ParseMtl from line `pos` on, with `index` materials read so far: each
   * line starting with newmtl opens a block named by its second token; its
   * material takes the next index and is added under that name.
   */
  function MtlFrom(lines: seq<string>, pos: nat, mesh: MeshData, index: int): Result<MeshData>
    requires pos <= |lines|
    decreases |lines| - pos
  {
    if pos == |lines| then Success(mesh)
    else if !StartsWith(lines[pos], "newmtl") then MtlFrom(lines, pos + 1, mesh, index)
    else
      var parts := Split(lines[pos], ' ');
      if |parts| < 2 then Failure(IndexOutOfRange)
      else
        var name := parts[1];
        var matDef :- MaterialBlock(lines, pos + 1, name, index);
        var mesh' :- AddedMaterial(mesh, name, matDef);
        MtlFrom(lines, AfterBlock(lines, BlockEnd(lines, pos + 1)), mesh', index + 1)
  }

  /** The library holds `n` materials, each under its own name, with distinct indices below n. */
  predicate Library(materials: map<string, MaterialDef>, n: int) {
    |materials| == n
    && (forall name :: name in materials ==> materials[name].name == name && 0 <= materials[name].index < n)
    && (forall a, b :: a in materials && b in materials && a != b ==> materials[a].index != materials[b].index)
  }

  /**
   * Reading an MTL file adds materials and nothing else, and numbers them
   * 0, 1, 2 ... in the order of their blocks: a library of n materials
   * stays a library, of one more material per block read.
   */
  lemma {:induction false} MtlLibrary(lines: seq<string>, pos: nat, mesh: MeshData, index: int)
    requires pos <= |lines| && Library(mesh.materials, index)
    requires MtlFrom(lines, pos, mesh, index).Success?
    ensures var m := MtlFrom(lines, pos, mesh, index).value;
      Library(m.materials, |m.materials|) && |m.materials| >= index
      && m.vertices == mesh.vertices && m.vertexOrder == mesh.vertexOrder && m.faces == mesh.faces
    decreases |lines| - pos
  {
    if pos < |lines| {
      if !StartsWith(lines[pos], "newmtl") {
        MtlLibrary(lines, pos + 1, mesh, index);
      } else {
        var name := Split(lines[pos], ' ')[1];
        var matDef := MaterialBlock(lines, pos + 1, name, index).value;
        var mesh' := AddedMaterial(mesh, name, matDef).value;
        LibraryAdd(mesh.materials, index, matDef);
        MtlLibrary(lines, AfterBlock(lines, BlockEnd(lines, pos + 1)), mesh', index + 1);
      }
    }
  }

  /** A new material named after itself, numbered with the count, keeps a library a library. */
  lemma LibraryAdd(materials: map<string, MaterialDef>, n: int, d: MaterialDef)
    requires Library(materials, n) && d.name !in materials && d.index == n
    ensures Library(materials[d.name := d], n + 1)
  {
  }

  /**
   * The material of a block whose map_Kd lines all have a second token:
   * none of them throws MissingTexturePath, and otherwise the material has
   * the block's name and index and the second token of the last of them.
   */
  lemma MaterialBlockTexture(lines: seq<string>, pos: nat, name: string, index: int)
    requires pos <= |lines| && MapKdWellFormed(lines[pos..BlockEnd(lines, pos)])
    ensures var block := lines[pos..BlockEnd(lines, pos)];
      var r := MaterialBlock(lines, pos, name, index);
      (NoMapKd(block) ==> r == Failure(MissingTexturePath))
      && forall j :: LastMapKd(block, j) ==> r == Success(MaterialDef(name, Split(block[j], ' ')[1], index))
  {
    BlockTextureLast(lines[pos..BlockEnd(lines, pos)], None);
  }

  /** Reading on from `pos` keeps every material already in the library. */
  lemma {:induction false} MtlKeeps(lines: seq<string>, pos: nat, mesh: MeshData, index: int, name: string)
    requires pos <= |lines| && MtlFrom(lines, pos, mesh, index).Success? && name in mesh.materials
    ensures name in MtlFrom(lines, pos, mesh, index).value.materials
    ensures MtlFrom(lines, pos, mesh, index).value.materials[name] == mesh.materials[name]
    decreases |lines| - pos
  {
    if pos < |lines| {
      if !StartsWith(lines[pos], "newmtl") {
        MtlKeeps(lines, pos + 1, mesh, index, name);
      } else {
        var name' := Split(lines[pos], ' ')[1];
        var mesh' := AddedMaterial(mesh, name', MaterialBlock(lines, pos + 1, name', index).value).value;
        MtlKeeps(lines, AfterBlock(lines, BlockEnd(lines, pos + 1)), mesh', index + 1, name);
      }
    }
  }

  /**
   * A newmtl line read with `index` materials before it gives the material
   * named by its second token, with the block's texture and that index.
   */
  lemma MtlBlockNumbered(lines: seq<string>, pos: nat, mesh: MeshData, index: int)
    requires pos < |lines| && StartsWith(lines[pos], "newmtl") && MtlFrom(lines, pos, mesh, index).Success?
    ensures |Split(lines[pos], ' ')| >= 2
    ensures var name := Split(lines[pos], ' ')[1];
      var m := MtlFrom(lines, pos, mesh, index).value;
      MaterialBlock(lines, pos + 1, name, index).Success?
      && name in m.materials && m.materials[name] == MaterialBlock(lines, pos + 1, name, index).value
      && m.materials[name].name == name && m.materials[name].index == index
  {
    var name := Split(lines[pos], ' ')[1];
    var mesh' := AddedMaterial(mesh, name, MaterialBlock(lines, pos + 1, name, index).value).value;
    MtlKeeps(lines, AfterBlock(lines, BlockEnd(lines, pos + 1)), mesh', index + 1, name);
  }

  /** ParseMaterial: the block loop, reading up to and including the block's empty line. */
  method ParseMaterial(lines: seq<string>, pos: nat, matName: string, matDefIndex: int)
    returns (r: Result<MaterialDef>, next: nat)
    requires pos <= |lines|
    ensures r == MaterialBlock(lines, pos, matName, matDefIndex)
    ensures next == AfterBlock(lines, BlockEnd(lines, pos))
  {
    var texturePath: Option<string> := None;
    var cursor := pos;
    var end := BlockEnd(lines, pos);
    while cursor < |lines| && lines[cursor] != ""
      invariant pos <= cursor <= end
      invariant BlockTexture(lines[cursor..end], texturePath) == BlockTexture(lines[pos..end], None)
      decreases |lines| - cursor
    {
      var line := lines[cursor];
      assert lines[cursor..end][1..] == lines[cursor + 1..end];
      cursor := cursor + 1;
      if StartsWith(line, "map_Kd") {
        var parts := Split(line, ' ');
        if |parts| < 2 {
          return Failure(IndexOutOfRange), AfterBlock(lines, end);
        }
        texturePath := Some(parts[1]);
      }
    }
    next := if cursor < |lines| then cursor + 1 else cursor;
    if texturePath.None? {
      return Failure(MissingTexturePath), next;
    }
    r := Success(MaterialDef(matName, texturePath.value, matDefIndex));
  }

  /** ParseMtl: the newmtl loop over the whole file. */
  method ParseMtl(lines: seq<string>, meshDef: MeshDef) returns (r: Outcome)
    requires meshDef.Valid()
    modifies meshDef
    ensures meshDef.Valid()
    ensures var want := MtlFrom(lines, 0, old(meshDef.Data()), 0);
      (r.Pass? <==> want.Success?) && (r.Fail? ==> r.error == want.error)
      && (r.Pass? ==> meshDef.Data() == want.value)
  {
    var pos := 0;
    var matDefIndex := 0;
    while pos < |lines|
      invariant 0 <= pos <= |lines| && meshDef.Valid()
      invariant MtlFrom(lines, pos, meshDef.Data(), matDefIndex) == MtlFrom(lines, 0, old(meshDef.Data()), 0)
      decreases |lines| - pos
    {
      var line := lines[pos];
      if StartsWith(line, "newmtl") {
        var parts := Split(line, ' ');
        if |parts| < 2 {
          return Fail(IndexOutOfRange);
        }
        var matName := parts[1];
        var matDef, next := ParseMaterial(lines, pos + 1, matName, matDefIndex);
        if matDef.Failure? {
          return Fail(matDef.error);
        }
        var added := meshDef.AddMaterial(matName, matDef.value);
        if added.Fail? {
          return added;
        }
        matDefIndex := matDefIndex + 1;
        pos := next;
      } else {
        pos := pos + 1;
      }
    }
    r := Pass;
  }

  // ----- OBJ -----

  /** The parser's state between lines: the v and vt lists, the active material, the element counter, the mesh. */
  datatype ObjState = ObjState(positions: seq<Vec3>, uvs: seq<Vec2>, activeMaterialIndex: int,
                               elementArrayIndex: nat, mesh: MeshData)

  /** Before the first line: no positions or uvs, no material selected (-1), counter 0. */
  function ObjStart(mesh: MeshData): ObjState {
    ObjState([], [], -1, 0, mesh)
  }

  /** Token i parsed as a float; a missing token is an index error. */
  function FloatPart(parts: seq<string>, i: nat, num: NumberParsers): Result<Float32> {
    if i >= |parts| then Failure(IndexOutOfRange)
    else match num.parseFloat(parts[i])
      case None => Failure(FormatError)
      case Some(f) => Success(f)
  }

  /** ParseVertex: the first three space-separated tokens, in order. */
  function ParseVertex(data: string, num: NumberParsers): Result<Vec3> {
    var parts := Split(data, ' ');
    var x :- FloatPart(parts, 0, num);
    var y :- FloatPart(parts, 1, num);
    var z :- FloatPart(parts, 2, num);
    Success(Vec3(x, y, z))
  }

  /** ParseTextureCoordinate: the first two space-separated tokens, in order. */
  function ParseTextureCoordinate(data: string, num: NumberParsers): Result<Vec2> {
    var parts := Split(data, ' ');
    var u :- FloatPart(parts, 0, num);
    var v :- FloatPart(parts, 1, num);
    Success(Vec2(u, v))
  }

  /** `v - 1` in unsigned 32-bit arithmetic: 0 wraps to 2^32 - 1. */
  function UIntMinusOne(v: u32): u32 {
    if v == 0 then 0xFFFF_FFFF else v - 1
  }

  /** The (int) cast of a uint: the same 32 bits read as signed. */
  function AsInt32(v: u32): i32 {
    if v < 0x8000_0000 then v else v - 0x1_0000_0000
  }

  /** `t - 1` in signed 32-bit arithmetic: the least value wraps to the greatest. */
  function IntMinusOne(t: i32): i32 {
    if t == -0x8000_0000 then 0x7FFF_FFFF else t - 1
  }

  /**
   * One corner "v/vt/vn" of a face: exactly three '/' components, the
   * first two parsed as 1-based indices into the positions and the uvs
   * (List indexers, which throw ArgumentOutOfRange).
   */
  function ParseCorner(part: string, positions: seq<Vec3>, uvs: seq<Vec2>, num: NumberParsers): Result<(Vec3, Vec2)> {
    var sub := Split(part, '/');
    if |sub| != 3 then Failure(FaceComponentCount)
    else match num.parseUInt(sub[0])
      case None => Failure(FormatError)
      case Some(v) =>
        match num.parseInt(sub[1])
        case None => Failure(FormatError)
        case Some(t) =>
          var vertexIndex := AsInt32(UIntMinusOne(v));
          var textureCoordIndex := IntMinusOne(t);
          if !(0 <= vertexIndex < |positions|) then Failure(ArgumentOutOfRange)
          else if !(0 <= textureCoordIndex < |uvs|) then Failure(ArgumentOutOfRange)
          else Success((positions[vertexIndex], uvs[textureCoordIndex]))
  }

  /**
   * Indices are 1-based: tokens k and t select position k-1 and uv t-1, and
   * 0 selects nothing. The lists are .NET lists, whose counts are ints.
   */
  lemma CornerOneBased(part: string, positions: seq<Vec3>, uvs: seq<Vec2>, num: NumberParsers)
    requires |positions| < 0x8000_0000 && |uvs| < 0x8000_0000
    requires |Split(part, '/')| == 3
    requires num.parseUInt(Split(part, '/')[0]).Some? && num.parseInt(Split(part, '/')[1]).Some?
    ensures var k := num.parseUInt(Split(part, '/')[0]).value;
      var t := num.parseInt(Split(part, '/')[1]).value;
      var c := ParseCorner(part, positions, uvs, num);
      (c.Success? <==> 1 <= k <= |positions| && 1 <= t <= |uvs|)
      && (c.Success? ==> c.value == (positions[k - 1], uvs[t - 1]))
  {
  }

  /**
   * The body of the corner loop: the corner's vertex def under its id.
   * A known id gives its stored def and changes nothing; a new one gets the
   * current element counter, is added, and advances the counter.
   */
  function CornerStep(st: ObjState, part: string, num: NumberParsers): Result<(ObjState, VertexDef)> {
    var corner :- ParseCorner(part, st.positions, st.uvs, num);
    var id := BuildVertexDefId(corner.0, corner.1, st.activeMaterialIndex);
    match VertexLookup(st.mesh, id)
    case Some(def) => Success((st, def))
    case None =>
      var def := VertexDef(corner.0, corner.1, st.activeMaterialIndex, st.elementArrayIndex);
      var mesh :- AddedVertex(st.mesh, id, def);
      Success((st.(mesh := mesh, elementArrayIndex := st.elementArrayIndex + 1), def))
  }

  /** The first n corners of a face, in order: the state after them and their vertex defs. */
  function Corners(st: ObjState, parts: seq<string>, n: nat, num: NumberParsers): (r: Result<(ObjState, seq<VertexDef>)>)
    requires n <= |parts|
    ensures r.Success? ==> |r.value.1| == n && r.value.0.positions == st.positions && r.value.0.uvs == st.uvs
                           && r.value.0.activeMaterialIndex == st.activeMaterialIndex
  {
    if n == 0 then Success((st, []))
    else
      var prev :- Corners(st, parts, n - 1, num);
      var step :- CornerStep(prev.0, parts[n - 1], num);
      Success((step.0, prev.1 + [step.1]))
  }

  /**
   * ParseFace: the active material must be in range, the face must have
   * three space-separated corners, and the face of their three defs is
   * appended after the corners are read.
   */
  function FaceLine(st: ObjState, data: string, num: NumberParsers): Result<ObjState> {
    if st.activeMaterialIndex < 0 || st.activeMaterialIndex >= |st.mesh.materials| then Failure(MaterialIndexOutOfRange)
    else
      var parts := Split(data, ' ');
      if |parts| != 3 then Failure(FaceNotTriangle)
      else
        var c :- Corners(st, parts, |parts|, num);
        var defs := c.1;
        Success(c.0.(mesh := AddedFace(c.0.mesh, FaceDef(defs[0], defs[1], defs[2]))))
  }

  /**
   * One line of ParseObj: split at the first space (a line without one
   * throws), then dispatched on the text before it; vn and unknown tags
   * leave the state as it is.
   */
  function ObjLine(st: ObjState, line: string, num: NumberParsers): Result<ObjState> {
    var parts := SplitOnce(line, ' ');
    if |parts| < 2 then Failure(IndexOutOfRange)
    else
      var kind, data := parts[0], parts[1];
      if kind == "v" then
        var position :- ParseVertex(data, num);
        Success(st.(positions := st.positions + [position]))
      else if kind == "vt" then
        var uv :- ParseTextureCoordinate(data, num);
        Success(st.(uvs := st.uvs + [uv]))
      else if kind == "f" then FaceLine(st, data, num)
      else if kind == "usemtl" then
        var index :- MaterialIndex(st.mesh, data);
        Success(st.(activeMaterialIndex := index))
      else Success(st)
  }

  /** ParseObj over `lines`, stopping at the first line that throws. */
  function ObjRun(st: ObjState, lines: seq<string>, num: NumberParsers): Result<ObjState>
    decreases |lines|
  {
    if |lines| == 0 then Success(st)
    else
      var st' :- ObjLine(st, lines[0], num);
      ObjRun(st', lines[1..], num)
  }

  /** A line without a space throws, and vn or unknown tags change nothing. */
  lemma ObjLineDispatch(st: ObjState, line: string, num: NumberParsers)
    ensures ' ' !in line ==> ObjLine(st, line, num) == Failure(IndexOutOfRange)
    ensures ' ' in line && SplitOnce(line, ' ')[0] !in {"v", "vt", "f", "usemtl"} ==> ObjLine(st, line, num) == Success(st)
  {
  }

  /**
   * A face with no material selected, or one past the library, throws
   * before anything is read; with one selected, a face needs three
   * space-separated corners.
   */
  lemma FaceChecks(st: ObjState, data: string, num: NumberParsers)
    ensures st.activeMaterialIndex < 0 || st.activeMaterialIndex >= |st.mesh.materials| ==>
      FaceLine(st, data, num) == Failure(MaterialIndexOutOfRange)
    ensures 0 <= st.activeMaterialIndex < |st.mesh.materials| && |Split(data, ' ')| != 3 ==>
      FaceLine(st, data, num) == Failure(FaceNotTriangle)
  {
  }

  /** No material is selected before the first usemtl, so a face line there throws. */
  lemma FaceBeforeUsemtl(mesh: MeshData, data: string, num: NumberParsers)
    ensures ObjLine(ObjStart(mesh), "f " + data, num) == Failure(MaterialIndexOutOfRange)
  {
    var line := "f " + data;
    assert line[..1] == "f" && line[1] == ' ' && line[2..] == data;
    FirstIndexUnique(line, ' ', 1);
  }

  // ----- The numbering the parser keeps -----

  /** A vertex def is stored under its own key. */
  predicate Stored(m: MeshData, v: VertexDef) {
    KeyOf(v) in m.vertices && m.vertices[KeyOf(v)] == v
  }

  /** Every def of the vertex dictionary is stored under its own key. */
  predicate Keyed(m: MeshData) {
    forall id :: id in m.vertices ==> KeyOf(m.vertices[id]) == id
  }

  /** The vertex dictionary of m' keeps every entry of that of m. */
  predicate Grows(m: MeshData, m': MeshData) {
    forall id :: id in m.vertices ==> id in m'.vertices && m'.vertices[id] == m.vertices[id]
  }

  /**
   * The mesh as the OBJ parser keeps it: the counter is the number of
   * vertex defs, the def enumerated i-th has element index i, every def is
   * stored under its own key with a layer of the library, and every face's
   * corners are stored defs.
   */
  predicate Numbered(m: MeshData, next: nat) {
    Indexed(m) && next == |m.vertexOrder| && Keyed(m)
    && (forall i :: 0 <= i < |m.vertexOrder| ==> m.vertices[m.vertexOrder[i]].elementIndex == i)
    && (forall id :: id in m.vertices ==> 0 <= m.vertices[id].textureIndex < |m.materials|)
    && (forall j :: 0 <= j < |m.faces| ==>
          Stored(m, m.faces[j].vertex1) && Stored(m, m.faces[j].vertex2) && Stored(m, m.faces[j].vertex3))
  }

  /** A growing vertex dictionary keeps every stored def stored. */
  lemma StoredGrows(m: MeshData, m': MeshData, v: VertexDef)
    requires Stored(m, v) && Grows(m, m')
    ensures Stored(m', v)
  {
  }

  /** `def` is the def of corner `part`: its position and uv, on the active layer. */
  predicate CornerOf(def: VertexDef, part: string, positions: seq<Vec3>, uvs: seq<Vec2>, active: int, num: NumberParsers) {
    var corner := ParseCorner(part, positions, uvs, num);
    corner.Success? && def.position == corner.value.0 && def.textureCoord == corner.value.1
    && def.textureIndex == active
  }

  /**
   * Adding a def that is new, takes the counter as its element index and
   * has a layer of the library keeps the numbering with one more def.
   */
  lemma NumberedAdd(m: MeshData, def: VertexDef)
    requires Numbered(m, |m.vertexOrder|) && KeyOf(def) !in m.vertices
    requires def.elementIndex == |m.vertexOrder| && 0 <= def.textureIndex < |m.materials|
    ensures AddedVertex(m, KeyOf(def), def).Success?
    ensures Numbered(AddedVertex(m, KeyOf(def), def).value, |m.vertexOrder| + 1)
  {
    var m' := AddedVertex(m, KeyOf(def), def).value;
    AddedVertexFound(m, KeyOf(def), def, KeyOf(def));
    assert Grows(m, m');
    forall j | 0 <= j < |m'.faces|
      ensures Stored(m', m'.faces[j].vertex1) && Stored(m', m'.faces[j].vertex2) && Stored(m', m'.faces[j].vertex3)
    {
      StoredGrows(m, m', m.faces[j].vertex1);
      StoredGrows(m, m', m.faces[j].vertex2);
      StoredGrows(m, m', m.faces[j].vertex3);
    }
    assert m'.vertexOrder[|m.vertexOrder|] == KeyOf(def);
  }

  /** One corner's def on a keyed mesh carries the corner's position and uv and the active layer. */
  lemma CornerStepOf(st: ObjState, part: string, num: NumberParsers)
    requires Keyed(st.mesh) && CornerStep(st, part, num).Success?
    ensures CornerOf(CornerStep(st, part, num).value.1, part, st.positions, st.uvs, st.activeMaterialIndex, num)
  {
  }

  /** One corner of a keyed mesh: its def is stored, and the mesh stays keyed and only grows. */
  lemma CornerStepStored(st: ObjState, part: string, num: NumberParsers)
    requires Keyed(st.mesh) && CornerStep(st, part, num).Success?
    ensures var (st', def) := CornerStep(st, part, num).value;
      Keyed(st'.mesh) && Stored(st'.mesh, def) && Grows(st.mesh, st'.mesh)
  {
  }

  /**
   * One corner keeps the numbering, and a def is new exactly when its id
   * was absent, in which case it takes the old counter and the counter
   * advances by one; otherwise nothing changes.
   */
  lemma CornerStepNumbered(st: ObjState, part: string, num: NumberParsers)
    requires Numbered(st.mesh, st.elementArrayIndex)
    requires 0 <= st.activeMaterialIndex < |st.mesh.materials|
    requires CornerStep(st, part, num).Success?
    ensures var (st', def) := CornerStep(st, part, num).value;
      Numbered(st'.mesh, st'.elementArrayIndex)
      && st'.mesh.faces == st.mesh.faces && st'.mesh.materials == st.mesh.materials
      && (if KeyOf(def) in st.mesh.vertices then st' == st
          else def.elementIndex == st.elementArrayIndex && st'.elementArrayIndex == st.elementArrayIndex + 1)
  {
    var corner := ParseCorner(part, st.positions, st.uvs, num).value;
    var id := BuildVertexDefId(corner.0, corner.1, st.activeMaterialIndex);
    if id !in st.mesh.vertices {
      var def := VertexDef(corner.0, corner.1, st.activeMaterialIndex, st.elementArrayIndex);
      NumberedAdd(st.mesh, def);
    }
  }

  /** Once a corner throws, every longer run of corners throws the same error. */
  lemma {:induction false} CornersFail(st: ObjState, parts: seq<string>, i: nat, n: nat, num: NumberParsers)
    requires i <= n <= |parts| && Corners(st, parts, i, num).Failure?
    ensures Corners(st, parts, n, num).Failure? && Corners(st, parts, n, num).error == Corners(st, parts, i, num).error
    decreases n
  {
    if n > i {
      CornersFail(st, parts, i, n - 1, num);
    }
  }

  /** The first n corners keep the numbering and leave faces and library alone. */
  lemma {:induction false} CornersNumbered(st: ObjState, parts: seq<string>, n: nat, num: NumberParsers)
    requires n <= |parts| && Numbered(st.mesh, st.elementArrayIndex)
    requires 0 <= st.activeMaterialIndex < |st.mesh.materials|
    requires Corners(st, parts, n, num).Success?
    ensures var st' := Corners(st, parts, n, num).value.0;
      Numbered(st'.mesh, st'.elementArrayIndex)
      && st'.mesh.faces == st.mesh.faces && st'.mesh.materials == st.mesh.materials
  {
    if n > 0 {
      CornersNumbered(st, parts, n - 1, num);
      CornerStepNumbered(Corners(st, parts, n - 1, num).value.0, parts[n - 1], num);
    }
  }

  /** The first n corners are the first n - 1 followed by the step at corner n - 1. */
  lemma CornersUnfold(st: ObjState, parts: seq<string>, n: nat, num: NumberParsers)
    requires 0 < n <= |parts| && Corners(st, parts, n, num).Success?
    ensures Corners(st, parts, n - 1, num).Success?
    ensures CornerStep(Corners(st, parts, n - 1, num).value.0, parts[n - 1], num).Success?
    ensures var prev := Corners(st, parts, n - 1, num).value;
      var step := CornerStep(prev.0, parts[n - 1], num).value;
      Corners(st, parts, n, num).value == (step.0, prev.1 + [step.1])
  {
  }

  /** The first n corners of a keyed mesh keep it keyed. */
  lemma {:induction false} CornersKeyed(st: ObjState, parts: seq<string>, n: nat, num: NumberParsers)
    requires n <= |parts| && Keyed(st.mesh) && Corners(st, parts, n, num).Success?
    ensures Keyed(Corners(st, parts, n, num).value.0.mesh)
  {
    if n > 0 {
      CornersUnfold(st, parts, n, num);
      CornersKeyed(st, parts, n - 1, num);
      CornerStepStored(Corners(st, parts, n - 1, num).value.0, parts[n - 1], num);
    }
  }

  /** The i-th of the first n corners has its def stored at the end. */
  lemma {:induction false} CornersStored(st: ObjState, parts: seq<string>, n: nat, num: NumberParsers, i: nat)
    requires n <= |parts| && Keyed(st.mesh)
    requires Corners(st, parts, n, num).Success? && i < n
    ensures Stored(Corners(st, parts, n, num).value.0.mesh, Corners(st, parts, n, num).value.1[i])
  {
    CornersUnfold(st, parts, n, num);
    CornersKeyed(st, parts, n - 1, num);
    var prev := Corners(st, parts, n - 1, num).value;
    CornerStepStored(prev.0, parts[n - 1], num);
    var step := CornerStep(prev.0, parts[n - 1], num).value;
    if i < n - 1 {
      CornersStored(st, parts, n - 1, num, i);
      StoredGrows(prev.0.mesh, step.0.mesh, prev.1[i]);
      assert (prev.1 + [step.1])[i] == prev.1[i];
    }
  }

  /** The i-th of the first n corners has that corner's def. */
  lemma {:induction false} CornersOf(st: ObjState, parts: seq<string>, n: nat, num: NumberParsers, i: nat)
    requires n <= |parts| && Keyed(st.mesh) && Corners(st, parts, n, num).Success? && i < n
    ensures CornerOf(Corners(st, parts, n, num).value.1[i], parts[i], st.positions, st.uvs, st.activeMaterialIndex, num)
  {
    CornersUnfold(st, parts, n, num);
    var prev := Corners(st, parts, n - 1, num).value;
    var step := CornerStep(prev.0, parts[n - 1], num).value;
    if i < n - 1 {
      CornersOf(st, parts, n - 1, num, i);
      assert (prev.1 + [step.1])[i] == prev.1[i];
    } else {
      CornersKeyed(st, parts, n - 1, num);
      CornerStepOf(prev.0, parts[n - 1], num);
    }
  }

  /** Appending a face of stored defs keeps the numbering. */
  lemma NumberedAddFace(m: MeshData, f: FaceDef)
    requires Numbered(m, |m.vertexOrder|) && Stored(m, f.vertex1) && Stored(m, f.vertex2) && Stored(m, f.vertex3)
    ensures Numbered(AddedFace(m, f), |m.vertexOrder|)
  {
    var m' := AddedFace(m, f);
    forall j | 0 <= j < |m'.faces|
      ensures Stored(m', m'.faces[j].vertex1) && Stored(m', m'.faces[j].vertex2) && Stored(m', m'.faces[j].vertex3)
    {
      if j < |m.faces| {
        assert m'.faces[j] == m.faces[j];
      }
    }
  }

  /**
   * A face line keeps the numbering and appends one face, whose three defs
   * are those of the line's three corners, in order, on the active layer.
   */
  lemma FaceLineNumbered(st: ObjState, data: string, num: NumberParsers)
    requires Numbered(st.mesh, st.elementArrayIndex) && FaceLine(st, data, num).Success?
    ensures var st' := FaceLine(st, data, num).value;
      var parts := Split(data, ' ');
      |parts| == 3 && Numbered(st'.mesh, st'.elementArrayIndex)
      && st'.positions == st.positions && st'.uvs == st.uvs && st'.activeMaterialIndex == st.activeMaterialIndex
      && st'.mesh.materials == st.mesh.materials
      && |st'.mesh.faces| == |st.mesh.faces| + 1 && st'.mesh.faces[..|st.mesh.faces|] == st.mesh.faces
      && var f := st'.mesh.faces[|st.mesh.faces|];
         CornerOf(f.vertex1, parts[0], st.positions, st.uvs, st.activeMaterialIndex, num) && CornerOf(f.vertex2, parts[1], st.positions, st.uvs, st.activeMaterialIndex, num)
         && CornerOf(f.vertex3, parts[2], st.positions, st.uvs, st.activeMaterialIndex, num)
  {
    var parts := Split(data, ' ');
    var n := |parts|;
    CornersNumbered(st, parts, n, num);
    CornersStored(st, parts, n, num, 0);
    CornersStored(st, parts, n, num, 1);
    CornersStored(st, parts, n, num, 2);
    CornersOf(st, parts, n, num, 0);
    CornersOf(st, parts, n, num, 1);
    CornersOf(st, parts, n, num, 2);
    var c := Corners(st, parts, n, num).value;
    NumberedAddFace(c.0.mesh, FaceDef(c.1[0], c.1[1], c.1[2]));
  }

  /**
   * Every line keeps the numbering, leaves the library as it is, and only
   * appends faces.
   */
  lemma ObjLineNumbered(st: ObjState, line: string, num: NumberParsers)
    requires Numbered(st.mesh, st.elementArrayIndex) && ObjLine(st, line, num).Success?
    ensures var st' := ObjLine(st, line, num).value;
      Numbered(st'.mesh, st'.elementArrayIndex) && st'.mesh.materials == st.mesh.materials
      && |st.mesh.faces| <= |st'.mesh.faces| && st'.mesh.faces[..|st.mesh.faces|] == st.mesh.faces
  {
    var parts := SplitOnce(line, ' ');
    if parts[0] == "f" {
      FaceLineNumbered(st, parts[1], num);
    }
  }

  /** A whole OBJ file keeps the numbering, leaves the library as it is, and only appends faces. */
  lemma {:induction false} ObjRunNumbered(st: ObjState, lines: seq<string>, num: NumberParsers)
    requires Numbered(st.mesh, st.elementArrayIndex) && ObjRun(st, lines, num).Success?
    ensures var st' := ObjRun(st, lines, num).value;
      Numbered(st'.mesh, st'.elementArrayIndex) && st'.mesh.materials == st.mesh.materials
      && |st.mesh.faces| <= |st'.mesh.faces| && st'.mesh.faces[..|st.mesh.faces|] == st.mesh.faces
    decreases |lines|
  {
    if |lines| > 0 {
      ObjLineNumbered(st, lines[0], num);
      var st1 := ObjLine(st, lines[0], num).value;
      ObjRunNumbered(st1, lines[1..], num);
      var st' := ObjRun(st1, lines[1..], num).value;
      assert st'.mesh.faces[..|st.mesh.faces|] == st'.mesh.faces[..|st1.mesh.faces|][..|st.mesh.faces|];
    }
  }

  // ----- Import -----

  /** Import: the MTL file into a fresh MeshDef, then the OBJ file into the same one. */
  function Imported(objLines: seq<string>, mtlLines: seq<string>, num: NumberParsers): Result<MeshData> {
    var library :- MtlFrom(mtlLines, 0, EmptyMesh, 0);
    var st :- ObjRun(ObjStart(library), objLines, num);
    Success(st.mesh)
  }

  /** A stored def of a numbered mesh has an element index below the vertex count. */
  lemma StoredBelow(m: MeshData, v: VertexDef)
    requires Numbered(m, |m.vertexOrder|) && Stored(m, v)
    ensures v.elementIndex < |m.vertexOrder|
  {
    var i :| 0 <= i < |m.vertexOrder| && m.vertexOrder[i] == KeyOf(v);
  }

  /** The i-th enumerated def of a numbered mesh has element index i. */
  lemma NumberedPlaced(m: MeshData)
    requires Numbered(m, |m.vertexOrder|)
    ensures forall i :: 0 <= i < |VertexValues(m)| ==> VertexValues(m)[i].elementIndex == i
    ensures MeshBuilders.Placed(VertexValues(m), |m.vertexOrder|)
  {
  }

  /**
   * An imported mesh has a library of distinct indices below its size, no
   * vertex on a layer outside it, the i-th def numbered i, and no face
   * corner outside the defs.
   */
  lemma ImportedNumbered(objLines: seq<string>, mtlLines: seq<string>, num: NumberParsers)
    requires Imported(objLines, mtlLines, num).Success?
    ensures var m := Imported(objLines, mtlLines, num).value;
      Numbered(m, |m.vertexOrder|) && Library(m.materials, |m.materials|)
  {
    MtlLibrary(mtlLines, 0, EmptyMesh, 0);
    var library := MtlFrom(mtlLines, 0, EmptyMesh, 0).value;
    ObjRunNumbered(ObjStart(library), objLines, num);
  }

  /**
   * The mesh builder accepts every numbered mesh: it does not throw, the
   * vertex array holds one record per def, and every element index names
   * a record.
   */
  lemma NumberedBuilds(m: MeshData)
    requires Numbered(m, |m.vertexOrder|)
    ensures var defs := VertexValues(m);
      var hasTextures := |m.materials| > 0;
      var b := MeshBuilders.Built(defs, m.faces, hasTextures);
      b.Success? && |b.value.vertices| == MeshBuilders.Slot(|defs|, hasTextures)
      && forall j :: 0 <= j < |b.value.indices| ==> b.value.indices[j] < |defs|
  {
    var defs := VertexValues(m);
    var hasTextures := |m.materials| > 0;
    var n := |m.vertexOrder|;
    NumberedPlaced(m);
    MeshBuilders.WrittenSucceeds(MeshBuilders.Zeros(MeshBuilders.Slot(n, hasTextures)), defs, hasTextures, n);
    forall j | 0 <= j < |m.faces|
      ensures m.faces[j].vertex1.elementIndex < n && m.faces[j].vertex2.elementIndex < n && m.faces[j].vertex3.elementIndex < n
    {
      StoredBelow(m, m.faces[j].vertex1);
      StoredBelow(m, m.faces[j].vertex2);
      StoredBelow(m, m.faces[j].vertex3);
    }
    MeshBuilders.FaceIndicesBelow(m.faces, n);
  }

  /** In the built mesh of a numbered mesh, the record of the i-th def starts at slot i. */
  lemma NumberedLayout(m: MeshData, i: int, k: int)
    requires Numbered(m, |m.vertexOrder|)
    requires 0 <= i < |m.vertexOrder| && 0 <= k < MeshBuilders.Stride(|m.materials| > 0)
    ensures var defs := VertexValues(m);
      var hasTextures := |m.materials| > 0;
      var b := MeshBuilders.Built(defs, m.faces, hasTextures);
      b.Success? && MeshBuilders.Slot(i, hasTextures) + k < |b.value.vertices|
      && b.value.vertices[MeshBuilders.Slot(i, hasTextures) + k] == MeshBuilders.VertexRecord(defs[i], hasTextures)[k]
  {
    var n := |m.vertexOrder|;
    NumberedPlaced(m);
    MeshBuilders.WrittenSlots(MeshBuilders.Zeros(MeshBuilders.Slot(n, |m.materials| > 0)), VertexValues(m),
                              |m.materials| > 0, n, i, k);
  }

  /** The mesh builder accepts every imported mesh (NumberedBuilds and NumberedLayout give its layout). */
  lemma ImportedBuilds(objLines: seq<string>, mtlLines: seq<string>, num: NumberParsers)
    requires Imported(objLines, mtlLines, num).Success?
    ensures Indexed(Imported(objLines, mtlLines, num).value)
    ensures var m := Imported(objLines, mtlLines, num).value;
      MeshBuilders.Built(VertexValues(m), m.faces, |m.materials| > 0).Success?
  {
    ImportedNumbered(objLines, mtlLines, num);
    NumberedBuilds(Imported(objLines, mtlLines, num).value);
  }

  // ----- The parser's methods -----

  /** SelectMaterial: the library index of the named material. */
  method SelectMaterial(meshDef: MeshDef, materialName: string) returns (r: Result<int>)
    ensures r == MaterialIndex(meshDef.Data(), materialName)
  {
    r := meshDef.GetMaterialIndex(materialName);
  }

  /** One pass of ParseFace's corner loop: look the corner's def up by id, adding it with the next element index if new. */
  method AddCorner(meshDef: MeshDef, vertices: seq<Vec3>, textureCoordinates: seq<Vec2>, activeMaterialIndex: int,
                   part: string, elementArrayIndex: nat, num: NumberParsers)
    returns (r: Outcome, vertexDef: VertexDef, nextElementIndex: nat)
    requires meshDef.Valid()
    modifies meshDef
    ensures meshDef.Valid()
    ensures var spec := CornerStep(ObjState(vertices, textureCoordinates, activeMaterialIndex, elementArrayIndex,
                                            old(meshDef.Data())), part, num);
      (r.Pass? <==> spec.Success?) && (r.Fail? ==> r.error == spec.error)
      && (r.Pass? ==> meshDef.Data() == spec.value.0.mesh && nextElementIndex == spec.value.0.elementArrayIndex
                      && vertexDef == spec.value.1)
  {
    nextElementIndex := elementArrayIndex;
    vertexDef := VertexDef(Vec3(ZeroFloat, ZeroFloat, ZeroFloat), ZeroVec2, 0, 0);
    var corner := ParseCorner(part, vertices, textureCoordinates, num);
    if corner.Failure? {
      return Fail(corner.error), vertexDef, nextElementIndex;
    }
    var (vertex, textureCoord) := corner.value;
    var vertexDefId := BuildVertexDefId(vertex, textureCoord, activeMaterialIndex);
    var found, existing := meshDef.TryGetVertex(vertexDefId);
    if found {
      return Pass, existing, nextElementIndex;
    }
    vertexDef := VertexDef(vertex, textureCoord, activeMaterialIndex, elementArrayIndex);
    r := meshDef.AddVertex(vertexDefId, vertexDef);
    if r.Fail? {
      return;
    }
    nextElementIndex := elementArrayIndex + 1;
  }

  /** ParseFace: the two checks, the loop over the three corners, then AddFace. */
  method ParseFace(meshDef: MeshDef, vertices: seq<Vec3>, textureCoordinates: seq<Vec2>, activeMaterialIndex: int,
                   data: string, elementArrayIndex: nat, num: NumberParsers)
    returns (r: Outcome, nextElementIndex: nat)
    requires meshDef.Valid()
    modifies meshDef
    ensures meshDef.Valid()
    ensures var spec := FaceLine(ObjState(vertices, textureCoordinates, activeMaterialIndex, elementArrayIndex,
                                          old(meshDef.Data())), data, num);
      (r.Pass? <==> spec.Success?) && (r.Fail? ==> r.error == spec.error)
      && (r.Pass? ==> meshDef.Data() == spec.value.mesh && nextElementIndex == spec.value.elementArrayIndex)
  {
    nextElementIndex := elementArrayIndex;
    if activeMaterialIndex < 0 || activeMaterialIndex >= |meshDef.materials| {
      return Fail(MaterialIndexOutOfRange), nextElementIndex;
    }
    var parts := Split(data, ' ');
    if |parts| != 3 {
      return Fail(FaceNotTriangle), nextElementIndex;
    }
    ghost var st0 := ObjState(vertices, textureCoordinates, activeMaterialIndex, elementArrayIndex, meshDef.Data());
    var faceVertices := new VertexDef[3](_ => VertexDef(Vec3(ZeroFloat, ZeroFloat, ZeroFloat), ZeroVec2, 0, 0));
    // |parts| is 3 here; the bound is written as |parts| so that the corner fold is not unfolded at a literal
    for i := 0 to |parts|
      invariant meshDef.Valid()
      invariant Corners(st0, parts, i, num)
             == Success((ObjState(vertices, textureCoordinates, activeMaterialIndex, nextElementIndex, meshDef.Data()),
                         faceVertices[..i]))
    {
      var corner, vertexDef;
      corner, vertexDef, nextElementIndex :=
        AddCorner(meshDef, vertices, textureCoordinates, activeMaterialIndex, parts[i], nextElementIndex, num);
      if corner.Fail? {
        assert Corners(st0, parts, i + 1, num) == Failure(corner.error);
        CornersFail(st0, parts, i + 1, |parts|, num);
        return corner, nextElementIndex;
      }
      faceVertices[i] := vertexDef;
      assert faceVertices[..i + 1] == faceVertices[..i] + [vertexDef];
    }
    meshDef.AddFace(FaceDef(faceVertices[0], faceVertices[1], faceVertices[2]));
    r := Pass;
  }

  /** One line of ParseObj's loop: the split at the first space and the switch on the tag. */
  method ParseLine(meshDef: MeshDef, line: string, vertices: seq<Vec3>, textureCoordinates: seq<Vec2>,
                   activeMaterialIndex: int, elementArrayIndex: nat, num: NumberParsers)
    returns (r: Outcome, vertices': seq<Vec3>, textureCoordinates': seq<Vec2>, activeMaterialIndex': int,
             elementArrayIndex': nat)
    requires meshDef.Valid()
    modifies meshDef
    ensures meshDef.Valid()
    ensures var spec := ObjLine(ObjState(vertices, textureCoordinates, activeMaterialIndex, elementArrayIndex,
                                         old(meshDef.Data())), line, num);
      (r.Pass? <==> spec.Success?) && (r.Fail? ==> r.error == spec.error)
      && (r.Pass? ==> spec.value == ObjState(vertices', textureCoordinates', activeMaterialIndex', elementArrayIndex',
                                             meshDef.Data()))
  {
    vertices', textureCoordinates', activeMaterialIndex', elementArrayIndex' :=
      vertices, textureCoordinates, activeMaterialIndex, elementArrayIndex;
    var parts := SplitOnce(line, ' ');
    if |parts| < 2 {
      r := Fail(IndexOutOfRange);
      return;
    }
    var kind, data := parts[0], parts[1];
    r := Pass;
    if kind == "v" {
      var vertex := ParseVertex(data, num);
      if vertex.Failure? {
        r := Fail(vertex.error);
        return;
      }
      vertices' := vertices + [vertex.value];
    } else if kind == "vt" {
      var textureCoord := ParseTextureCoordinate(data, num);
      if textureCoord.Failure? {
        r := Fail(textureCoord.error);
        return;
      }
      textureCoordinates' := textureCoordinates + [textureCoord.value];
    } else if kind == "vn" {
      // normals are ignored
    } else if kind == "f" {
      r, elementArrayIndex' :=
        ParseFace(meshDef, vertices, textureCoordinates, activeMaterialIndex, data, elementArrayIndex, num);
    } else if kind == "usemtl" {
      var selected := SelectMaterial(meshDef, data);
      if selected.Failure? {
        r := Fail(selected.error);
        return;
      }
      activeMaterialIndex' := selected.value;
    }
  }

  /** ParseObj: the line loop, with the v and vt lists, the active material and the element counter. */
  method ParseObj(lines: seq<string>, meshDef: MeshDef, num: NumberParsers) returns (r: Outcome)
    requires meshDef.Valid()
    modifies meshDef
    ensures meshDef.Valid()
    ensures var spec := ObjRun(ObjStart(old(meshDef.Data())), lines, num);
      (r.Pass? <==> spec.Success?) && (r.Fail? ==> r.error == spec.error)
      && (r.Pass? ==> meshDef.Data() == spec.value.mesh)
  {
    var vertices: seq<Vec3> := [];
    var textureCoordinates: seq<Vec2> := [];
    var activeMaterialIndex := -1;
    var elementArrayIndex: nat := 0;
    ghost var spec := ObjRun(ObjStart(meshDef.Data()), lines, num);
    for pos := 0 to |lines|
      invariant meshDef.Valid()
      invariant ObjRun(ObjState(vertices, textureCoordinates, activeMaterialIndex, elementArrayIndex, meshDef.Data()),
                       lines[pos..], num) == spec
    {
      assert lines[pos..][0] == lines[pos] && lines[pos..][1..] == lines[pos + 1..];
      var line: Outcome;
      line, vertices, textureCoordinates, activeMaterialIndex, elementArrayIndex :=
        ParseLine(meshDef, lines[pos], vertices, textureCoordinates, activeMaterialIndex, elementArrayIndex, num);
      if line.Fail? {
        return line;
      }
    }
    r := Pass;
  }

  /** Import: ParseMtl, then ParseObj, into one new MeshDef. */
  method Import(objLines: seq<string>, mtlLines: seq<string>, num: NumberParsers) returns (r: Result<MeshDef>)
    ensures r.Success? <==> Imported(objLines, mtlLines, num).Success?
    ensures r.Failure? ==> r.error == Imported(objLines, mtlLines, num).error
    ensures r.Success? ==> fresh(r.value) && r.value.Valid() && r.value.Data() == Imported(objLines, mtlLines, num).value
  {
    var meshDef := new MeshDef();
    var mtl := ParseMtl(mtlLines, meshDef);
    if mtl.Fail? {
      return Failure(mtl.error);
    }
    var obj := ParseObj(objLines, meshDef, num);
    if obj.Fail? {
      return Failure(obj.error);
    }
    r := Success(meshDef);
  }
}
