# A verified model of the nb3D Quake map viewer core

nb3D is a small C# viewer for Quake (BSP29) and Half-Life (BSP30) maps, with
an importer for Wavefront OBJ/MTL meshes. This project models the parts of it
that decode files and build geometry, and proves properties of that model:

- **BSP lumps** (`bsp.dfy`, `bytes.dfy`): the 124-byte header of fifteen
  (offset, size) lumps, the little-endian record decoders, record counts
  (C# division, which truncates), and lookups of records by id.
- **Queries on the tree** (`bsp_query.dfy`): the descent from a hull's root
  node to the leaf holding the camera, the first leaf of each hull, the polygon
  a surface's edge list winds, and the triangle fan over it.
- **The current map class** (`quake_map.dfy`, `miptex.dfy`, `lightmap.dfy`):
  it resolves textures (embedded pixels, else the first WAD that has the name),
  builds lightmap tiles from RGB (BSP30) or gray (BSP29) blocks, builds the
  7-float vertex records and the fan indices of every textured surface, and
  collects the meshes per leaf.
- **The older loader** (`quake_map_loader.dfy`): it accepts version 29 only,
  builds a texture array with no WAD lookup, writes 5-float vertex records and
  dumps the edges of a surface for debugging.
- **Visibility and rendering order** (`visibility.dfy`, `renderer.dfy`): the
  run-length decoder of a leaf's potentially-visible set, the complete-hull
  fallback, the hull loops of both renderers, and the lightmap chosen per mesh.
- **WAD3 archives, palettes and textures** (`wad3.dfy`, `palette.dfy`,
  `texture.dfy`): the directory walk, the miptex decoder, the 256-colour
  palette and the expansion of indexed pixels into RGB.
- **The OBJ/MTL importer** (`wavefront.dfy`, `text.dfy`, `mesh_def.dfy`,
  `mesh_builder.dfy`): the MTL material library, the OBJ line parser with its
  vertex-deduplicating face corners, the `MeshDef` container and the builder
  that turns it into interleaved vertex and index buffers.

Every operation that loops or changes state in the source is a `method` with
that loop, proved against a function that specifies it. The two map revisions
and `MeshDef` are classes whose fields those methods fill in. Everything else is
a value computed by functions, with lemmas relating the model to what the
format and the code promise. The exceptions the C# code throws on the modelled
inputs are `Failure`s of a `Result`: an index out of range, a span start
outside the file, a missing or duplicate dictionary key, a negative array size,
or the code's own throws. Reads through raw pointers, where C# does no
checking, become preconditions that the bytes lie inside the buffer. One
managed-array throw is a precondition as well, because no modelled caller
reaches it: `Palette.FromBytes` needs 768 bytes, and the WAD3 decoder passes
exactly 768. The palette file read, whose length nothing checks, is not
modelled. The texture constructor's two throws, on a negative
`Width * Height * 3` and on a store past that length, are `Failure`s of
`Texture.NewQuakeTexture`. The three texture loaders, however, require that
the constructor accepts every texture they load (`Miptex.MipFits`); this holds
exactly for textures of at most 715,827,882 raw pixels
(`Miptex.MipFitsExactly`). The loaders pass `(int)` casts of the header's
uint width and height (`Miptex.MipTextureWidth`), and a texture keeps those
`int`s. `int` sums and products that the source computes with wrap-around are
computed modulo 2^32 (`Bytes.Wrap32`), except for the ones listed under "Left out".

The code differs from the format's usual description in a few places. The
model follows the code in each case:

- Lightmap extents are `Ceiling((max - min) / Size)` of the texture
  coordinates, with no snapping to 16-texel boundaries and no clamp.
- Record counts truncate a lump size that is not a multiple of the record size.
  They are not rejected.
- Record accessors read at `offset + id * size`, computed in `int` (so it wraps), and do not check bounds.
- `LightMapCount` divides the lightmap lump size by the texture-info record
  size (`Bsp.LightMapCount`).

## Model

| member | source | states |
|---|---|---|
| QuakeMaps.QuakeMap.Open | nb3D/Map/QuakeMap.cs:186-206 | a version other than 29 or 30 fails with UnsupportedVersion before anything is loaded; otherwise the texture dictionary is LoadedTextures and the outcome is that of MeshesOf over all leaves |
| QuakeMaps.QuakeMap.Init | nb3D/Map/QuakeMap.cs:197-201 | the constructor's fields are as given, the full-lit tile is set, and both dictionaries start empty |
| QuakeMaps.QuakeMap.Load | nb3D/Map/QuakeMap.cs:197-204 | the new map's textures are LoadedTextures, and it succeeds exactly when MeshesOf does, with those meshes, else fails with MeshesOf's exception |
| Bsp.ReadHeader | nb3D/Map/QuakeMap.cs:146-164 | the header has its fifteen lumps and its version is the file's first int32 |
| Bsp.ReadHeaderLumps | nb3D/Map/QuakeMap.cs:140-164 | every lump field is decoded from its own eight header bytes, little-endian |
| Bsp.CountTruncates | nb3D/Map/QuakeMap.cs:177-183 | a record count truncates toward zero: the counted records fit in the lump and one more would not |
| Bsp.CountedRecordsInLump | nb3D/Map/QuakeMap.cs:177-183 | every record id below the count of a lump of non-negative size lies inside that lump |
| Bsp.CountedRecordsDisjoint | nb3D/Map/QuakeMap.cs:560-567 | in a lump at a non-negative offset that ends below 2^31, every counted record is read without wrap-around and inside the lump, and two distinct ids read disjoint byte ranges |
| Bsp.NodeRecordLocal | nb3D/Map/QuakeMap.cs:257 | a node is decoded from its own record's bytes only |
| Bsp.SurfaceRecordLocal | nb3D/Map/QuakeMap.cs:261 | a surface is decoded from its own record's bytes only |
| Bsp.LeafRecordLocal | nb3D/Map/QuakeMap.cs:255 | a leaf is decoded from its own record's bytes only |
| Bsp.EdgeIdLayout | nb3D/Map/QuakeMap.cs:279-287 | an edge-list entry is negative exactly when the top bit of its last byte is set |
| Bytes.ToSigned16 | nb3D/Map/QuakeMap.cs:72-73 | two's-complement reading of a 16-bit field: the same value modulo 2^16, negative exactly when the top bit is set |
| Bytes.ToSigned32 | nb3D/Map/QuakeMap.cs:146-164 | two's-complement reading of a 32-bit field: the same value modulo 2^32, negative exactly when the top bit is set |
| Bytes.U16RoundTrip | nb3D/Map/QuakeMap.cs:560-567 | decoding a 16-bit field and encoding it again gives back its bytes, in both directions |
| Bytes.U32RoundTrip | nb3D/Map/QuakeMap.cs:560-567 | decoding a 32-bit field and encoding it again gives back its bytes, in both directions |
| Bytes.CStringAt | nb3D/Map/QuakeMap.cs:303 | the name is the bytes up to the first NUL after the start, which it does not include |
| BspQuery.LeafOfChild | nb3D/Map/QuakeMap.cs:229 | a negative child n names leaf -(n + 1) |
| BspQuery.DescentStep | nb3D/Map/QuakeMap.cs:215-232 | an unfolding of LeafReached by one node, for callers: the front or back child is taken; a non-negative child continues the descent and a negative one ends it at its leaf |
| BspQuery.TryFindLeafAt | nb3D/Map/QuakeMap.cs:208-235 | the descent from the hull's first node returns the leaf LeafReached, and the flag is always true |
| BspQuery.LeafReachedFuelIndependent | nb3D/Map/QuakeMap.cs:208-235 | the leaf found depends only on the tree and the point, not on the fuel bound |
| BspQuery.FirstLeafIdStep | nb3D/Map/QuakeMap.cs:241-251 | hull 0 starts at leaf 0, and hull k + 1 starts VisLeafCount(k) leaves after hull k, in wrapping 32-bit arithmetic |
| BspQuery.FirstLeafIdExact | nb3D/Map/QuakeMap.cs:241-251 | when the earlier hulls' counts add up to an int, the first leaf is their exact sum |
| BspQuery.GetHullFirstLeafId | nb3D/Map/QuakeMap.cs:241-251 | the loop returns the 32-bit wrapping sum of VisLeafCount over the earlier hulls |
| BspQuery.Polygon | nb3D/Map/QuakeMap.cs:359-382 | the polygon has one vertex per edge-list entry, in list order |
| BspQuery.PolygonWinding | nb3D/Map/QuakeMap.cs:369-382 | vertex e is Vertex0 of edge EdgeIndex(id) for a positive id and Vertex1 otherwise, id 0 included |
| BspQuery.MinEdgeIdReadsEdgeZero | nb3D/Map/QuakeMap.cs:378 | the negation of int.MinValue wraps to itself, and its record offset wraps to that of edge 0 |
| BspQuery.ReadPolygonVertex | nb3D/Map/QuakeMap.cs:372-379 | one pass of the vertex loop reads the entry, the edge and the vertex PolygonVertex names |
| BspQuery.BuildPolygon | nb3D/Map/QuakeMap.cs:369-382 | the vertex loop builds exactly Polygon |
| BspQuery.FanIndices | nb3D/Map/QuakeMap.cs:419-422 | a fan over n vertices has 3(n - 2) indices |
| BspQuery.FanTriangles | nb3D/Map/QuakeMap.cs:447-452 | triangle k is (0, k + 1, k + 2), and every index names a polygon vertex |
| BspQuery.WriteFanIndices | nb3D/Map/QuakeMap.cs:447-452 | the index loop writes exactly FanIndices |
| QuakeMaps.VertexRecordAt | nb3D/Map/QuakeMap.cs:424-445 | record v is vertex v's position, texture coordinate and lightmap coordinate |
| QuakeMaps.SurfaceVertexRecordAt | nb3D/Map/QuakeMap.cs:424-445 | floats 7v to 7v + 6 of the buffer are vertex v's record |
| QuakeMaps.SurfaceVertexLayout | nb3D/Map/QuakeMap.cs:415-445 | 7 floats per vertex: position at 7v..7v+2, texture coordinate at 7v+3 and 7v+4, lightmap coordinate at 7v+5 and 7v+6 |
| QuakeMaps.QuakeMap.WriteVertexRecord | nb3D/Map/QuakeMap.cs:430-444 | one pass of the vertex loop writes the vertex's seven-float record at the write position and leaves every other float as it was |
| QuakeMaps.QuakeMap.BuildSurfaceVertexData | nb3D/Map/QuakeMap.cs:408-453 | the buffers are VertexBuffers: a missing texture id, fewer than two vertices or too few lightmap coordinates throw; otherwise the interleaved records and the fan |
| QuakeMaps.BlockLightmap | nb3D/Map/QuakeMap.cs:455-523 | no vertices throw (Min and Max of nothing), a block larger than the tile throws, and otherwise the tile holds the block with one coordinate per vertex |
| QuakeMaps.QuakeMap.BuildLightmap | nb3D/Map/QuakeMap.cs:455-523 | the method computes BlockLightmap |
| QuakeMaps.SurfaceLightmap | nb3D/Map/QuakeMap.cs:384-397 | a surface with LightmapOffset -1 gets the full-lit tile and zero coordinates, any other surface its block |
| Lightmap.FullLitLightmap | nb3D/Map/QuakeMap.cs:525-531 | the shared tile is 16 x 16 RGB texels, every byte 255 |
| Lightmap.BuildLightmapTile | nb3D/Map/QuakeMap.cs:476-518 | a block larger than the tile throws; otherwise the tile is TileOf, Size x Size x 3 bytes |
| Lightmap.TileCopy | nb3D/Map/QuakeMap.cs:499-518 | every copy of source byte i in the tile holds that byte |
| Lightmap.TilePlacement | nb3D/Map/QuakeMap.cs:499-518 | source byte i goes to row i / (w c) of the tile, as is for RGB and into all three channels of its luxel for gray |
| Lightmap.TileOutsideWhite | nb3D/Map/QuakeMap.cs:490-493 | tile bytes outside the block keep the fill value 255 |
| Lightmap.TargetReadsSource | nb3D/Map/QuakeMap.cs:501-516 | every tile position the loop writes source byte i to reads back byte i |
| Lightmap.OnlyTargetReadsSource | nb3D/Map/QuakeMap.cs:501-516 | no other tile position holds source byte i, so the copy is one to one |
| Lightmap.CopySourceByte | nb3D/Map/QuakeMap.cs:504-517 | one pass of the copy loop changes exactly the copies of source byte i |
| QuakeMaps.SurfaceMeshOutcome | nb3D/Map/QuakeMap.cs:356-405 | a surface is dropped exactly when its texture id is not in the dictionary; a textured one fails exactly on an empty block, one larger than the tile, or fewer than two vertices |
| QuakeMaps.SurfaceMeshContents | nb3D/Map/QuakeMap.cs:356-405 | a built mesh has the surface's texture, the records of its polygon, the fan indices and its lightmap (the full-lit tile when it has none) |
| QuakeMaps.QuakeMap.TryCreateSurfaceMesh | nb3D/Map/QuakeMap.cs:356-405 | the method computes SurfaceMesh |
| QuakeMaps.SurfaceKept | nb3D/Map/QuakeMap.cs:345-348 | a slot whose surface builds yields a mesh exactly when it is textured |
| QuakeMaps.LeafMeshesInOrder | nb3D/Map/QuakeMap.cs:338-352 | a leaf keeps the meshes of exactly its textured surfaces, in strictly increasing slot order |
| QuakeMaps.KeptSlotsTextured | nb3D/Map/QuakeMap.cs:345-348 | a slot is kept exactly when its surface's texture is in the dictionary |
| QuakeMaps.LeafMeshesFailure | nb3D/Map/QuakeMap.cs:340-350 | the first slot whose surface throws aborts the leaf with that exception |
| QuakeMaps.QuakeMap.TryCreateSlotMesh | nb3D/Map/QuakeMap.cs:345 | TryCreateSurfaceMesh on the surface that slot k of the leaf names |
| QuakeMaps.ShortCursorNeverEnds | nb3D/Map/QuakeMap.cs:340-343 | on a leaf whose SurfaceListIndex + SurfaceCount exceeds 0x7FFF, every value of the short cursor stays below the loop bound, and the increment wraps 0x7FFF to -0x8000 |
| QuakeMaps.QuakeMap.LoadLeafMeshes | nb3D/Map/QuakeMap.cs:340-350 | the slot loop, run with any step that agrees with TryCreateSlotMesh on the slots it reads, keeps the meshes of the textured surfaces in slot order and stops at the first exception |
| QuakeMaps.QuakeMap.LoadLeaf | nb3D/Map/QuakeMap.cs:337-352 | one pass of the leaf loop computes LeafEntryMeshes |
| QuakeMaps.QuakeMap.LoadLeaves | nb3D/Map/QuakeMap.cs:335-353 | the leaf loop, run with any step that agrees with LoadLeaf, maps every leaf id below LeafCount to its meshes or stops at the first exception |
| QuakeMaps.QuakeMap.LoadMeshes | nb3D/Map/QuakeMap.cs:333-354 | the textures are untouched; the loop succeeds exactly when MeshesOf does and then adds its entries to the dictionary, else it fails with MeshesOf's exception |
| QuakeMaps.MeshesOfLeaves | nb3D/Map/QuakeMap.cs:333-354 | after the loop every leaf below the count has an entry holding its own meshes, and there are no other entries |
| QuakeMaps.MeshesOfFailure | nb3D/Map/QuakeMap.cs:333-354 | the first leaf that throws aborts the loop with that exception |
| QuakeMaps.TextureDictionary | nb3D/Map/QuakeMap.cs:299-328 | an embedded texture is present, with its header's name, the int casts of its width and height, and the expansion of its own pixels; an external one is present exactly when some WAD has its name, and then it is the first such WAD's |
| QuakeMaps.QuakeMap.LoadTextures | nb3D/Map/QuakeMap.cs:289-331 | the texture dictionary becomes LoadedTextures |
| QuakeMaps.QuakeMap.CollectTextures | nb3D/Map/QuakeMap.cs:299-329 | the loop collects LoadedTextures |
| QuakeMaps.QuakeMap.AddTexture | nb3D/Map/QuakeMap.cs:325-328 | texture t is added exactly when it resolves |
| QuakeMaps.QuakeMap.LoadTexture | nb3D/Map/QuakeMap.cs:301-323 | the method computes ResolveTexture: embedded pixels when Offset1 is not 0, else the WAD lookup |
| QuakeMaps.FindInWadsFirstMatch | nb3D/Map/QuakeMap.cs:570-582 | the lookup fails exactly when no WAD has the name, and otherwise the first WAD that has it wins |
| QuakeMaps.TryFindTextureInWads | nb3D/Map/QuakeMap.cs:570-582 | the loop returns FindInWads, with its flag true exactly when a texture was found |
| QuakeMaps.QuakeMap.GetLeafMeshes | nb3D/Map/QuakeMap.cs:239 | a leaf without an entry throws KeyNotFound; otherwise its stored meshes |
| Miptex.MipPixelCountWraps | nb3D/Map/QuakeMap.cs:319 | the uint product Width * Height never exceeds the true product and equals it when the product fits in 32 bits |
| Miptex.MipFitsExactly | nb3D/Map/QuakeMap.cs:319-322 | on the int casts of the header's width and height, the constructor accepts the W*H raw pixels exactly when there are at most 715,827,882 of them, and its buffer then holds three bytes per raw pixel |
| Miptex.CastFits | nb3D/Map/QuakeMap.cs:319-322 | the same on any two uints: the int product of their casts agrees with their uint product modulo 2^32 |
| QuakeMapLoader.Map.Open | nb3D/QuakeMapLoader.cs:188-206 | a version other than 29 fails with UnsupportedVersion; otherwise the texture array is TextureArray and the outcome that of MeshesOf |
| QuakeMapLoader.Map.Init | nb3D/QuakeMapLoader.cs:199-201 | the constructor's fields are as given, and the mesh dictionary starts empty |
| QuakeMapLoader.TextureArrayContents | nb3D/QuakeMapLoader.cs:313-339 | one entry per id below the count, each decoded from the map with its header's name, the int casts of its uint width and height, and the palette expansion of the W*H bytes at Offset1 |
| QuakeMapLoader.Map.LoadTextures | nb3D/QuakeMapLoader.cs:313-339 | the method returns TextureArray: a negative count cannot allocate the array and throws |
| QuakeMapLoader.Map.StoreTexture | nb3D/QuakeMapLoader.cs:334 | writes texture t of TextureArray at index t and leaves every other slot as it was |
| QuakeMapLoader.Map.LoadTexture | nb3D/QuakeMapLoader.cs:326-334 | the method computes EmbeddedTexture |
| QuakeMapLoader.EmbeddedTexturesAgree | nb3D/QuakeMapLoader.cs:324-335 | when every texture is embedded, this revision's array and the current revision's dictionary hold the same textures under the same ids |
| QuakeMapLoader.SurfaceVertexRecordAt | nb3D/QuakeMapLoader.cs:416-432 | floats 5v to 5v + 4 of the buffer are vertex v's record |
| QuakeMapLoader.SurfaceVertexLayout | nb3D/QuakeMapLoader.cs:400-432 | 5 floats per vertex: position at 5v..5v+2, texture coordinate at 5v+3 and 5v+4 |
| QuakeMapLoader.Map.WriteVertexRecord | nb3D/QuakeMapLoader.cs:419-431 | one pass of the vertex loop writes the vertex's five-float record at the write position and leaves every other float as it was |
| QuakeMapLoader.Map.BuildSurfaceVertexData | nb3D/QuakeMapLoader.cs:392-440 | the buffers are VertexBuffers: a texture id outside the array or fewer than two vertices throw; otherwise the records and the fan |
| QuakeMapLoader.SurfaceMeshOutcome | nb3D/QuakeMapLoader.cs:362-389 | a texture id outside the array fails with an index error, fewer than two edges fail, and every other surface builds |
| QuakeMapLoader.SurfaceMeshContents | nb3D/QuakeMapLoader.cs:362-389 | a built mesh has the surface's own texture, its polygon's 5-float records and the fan indices |
| QuakeMapLoader.Map.CreateSurfaceMesh | nb3D/QuakeMapLoader.cs:362-389 | the method computes SurfaceMesh |
| QuakeMapLoader.Map.CreateSlotMesh | nb3D/QuakeMapLoader.cs:353-355 | CreateSurfaceMesh on the surface that slot k of the leaf names |
| QuakeMapLoader.LeafMeshesPerSlot | nb3D/QuakeMapLoader.cs:348-358 | a leaf whose surfaces all build has one mesh per slot, and mesh j is that of slot j |
| QuakeMapLoader.LeafMeshesFailure | nb3D/QuakeMapLoader.cs:348-356 | the first slot whose surface throws aborts the leaf with that exception |
| QuakeMapLoader.Map.CreateNextSlot | nb3D/QuakeMapLoader.cs:353-355 | one pass of the slot loop: the meshes of slots 0 .. k when slot k builds, otherwise the exception of slot k, exactly as the loop outcome after k + 1 passes |
| QuakeMapLoader.Map.CreateLeafMeshes | nb3D/QuakeMapLoader.cs:348-356 | the slot loop, run with any step that agrees with CreateSlotMesh on the slots it reads, collects one mesh per slot in slot order or stops at the first exception |
| QuakeMapLoader.Map.CreateLeaf | nb3D/QuakeMapLoader.cs:345-358 | one pass of the leaf loop computes LeafEntryMeshes |
| QuakeMapLoader.Map.CreateLeaves | nb3D/QuakeMapLoader.cs:343-359 | the leaf loop, run with any step that agrees with CreateLeaf, maps every leaf id below LeafCount to its meshes or stops at the first exception |
| QuakeMapLoader.Map.CreateMeshes | nb3D/QuakeMapLoader.cs:341-360 | the mesh dictionary becomes MeshesOf, or the first exception escapes |
| QuakeMapLoader.MeshesOfLeaves | nb3D/QuakeMapLoader.cs:341-360 | every leaf below the count has an entry with one mesh per slot, in slot order, and there are no other entries |
| QuakeMapLoader.MeshesOfFailure | nb3D/QuakeMapLoader.cs:341-360 | the first leaf that throws aborts the loop with that exception |
| QuakeMapLoader.DebugEdgeIds | nb3D/QuakeMapLoader.cs:297-305 | a positive edge id runs Vertex0 to Vertex1, any other id Vertex1 to Vertex0 |
| QuakeMapLoader.SurfaceDebugEdges | nb3D/QuakeMapLoader.cs:289-311 | one edge per edge-list entry, in list order, between the endpoints DebugEdgeIds names |
| QuakeMapLoader.DebugEdgeEndpoints | nb3D/QuakeMapLoader.cs:295-308 | each dumped edge starts at the polygon vertex that mesh building uses for that entry |
| Visibility.DecodeVisibilityList | nb3D/SceneRenderer.cs:109-136 | the cursor loop fails with IndexOutOfRange exactly when VisDecode (cursor 1, offset 0) reads past the end of the list, and otherwise emits exactly VisDecode's ids |
| Visibility.EmitMask | nb3D/SceneRenderer.cs:125-133 | a mask byte emits cursor + i for each set bit i, and the cursor advances by 8 |
| Visibility.BitOfNext | nb3D/SceneRenderer.cs:125 | doubling the tested bit as a byte moves to the next bit and wraps to 0 after the eighth |
| Visibility.MaskLeavesBounds | nb3D/SceneRenderer.cs:125-133 | a mask selects cursor + i exactly for its set bits i, in increasing order, within eight leaves of the cursor |
| Visibility.VisDecodeBounds | nb3D/SceneRenderer.cs:113-135 | the emitted ids strictly increase from the starting cursor and stay below leafCount + 7 |
| Visibility.VisListIds | nb3D/SceneRenderer.cs:113-115 | decoding a whole list never emits leaf 0 |
| Visibility.ZeroRunExample | nb3D/SceneRenderer.cs:118-122 | example on one input: a zero byte with run count 1 skips eight leaves |
| Visibility.FullMaskOverrunExample | nb3D/SceneRenderer.cs:125-131 | example on one input: a mask is not cut at the leaf count, so [0xFF] with 2 leaves emits leaves 1 to 8 |
| Visibility.TruncatedListExample | nb3D/SceneRenderer.cs:118-120 | example on one input: a list that ends before the cursor reaches the count reads past its end |
| Visibility.HullRangeCount | nb3D/SceneRenderer.cs:143-146 | the complete hull ascends from its first leaf; without wrap-around it has VisLeafCount leaves (none for a count <= 0), and when first + VisLeafCount wraps past int.MaxValue it has none |
| Visibility.RenderCompleteHull | nb3D/SceneRenderer.cs:138-147 | the method returns HullRange from GetHullFirstLeafId, up to the wrapped bound |
| Visibility.HullLeavesOutcome | nb3D/SceneRenderer.cs:96-134 | a hull fails only through its visibility list: ArgumentOutOfRange for a start outside the file (QuakeMap.cs:237), IndexOutOfRange exactly when the decoder reads past the list; a success strictly increases, and a list never yields leaf 0 |
| Visibility.SelectHullLeaves | nb3D/SceneRenderer.cs:86-105 | the hull loop body returns HullLeaves: the complete hull when the camera leaf's VisList is -1, else its decoded list, or the exception |
| Renderers.SceneRenderMap | nb3D/SceneRenderer.cs:84-106 | only hull 0 is selected, and its exception escapes |
| Renderers.SceneIsFirstHullOfSystem | nb3D/SceneRenderer.cs:84 | the scene renderer fails when hull 0 of the render system fails; a successful render system draws the scene's leaves first; on a map without hulls it draws nothing |
| Renderers.RenderLeaf | nb3D/SceneRenderer.cs:149-161 | a leaf without a mesh entry throws KeyNotFound, and only such a leaf; otherwise ChosenLightmaps of its meshes, in order |
| Renderers.ChosenLightmaps | nb3D/SceneRenderer.cs:155 | one lightmap per mesh |
| Renderers.ChosenLightmapsCases | nb3D/SceneRenderer.cs:155 | with lightmaps enabled each mesh gets its own lightmap, otherwise the all-white 16 x 16 tile |
| Renderers.SystemRenderMap | nb3D/Systems/RenderSystem.cs:48-81 | every hull below HullCount is selected, hull after hull, until the first exception |
| Renderers.RenderHulls | nb3D/Systems/RenderSystem.cs:59-81 | the hull loop returns the first hull's exception, or the selections joined in hull order |
| Renderers.MapLeavesBlocks | nb3D/Systems/RenderSystem.cs:59-81 | after a successful loop every hull succeeded, and each hull's selection is one contiguous block right after those of the earlier hulls |
| Renderers.MapLeavesFailure | nb3D/Systems/RenderSystem.cs:59-81 | the first hull whose selection throws aborts the loop with that exception |
| Wad3.ReadEntries | nb3D/Map/WAD3.cs:65-95 | the method computes WadOf: the magic test, then the directory walk |
| Wad3.MagicRequired | nb3D/Map/WAD3.cs:69-74 | an archive fails with the format error exactly when it lacks the WAD3 magic |
| Wad3.FailsIffCompressed | nb3D/Map/WAD3.cs:84-87 | the walk fails exactly when an entry it reads is compressed, and then with that error |
| Wad3.EntryPosWraps | nb3D/Map/WAD3.cs:81-82 | entry i sits 32 * i bytes past DirOffset while the int product fits; entry 2^26 wraps back to DirOffset - 2^31 |
| Wad3.MipTypeIsByte12 | nb3D/Map/WAD3.cs:18-24 | once the entry is known uncompressed, the two-byte FileType test amounts to byte 12 being 0x43 |
| Wad3.TexturesStep | nb3D/Map/WAD3.cs:79-93 | one directory entry: compressed fails, a miptex is added under its name, anything else is skipped |
| Wad3.FailureSticks | nb3D/Map/WAD3.cs:84-87 | once the walk has failed, later entries do not change the outcome |
| Wad3.TextureMembership | nb3D/Map/WAD3.cs:89-92 | after a successful walk a name is present exactly when some miptex entry has it |
| Wad3.LastEntryWins | nb3D/Map/WAD3.cs:117 | a name maps to the texture of the last miptex entry that has it |
| Wad3.LoadTexture | nb3D/Map/WAD3.cs:97-118 | the texture is WadTextureAt: the name, the int casts of the width and height, the palette after the fourth mip level and the W*H full-size pixels |
| Texture.ExpandedPixelsContents | nb3D/Map/QuakeTexture.cs:55-64 | the buffer has the wrapped int length Width * Height * 3; one RGB triple per raw pixel: pixel i is the palette colour of index i, and bytes past the indices stay black |
| Texture.FitsBelowMax | nb3D/Map/QuakeTexture.cs:55-63 | whatever the dimensions, the constructor throws on more than 715,827,882 raw pixels, since their three bytes each must fit in an int length |
| Texture.BuildTexturePixels | nb3D/Map/QuakeTexture.cs:53-67 | the loop builds ExpandedPixels; it fails exactly when the raw pixels do not fit, with NegativeArraySize on a negative length and IndexOutOfRange on a store past it |
| Texture.NewQuakeTexture | nb3D/Map/QuakeTexture.cs:14-31 | name, width and height are kept as given and the pixels are expanded, or it throws exactly what BuildTexturePixels throws |
| Palette.FromBytes | nb3D/Map/QuakePalette.cs:16-26 | the constructor's loop builds PaletteOf: 256 colours, colour i from bytes 3i to 3i + 2 |
| Palette.GetColorOfBuilt | nb3D/QuakePalette.cs:37-49 | looking up index i in a built palette gives bytes 3i, 3i + 1 and 3i + 2 |
| Palette.ExtraBytesIgnored | nb3D/QuakePalette.cs:39-44 | bytes after the first 768 do not change the palette |
| Palette.GetColor | nb3D/Map/QuakePalette.cs:28 | every byte value names a stored colour |
| MeshDefs.AddedVertexFound | nb3D/MeshDef.cs:48-51 | adding fails exactly on a present key; otherwise the vertex is found under its key, other keys keep theirs, and it is enumerated last |
| MeshDefs.AddedMaterialIndex | nb3D/MeshDef.cs:55-57 | adding fails exactly on a present name; otherwise the name answers the material's index and other names what they answered before |
| MeshDefs.MeshDef.constructor | nb3D/MeshDef.cs:40-42 | a new MeshDef has no vertices, faces or materials |
| MeshDefs.MeshDef.AddVertex | nb3D/MeshDef.cs:48 | the state becomes AddedVertex, or a present key fails with DuplicateKey and changes nothing |
| MeshDefs.MeshDef.TryGetVertex | nb3D/MeshDef.cs:50-51 | found exactly when the key is present, with its vertex |
| MeshDefs.MeshDef.AddFace | nb3D/MeshDef.cs:53 | the face is appended and nothing else changes |
| MeshDefs.MeshDef.AddMaterial | nb3D/MeshDef.cs:55 | the state becomes AddedMaterial, or a present name fails with DuplicateKey and changes nothing |
| MeshDefs.MeshDef.GetMaterialIndex | nb3D/MeshDef.cs:57 | the named material's index, or KeyNotFound |
| MeshDefs.VertexValues | nb3D/MeshDef.cs:44 | the dictionary's values, one per key, in enumeration order |
| MeshBuilders.Build | nb3D/MeshBuilder.cs:7-45 | the method computes Built from the MeshDef's vertices in enumeration order, its faces and whether it has materials |
| MeshBuilders.BuildVertices | nb3D/MeshBuilder.cs:9-27 | the vertex loop computes WrittenVertices over a zeroed array of Count * stride floats |
| MeshBuilders.BuildFaceIndices | nb3D/MeshBuilder.cs:29-40 | the index loop computes FaceIndices |
| MeshBuilders.FaceIndices | nb3D/MeshBuilder.cs:29-40 | face i's three element indices sit at 3i, 3i + 1 and 3i + 2, in vertex order |
| MeshBuilders.WriteVertex | nb3D/MeshBuilder.cs:15-26 | one pass writes the def's record at its slot, or reports the write that throws |
| MeshBuilders.WrittenSucceeds | nb3D/MeshBuilder.cs:11-27 | with distinct element indices below the count, the vertex loop does not throw and keeps the length |
| MeshBuilders.WrittenFails | nb3D/MeshBuilder.cs:15-19 | a def whose element index is not below the count makes the loop throw |
| MeshBuilders.WrittenSlots | nb3D/MeshBuilder.cs:13-26 | each def's record sits at its element index times the stride |
| MeshBuilders.WrittenKeepsAt | nb3D/MeshBuilder.cs:11-27 | positions in no def's slot keep their value |
| MeshBuilders.FaceIndicesBelow | nb3D/MeshBuilder.cs:37-39 | every index is below n when every face corner is |
| MeshBuilders.VertexRecord | nb3D/MeshBuilder.cs:17-25 | 3 floats without textures and 6 with: the position, then the uv and the layer as a float |
| Wavefront.Import | nb3D/WavefrontImporter.cs:8-18 | the MeshDef holds Imported: the MTL file, then the OBJ file, into one new MeshDef |
| Wavefront.ParseMtl | nb3D/WavefrontImporter.cs:20-37 | the loop computes MtlFrom from line 0 with no materials read |
| Wavefront.MtlLibrary | nb3D/WavefrontImporter.cs:24-35 | reading an MTL file only adds materials, numbered 0, 1, 2 and so on in block order |
| Wavefront.MtlBlockNumbered | nb3D/WavefrontImporter.cs:28-34 | a newmtl block read after n materials gives a material named by its second token, with index n and the block's texture |
| Wavefront.MtlKeeps | nb3D/WavefrontImporter.cs:26-36 | materials already in the library are kept |
| Wavefront.LibraryAdd | nb3D/WavefrontImporter.cs:33-34 | a new material numbered with the count keeps the library dense |
| Wavefront.ParseMaterial | nb3D/WavefrontImporter.cs:39-63 | the block loop computes MaterialBlock and stops past the block's empty line |
| Wavefront.BlockEnd | nb3D/WavefrontImporter.cs:44-49 | the block ends at its first empty line or at the end of the file |
| Wavefront.BlockTextureLast | nb3D/WavefrontImporter.cs:51-54 | the last map_Kd line's second token wins |
| Wavefront.BlockTextureThrows | nb3D/WavefrontImporter.cs:53 | a map_Kd line without a second token throws |
| Wavefront.MaterialBlockTexture | nb3D/WavefrontImporter.cs:44-62 | a block without a texture throws MissingTexturePath; otherwise the material has the block's name, index and last texture |
| Wavefront.ParseObj | nb3D/WavefrontImporter.cs:65-103 | the line loop computes ObjRun from the empty state |
| Wavefront.ObjLineDispatch | nb3D/WavefrontImporter.cs:76-101 | a line without a space throws; vn and unknown tags change nothing |
| Wavefront.FaceBeforeUsemtl | nb3D/WavefrontImporter.cs:70 | a face before any usemtl line throws |
| Wavefront.FaceChecks | nb3D/WavefrontImporter.cs:129-139 | a face with no material selected or past the library throws, and a face needs three corners |
| Wavefront.ParseFace | nb3D/WavefrontImporter.cs:122-169 | the method computes FaceLine |
| Wavefront.CornerOneBased | nb3D/WavefrontImporter.cs:152-155 | corner tokens are 1-based: k selects position k - 1, and 0 is out of range |
| Wavefront.CornerStepNumbered | nb3D/WavefrontImporter.cs:156-163 | a corner's def is new exactly when its id was absent, and then takes the counter, which advances by one |
| Wavefront.Corners | nb3D/WavefrontImporter.cs:143-166 | n corners give n defs and leave the positions, uvs and active material as they were |
| Wavefront.CornersFail | nb3D/WavefrontImporter.cs:143-150 | once a corner throws, every longer run of corners throws the same error |
| Wavefront.CornersNumbered | nb3D/WavefrontImporter.cs:143-166 | the corners keep the numbering and leave faces and library alone |
| Wavefront.CornersOf | nb3D/WavefrontImporter.cs:145-165 | the i-th def is that of the i-th corner |
| Wavefront.FaceLineNumbered | nb3D/WavefrontImporter.cs:165-168 | a face line appends one face of its three corners' defs, on the active layer |
| Wavefront.ObjRunNumbered | nb3D/WavefrontImporter.cs:74-102 | a whole OBJ file keeps the numbering and the library, and only appends faces |
| Wavefront.ImportedNumbered | nb3D/WavefrontImporter.cs:8-18 | an imported mesh numbers its defs 0 to n - 1, uses only library layers and has no face corner outside its defs |
| Wavefront.NumberedBuilds | nb3D/MeshBuilder.cs:11-40 | the builder does not throw on a numbered mesh, one record per def, every index naming a record |
| Wavefront.NumberedLayout | nb3D/MeshBuilder.cs:15-26 | the record of the i-th def starts at slot i |
| Wavefront.ImportedBuilds | nb3D/WavefrontImporter.cs:8-18 | the builder accepts every imported mesh |
| Wavefront.SelectMaterial | nb3D/WavefrontImporter.cs:171-174 | the index of the named material, or KeyNotFound |
| Text.SplitPieces | nb3D/WavefrontImporter.cs:30 | no piece of a split holds the separator, and joining the pieces gives back the string |
| Text.SplitJoin | nb3D/WavefrontImporter.cs:134 | splitting a join of separator-free pieces gives back the pieces |
| Text.SplitOnce | nb3D/WavefrontImporter.cs:76-78 | two pieces exactly when the separator occurs: the text before its first occurrence and the rest |

## Left out

- OpenGL: texture uploads, vertex and index buffers, shaders and draw calls. Each renderer is modelled as the leaf ids it draws and, per mesh, the lightmap it binds.
- File I/O: the static `Load` methods, the file reads and the palette file read; `QuakeMapLoader.Load` (nb3D/QuakeMapLoader.cs:469-505) only reads files and calls the constructor. Files are given as byte sequences, and text files as sequences of lines (what `ReadLine` returns).
- Console output and the dev console.
- Floating-point arithmetic. The plane test of the descent is a parameter `inFront`. Texture coordinates, lightmap extents and the lightmap coordinate remap are functions of a `SurfaceMath` parameter. Floats read from the file are kept as their bit patterns, so NaN is not modelled.
- `QuakeLightmap.Size` is the parameter `size` of the map class.
- `BuildGrayLightmap` (nb3D/Map/QuakeMap.cs:533-547) is never called. The gray BSP29 path of `BuildLightmap` is modelled instead.
- `CreateEntities` in both revisions: it reads the entity lump into a string that nothing uses.
- BspQuery.TryFindLeafAt: the descent is assumed to end, through a ghost fuel bound; on a cyclic tree the source loops forever.
- Bytes.CStringAt: texture names are kept as the bytes before the NUL and compared as bytes (Miptex.MipName, the Wad3 dictionary keys, QuakeMaps.FindInWads). C# decodes them with `Marshal.PtrToStringAnsi` (nb3D/Map/QuakeMap.cs:303, nb3D/QuakeMapLoader.cs:329, nb3D/Map/WAD3.cs:100), which is not one-to-one beyond ASCII: the invalid bytes [0x80] and [0x81] both decode to U+FFFD. The model's lookups agree with the source's only when that decoding is one-to-one on the names in use, as it is on ASCII names.
- MeshDefs.VertexDef: `BuildVertexDefId` (nb3D/MeshDef.cs:15-18) hashes the three values with `HashCode.Combine`, which can collide; the model's key keeps the three values whole, so distinct vertices never share an id.
- Int overflow is not modelled in these places, which stay unbounded: the buffer sizes `Count * stride` (nb3D/MeshBuilder.cs:11) and `(n - 2) * 3`; the edge-list index `surface.EdgeListIndex + e` (nb3D/Map/QuakeMap.cs:372), where both the wrapped and the exact index read more than 2^31 bytes away from the list; and the visibility decoder's cursor (nb3D/SceneRenderer.cs:120 and 125), which can pass int.MaxValue only when VisLeafCount is within 2048 of it. GetEntry's offset, GetVisibilityList's start, the first-leaf sum, the complete hull's bound, the edge-id negation, the WAD3 entry offset `entrySize * i`, the `(int)` casts of the texture width and height and the texture buffer length `Width * Height * 3` do wrap in the model.
- QuakeMaps.QuakeMap.LoadTexture: an embedded texture of more than 715,827,882 raw pixels, on which the texture constructor throws (Miptex.MipFitsExactly), is excluded by the precondition MiptexReadable, so that exception is not part of the map constructor's outcome.
- QuakeMapLoader.Map.LoadTexture: the same texture size is excluded by EmbeddedReadable.
- Wad3.LoadTexture: the same texture size is excluded by TextureReadable.
- Palette.FromBytes: on fewer than 768 bytes the array read throws IndexOutOfRange; a precondition excludes this case, which only the palette file read, not modelled, could reach.
- QuakeMaps.QuakeMap.LoadLeafMeshes: a leaf whose SurfaceListIndex + SurfaceCount exceeds 0x7FFF is excluded by a precondition. There the short cursor wraps from 0x7FFF to -0x8000 and never reaches the bound, so the source loops forever (ShortCursorNeverEnds), reading surface-list entries at negative indices.
- QuakeMapLoader.Map.CreateLeafMeshes: the same short cursor and the same precondition (nb3D/QuakeMapLoader.cs:348-351).
- Visibility.DecodeVisibilityList: the leaves the loop draws before it throws are not part of its outcome. The ids drawn are not looked up in the mesh dictionary, so the KeyNotFound that drawing an id without an entry throws (Renderers.RenderLeaf) is not part of the hull loop's outcome.
- A vertex's `ElementIndex` (a uint) is a nat, because the element counter never gets near 2^32.
- `StartsWith` is culture-sensitive in .NET; the model compares ordinally.
- Float, uint and int parsing are the functions of a `NumberParsers` parameter, returning `None` where they throw. The model reports every such throw as FormatError, including the OverflowException that `uint.Parse` and `int.Parse` throw on text out of range, such as "-1" or "4294967296" for a uint (Wavefront.ParseCorner).
- The face normal and the `ToString` members of `VertexDef` and `FaceDef`.
- Dictionary enumeration order: `m_vertices.Values` is assumed to come in insertion order, which .NET gives for a dictionary that is never removed from.
- MeshDefs.MeshDef.AddVertex: a MeshDef that has thrown part-way through an import is not described beyond the failure.
- Wavefront.Corners: the loop bound of ParseFace is written as the number of corners, which the guard before the loop fixes at 3.
- QuakeMapLoader.Map.BuildSurfaceVertexData: `GetLightMap` returns null and its result is unused, so it is not modelled. The plane type read at nb3D/QuakeMapLoader.cs:369 is unused too.
- QuakeMapLoader.SurfaceDebugEdges: the text of `GetSurfaceDebugStr` is not built; the model keeps the edge endpoints it prints.
- QuakeMapLoader.Map.LoadTextures: the array slots before a texture is stored hold null; the model builds the array whole.
- QuakeMaps.QuakeMap.BuildSurfaceVertexData: the bounds check of the texture coordinates is a property of the float math, which is not modelled.
- `SkyboxTexture`, the cameras, the systems other than rendering, and the shader code are not part of this model.
