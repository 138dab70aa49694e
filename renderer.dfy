/**
 * The two renderers' map passes (RenderMap in nb3D/SceneRenderer.cs and in
 * nb3D/Systems/RenderSystem.cs): the hull loop around the per-hull leaf
 * selection, and the lightmap SceneRenderer binds for each mesh of a drawn
 * leaf. Drawing is replaced by the sequence of leaf ids (or lightmaps) it
 * would use, in drawing order.
 */
module Renderers {
  import opened Common
  import opened Bsp
  import opened BspQuery
  import opened Lightmap
  import opened Visibility
  import opened Folds
  import QuakeMaps

  // ----- The hull loop -----

  /** The selection of one hull, as a step defined on the readable hulls. */
  function HullStep(data: seq<byte>, h: Header, inFront: Plane -> bool, fuel: nat): nat --> Result<seq<int>>
    requires ValidHeader(h)
  {
    (k: nat) requires ValidHeader(h) && HullReadable(data, h, inFront, k, fuel) => HullLeaves(data, h, inFront, k, fuel)
  }

  /** The hulls the loop may read. */
  ghost function HullReady(data: seq<byte>, h: Header, inFront: Plane -> bool, fuel: nat): nat -> bool
    requires ValidHeader(h)
  {
    (k: nat) => HullReadable(data, h, inFront, k, fuel)
  }

  lemma HullStepAt(data: seq<byte>, h: Header, inFront: Plane -> bool, fuel: nat, k: nat)
    requires ValidHeader(h)
    ensures HullReady(data, h, inFront, fuel)(k) <==> HullReadable(data, h, inFront, k, fuel)
    ensures HullReadable(data, h, inFront, k, fuel) ==>
      HullStep(data, h, inFront, fuel).requires(k)
      && HullStep(data, h, inFront, fuel)(k) == HullLeaves(data, h, inFront, k, fuel)
  {
  }

  /** HullStepAt at every ready hull. */
  lemma HullSteps(data: seq<byte>, h: Header, inFront: Plane -> bool, fuel: nat)
    requires ValidHeader(h)
    ensures var ready, step := HullReady(data, h, inFront, fuel), HullStep(data, h, inFront, fuel);
      forall k: nat :: ready(k) ==> (HullReadable(data, h, inFront, k, fuel) && step.requires(k)
                               && step(k) == HullLeaves(data, h, inFront, k, fuel))
  {
    forall k: nat | HullReady(data, h, inFront, fuel)(k)
      ensures HullReadable(data, h, inFront, k, fuel)
      ensures HullStep(data, h, inFront, fuel).requires(k)
      ensures HullStep(data, h, inFront, fuel)(k) == HullLeaves(data, h, inFront, k, fuel)
    {
      HullStepAt(data, h, inFront, fuel, k);
    }
  }

  /** The number of passes of a loop `for (h = 0; h < count; h++)`. */
  function Passes(count: int): nat {
    if count > 0 then count else 0
  }

  /** Every hull the loop reaches in its first n passes is readable. */
  ghost predicate MapReadable(data: seq<byte>, h: Header, inFront: Plane -> bool, n: nat, fuel: nat)
    requires ValidHeader(h)
  {
    Reached(HullReady(data, h, inFront, fuel), HullStep(data, h, inFront, fuel), n)
  }

  /** The leaves drawn for hulls 0 .. n-1, hull after hull, or the first hull's exception. */
  function MapLeaves(data: seq<byte>, h: Header, inFront: Plane -> bool, n: nat, fuel: nat): Result<seq<int>>
    requires ValidHeader(h) && MapReadable(data, h, inFront, n, fuel)
  {
    RunJoined(HullReady(data, h, inFront, fuel), HullStep(data, h, inFront, fuel), n)
  }

  /**
   * After a successful loop every hull k < n selected successfully, and its
   * selection is one contiguous block right after the blocks of the hulls
   * before it.
   */
  lemma {:induction false} MapLeavesBlocks(data: seq<byte>, h: Header, inFront: Plane -> bool, n: nat, fuel: nat, k: nat)
    requires ValidHeader(h) && MapReadable(data, h, inFront, n, fuel) && k < n
    requires MapLeaves(data, h, inFront, n, fuel).Success?
    ensures HullReadable(data, h, inFront, k, fuel) && HullLeaves(data, h, inFront, k, fuel).Success?
    ensures MapReadable(data, h, inFront, k, fuel) && MapLeaves(data, h, inFront, k, fuel).Success?
    ensures var before := MapLeaves(data, h, inFront, k, fuel).value;
      var block := HullLeaves(data, h, inFront, k, fuel).value;
      |before| + |block| <= |MapLeaves(data, h, inFront, n, fuel).value|
      && MapLeaves(data, h, inFront, n, fuel).value[..|before| + |block|] == before + block
  {
    var ready, step := HullReady(data, h, inFront, fuel), HullStep(data, h, inFront, fuel);
    RunJoinedBlocks(ready, step, n, k);
    HullStepAt(data, h, inFront, fuel, k);
    assert MapLeaves(data, h, inFront, n, fuel) == RunJoined(ready, step, n);
    assert MapLeaves(data, h, inFront, k, fuel) == RunJoined(ready, step, k);
    assert HullLeaves(data, h, inFront, k, fuel) == step(k);
  }

  /** The first hull whose selection throws aborts the loop with that exception. */
  lemma {:induction false} MapLeavesFailure(data: seq<byte>, h: Header, inFront: Plane -> bool, n: nat, fuel: nat, j: nat)
    requires ValidHeader(h) && MapReadable(data, h, inFront, n, fuel) && j < n
    requires forall k :: 0 <= k <= j ==> HullReadable(data, h, inFront, k, fuel)
    requires forall k :: 0 <= k < j ==> HullLeaves(data, h, inFront, k, fuel).Success?
    requires HullLeaves(data, h, inFront, j, fuel).Failure?
    ensures MapLeaves(data, h, inFront, n, fuel) == Failure(HullLeaves(data, h, inFront, j, fuel).error)
  {
    forall k | 0 <= k <= j {
      HullStepAt(data, h, inFront, fuel, k);
    }
    RunFailure(HullReady(data, h, inFront, fuel), HullStep(data, h, inFront, fuel), n, j);
  }

  /**
   * The hull loop of both renderers, proved against any step that agrees
   * with the selection on the hulls it is ready for: the selections of
   * hulls 0 .. hullCount-1 in hull order, or the first exception.
   * TryFindLeafAt always reports success, so the loop's "could not find
   * leaf" branch never skips a hull.
   */
  method RenderHulls(data: seq<byte>, h: Header, inFront: Plane -> bool, hullCount: int, ghost fuel: nat,
                     ghost ready: nat -> bool, ghost step: nat --> Result<seq<int>>)
    returns (r: Result<seq<int>>)
    requires ValidHeader(h) && Reached(ready, step, Passes(hullCount))
    requires forall k: nat :: ready(k) ==> (HullReadable(data, h, inFront, k, fuel) && step.requires(k)
                                      && step(k) == HullLeaves(data, h, inFront, k, fuel))
    ensures r == RunJoined(ready, step, Passes(hullCount))
  {
    ghost var total := Passes(hullCount);
    var leaves: seq<int> := [];
    var hullId := 0;
    while hullId < hullCount
      invariant 0 <= hullId <= total
      invariant Reached(ready, step, hullId) && Run(ready, step, hullId).Success?
      invariant leaves == Joined(Run(ready, step, hullId).value)
    {
      ReachedPrefix(ready, step, hullId + 1, total);
      RunStep(ready, step, hullId);
      var selected := SelectReadyHull(data, h, inFront, hullId, fuel, ready, step);
      if selected.Failure? {
        RunStops(ready, step, hullId + 1, total);
        assert Run(ready, step, total) == Failure(selected.error);
        return Failure(selected.error);
      }
      ghost var blocks := Run(ready, step, hullId + 1).value;
      assert blocks[..hullId] == Run(ready, step, hullId).value;
      leaves := leaves + selected.value;
      hullId := hullId + 1;
    }
    assert hullId == total;
    assert Run(ready, step, total).Success? && RunJoined(ready, step, total) == Success(leaves);
    return Success(leaves);
  }

  /** One pass of the hull loop: the selection of hull `hullId`, which the step agrees with. */
  method SelectReadyHull(data: seq<byte>, h: Header, inFront: Plane -> bool, hullId: nat, ghost fuel: nat,
                         ghost ready: nat -> bool, ghost step: nat --> Result<seq<int>>)
    returns (r: Result<seq<int>>)
    requires ValidHeader(h) && ready(hullId)
    requires forall k: nat :: ready(k) ==> (HullReadable(data, h, inFront, k, fuel) && step.requires(k)
                                           && step(k) == HullLeaves(data, h, inFront, k, fuel))
    ensures step.requires(hullId) && r == step(hullId)
  {
    r := SelectHullLeaves(data, h, inFront, hullId, fuel);
  }

  /** SceneRenderer.RenderMap: the loop bound is the literal 1, so only hull 0 is processed. */
  method SceneRenderMap(data: seq<byte>, h: Header, inFront: Plane -> bool, ghost fuel: nat) returns (r: Result<seq<int>>)
    requires ValidHeader(h) && HullReadable(data, h, inFront, 0, fuel)
    ensures r == HullLeaves(data, h, inFront, 0, fuel)
  {
    ghost var ready, step := HullReady(data, h, inFront, fuel), HullStep(data, h, inFront, fuel);
    HullSteps(data, h, inFront, fuel);
    assert Reached(ready, step, 1);
    r := RenderHulls(data, h, inFront, 1, fuel, ready, step);
    assert Run(ready, step, 0) == Success([]);
    if step(0).Success? {
      var block := step(0).value;
      assert [block][..0] == [];
      assert Joined([block]) == block;
    }
  }

  /**
   * RenderSystem.RenderMap: `ignoreVisibilityList` is the constant false,
   * so every hull below HullCount goes through find-leaf and selection.
   */
  method SystemRenderMap(data: seq<byte>, h: Header, inFront: Plane -> bool, ghost fuel: nat) returns (r: Result<seq<int>>)
    requires ValidHeader(h) && MapReadable(data, h, inFront, Passes(HullCount(h)), fuel)
    ensures r == MapLeaves(data, h, inFront, Passes(HullCount(h)), fuel)
  {
    HullSteps(data, h, inFront, fuel);
    r := RenderHulls(data, h, inFront, HullCount(h), fuel, HullReady(data, h, inFront, fuel), HullStep(data, h, inFront, fuel));
  }

  /** A loop that reaches hull 0 reads it. */
  lemma {:induction false} FirstHullReadable(data: seq<byte>, h: Header, inFront: Plane -> bool, n: nat, fuel: nat)
    requires ValidHeader(h) && MapReadable(data, h, inFront, n, fuel) && n > 0
    ensures HullReadable(data, h, inFront, 0, fuel)
  {
    var ready, step := HullReady(data, h, inFront, fuel), HullStep(data, h, inFront, fuel);
    ReachedPrefix(ready, step, 1, n);
    assert Run(ready, step, 0).Success?;
    HullStepAt(data, h, inFront, fuel, 0);
  }

  /** A loop that succeeds begins with the leaves of hull 0. */
  lemma {:induction false} FirstHullPrefix(data: seq<byte>, h: Header, inFront: Plane -> bool, n: nat, fuel: nat)
    requires ValidHeader(h) && MapReadable(data, h, inFront, n, fuel) && n > 0
    requires MapLeaves(data, h, inFront, n, fuel).Success?
    ensures HullReadable(data, h, inFront, 0, fuel) && HullLeaves(data, h, inFront, 0, fuel).Success?
    ensures var block := HullLeaves(data, h, inFront, 0, fuel).value;
      |block| <= |MapLeaves(data, h, inFront, n, fuel).value|
      && MapLeaves(data, h, inFront, n, fuel).value[..|block|] == block
  {
    var ready, step := HullReady(data, h, inFront, fuel), HullStep(data, h, inFront, fuel);
    assert MapLeaves(data, h, inFront, n, fuel) == RunJoined(ready, step, n);
    RunJoinedFirst(ready, step, n);
    HullStepAt(data, h, inFront, fuel, 0);
    assert HullLeaves(data, h, inFront, 0, fuel) == step(0);
  }

  /**
   * SceneRenderer draws exactly the leaves RenderSystem draws first, the
   * selection of hull 0, and fails when hull 0's selection fails; on a map
   * with no hulls RenderSystem draws nothing.
   */
  lemma {:induction false} SceneIsFirstHullOfSystem(data: seq<byte>, h: Header, inFront: Plane -> bool, fuel: nat)
    requires ValidHeader(h) && MapReadable(data, h, inFront, Passes(HullCount(h)), fuel)
    ensures Passes(HullCount(h)) == 0 ==> MapLeaves(data, h, inFront, 0, fuel) == Success([])
    ensures Passes(HullCount(h)) > 0 ==> HullReadable(data, h, inFront, 0, fuel)
    ensures Passes(HullCount(h)) > 0 && HullReadable(data, h, inFront, 0, fuel) ==>
      var scene := HullLeaves(data, h, inFront, 0, fuel);
      var system := MapLeaves(data, h, inFront, Passes(HullCount(h)), fuel);
      (scene.Failure? ==> system == Failure(scene.error))
      && (system.Success? ==> scene.Success? && |scene.value| <= |system.value| && system.value[..|scene.value|] == scene.value)
  {
    var n := Passes(HullCount(h));
    if n == 0 {
      assert Run(HullReady(data, h, inFront, fuel), HullStep(data, h, inFront, fuel), 0) == Success([]);
    } else {
      FirstHullReadable(data, h, inFront, n, fuel);
      var scene := HullLeaves(data, h, inFront, 0, fuel);
      if scene.Failure? {
        MapLeavesFailure(data, h, inFront, n, fuel, 0);
      } else if MapLeaves(data, h, inFront, n, fuel).Success? {
        FirstHullPrefix(data, h, inFront, n, fuel);
      }
    }
  }

  // ----- The lightmap of a drawn mesh -----

  /** The lightmap bound for each mesh of a leaf: the mesh's own when lightmaps are enabled, else the full-lit tile. */
  function ChosenLightmaps(meshes: seq<QuakeMaps.MapMesh>, enableLightmaps: bool, fullLit: QuakeLightmap)
    : (lightmaps: seq<QuakeLightmap>)
    ensures |lightmaps| == |meshes|
  {
    seq(|meshes|, i requires 0 <= i < |meshes| => if enableLightmaps then meshes[i].lightmap else fullLit)
  }

  /**
   * SceneRenderer.RenderLeaf, without the GL calls: the leaf's mesh list
   * (the dictionary lookup throws for a leaf without an entry), then the
   * lightmap bound for each mesh, in list order.
   */
  method RenderLeaf(quakeMap: QuakeMaps.QuakeMap, leafId: int, enableLightmaps: bool)
    returns (r: Result<seq<QuakeLightmap>>)
    ensures r.Failure? <==> leafId !in quakeMap.meshes
    ensures r.Failure? ==> r.error == KeyNotFound
    ensures r.Success? ==> r.value == ChosenLightmaps(quakeMap.meshes[leafId], enableLightmaps, quakeMap.fullLitLightmap)
  {
    var surfaceMeshes :- quakeMap.GetLeafMeshes(leafId);
    var lightmaps: seq<QuakeLightmap> := [];
    for i := 0 to |surfaceMeshes|
      invariant lightmaps == ChosenLightmaps(surfaceMeshes[..i], enableLightmaps, quakeMap.fullLitLightmap)
    {
      var lightmap := if enableLightmaps then surfaceMeshes[i].lightmap else quakeMap.fullLitLightmap;
      lightmaps := lightmaps + [lightmap];
    }
    assert surfaceMeshes[..|surfaceMeshes|] == surfaceMeshes;
    return Success(lightmaps);
  }

  /**
   * With lightmaps enabled each mesh is drawn with its own lightmap; with
   * them disabled every mesh of a well-formed map is drawn with the
   * full-lit tile, 16 * 16 RGB texels all 255.
   */
  lemma ChosenLightmapsCases(m: QuakeMaps.QuakeMap, meshes: seq<QuakeMaps.MapMesh>, enableLightmaps: bool, i: int)
    requires m.Wellformed() && 0 <= i < |meshes|
    ensures enableLightmaps ==> ChosenLightmaps(meshes, enableLightmaps, m.fullLitLightmap)[i] == meshes[i].lightmap
    ensures !enableLightmaps ==>
      var l := ChosenLightmaps(meshes, enableLightmaps, m.fullLitLightmap)[i];
      |l.data| == 16 * 16 * 3 && forall j :: 0 <= j < |l.data| ==> l.data[j] == 255
  {
  }
}
