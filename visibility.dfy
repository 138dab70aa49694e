/**
 * Leaf selection shared by the two renderers (nb3D/SceneRenderer.cs and
 * nb3D/Systems/RenderSystem.cs carry the same code): the run-length decoder
 * of a leaf's potentially-visible set, following the visibility-list
 * encoding of chapter 4 (section BL4) of the Quake Specs v3.4, the complete
 * range of a hull's leaves, and the choice between the two. Drawing a leaf
 * is replaced by appending its id to the output.
 */
module Visibility {
  import opened Common
  import opened Bytes
  import opened Bsp
  import opened BspQuery

  // ----- One mask byte -----

  /** The bit the inner loop tests on its k-th pass: 1, 2, 4, ..., 128. */
  function BitOf(k: nat): (bit: byte)
    requires k < 8
    ensures bit > 0
  {
    match k
    case 0 => 1
    case 1 => 2
    case 2 => 4
    case 3 => 8
    case 4 => 16
    case 5 => 32
    case 6 => 64
    case _ => 128
  }

  /** Doubling the bit as a byte moves to the next bit, and wraps to 0 after the eighth. */
  lemma BitOfNext(k: nat)
    requires k < 8
    ensures (BitOf(k) * 2) % 0x100 == if k + 1 < 8 then BitOf(k + 1) else 0
  {
  }

  /** `(mask & bit) > 0` on bytes. */
  predicate Masked(mask: byte, bit: byte) {
    (mask as bv8) & (bit as bv8) != 0
  }

  /** The test of the k-th bit. */
  predicate BitSet(mask: byte, k: nat)
    requires k < 8
  {
    Masked(mask, BitOf(k))
  }

  /** The leaves a mask byte selects among its first k bits, cursor+i for each set bit i < k. */
  function MaskPrefix(mask: byte, cursor: int, k: nat): seq<int>
    requires k <= 8
  {
    if k == 0 then []
    else MaskPrefix(mask, cursor, k - 1) + (if BitSet(mask, k - 1) then [cursor + k - 1] else [])
  }

  /** The leaves a mask byte selects: cursor + i for every set bit i, low bit first. */
  function MaskLeaves(mask: byte, cursor: int): seq<int> {
    MaskPrefix(mask, cursor, 8)
  }

  predicate Increasing(s: seq<int>) {
    forall i, j :: 0 <= i < j < |s| ==> s[i] < s[j]
  }

  /** The selected leaves of the first k bits lie in [cursor, cursor + k); cursor + i is among them exactly when bit i is set. */
  lemma {:induction false} MaskPrefixMembers(mask: byte, cursor: int, k: nat)
    requires k <= 8
    ensures forall x :: x in MaskPrefix(mask, cursor, k) ==> cursor <= x < cursor + k
    ensures forall i :: 0 <= i < k ==> (cursor + i in MaskPrefix(mask, cursor, k) <==> BitSet(mask, i))
  {
    if k > 0 {
      MaskPrefixMembers(mask, cursor, k - 1);
      var before := MaskPrefix(mask, cursor, k - 1);
      var last: seq<int> := if BitSet(mask, k - 1) then [cursor + k - 1] else [];
      assert MaskPrefix(mask, cursor, k) == before + last;
      forall i | 0 <= i < k
        ensures cursor + i in before + last <==> BitSet(mask, i)
      {
        if i < k - 1 {
          assert cursor + i !in last;
        } else {
          assert cursor + i !in before;
        }
      }
    }
  }

  /** The selected leaves of the first k bits are increasing. */
  lemma {:induction false} MaskPrefixIncreasing(mask: byte, cursor: int, k: nat)
    requires k <= 8
    ensures Increasing(MaskPrefix(mask, cursor, k))
  {
    if k > 0 {
      MaskPrefixIncreasing(mask, cursor, k - 1);
      MaskPrefixMembers(mask, cursor, k - 1);
      var before := MaskPrefix(mask, cursor, k - 1);
      var last: seq<int> := if BitSet(mask, k - 1) then [cursor + k - 1] else [];
      assert MaskPrefix(mask, cursor, k) == before + last;
      forall i, j | 0 <= i < j < |before + last|
        ensures (before + last)[i] < (before + last)[j]
      {
        if j >= |before| {
          assert before[i] in before;
        }
      }
    }
  }

  /**
   * A mask byte selects exactly the leaves cursor + i of its set bits, in
   * increasing order and within the eight leaves from the cursor.
   */
  lemma MaskLeavesBounds(mask: byte, cursor: int)
    ensures Increasing(MaskLeaves(mask, cursor))
    ensures forall x :: x in MaskLeaves(mask, cursor) ==> cursor <= x < cursor + 8
    ensures forall i :: 0 <= i < 8 ==> (cursor + i in MaskLeaves(mask, cursor) <==> BitSet(mask, i))
  {
    MaskPrefixMembers(mask, cursor, 8);
    MaskPrefixIncreasing(mask, cursor, 8);
  }

  // ----- The run-length decoder -----

  /**
   * The leaves the decoder emits from byte `offset` of the list when the
   * cursor is at `leafId`; None when it reads past the end of the list,
   * where the span indexer throws. It stops only between bytes, once the
   * cursor reaches `leafCount`. A zero byte skips 8 * count leaves, count
   * being the next byte; any other byte is a mask over the next 8 leaves.
   */
  function VisDecode(vis: seq<byte>, offset: nat, leafId: int, leafCount: int): Option<seq<int>>
    decreases |vis| - offset
  {
    if leafId >= leafCount then Some([])
    else if offset >= |vis| then None
    else if vis[offset] == 0 then
      if offset + 1 >= |vis| then None
      else VisDecode(vis, offset + 2, leafId + 8 * (vis[offset + 1] as int), leafCount)
    else
      match VisDecode(vis, offset + 1, leafId + 8, leafCount)
      case None => None
      case Some(rest) => Some(MaskLeaves(vis[offset], leafId) + rest)
  }

  /**
   * The emitted ids are strictly increasing and at least the starting
   * cursor. A mask byte is never cut short, so ids reach up to
   * leafCount + 6 but not beyond.
   */
  lemma {:induction false} VisDecodeBounds(vis: seq<byte>, offset: nat, leafId: int, leafCount: int)
    requires VisDecode(vis, offset, leafId, leafCount).Some?
    ensures Increasing(VisDecode(vis, offset, leafId, leafCount).value)
    ensures forall x :: x in VisDecode(vis, offset, leafId, leafCount).value ==> leafId <= x < leafCount + 7
    decreases |vis| - offset
  {
    if leafId < leafCount && offset < |vis| {
      if vis[offset] == 0 {
        VisDecodeBounds(vis, offset + 2, leafId + 8 * (vis[offset + 1] as int), leafCount);
      } else {
        var rest := VisDecode(vis, offset + 1, leafId + 8, leafCount).value;
        var here := MaskLeaves(vis[offset], leafId);
        VisDecodeBounds(vis, offset + 1, leafId + 8, leafCount);
        MaskLeavesBounds(vis[offset], leafId);
        assert VisDecode(vis, offset, leafId, leafCount).value == here + rest;
        forall i, j | 0 <= i < j < |here + rest|
          ensures (here + rest)[i] < (here + rest)[j]
        {
          if j >= |here| && i < |here| {
            assert here[i] in here && rest[j - |here|] in rest;
          }
        }
      }
    }
  }

  /** The decoder over a whole list: cursor 1, offset 0, so leaf 0 is never emitted. */
  lemma VisListIds(vis: seq<byte>, leafCount: int)
    requires VisDecode(vis, 0, 1, leafCount).Some?
    ensures Increasing(VisDecode(vis, 0, 1, leafCount).value)
    ensures forall x :: x in VisDecode(vis, 0, 1, leafCount).value ==> 1 <= x < leafCount + 7
  {
    VisDecodeBounds(vis, 0, 1, leafCount);
  }

  /** A zero byte with count 1 skips eight leaves: [0, 1, 0x80] with 17 leaves emits only leaf 16. */
  lemma ZeroRunExample()
    ensures VisDecode([0, 1, 0x80], 0, 1, 17) == Some([16])
  {
    var vis: seq<byte> := [0, 1, 0x80];
    assert !BitSet(0x80, 0) && !BitSet(0x80, 1) && !BitSet(0x80, 2) && !BitSet(0x80, 3);
    assert !BitSet(0x80, 4) && !BitSet(0x80, 5) && !BitSet(0x80, 6) && BitSet(0x80, 7);
    assert MaskPrefix(0x80, 9, 7) == [];
    assert MaskLeaves(0x80, 9) == [16];
    assert VisDecode(vis, 3, 17, 17) == Some([]);
    assert vis[2] == 0x80 && MaskLeaves(vis[2], 9) + [] == [16];
    assert VisDecode(vis, 2, 9, 17) == Some([16]);
  }

  /** No bound check inside a mask: [0xFF] with 2 leaves emits leaves 1 through 8. */
  lemma FullMaskOverrunExample()
    ensures VisDecode([0xFF], 0, 1, 2) == Some([1, 2, 3, 4, 5, 6, 7, 8])
  {
    assert MaskPrefix(0xFF, 1, 2) == [1, 2];
    assert MaskPrefix(0xFF, 1, 4) == [1, 2, 3, 4];
    assert MaskPrefix(0xFF, 1, 6) == [1, 2, 3, 4, 5, 6];
    assert MaskLeaves(0xFF, 1) == [1, 2, 3, 4, 5, 6, 7, 8];
    var vis: seq<byte> := [0xFF];
    assert VisDecode(vis, 1, 9, 2) == Some([]);
    assert vis[0] == 0xFF && MaskLeaves(vis[0], 1) + [] == [1, 2, 3, 4, 5, 6, 7, 8];
    assert VisDecode(vis, 0, 1, 2) == Some([1, 2, 3, 4, 5, 6, 7, 8]);
  }

  /** A list that ends before the cursor reaches the leaf count makes the decoder read past its end. */
  lemma TruncatedListExample()
    ensures VisDecode([0x01], 0, 1, 20) == None
    ensures VisDecode([0], 0, 1, 20) == None
  {
  }

  /**
   * The inner loop over one mask byte: `bit` doubles as a byte, so after
   * 128 it wraps to 0 and the loop ends; the cursor advances once per pass.
   */
  method EmitMask(mask: byte, cursor: int) returns (leaves: seq<int>, next: int)
    ensures leaves == MaskLeaves(mask, cursor)
    ensures next == cursor + 8
  {
    var bit: byte := 1;
    var leafId := cursor;
    ghost var k: nat := 0;
    leaves := [];
    while bit != 0
      invariant k <= 8 && leafId == cursor + k
      invariant bit == if k < 8 then BitOf(k) else 0
      invariant leaves == MaskPrefix(mask, cursor, k)
      decreases 8 - k
    {
      BitOfNext(k);
      if Masked(mask, bit) {
        leaves := leaves + [leafId];
      }
      bit := (bit * 2) % 0x100;
      leafId := leafId + 1;
      k := k + 1;
    }
    next := leafId;
  }

  /**
   * VisDecode fails exactly when its tail from a later cursor position
   * fails, and on success its ids are those emitted so far followed by the
   * tail's: the decoder's loop state.
   */
  predicate DecodeState(vis: seq<byte>, leafCount: int, listOffset: nat, leafId: int, leaves: seq<int>) {
    (VisDecode(vis, listOffset, leafId, leafCount).None? <==> VisDecode(vis, 0, 1, leafCount).None?)
    && (VisDecode(vis, listOffset, leafId, leafCount).Some? ==>
          leaves + VisDecode(vis, listOffset, leafId, leafCount).value == VisDecode(vis, 0, 1, leafCount).value)
  }

  /** A zero byte with its count in the list skips 8 * count leaves and emits nothing. */
  lemma DecodeSkip(vis: seq<byte>, leafCount: int, listOffset: nat, leafId: int, leaves: seq<int>)
    requires DecodeState(vis, leafCount, listOffset, leafId, leaves) && leafId < leafCount
    requires listOffset + 1 < |vis| && vis[listOffset] == 0
    ensures DecodeState(vis, leafCount, listOffset + 2, leafId + (vis[listOffset + 1] as int) * 8, leaves)
  {
    assert VisDecode(vis, listOffset, leafId, leafCount)
        == VisDecode(vis, listOffset + 2, leafId + (vis[listOffset + 1] as int) * 8, leafCount);
  }

  /** A mask byte emits its set bits' leaves and advances eight leaves. */
  lemma DecodeMask(vis: seq<byte>, leafCount: int, listOffset: nat, leafId: int, leaves: seq<int>)
    requires DecodeState(vis, leafCount, listOffset, leafId, leaves) && leafId < leafCount
    requires listOffset < |vis| && vis[listOffset] != 0
    ensures DecodeState(vis, leafCount, listOffset + 1, leafId + 8, leaves + MaskLeaves(vis[listOffset], leafId))
  {
    var rest := VisDecode(vis, listOffset + 1, leafId + 8, leafCount);
    if rest.Some? {
      var here := MaskLeaves(vis[listOffset], leafId);
      assert VisDecode(vis, listOffset, leafId, leafCount) == Some(here + rest.value);
      assert (leaves + here) + rest.value == leaves + (here + rest.value);
    }
  }

  /** A cursor that reads past the end of the list fails the whole decode. */
  lemma DecodeOverrun(vis: seq<byte>, leafCount: int, listOffset: nat, leafId: int, leaves: seq<int>)
    requires DecodeState(vis, leafCount, listOffset, leafId, leaves) && leafId < leafCount
    requires listOffset >= |vis| || (vis[listOffset] == 0 && listOffset + 1 >= |vis|)
    ensures VisDecode(vis, 0, 1, leafCount).None?
  {
  }

  /**
   * RenderLeafVisibilityList's cursor loop over a list that starts at the
   * leaf's VisList offset: the ids it would draw, in drawing order, or
   * IndexOutOfRange when the span indexer reads past the end of the list.
   */
  method DecodeVisibilityList(vis: seq<byte>, leafCount: int) returns (r: Result<seq<int>>)
    ensures r.Failure? <==> VisDecode(vis, 0, 1, leafCount).None?
    ensures r.Failure? ==> r.error == IndexOutOfRange
    ensures r.Success? ==> r.value == VisDecode(vis, 0, 1, leafCount).value
  {
    var listOffset := 0;
    var leafId := 1;
    var leaves := [];
    while leafId < leafCount
      invariant DecodeState(vis, leafCount, listOffset, leafId, leaves)
      decreases |vis| - listOffset
    {
      if listOffset >= |vis| {
        DecodeOverrun(vis, leafCount, listOffset, leafId, leaves);
        return Failure(IndexOutOfRange);
      }
      if vis[listOffset] == 0 {
        if listOffset + 1 >= |vis| {
          DecodeOverrun(vis, leafCount, listOffset, leafId, leaves);
          return Failure(IndexOutOfRange);
        }
        DecodeSkip(vis, leafCount, listOffset, leafId, leaves);
        leafId := leafId + (vis[listOffset + 1] as int) * 8;
        listOffset := listOffset + 1;
      } else {
        DecodeMask(vis, leafCount, listOffset, leafId, leaves);
        var emitted, next := EmitMask(vis[listOffset], leafId);
        leaves := leaves + emitted;
        leafId := next;
      }
      listOffset := listOffset + 1;
    }
    return Success(leaves);
  }

  // ----- The complete hull -----

  /** The ids first, first + 1, ..., bound - 1. */
  function LeafRange(first: int, bound: int): (leaves: seq<int>)
    ensures |leaves| == (if bound > first then bound - first else 0)
    ensures forall i :: 0 <= i < |leaves| ==> leaves[i] == first + i
    decreases bound - first
  {
    if bound <= first then [] else LeafRange(first, bound - 1) + [bound - 1]
  }

  /**
   * RenderCompleteHull's range: the ids from the hull's first leaf up to
   * the loop bound first + VisLeafCount, which is computed in `int`.
   */
  function HullRange(first: i32, count: i32): seq<int> {
    LeafRange(first, Wrap32(first + count))
  }

  /**
   * The range ascends from the first leaf. Without wrap-around it holds
   * VisLeafCount ids (none for a count <= 0); when the bound wraps past
   * int.MaxValue the hull draws nothing.
   */
  lemma HullRangeCount(first: i32, count: i32)
    ensures forall i :: 0 <= i < |HullRange(first, count)| ==> HullRange(first, count)[i] == first + i
    ensures -0x8000_0000 <= first + count < 0x8000_0000 ==>
      |HullRange(first, count)| == (if count > 0 then count else 0)
    ensures first + count >= 0x8000_0000 ==> HullRange(first, count) == []
  {
    if first + count >= 0x8000_0000 {
      assert Wrap32(first + count) == first + count - 0x1_0000_0000;
    }
  }

  lemma HullRangeIncreasing(first: i32, count: i32)
    ensures Increasing(HullRange(first, count))
  {
  }

  /** RenderCompleteHull: the leaves from GetHullFirstLeafId up to the wrapped bound. */
  method RenderCompleteHull(data: seq<byte>, h: Header, hullId: int) returns (leaves: seq<int>)
    requires ValidHeader(h) && RecordInBuffer(data, h, HullsLump, hullId, HullSize)
    requires HullsReadable(data, h, hullId)
    ensures leaves == HullRange(FirstLeafId(data, h, hullId), GetHull(data, h, hullId).visLeafCount)
  {
    var hull := GetHull(data, h, hullId);
    var leafId := GetHullFirstLeafId(data, h, hullId);
    leaves := [];
    var l: int := leafId;
    // The source re-evaluates the bound on every pass; neither operand changes.
    var bound := Wrap32(leafId + hull.visLeafCount);
    while l < bound
      invariant leafId <= l && (l <= bound || l == leafId)
      invariant leaves == LeafRange(leafId, l)
      decreases bound - l
    {
      leaves := leaves + [l];
      l := l + 1;
    }
  }

  // ----- Selection for one hull -----

  /**
   * What the selection for hull `hullId` reads through raw pointers lies
   * inside the map: the hull, the descent to the camera leaf, the leaf, and
   * the earlier hulls when the leaf has no visibility list.
   */
  predicate HullReadable(data: seq<byte>, h: Header, inFront: Plane -> bool, hullId: int, fuel: nat)
    requires ValidHeader(h)
  {
    RecordInBuffer(data, h, HullsLump, hullId, HullSize)
    && var hull := GetHull(data, h, hullId);
    Reaches(data, h, inFront, hull.nodeId0, fuel)
    && var leafId := LeafReached(data, h, inFront, hull.nodeId0, fuel);
    RecordInBuffer(data, h, LeavesLump, leafId, LeafSize)
    && (GetLeaf(data, h, leafId).visList == -1 ==> HullsReadable(data, h, hullId))
  }

  /** The leaf the camera is in for hull `hullId`. */
  function CameraLeaf(data: seq<byte>, h: Header, inFront: Plane -> bool, hullId: int, fuel: nat): Leaf
    requires ValidHeader(h) && HullReadable(data, h, inFront, hullId, fuel)
  {
    GetLeaf(data, h, LeafReached(data, h, inFront, GetHull(data, h, hullId).nodeId0, fuel))
  }

  /** GetVisibilityList's start, Visilist.Offset + VisList, computed in `int`. */
  function VisListStart(h: Header, leaf: Leaf): i32
    requires ValidHeader(h)
  {
    Wrap32(h.lumps[VisilistLump].offset + leaf.visList)
  }

  /**
   * The leaves drawn for hull `hullId`: the hull's complete range when the
   * camera leaf has no list (VisList == -1), else the leaf's visibility
   * list decoded against the hull's VisLeafCount. AsSpan throws for a
   * start outside the file, and the span indexer for a list that ends
   * before the cursor reaches the count.
   */
  function HullLeaves(data: seq<byte>, h: Header, inFront: Plane -> bool, hullId: int, fuel: nat): Result<seq<int>>
    requires ValidHeader(h) && HullReadable(data, h, inFront, hullId, fuel)
  {
    var hull := GetHull(data, h, hullId);
    var leaf := CameraLeaf(data, h, inFront, hullId, fuel);
    var start := VisListStart(h, leaf);
    if leaf.visList == -1 then Success(HullRange(FirstLeafId(data, h, hullId), hull.visLeafCount))
    else if !(0 <= start <= |data|) then Failure(ArgumentOutOfRange)
    else match VisDecode(data[start..], 0, 1, hull.visLeafCount)
      case None => Failure(IndexOutOfRange)
      case Some(leaves) => Success(leaves)
  }

  /**
   * The selection fails exactly on a visibility list, with
   * ArgumentOutOfRange for a start outside the file and IndexOutOfRange
   * for a list the decoder reads past; a successful selection is strictly
   * increasing, and never holds leaf 0 when it comes from a list.
   */
  lemma HullLeavesOutcome(data: seq<byte>, h: Header, inFront: Plane -> bool, hullId: int, fuel: nat)
    requires ValidHeader(h) && HullReadable(data, h, inFront, hullId, fuel)
    ensures var leaf := CameraLeaf(data, h, inFront, hullId, fuel);
      var start := VisListStart(h, leaf);
      var r := HullLeaves(data, h, inFront, hullId, fuel);
      (leaf.visList == -1 ==> r.Success?)
      && (leaf.visList != -1 && !(0 <= start <= |data|) ==> r == Failure(ArgumentOutOfRange))
      && (leaf.visList != -1 && 0 <= start <= |data| ==>
            (r == Failure(IndexOutOfRange) <==> VisDecode(data[start..], 0, 1, GetHull(data, h, hullId).visLeafCount).None?)
            && (r.Success? ==> forall x :: x in r.value ==> 1 <= x))
      && (r.Success? ==> Increasing(r.value))
  {
    var hull := GetHull(data, h, hullId);
    var leaf := CameraLeaf(data, h, inFront, hullId, fuel);
    var start := VisListStart(h, leaf);
    if leaf.visList == -1 {
      HullRangeIncreasing(FirstLeafId(data, h, hullId), hull.visLeafCount);
    } else if 0 <= start <= |data| && VisDecode(data[start..], 0, 1, hull.visLeafCount).Some? {
      VisListIds(data[start..], hull.visLeafCount);
    }
  }

  /**
   * The body of either renderer's hull loop: find the camera leaf, then
   * draw the complete hull when its VisList is -1, else decode its list.
   */
  method SelectHullLeaves(data: seq<byte>, h: Header, inFront: Plane -> bool, hullId: int, ghost fuel: nat)
    returns (r: Result<seq<int>>)
    requires ValidHeader(h) && HullReadable(data, h, inFront, hullId, fuel)
    ensures r == HullLeaves(data, h, inFront, hullId, fuel)
  {
    var hull := GetHull(data, h, hullId);
    // TryFindLeafAt always reports success, so the "could not find leaf" branch is dead.
    var found, leafId := TryFindLeafAt(data, h, inFront, hullId, fuel);
    var leaf := GetLeaf(data, h, leafId);
    if leaf.visList == -1 {
      var leaves := RenderCompleteHull(data, h, hullId);
      return Success(leaves);
    }
    var start := Wrap32(h.lumps[VisilistLump].offset + leaf.visList);
    if !(0 <= start <= |data|) {
      return Failure(ArgumentOutOfRange);
    }
    var visList := data[start..];
    r := DecodeVisibilityList(visList, hull.visLeafCount);
  }
}
