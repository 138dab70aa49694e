/**
 * The WAD3 texture archive (nb3D/Map/WAD3.cs): a magic check, a walk over
 * the directory, and one palette-indexed texture per miptex entry, keyed by
 * name.
 */
module Wad3 {
  import opened Common
  import opened Bytes
  import opened Palette
  import opened Texture
  import opened Miptex

  /** "WAD3" in ASCII. */
  const Magic: seq<byte> := [0x57, 0x41, 0x44, 0x33]
  /** The header overlay: magic, then DirCount at 4 and DirOffset at 8. */
  const HeaderSize: nat := 12
  /** One directory entry. */
  const EntrySize: nat := 32
  const MipTextureType: nat := 0x43

  datatype Wad3 = Wad3(textures: map<seq<byte>, QuakeTexture>)

  predicate HasMagic(data: seq<byte>)
    requires |data| >= 4
  {
    data[..4] == Magic
  }

  function DirCount(data: seq<byte>): i32
    requires |data| >= HeaderSize
  {
    I32At(data, 4)
  }

  /** The number of directory iterations: the loop runs while i < DirCount. */
  function DirEntryCount(data: seq<byte>): nat
    requires |data| >= HeaderSize
  {
    if DirCount(data) < 0 then 0 else DirCount(data)
  }

  function DirOffset(data: seq<byte>): i32
    requires |data| >= HeaderSize
  {
    I32At(data, 8)
  }

  // ----- Directory entries -----

  /**
   * Entry i sits at DirOffset + entryOffset, where entryOffset is the int
   * product sizeof(Entry) * i, which wraps; the pointer sum itself does not.
   */
  function EntryPos(dirOffset: int, i: nat): int {
    dirOffset + Wrap32(EntrySize * i)
  }

  /** Entries below 2^26 sit one after the other; entry 2^26 wraps back to DirOffset - 2^31. */
  lemma EntryPosWraps(dirOffset: int, i: nat)
    ensures i < 0x400_0000 ==> EntryPos(dirOffset, i) == dirOffset + EntrySize * i
    ensures EntryPos(dirOffset, 0x400_0000) == dirOffset - 0x8000_0000
  {
  }

  predicate EntryInBuffer(data: seq<byte>, dirOffset: int, i: nat) {
    InBuffer(data, EntryPos(dirOffset, i), EntrySize)
  }

  /** The bool at offset 13: any non-zero byte reads as true. */
  predicate IsCompressed(data: seq<byte>, dirOffset: int, i: nat)
    requires EntryInBuffer(data, dirOffset, i)
  {
    data[EntryPos(dirOffset, i) + 13] != 0
  }

  /** FileType is a two-byte char at offset 12, so it spans the Compressed byte. */
  predicate IsMipEntry(data: seq<byte>, dirOffset: int, i: nat)
    requires EntryInBuffer(data, dirOffset, i)
  {
    U16At(data, EntryPos(dirOffset, i) + 12) == MipTextureType
  }

  /** The start of the entry's texture: EntryOffset, relative to the archive's first byte. */
  function EntryTexture(data: seq<byte>, dirOffset: int, i: nat): int
    requires EntryInBuffer(data, dirOffset, i)
  {
    I32At(data, EntryPos(dirOffset, i))
  }

  /** Past the compressed check, the type test amounts to byte 12 being 0x43. */
  lemma MipTypeIsByte12(data: seq<byte>, dirOffset: int, i: nat)
    requires EntryInBuffer(data, dirOffset, i) && !IsCompressed(data, dirOffset, i)
    ensures IsMipEntry(data, dirOffset, i) <==> data[EntryPos(dirOffset, i) + 12] == 0x43
  {
  }

  // ----- One miptex -----

  /** The palette follows the fourth mip level, (W/8)*(H/8) bytes as a wrapping uint product, and two padding bytes. */
  function PalettePos(data: seq<byte>, p: int): int
    requires MipHeaderReadable(data, p)
  {
    p + MipOffset(data, p, 3) + ((MipWidth(data, p) / 8) * (MipHeight(data, p) / 8)) % UintRange + 2
  }

  /** The full-size pixels start at Offsets[0]. */
  function PixelPos(data: seq<byte>, p: int): int
    requires MipHeaderReadable(data, p)
  {
    p + MipOffset(data, p, 0)
  }

  /** Everything LoadTexture copies lies inside the archive, and the texture constructor accepts it. */
  predicate TextureReadable(data: seq<byte>, p: int) {
    MipHeaderReadable(data, p)
    && InBuffer(data, PalettePos(data, p), PaletteBytes)
    && InBuffer(data, PixelPos(data, p), MipPixelCount(data, p))
    && MipFits(data, p)
  }

  /** The texture decoded from the miptex at `p`. */
  function WadTextureAt(data: seq<byte>, p: int): QuakeTexture
    requires TextureReadable(data, p)
  {
    var palette := PaletteOf(data[PalettePos(data, p)..PalettePos(data, p) + PaletteBytes]);
    var raw := data[PixelPos(data, p)..PixelPos(data, p) + MipPixelCount(data, p)];
    TextureOf(MipName(data, p), MipTextureWidth(data, p), MipTextureHeight(data, p), raw, palette)
  }

  /**
   * LoadTexture: the name, the palette after the fourth mip level and the
   * W*H full-size pixels (the uint product, which wraps), combined into a
   * texture whose width and height are the int casts of the header's.
   */
  method LoadTexture(data: seq<byte>, p: int) returns (name: seq<byte>, texture: QuakeTexture)
    requires TextureReadable(data, p)
    ensures name == MipName(data, p) && texture.name == name
    ensures texture.width == MipTextureWidth(data, p) && texture.height == MipTextureHeight(data, p)
    ensures texture == WadTextureAt(data, p)
  {
    name := MipName(data, p);
    var width := ToSigned32(MipWidth(data, p));
    var height := ToSigned32(MipHeight(data, p));
    var paletteStart := PalettePos(data, p);
    var paletteData := data[paletteStart..paletteStart + PaletteBytes];
    var textureStart := PixelPos(data, p);
    var rawTextureData := data[textureStart..textureStart + MipPixelCount(data, p)];
    var palette := FromBytes(paletteData);
    var r := NewQuakeTexture(name, width, height, rawTextureData, palette);
    texture := r.value;
  }

  // ----- The directory walk -----

  /** What the walk reads at entry i: the entry, and its texture when it is a miptex. */
  predicate EntryReadable(data: seq<byte>, dirOffset: int, i: nat) {
    EntryInBuffer(data, dirOffset, i)
    && (!IsCompressed(data, dirOffset, i) && IsMipEntry(data, dirOffset, i) ==>
          TextureReadable(data, EntryTexture(data, dirOffset, i)))
  }

  /** Every entry the walk over the first n entries reaches is readable; nothing after a compressed one is read. */
  predicate EntriesReadable(data: seq<byte>, dirOffset: int, n: nat)
    decreases n, 0
  {
    n == 0 ||
    (EntriesReadable(data, dirOffset, n - 1)
     && (Textures(data, dirOffset, n - 1).Success? ==> EntryReadable(data, dirOffset, n - 1)))
  }

  /** The dictionary after the first n entries, or the abort on a compressed one. */
  function Textures(data: seq<byte>, dirOffset: int, n: nat): Result<map<seq<byte>, QuakeTexture>>
    requires EntriesReadable(data, dirOffset, n)
    decreases n, 1
  {
    if n == 0 then Success(map[])
    else
      var prev :- Textures(data, dirOffset, n - 1);
      if IsCompressed(data, dirOffset, n - 1) then Failure(CompressedWadEntry)
      else if IsMipEntry(data, dirOffset, n - 1) then
        var p := EntryTexture(data, dirOffset, n - 1);
        Success(prev[MipName(data, p) := WadTextureAt(data, p)])
      else Success(prev)
  }

  predicate WadReadable(data: seq<byte>) {
    |data| >= 4
    && (HasMagic(data) ==>
          |data| >= HeaderSize && EntriesReadable(data, DirOffset(data), DirEntryCount(data)))
  }

  /** The archive the constructor builds, or the exception it throws. */
  function WadOf(data: seq<byte>): Result<Wad3>
    requires WadReadable(data)
  {
    if !HasMagic(data) then Failure(UnsupportedWadFormat)
    else
      var textures :- Textures(data, DirOffset(data), DirEntryCount(data));
      Success(Wad3(textures))
  }

  /** ReadEntries: check the magic, then walk DirCount entries. */
  method ReadEntries(data: seq<byte>) returns (r: Result<Wad3>)
    requires WadReadable(data)
    ensures r == WadOf(data)
  {
    if data[..4] != Magic {
      return Failure(UnsupportedWadFormat);
    }
    var dirCount := I32At(data, 4);
    var dirOffset := I32At(data, 8);
    ghost var n := DirEntryCount(data);
    var textures: map<seq<byte>, QuakeTexture> := map[];
    var i := 0;
    while i < dirCount
      invariant 0 <= i <= n
      invariant EntriesReadable(data, dirOffset, i)
      invariant Textures(data, dirOffset, i) == Success(textures)
    {
      ReadablePrefix(data, dirOffset, i + 1, n);
      TexturesStep(data, dirOffset, i);
      if IsCompressed(data, dirOffset, i) {
        FailureSticks(data, dirOffset, i + 1, n);
        return Failure(CompressedWadEntry);
      }
      if IsMipEntry(data, dirOffset, i) {
        var name, texture := LoadTexture(data, EntryTexture(data, dirOffset, i));
        textures := textures[name := texture];
      }
      i := i + 1;
    }
    r := Success(Wad3(textures));
  }

  // ----- Properties of the walk -----

  /** One step of the walk, from a successful prefix of i entries. */
  lemma TexturesStep(data: seq<byte>, dirOffset: int, i: nat)
    requires EntriesReadable(data, dirOffset, i + 1) && Textures(data, dirOffset, i).Success?
    ensures EntryReadable(data, dirOffset, i)
    ensures var prev := Textures(data, dirOffset, i).value;
      Textures(data, dirOffset, i + 1) ==
        if IsCompressed(data, dirOffset, i) then Failure(CompressedWadEntry)
        else if IsMipEntry(data, dirOffset, i) then
          var p := EntryTexture(data, dirOffset, i);
          Success(prev[MipName(data, p) := WadTextureAt(data, p)])
        else Success(prev)
  {
  }

  lemma {:induction false} ReadablePrefix(data: seq<byte>, dirOffset: int, i: nat, n: nat)
    requires i <= n && EntriesReadable(data, dirOffset, n)
    ensures EntriesReadable(data, dirOffset, i)
    decreases n
  {
    if i < n {
      ReadablePrefix(data, dirOffset, i, n - 1);
    }
  }

  /** Once the walk has aborted, later entries do not change the outcome. */
  lemma {:induction false} FailureSticks(data: seq<byte>, dirOffset: int, i: nat, n: nat)
    requires i <= n && EntriesReadable(data, dirOffset, n)
    requires EntriesReadable(data, dirOffset, i) && Textures(data, dirOffset, i).Failure?
    ensures Textures(data, dirOffset, n) == Textures(data, dirOffset, i)
    decreases n
  {
    if i < n {
      FailureSticks(data, dirOffset, i, n - 1);
    }
  }

  /**
   * The walk fails exactly when some entry it can read is compressed, whatever
   * that entry's type, and the failure is always the compressed-entry one.
   */
  lemma {:induction false} FailsIffCompressed(data: seq<byte>, dirOffset: int, n: nat)
    requires EntriesReadable(data, dirOffset, n)
    ensures Textures(data, dirOffset, n).Failure? <==>
      exists i :: 0 <= i < n && EntryInBuffer(data, dirOffset, i) && IsCompressed(data, dirOffset, i)
    ensures Textures(data, dirOffset, n).Failure? ==> Textures(data, dirOffset, n).error == CompressedWadEntry
  {
    if n > 0 {
      FailsIffCompressed(data, dirOffset, n - 1);
      if Textures(data, dirOffset, n - 1).Success? && !IsCompressed(data, dirOffset, n - 1) {
        assert Textures(data, dirOffset, n).Success?;
        forall i | 0 <= i < n && EntryInBuffer(data, dirOffset, i)
          ensures !IsCompressed(data, dirOffset, i)
        {
          if i < n - 1 {
          }
        }
      }
    }
  }

  /** Entry i is a readable, uncompressed miptex named `name`. */
  predicate IsMipNamed(data: seq<byte>, dirOffset: int, i: nat, name: seq<byte>) {
    EntryInBuffer(data, dirOffset, i)
    && !IsCompressed(data, dirOffset, i) && IsMipEntry(data, dirOffset, i)
    && TextureReadable(data, EntryTexture(data, dirOffset, i))
    && MipName(data, EntryTexture(data, dirOffset, i)) == name
  }

  /** After a successful walk, a name is present exactly when some miptex entry has it. */
  lemma {:induction false} TextureMembership(data: seq<byte>, dirOffset: int, n: nat, name: seq<byte>)
    requires EntriesReadable(data, dirOffset, n) && Textures(data, dirOffset, n).Success?
    ensures name in Textures(data, dirOffset, n).value <==>
      exists i :: 0 <= i < n && IsMipNamed(data, dirOffset, i, name)
  {
    if n > 0 {
      var prev := Textures(data, dirOffset, n - 1);
      assert prev.Success?;
      TextureMembership(data, dirOffset, n - 1, name);
      if !IsMipNamed(data, dirOffset, n - 1, name) {
        assert name in Textures(data, dirOffset, n).value <==> name in prev.value;
      }
    }
  }

  /** The entry i is the last miptex entry among the first n named `name`. */
  predicate LastMipNamed(data: seq<byte>, dirOffset: int, i: nat, n: nat, name: seq<byte>) {
    i < n && IsMipNamed(data, dirOffset, i, name)
    && forall j :: i < j < n ==> !IsMipNamed(data, dirOffset, j, name)
  }

  /** After a successful walk, a name maps to the texture of the last entry that has it. */
  lemma {:induction false} LastEntryWins(data: seq<byte>, dirOffset: int, n: nat, i: nat, name: seq<byte>)
    requires EntriesReadable(data, dirOffset, n) && Textures(data, dirOffset, n).Success?
    requires LastMipNamed(data, dirOffset, i, n, name)
    ensures name in Textures(data, dirOffset, n).value
    ensures Textures(data, dirOffset, n).value[name] == WadTextureAt(data, EntryTexture(data, dirOffset, i))
  {
    var prev := Textures(data, dirOffset, n - 1);
    assert prev.Success?;
    if i < n - 1 {
      assert !IsMipNamed(data, dirOffset, n - 1, name);
      LastEntryWins(data, dirOffset, n - 1, i, name);
    }
  }

  /** Archives without the magic are refused with the format error, and only those. */
  lemma MagicRequired(data: seq<byte>)
    requires WadReadable(data)
    ensures WadOf(data) == Failure(UnsupportedWadFormat) <==> !HasMagic(data)
  {
    if HasMagic(data) {
      FailsIffCompressed(data, DirOffset(data), DirEntryCount(data));
    }
  }
}
