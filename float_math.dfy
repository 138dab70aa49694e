/**
 * The floating-point steps of mesh building, which the model does not
 * compute: it takes them as functions. Each field names the expression of
 * the source it stands for; none is given a definition.
 */
module FloatMath {
  import opened Common
  import opened Bsp

  datatype SurfaceMath = SurfaceMath(
    /**
     * The texture coordinate of a vertex:
     * ((Snrm . v + Soff) / width, (Tnrm . v + Toff) / height).
     */
    textureUv: (Vec3, TextureInfo, int, int) -> Vec2,
    /**
     * BuildLightmap's block size for a polygon and tile side Size: the
     * integer casts of Ceiling((maxU - minU) / Size) and
     * Ceiling((maxV - minV) / Size) over the projected vertices.
     */
    lightmapExtent: (seq<Vec3>, TextureInfo, nat) -> (nat, nat),
    /**
     * The remapped lightmap coordinate of a polygon vertex, for block size
     * w x h and tile side Size: ((u - minU) / (maxU - minU)) * w / Size and
     * the same for v.
     */
    lightmapUv: (seq<Vec3>, TextureInfo, nat, nat, nat, Vec3) -> Vec2
  )
}
