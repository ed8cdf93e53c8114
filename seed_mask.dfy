/**
 * Uniform seeding in a mask by rejection (SeedMask::get_seed): draw a voxel
 * uniformly until its mask value is true. The draws are an input
 * sequence; the jitter inside the voxel and the transform to scanner space
 * are left out, so the seed is the voxel.
 */
module SeedMask {
  import opened Wrappers
  import opened Raster
  import opened Volumes

  /**
   * One get_seed: returns the voxel of the first draw whose mask value is
   * true, with the number of draws it used; every earlier draw hit a false
   * voxel. It is None only when every draw hits a false voxel.
   */
  method GetSeed(mask: Mask, draws: seq<Voxel>) returns (seed: Option<Voxel>, used: nat)
    requires mask.Valid()
    requires forall n :: 0 <= n < |draws| ==> InBounds(mask.dims, draws[n])
    ensures used <= |draws|
    ensures forall n :: 0 <= n < used - 1 ==> !mask.At(draws[n])
    ensures seed.Some? ==> used >= 1 && seed.value == draws[used - 1]
    ensures seed.Some? ==> InBounds(mask.dims, seed.value) && mask.At(seed.value)
    ensures seed.None? <==> forall n :: 0 <= n < |draws| ==> !mask.At(draws[n])
    ensures seed.None? ==> used == |draws|
  {
    used := 0;
    while used < |draws|
      invariant used <= |draws|
      invariant forall n :: 0 <= n < used ==> !mask.At(draws[n])
    {
      var v := draws[used];
      used := used + 1;
      if mask.At(v) {
        return Some(v), used;
      }
    }
    return None, used;
  }

  /**
   * The voxels a draw can be accepted on are exactly the voxels that the
   * per-voxel seeders enumerate.
   */
  lemma AcceptedAreEnumerated(mask: Mask, v: Voxel)
    requires mask.Valid() && InBounds(mask.dims, v)
    ensures mask.At(v) <==> v in NonZeroFrom(mask, Origin)
  {
    NonZeroFromHas(mask, Origin, v);
  }
}
