/**
 * Three-dimensional images, the binary seed mask, its non-zero voxels in
 * raster order, and the advance loop shared by the per-voxel seeders.
 */
module Volumes {
  import opened Raster

  /** The first three axes of an image, as nested sequences data[i][j][k]. */
  datatype Volume<T> = Volume(dims: Dims, data: seq<seq<seq<T>>>) {
    predicate Valid() {
      && dims.Positive()
      && |data| == dims.n0
      && (forall i :: 0 <= i < |data| ==> |data[i]| == dims.n1)
      && (forall i, j :: 0 <= i < |data| && 0 <= j < |data[i]| ==> |data[i][j]| == dims.n2)
    }

    /** The value at an in-bounds voxel. */
    function At(v: Voxel): T
      requires Valid() && InBounds(dims, v)
    {
      data[v.i][v.j][v.k]
    }
  }

  /** A seed mask: a voxel is eligible when its value is true. */
  type Mask = Volume<bool>

  /** The eligible voxels of s, in the order of s. */
  function NonZero(m: Mask, s: seq<Voxel>): seq<Voxel>
    requires m.Valid() && forall n :: 0 <= n < |s| ==> InBounds(m.dims, s[n])
  {
    if s == [] then [] else (if m.At(s[0]) then [s[0]] else []) + NonZero(m, s[1..])
  }

  /** The eligible voxels from cursor v onwards, in raster order. */
  function NonZeroFrom(m: Mask, v: Voxel): seq<Voxel>
    requires m.Valid() && Resting(m.dims, v)
  {
    SpanInBounds(m.dims, v);
    NonZero(m, Span(m.dims, v))
  }

  /** The eligible voxels strictly after cursor v, in raster order. */
  function NonZeroAfter(m: Mask, v: Voxel): seq<Voxel>
    requires m.Valid() && Steppable(m.dims, v)
  {
    NonZeroFrom(m, Step(m.dims, v))
  }

  lemma SpanInBounds(d: Dims, v: Voxel)
    requires d.Positive() && Resting(d, v)
    ensures forall n :: 0 <= n < |Span(d, v)| ==> InBounds(d, Span(d, v)[n])
  {
    forall n | 0 <= n < |Span(d, v)| ensures InBounds(d, Span(d, v)[n]) {
      SpanHas(d, v, Span(d, v)[n]);
    }
  }

  lemma {:induction false} NonZeroHas(m: Mask, s: seq<Voxel>, u: Voxel)
    requires m.Valid() && forall n :: 0 <= n < |s| ==> InBounds(m.dims, s[n])
    ensures u in NonZero(m, s) <==> u in s && m.At(u)
  {
    if s != [] {
      NonZeroHas(m, s[1..], u);
      assert s == [s[0]] + s[1..];
    }
  }

  lemma {:induction false} NonZeroDistinct(m: Mask, s: seq<Voxel>)
    requires m.Valid() && forall n :: 0 <= n < |s| ==> InBounds(m.dims, s[n])
    requires Distinct(s)
    ensures Distinct(NonZero(m, s))
  {
    if s != [] {
      NonZeroDistinct(m, s[1..]);
      if m.At(s[0]) {
        NonZeroHas(m, s[1..], s[0]);
        assert s[0] !in s[1..] by {
          forall n | 0 <= n < |s[1..]| ensures s[1..][n] != s[0] { assert s[1..][n] == s[n + 1]; }
        }
        DistinctCons(s[0], NonZero(m, s[1..]));
      }
    }
  }

  /**
   * The raster enumeration from v holds every eligible voxel not before v,
   * and nothing else, each exactly once.
   */
  lemma NonZeroFromHas(m: Mask, v: Voxel, u: Voxel)
    requires m.Valid() && Resting(m.dims, v)
    ensures u in NonZeroFrom(m, v) <==> InBounds(m.dims, u) && m.At(u) && !Precedes(u, v)
    ensures Distinct(NonZeroFrom(m, v))
  {
    SpanInBounds(m.dims, v);
    NonZeroHas(m, Span(m.dims, v), u);
    SpanHas(m.dims, v, u);
    SpanDistinct(m.dims, v);
    NonZeroDistinct(m, Span(m.dims, v));
  }

  /** The set of eligible voxels of the mask. */
  function NonZeroVoxels(m: Mask): set<Voxel>
    requires m.Valid()
  {
    set i, j, k | 0 <= i < m.dims.n0 && 0 <= j < m.dims.n1 && 0 <= k < m.dims.n2
                  && m.At(Voxel(i, j, k)) :: Voxel(i, j, k)
  }

  /**
   * The raster enumeration of the whole mask is exactly its set of eligible
   * voxels, without repetition.
   */
  lemma NonZeroEnumeration(m: Mask)
    requires m.Valid()
    ensures Distinct(NonZeroFrom(m, Origin))
    ensures forall u :: u in NonZeroFrom(m, Origin) <==> u in NonZeroVoxels(m)
  {
    NonZeroFromHas(m, Origin, Origin);
    forall u ensures u in NonZeroFrom(m, Origin) <==> u in NonZeroVoxels(m) {
      NonZeroFromHas(m, Origin, u);
      if InBounds(m.dims, u) && m.At(u) {
        assert u == Voxel(u.i, u.j, u.k);
      }
    }
  }

  /**
   * The do-while advance: increment the cursor at least once and keep going
   * while it is in range and on a voxel whose mask value is false.
   * It stops past the end exactly when no eligible voxel follows; otherwise
   * it rests on the next eligible voxel. Every voxel skipped is ineligible.
   */
  method Advance(m: Mask, c: Voxel) returns (next: Voxel)
    requires m.Valid() && Steppable(m.dims, c)
    ensures Resting(m.dims, next) && Precedes(c, next)
    ensures Lin(m.dims, c) < Lin(m.dims, next)
    ensures next == End(m.dims) <==> NonZeroAfter(m, c) == []
    ensures next != End(m.dims) ==> m.At(next) && NonZeroAfter(m, c) == [next] + NonZeroAfter(m, next)
    ensures forall u :: InBounds(m.dims, u) && Precedes(c, u) && Precedes(u, next) ==> !m.At(u)
  {
    var d := m.dims;
    next := Step(d, c);
    StepCounts(d, c);
    while next.i != d.n0 && !m.At(next)
      invariant Resting(d, next) && Precedes(c, next)
      invariant Lin(d, c) < Lin(d, next)
      invariant NonZeroAfter(m, c) == NonZeroFrom(m, next)
      invariant forall u :: InBounds(d, u) && Precedes(c, u) && Precedes(u, next) ==> !m.At(u)
      decreases d.n0 - next.i, d.n1 - next.j, d.n2 - next.k
    {
      var w := Step(d, next);
      SpanInBounds(d, w);
      assert Span(d, next) == [next] + Span(d, w);
      forall u | InBounds(d, u) && Precedes(c, u) && Precedes(u, w) ensures !m.At(u) {
        if Precedes(next, u) {
          StepIsSuccessor(d, next, u);
        }
      }
      StepCounts(d, next);
      next := w;
    }
    if next != End(d) {
      var w := Step(d, next);
      SpanInBounds(d, w);
      assert Span(d, next) == [next] + Span(d, w);
    }
  }
}
