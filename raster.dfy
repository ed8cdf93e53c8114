/**
 * The integer voxel cursor of an image and the raster increment that the
 * per-voxel seeders use to walk it: axis 2 fastest, then axis 1, then axis 0.
 */
module Raster {

  /** Sizes of the first three axes of an image: size(0), size(1), size(2). */
  datatype Dims = Dims(n0: int, n1: int, n2: int) {
    predicate Positive() { n0 >= 1 && n1 >= 1 && n2 >= 1 }
  }

  /** An integer index per axis: index(0), index(1), index(2). */
  datatype Voxel = Voxel(i: int, j: int, k: int)

  const Origin := Voxel(0, 0, 0)

  /** The cursor just before the first voxel (index(2) == -1). */
  const BeforeStart := Voxel(0, 0, -1)

  /** The cursor after the last voxel, where index(0) == size(0). */
  function End(d: Dims): Voxel { Voxel(d.n0, 0, 0) }

  predicate InBounds(d: Dims, v: Voxel) {
    0 <= v.i < d.n0 && 0 <= v.j < d.n1 && 0 <= v.k < d.n2
  }

  /** Where the cursor rests between two calls: on a voxel, or past the end. */
  predicate Resting(d: Dims, v: Voxel) { InBounds(d, v) || v == End(d) }

  /** Where the increment may be applied: on a voxel, or before the start. */
  predicate Steppable(d: Dims, v: Voxel) { InBounds(d, v) || v == BeforeStart }

  /** The index along axis a. */
  function Coord(v: Voxel, a: int): int
    requires 0 <= a < 3
  {
    if a == 0 then v.i else if a == 1 then v.j else v.k
  }

  /** Componentwise sum, used to map an index of a cropped image back. */
  function Offset(base: Voxel, v: Voxel): Voxel {
    Voxel(base.i + v.i, base.j + v.j, base.k + v.k)
  }

  /** The linear index i*size(1)*size(2) + j*size(2) + k. */
  function Lin(d: Dims, v: Voxel): int { (v.i * d.n1 + v.j) * d.n2 + v.k }

  /** Strict raster (lexicographic) order: u comes before v. */
  predicate Precedes(u: Voxel, v: Voxel) {
    u.i < v.i || (u.i == v.i && (u.j < v.j || (u.j == v.j && u.k < v.k)))
  }

  /**
   * One increment of the cursor: ++index(2); on reaching size(2) it wraps to
   * 0 and carries into index(1), which wraps in turn and carries into
   * index(0). The result stays in range and is later in raster order.
   */
  function Step(d: Dims, v: Voxel): (w: Voxel)
    requires d.Positive() && Steppable(d, v)
    ensures Resting(d, w)
    ensures Precedes(v, w)
    ensures w.k == (if v.k + 1 == d.n2 then 0 else v.k + 1)
  {
    if v.k + 1 == d.n2 then
      if v.j + 1 == d.n1 then Voxel(v.i + 1, 0, 0) else Voxel(v.i, v.j + 1, 0)
    else
      Voxel(v.i, v.j, v.k + 1)
  }

  /** The increment adds exactly one to the linear index. */
  lemma StepCounts(d: Dims, v: Voxel)
    requires d.Positive() && Steppable(d, v)
    ensures Lin(d, Step(d, v)) == Lin(d, v) + 1
  {
    var w := Step(d, v);
    if v.k + 1 == d.n2 {
      if v.j + 1 == d.n1 {
        calc {
          Lin(d, w);
          (v.i + 1) * d.n1 * d.n2;
          (v.i * d.n1 + v.j + 1) * d.n2;
          (v.i * d.n1 + v.j) * d.n2 + d.n2;
          Lin(d, v) + 1;
        }
      } else {
        calc {
          Lin(d, w);
          (v.i * d.n1 + v.j + 1) * d.n2;
          (v.i * d.n1 + v.j) * d.n2 + d.n2;
          Lin(d, v) + 1;
        }
      }
    }
  }

  /** No voxel lies strictly between a cursor and its increment. */
  lemma StepIsSuccessor(d: Dims, v: Voxel, u: Voxel)
    requires d.Positive() && Steppable(d, v) && InBounds(d, u)
    requires Precedes(v, u)
    ensures u == Step(d, v) || Precedes(Step(d, v), u)
  {
  }

  /** Every voxel from v onwards, in raster order. */
  function Span(d: Dims, v: Voxel): seq<Voxel>
    requires d.Positive() && Resting(d, v)
    decreases d.n0 - v.i, d.n1 - v.j, d.n2 - v.k
  {
    if v.i == d.n0 then [] else [v] + Span(d, Step(d, v))
  }

  /** The voxels of Span(d, v) are exactly the in-bounds voxels not before v. */
  lemma {:induction false} SpanHas(d: Dims, v: Voxel, u: Voxel)
    requires d.Positive() && Resting(d, v)
    ensures u in Span(d, v) <==> InBounds(d, u) && !Precedes(u, v)
    decreases d.n0 - v.i, d.n1 - v.j, d.n2 - v.k
  {
    if v.i != d.n0 {
      SpanHas(d, Step(d, v), u);
      if InBounds(d, u) && Precedes(v, u) {
        StepIsSuccessor(d, v, u);
      }
    }
  }

  /** A sequence without repeated elements. */
  predicate Distinct<T(==)>(s: seq<T>) {
    forall p, q :: 0 <= p < q < |s| ==> s[p] != s[q]
  }

  lemma DistinctCons<T>(x: T, s: seq<T>)
    requires x !in s && Distinct(s)
    ensures Distinct([x] + s)
  {
    var t := [x] + s;
    forall p, q | 0 <= p < q < |t| ensures t[p] != t[q] {
      if p == 0 {
        assert t[q] == s[q - 1];
      } else {
        assert t[p] == s[p - 1] && t[q] == s[q - 1];
      }
    }
  }

  /** The raster walk visits no voxel twice. */
  lemma {:induction false} SpanDistinct(d: Dims, v: Voxel)
    requires d.Positive() && Resting(d, v)
    ensures Distinct(Span(d, v))
    decreases d.n0 - v.i, d.n1 - v.j, d.n2 - v.k
  {
    if v.i != d.n0 {
      var w := Step(d, v);
      SpanDistinct(d, w);
      SpanHas(d, w, v);
      DistinctCons(v, Span(d, w));
    }
  }

  /** The walk from v has size(0)*size(1)*size(2) - Lin(v) voxels. */
  lemma {:induction false} SpanLength(d: Dims, v: Voxel)
    requires d.Positive() && Resting(d, v)
    ensures |Span(d, v)| == d.n0 * d.n1 * d.n2 - Lin(d, v)
    decreases d.n0 - v.i, d.n1 - v.j, d.n2 - v.k
  {
    if v.i != d.n0 {
      SpanLength(d, Step(d, v));
      StepCounts(d, v);
    }
  }
}
