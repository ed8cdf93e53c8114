/**
 * Rejection sampling against a weighting image (Rejection): the
 * constructor scans the image once, refusing negative values and an empty
 * image, and records the maximum, the sum and the bounding box of the
 * non-zero voxels; it keeps a cropped copy of the image. get_seed (the
 * nearest-voxel build) draws a voxel of the copy and a threshold in
 * [0, max) until the voxel's value reaches the threshold. Intensities are
 * exact reals and the random draws are an input sequence.
 */
module Rejection {
  import opened Wrappers
  import opened Raster
  import opened Volumes

  type Image = Volume<real>

  /** The two exceptions of the constructor. */
  datatype ScanError = NegativeValue | EmptyImage

  /** What the scan leaves: max, the pre-scaling volume, and bottom and top per axis. */
  datatype Bounds = Bounds(max: real, sum: real, bottom: Voxel, top: Voxel)

  /** std::numeric_limits<size_t>::max(), the initial bottom on each axis. */
  const SizeMax: int := 0xFFFF_FFFF_FFFF_FFFF

  predicate NonZeroAt(vol: Image, v: Voxel)
    requires vol.Valid()
  {
    InBounds(vol.dims, v) && vol.At(v) != 0.0
  }

  // Sums in the order of the scan, axis 0 fastest.

  function RowSum(vol: Image, j: int, k: int, i: int): real
    requires vol.Valid() && 0 <= j < vol.dims.n1 && 0 <= k < vol.dims.n2 && 0 <= i <= vol.dims.n0
  {
    if i == 0 then 0.0 else RowSum(vol, j, k, i - 1) + vol.At(Voxel(i - 1, j, k))
  }

  function SliceSum(vol: Image, k: int, j: int): real
    requires vol.Valid() && 0 <= k < vol.dims.n2 && 0 <= j <= vol.dims.n1
  {
    if j == 0 then 0.0 else SliceSum(vol, k, j - 1) + RowSum(vol, j - 1, k, vol.dims.n0)
  }

  function SlabSum(vol: Image, k: int): real
    requires vol.Valid() && 0 <= k <= vol.dims.n2
  {
    if k == 0 then 0.0 else SlabSum(vol, k - 1) + SliceSum(vol, k - 1, vol.dims.n1)
  }

  /** The sum of every voxel value. */
  function Total(vol: Image): real
    requires vol.Valid()
  {
    SlabSum(vol, vol.dims.n2)
  }

  /** lo is the smallest index along axis a of a non-zero voxel. */
  ghost predicate IsLowest(vol: Image, a: int, lo: int)
    requires vol.Valid() && 0 <= a < 3
  {
    && (forall v :: NonZeroAt(vol, v) ==> lo <= Coord(v, a))
    && (exists v :: NonZeroAt(vol, v) && Coord(v, a) == lo)
  }

  /** hi is the largest index along axis a of a non-zero voxel. */
  ghost predicate IsHighest(vol: Image, a: int, hi: int)
    requires vol.Valid() && 0 <= a < 3
  {
    && (forall v :: NonZeroAt(vol, v) ==> Coord(v, a) <= hi)
    && (exists v :: NonZeroAt(vol, v) && Coord(v, a) == hi)
  }

  /**
   * b is what a successful scan of vol yields: the maximum value (positive),
   * the sum of the values, and per axis the largest non-zero index as top
   * and the smallest one, lowered by one unless it is 0, as bottom.
   */
  ghost predicate Summarizes(vol: Image, b: Bounds)
    requires vol.Valid()
  {
    && b.max > 0.0
    && (forall v :: InBounds(vol.dims, v) ==> vol.At(v) <= b.max)
    && (exists v :: InBounds(vol.dims, v) && vol.At(v) == b.max)
    && b.sum == Total(vol)
    && AxisSummary(vol, 0, b.bottom.i, b.top.i)
    && AxisSummary(vol, 1, b.bottom.j, b.top.j)
    && AxisSummary(vol, 2, b.bottom.k, b.top.k)
  }

  /**
   * Along axis a, top is the largest index of a non-zero voxel and bottom
   * the smallest, lowered by one unless it is 0.
   */
  ghost predicate AxisSummary(vol: Image, a: int, bottom: int, top: int)
    requires vol.Valid() && 0 <= a < 3
  {
    && IsHighest(vol, a, top)
    && exists lo :: IsLowest(vol, a, lo) && bottom == if lo > 0 then lo - 1 else lo
  }

  /** Image indices are size_t: no extent exceeds SizeMax. */
  predicate Addressable(d: Dims) {
    d.n0 <= SizeMax && d.n1 <= SizeMax && d.n2 <= SizeMax
  }

  /** The bounds before the scan: max 0, sum 0, bottom at SizeMax and top at 0. */
  const Start: Bounds := Bounds(0.0, 0.0, Voxel(SizeMax, SizeMax, SizeMax), Origin)

  function Lower(b: int, x: int): int { if x < b then x else b }

  function Raise(t: int, x: int): int { if x > t then x else t }

  /** x is the larger of p and q. */
  predicate IsMax(x: real, p: real, q: real) {
    p <= x && q <= x && (x == p || x == q)
  }

  /** The box from bottom to top of b holds voxel c. */
  predicate Covers(b: Bounds, c: Voxel) {
    && b.bottom.i <= c.i <= b.top.i
    && b.bottom.j <= c.j <= b.top.j
    && b.bottom.k <= c.k <= b.top.k
  }

  /** r is b or later in a scan: max not lower, bottom not higher, top not lower. */
  predicate Widens(b: Bounds, r: Bounds) {
    && b.max <= r.max
    && r.bottom.i <= b.bottom.i && r.bottom.j <= b.bottom.j && r.bottom.k <= b.bottom.k
    && b.top.i <= r.top.i && b.top.j <= r.top.j && b.top.k <= r.top.k
  }

  /**
   * The body of the scan for the voxel c holding the non-negative value:
   * a non-zero value raises the maximum (std::max), adds to the sum and
   * widens bottom and top to cover c.
   */
  function Visit(b: Bounds, c: Voxel, value: real): Bounds
  {
    if value == 0.0 then b
    else Bounds(if b.max < value then value else b.max, b.sum + value,
                Voxel(Lower(b.bottom.i, c.i), Lower(b.bottom.j, c.j), Lower(b.bottom.k, c.k)),
                Voxel(Raise(b.top.i, c.i), Raise(b.top.j, c.j), Raise(b.top.k, c.k)))
  }

  /**
   * A zero voxel changes nothing; a non-zero one adds its value to the sum,
   * makes the maximum the larger of the old one and the value, and brings
   * the voxel inside the box; either way the bounds only widen. (A lemma
   * rather than Visit's own contract, so that the scan proofs do not carry it.)
   */
  lemma VisitEffect(b: Bounds, c: Voxel, value: real)
    ensures value == 0.0 ==> Visit(b, c, value) == b
    ensures value != 0.0 ==> var r := Visit(b, c, value);
      r.sum == b.sum + value && IsMax(r.max, b.max, value) && Covers(r, c)
    ensures Widens(b, Visit(b, c, value))
  {
  }

  // The scan as folds of Visit, axis 0 fastest, matching its three loops.

  /** The bounds after visiting voxels (0, j, k) .. (i - 1, j, k), starting from b. */
  function RowFold(vol: Image, j: int, k: int, i: int, b: Bounds): (r: Bounds)
    requires vol.Valid() && 0 <= j < vol.dims.n1 && 0 <= k < vol.dims.n2 && 0 <= i <= vol.dims.n0
  {
    if i == 0 then b else Visit(RowFold(vol, j, k, i - 1, b), Voxel(i - 1, j, k), vol.At(Voxel(i - 1, j, k)))
  }

  /** The bounds after visiting rows 0 .. j - 1 of slice k, starting from b. */
  function SliceFold(vol: Image, k: int, j: int, b: Bounds): (r: Bounds)
    requires vol.Valid() && 0 <= k < vol.dims.n2 && 0 <= j <= vol.dims.n1
  {
    if j == 0 then b else RowFold(vol, j - 1, k, vol.dims.n0, SliceFold(vol, k, j - 1, b))
  }

  /** The bounds after visiting slices 0 .. k - 1. */
  function SlabFold(vol: Image, k: int): (r: Bounds)
    requires vol.Valid() && 0 <= k <= vol.dims.n2
  {
    if k == 0 then Start else SliceFold(vol, k - 1, vol.dims.n1, SlabFold(vol, k - 1))
  }

  /** v comes before cursor c in the scan order (axis 0 fastest). */
  predicate Seen(v: Voxel, c: Voxel) {
    v.k < c.k || (v.k == c.k && (v.j < c.j || (v.j == c.j && v.i < c.i)))
  }

  /** The cursor after c along axis 0. */
  function Next(c: Voxel): Voxel {
    Voxel(c.i + 1, c.j, c.k)
  }

  /** No voxel seen before c is negative. */
  ghost predicate NoNegativeBefore(vol: Image, c: Voxel)
    requires vol.Valid()
  {
    forall v :: InBounds(vol.dims, v) && Seen(v, c) ==> 0.0 <= vol.At(v)
  }

  /** The clean prefix up to c holds for every cursor seen before c. */
  lemma NoNegativeEarlier(vol: Image, c: Voxel, c': Voxel)
    requires vol.Valid() && NoNegativeBefore(vol, c) && Seen(c', c)
    ensures NoNegativeBefore(vol, c')
  {
    forall v | InBounds(vol.dims, v) && Seen(v, c')
      ensures Seen(v, c)
    {
    }
  }

  /**
   * What bottom b and top t of axis a say once the voxels before c are
   * seen: before any non-zero voxel they keep their initial values; after
   * one they are the least and the largest index of a seen non-zero voxel.
   */
  ghost predicate AxisTally(vol: Image, c: Voxel, a: int, any: bool, b: int, t: int)
    requires vol.Valid() && 0 <= a < 3
  {
    && (!any ==> b == SizeMax && t == 0)
    && (any ==> exists v :: NonZeroAt(vol, v) && Seen(v, c) && Coord(v, a) == b)
    && (any ==> exists v :: NonZeroAt(vol, v) && Seen(v, c) && Coord(v, a) == t)
    && (forall v :: NonZeroAt(vol, v) && Seen(v, c) ==> b <= Coord(v, a) <= t)
  }

  /** b is what the scan knows once the voxels of vol before c are seen. */
  ghost predicate Tallies(vol: Image, c: Voxel, b: Bounds)
    requires vol.Valid()
  {
    && 0.0 <= b.max
    && (forall v :: InBounds(vol.dims, v) && Seen(v, c) ==> 0.0 <= vol.At(v) <= b.max)
    && (b.max != 0.0 ==> exists v :: InBounds(vol.dims, v) && Seen(v, c) && vol.At(v) == b.max)
    && AxisTally(vol, c, 0, b.max != 0.0, b.bottom.i, b.top.i)
    && AxisTally(vol, c, 1, b.max != 0.0, b.bottom.j, b.top.j)
    && AxisTally(vol, c, 2, b.max != 0.0, b.bottom.k, b.top.k)
  }

  lemma StartTallies(vol: Image)
    requires vol.Valid()
    ensures Tallies(vol, Origin, Start)
  {
  }

  /** A non-zero voxel at c widens axis a to cover it. */
  lemma AxisVisit(vol: Image, c: Voxel, a: int, any: bool, b: int, t: int)
    requires vol.Valid() && Addressable(vol.dims) && 0 <= a < 3 && NonZeroAt(vol, c)
    requires AxisTally(vol, c, a, any, b, t)
    ensures AxisTally(vol, Next(c), a, true, Lower(b, Coord(c, a)), Raise(t, Coord(c, a)))
  {
    var x := Coord(c, a);
    assert Seen(c, Next(c));
    if x >= b {
      var w :| NonZeroAt(vol, w) && Seen(w, c) && Coord(w, a) == b;
      assert Seen(w, Next(c));
    }
    if x <= t && any {
      var w :| NonZeroAt(vol, w) && Seen(w, c) && Coord(w, a) == t;
      assert Seen(w, Next(c));
    }
    forall v | NonZeroAt(vol, v) && Seen(v, Next(c))
      ensures Lower(b, x) <= Coord(v, a) <= Raise(t, x)
    {
      if v != c {
        assert Seen(v, c);
      }
    }
  }

  /** A zero voxel at c leaves what axis a says unchanged. */
  lemma AxisSkip(vol: Image, c: Voxel, a: int, any: bool, b: int, t: int)
    requires vol.Valid() && 0 <= a < 3 && InBounds(vol.dims, c) && vol.At(c) == 0.0
    requires AxisTally(vol, c, a, any, b, t)
    ensures AxisTally(vol, Next(c), a, any, b, t)
  {
    if any {
      var w :| NonZeroAt(vol, w) && Seen(w, c) && Coord(w, a) == b;
      assert Seen(w, Next(c));
      var w' :| NonZeroAt(vol, w') && Seen(w', c) && Coord(w', a) == t;
      assert Seen(w', Next(c));
    }
    forall v | NonZeroAt(vol, v) && Seen(v, Next(c))
      ensures Seen(v, c)
    {
    }
  }

  /** Visiting the non-negative voxel c keeps what the scan knows of the maximum. */
  lemma MaxVisit(vol: Image, c: Voxel, b: Bounds, r: Bounds)
    requires vol.Valid() && InBounds(vol.dims, c) && 0.0 <= vol.At(c)
    requires Tallies(vol, c, b) && r == Visit(b, c, vol.At(c))
    ensures 0.0 <= r.max
    ensures forall v :: InBounds(vol.dims, v) && Seen(v, Next(c)) ==> 0.0 <= vol.At(v) <= r.max
    ensures r.max != 0.0 ==> exists v :: InBounds(vol.dims, v) && Seen(v, Next(c)) && vol.At(v) == r.max
  {
    if b.max != 0.0 {
      var w :| InBounds(vol.dims, w) && Seen(w, c) && vol.At(w) == b.max;
      assert Seen(w, Next(c));
    }
    assert Seen(c, Next(c));
    forall v | InBounds(vol.dims, v) && Seen(v, Next(c))
      ensures 0.0 <= vol.At(v) <= r.max
    {
      if v != c {
        assert Seen(v, c);
      }
    }
  }

  /** Visiting the non-negative voxel c moves the scan's knowledge one voxel on. */
  lemma VisitTallies(vol: Image, c: Voxel, b: Bounds)
    requires vol.Valid() && Addressable(vol.dims) && InBounds(vol.dims, c) && 0.0 <= vol.At(c)
    requires Tallies(vol, c, b)
    ensures Tallies(vol, Next(c), Visit(b, c, vol.At(c)))
  {
    var r := Visit(b, c, vol.At(c));
    MaxVisit(vol, c, b, r);
    if vol.At(c) == 0.0 {
      AxisSkip(vol, c, 0, b.max != 0.0, b.bottom.i, b.top.i);
      AxisSkip(vol, c, 1, b.max != 0.0, b.bottom.j, b.top.j);
      AxisSkip(vol, c, 2, b.max != 0.0, b.bottom.k, b.top.k);
    } else {
      AxisVisit(vol, c, 0, b.max != 0.0, b.bottom.i, b.top.i);
      AxisVisit(vol, c, 1, b.max != 0.0, b.bottom.j, b.top.j);
      AxisVisit(vol, c, 2, b.max != 0.0, b.bottom.k, b.top.k);
      assert r.max != 0.0;
    }
  }

  /** What axis a says depends only on which voxels are seen. */
  lemma AxisMove(vol: Image, c: Voxel, c': Voxel, a: int, any: bool, b: int, t: int)
    requires vol.Valid() && 0 <= a < 3
    requires forall v :: InBounds(vol.dims, v) ==> (Seen(v, c) <==> Seen(v, c'))
    requires AxisTally(vol, c, a, any, b, t)
    ensures AxisTally(vol, c', a, any, b, t)
  {
    if any {
      var w :| NonZeroAt(vol, w) && Seen(w, c) && Coord(w, a) == b;
      assert Seen(w, c');
      var w' :| NonZeroAt(vol, w') && Seen(w', c) && Coord(w', a) == t;
      assert Seen(w', c');
    }
  }

  /** Two cursors before which the same voxels of vol are seen give the same knowledge. */
  lemma TalliesMove(vol: Image, c: Voxel, c': Voxel, b: Bounds)
    requires vol.Valid()
    requires forall v :: InBounds(vol.dims, v) ==> (Seen(v, c) <==> Seen(v, c'))
    requires Tallies(vol, c, b)
    ensures Tallies(vol, c', b)
  {
    if b.max != 0.0 {
      var w :| InBounds(vol.dims, w) && Seen(w, c) && vol.At(w) == b.max;
      assert Seen(w, c');
    }
    AxisMove(vol, c, c', 0, b.max != 0.0, b.bottom.i, b.top.i);
    AxisMove(vol, c, c', 1, b.max != 0.0, b.bottom.j, b.top.j);
    AxisMove(vol, c, c', 2, b.max != 0.0, b.bottom.k, b.top.k);
  }

  /** The row fold keeps the scan's knowledge, voxel by voxel. */
  lemma {:induction false} RowTallies(vol: Image, j: int, k: int, i: int, b: Bounds)
    requires vol.Valid() && Addressable(vol.dims)
    requires 0 <= j < vol.dims.n1 && 0 <= k < vol.dims.n2 && 0 <= i <= vol.dims.n0
    requires Tallies(vol, Voxel(0, j, k), b) && NoNegativeBefore(vol, Voxel(i, j, k))
    ensures Tallies(vol, Voxel(i, j, k), RowFold(vol, j, k, i, b))
  {
    if i > 0 {
      var c := Voxel(i - 1, j, k);
      NoNegativeEarlier(vol, Voxel(i, j, k), c);
      RowTallies(vol, j, k, i - 1, b);
      VisitTallies(vol, c, RowFold(vol, j, k, i - 1, b));
      assert Next(c) == Voxel(i, j, k);
    }
  }

  /** The slice fold keeps the scan's knowledge, row by row. */
  lemma {:induction false} SliceTallies(vol: Image, k: int, j: int, b: Bounds)
    requires vol.Valid() && Addressable(vol.dims)
    requires 0 <= k < vol.dims.n2 && 0 <= j <= vol.dims.n1
    requires Tallies(vol, Voxel(0, 0, k), b) && NoNegativeBefore(vol, Voxel(0, j, k))
    ensures Tallies(vol, Voxel(0, j, k), SliceFold(vol, k, j, b))
  {
    if j > 0 {
      NoNegativeEarlier(vol, Voxel(0, j, k), Voxel(0, j - 1, k));
      SliceTallies(vol, k, j - 1, b);
      var s := SliceFold(vol, k, j - 1, b);
      NoNegativeEarlier(vol, Voxel(0, j, k), Voxel(vol.dims.n0, j - 1, k));
      RowTallies(vol, j - 1, k, vol.dims.n0, s);
      SameSeen(vol.dims, Voxel(vol.dims.n0, j - 1, k), Voxel(0, j, k));
      TalliesMove(vol, Voxel(vol.dims.n0, j - 1, k), Voxel(0, j, k), RowFold(vol, j - 1, k, vol.dims.n0, s));
    }
  }

  /** The whole fold knows about every voxel before slice k. */
  lemma {:induction false} SlabTallies(vol: Image, k: int)
    requires vol.Valid() && Addressable(vol.dims) && 0 <= k <= vol.dims.n2
    requires NoNegativeBefore(vol, Voxel(0, 0, k))
    ensures Tallies(vol, Voxel(0, 0, k), SlabFold(vol, k))
  {
    if k == 0 {
      StartTallies(vol);
    } else {
      NoNegativeEarlier(vol, Voxel(0, 0, k), Voxel(0, 0, k - 1));
      SlabTallies(vol, k - 1);
      SlabStep(vol, k, SlabFold(vol, k - 1));
    }
  }

  /** Past the end of a row, or of a slice, the voxels seen are those seen at the start of the next. */
  lemma SameSeen(d: Dims, c: Voxel, c': Voxel)
    requires (c.i == d.n0 && c' == Voxel(0, c.j + 1, c.k)) || (c.i == 0 && c.j == d.n1 && c' == Voxel(0, 0, c.k + 1))
    ensures forall v :: InBounds(d, v) ==> (Seen(v, c) <==> Seen(v, c'))
  {
  }

  /** Folding slice k - 1 into what is known before it gives what is known before slice k. */
  lemma SlabStep(vol: Image, k: int, s: Bounds)
    requires vol.Valid() && Addressable(vol.dims) && 0 < k <= vol.dims.n2
    requires Tallies(vol, Voxel(0, 0, k - 1), s) && NoNegativeBefore(vol, Voxel(0, 0, k))
    ensures Tallies(vol, Voxel(0, 0, k), SliceFold(vol, k - 1, vol.dims.n1, s))
  {
    NoNegativeEarlier(vol, Voxel(0, 0, k), Voxel(0, vol.dims.n1, k - 1));
    SliceTallies(vol, k - 1, vol.dims.n1, s);
    SameSeen(vol.dims, Voxel(0, vol.dims.n1, k - 1), Voxel(0, 0, k));
    TalliesMove(vol, Voxel(0, vol.dims.n1, k - 1), Voxel(0, 0, k), SliceFold(vol, k - 1, vol.dims.n1, s));
  }

  /** The folds add up exactly the values they visit. */
  lemma {:induction false} RowFoldSum(vol: Image, j: int, k: int, i: int, b: Bounds)
    requires vol.Valid() && 0 <= j < vol.dims.n1 && 0 <= k < vol.dims.n2 && 0 <= i <= vol.dims.n0
    ensures RowFold(vol, j, k, i, b).sum == b.sum + RowSum(vol, j, k, i)
  {
    if i > 0 {
      RowFoldSum(vol, j, k, i - 1, b);
    }
  }

  lemma {:induction false} SliceFoldSum(vol: Image, k: int, j: int, b: Bounds)
    requires vol.Valid() && 0 <= k < vol.dims.n2 && 0 <= j <= vol.dims.n1
    ensures SliceFold(vol, k, j, b).sum == b.sum + SliceSum(vol, k, j)
  {
    if j > 0 {
      SliceFoldSum(vol, k, j - 1, b);
      RowFoldSum(vol, j - 1, k, vol.dims.n0, SliceFold(vol, k, j - 1, b));
    }
  }

  lemma {:induction false} SlabFoldSum(vol: Image, k: int)
    requires vol.Valid() && 0 <= k <= vol.dims.n2
    ensures SlabFold(vol, k).sum == SlabSum(vol, k)
  {
    if k > 0 {
      SlabFoldSum(vol, k - 1);
      SliceFoldSum(vol, k - 1, vol.dims.n1, SlabFold(vol, k - 1));
    }
  }

  /** The folds only widen: the maximum never drops, bottom never rises, top never falls. */
  lemma {:induction false} RowFoldWidens(vol: Image, j: int, k: int, i: int, b: Bounds)
    requires vol.Valid() && 0 <= j < vol.dims.n1 && 0 <= k < vol.dims.n2 && 0 <= i <= vol.dims.n0
    ensures Widens(b, RowFold(vol, j, k, i, b))
  {
    if i > 0 {
      RowFoldWidens(vol, j, k, i - 1, b);
      VisitEffect(RowFold(vol, j, k, i - 1, b), Voxel(i - 1, j, k), vol.At(Voxel(i - 1, j, k)));
    }
  }

  lemma {:induction false} SliceFoldWidens(vol: Image, k: int, j: int, b: Bounds)
    requires vol.Valid() && 0 <= k < vol.dims.n2 && 0 <= j <= vol.dims.n1
    ensures Widens(b, SliceFold(vol, k, j, b))
  {
    if j > 0 {
      SliceFoldWidens(vol, k, j - 1, b);
      RowFoldWidens(vol, j - 1, k, vol.dims.n0, SliceFold(vol, k, j - 1, b));
    }
  }

  lemma {:induction false} SlabFoldWidens(vol: Image, k: int)
    requires vol.Valid() && 0 <= k <= vol.dims.n2
    ensures Widens(Start, SlabFold(vol, k))
  {
    if k > 0 {
      SlabFoldWidens(vol, k - 1);
      SliceFoldWidens(vol, k - 1, vol.dims.n1, SlabFold(vol, k - 1));
    }
  }

  /** Some voxel of vol holds a negative value. */
  ghost predicate HasNegative(vol: Image)
    requires vol.Valid()
  {
    exists v :: InBounds(vol.dims, v) && vol.At(v) < 0.0
  }

  /** Every voxel of vol is zero. */
  ghost predicate AllZero(vol: Image)
    requires vol.Valid()
  {
    forall v :: InBounds(vol.dims, v) ==> vol.At(v) == 0.0
  }

  /**
   * The innermost loop of the constructor, along axis 0 of row (j, k),
   * from the bounds b of the voxels before it. It stops at the first
   * negative value; otherwise it yields the row fold of Visit.
   */
  method TallyRow(vol: Image, j: int, k: int, b: Bounds) returns (negative: bool, b': Bounds)
    requires vol.Valid() && 0 <= j < vol.dims.n1 && 0 <= k < vol.dims.n2
    requires NoNegativeBefore(vol, Voxel(0, j, k))
    ensures negative ==> HasNegative(vol)
    ensures !negative ==> b' == RowFold(vol, j, k, vol.dims.n0, b) && NoNegativeBefore(vol, Voxel(0, j + 1, k))
  {
    b' := b;
    var i := 0;
    while i < vol.dims.n0
      invariant 0 <= i <= vol.dims.n0
      invariant b' == RowFold(vol, j, k, i, b)
      invariant NoNegativeBefore(vol, Voxel(i, j, k))
    {
      var value := vol.At(Voxel(i, j, k));
      if value < 0.0 {
        return true, b';
      }
      b' := Visit(b', Voxel(i, j, k), value);
      SeenNext(vol, Voxel(i, j, k));
      i := i + 1;
    }
    SeenRowEnd(vol, j, k);
    negative := false;
  }

  /** The middle loop of the constructor, over the rows of slice k. */
  method TallySlice(vol: Image, k: int, b: Bounds) returns (negative: bool, b': Bounds)
    requires vol.Valid() && 0 <= k < vol.dims.n2
    requires NoNegativeBefore(vol, Voxel(0, 0, k))
    ensures negative ==> HasNegative(vol)
    ensures !negative ==> b' == SliceFold(vol, k, vol.dims.n1, b) && NoNegativeBefore(vol, Voxel(0, 0, k + 1))
  {
    b' := b;
    var j := 0;
    while j < vol.dims.n1
      invariant 0 <= j <= vol.dims.n1
      invariant b' == SliceFold(vol, k, j, b)
      invariant NoNegativeBefore(vol, Voxel(0, j, k))
    {
      negative, b' := TallyRow(vol, j, k, b');
      if negative {
        return;
      }
      j := j + 1;
    }
    SeenSliceEnd(vol, k);
    negative := false;
  }

  /**
   * The outer loop of the constructor, over the slices: the fold of Visit
   * over the whole image, or the first negative value.
   */
  method Tally(vol: Image) returns (negative: bool, b: Bounds)
    requires vol.Valid()
    ensures negative ==> HasNegative(vol)
    ensures !negative ==> b == SlabFold(vol, vol.dims.n2) && NoNegativeBefore(vol, Voxel(0, 0, vol.dims.n2))
  {
    b := Start;
    var k := 0;
    while k < vol.dims.n2
      invariant 0 <= k <= vol.dims.n2
      invariant b == SlabFold(vol, k)
      invariant NoNegativeBefore(vol, Voxel(0, 0, k))
    {
      negative, b := TallySlice(vol, k, b);
      if negative {
        return;
      }
      k := k + 1;
    }
    negative := false;
  }

  /**
   * The constructor's scan and its two exceptions. It fails with
   * NegativeValue exactly when some value is negative, with EmptyImage
   * exactly when every value is zero, and otherwise summarizes the image.
   */
  method Scan(vol: Image) returns (r: Result<Bounds, ScanError>)
    requires vol.Valid() && Addressable(vol.dims)
    ensures r == Failure(NegativeValue) <==> HasNegative(vol)
    ensures r == Failure(EmptyImage) <==> !HasNegative(vol) && AllZero(vol)
    ensures r.Success? ==> Summarizes(vol, r.value)
  {
    var negative, b := Tally(vol);
    if negative {
      NegativeNotEmpty(vol);
      return Failure(NegativeValue);
    }
    ScanDone(vol, b);
    if b.max == 0.0 {
      return Failure(EmptyImage);
    }
    r := Success(Pad(b));
  }

  /** Bottom lowered by one on each axis where it is not 0. */
  function Pad(b: Bounds): (r: Bounds)
    ensures r.max == b.max && r.sum == b.sum && r.top == b.top
    ensures 0 <= b.bottom.i ==> 0 <= r.bottom.i <= b.bottom.i <= r.bottom.i + 1 && (r.bottom.i == b.bottom.i <==> b.bottom.i == 0)
    ensures 0 <= b.bottom.j ==> 0 <= r.bottom.j <= b.bottom.j <= r.bottom.j + 1 && (r.bottom.j == b.bottom.j <==> b.bottom.j == 0)
    ensures 0 <= b.bottom.k ==> 0 <= r.bottom.k <= b.bottom.k <= r.bottom.k + 1 && (r.bottom.k == b.bottom.k <==> b.bottom.k == 0)
  {
    b.(bottom := Voxel(if b.bottom.i != 0 then b.bottom.i - 1 else b.bottom.i,
                       if b.bottom.j != 0 then b.bottom.j - 1 else b.bottom.j,
                       if b.bottom.k != 0 then b.bottom.k - 1 else b.bottom.k))
  }

  /**
   * What the whole fold yields once every value is known not to be
   * negative: all values are zero exactly when the maximum is, and
   * otherwise the padded bounds summarize the image.
   */
  lemma ScanDone(vol: Image, b: Bounds)
    requires vol.Valid() && Addressable(vol.dims)
    requires b == SlabFold(vol, vol.dims.n2) && NoNegativeBefore(vol, Voxel(0, 0, vol.dims.n2))
    ensures !HasNegative(vol)
    ensures b.max == 0.0 <==> AllZero(vol)
    ensures b.max != 0.0 ==> Summarizes(vol, Pad(b))
  {
    SlabTallies(vol, vol.dims.n2);
    SlabFoldSum(vol, vol.dims.n2);
    AllSeen(vol, b);
    if b.max != 0.0 {
      Conclude(vol, b);
    }
  }

  /** An image with a negative value is not all zero. */
  lemma NegativeNotEmpty(vol: Image)
    requires vol.Valid() && HasNegative(vol)
    ensures !AllZero(vol)
  {
  }

  /** A non-negative voxel at c extends the clean prefix by one voxel. */
  lemma SeenNext(vol: Image, c: Voxel)
    requires vol.Valid() && InBounds(vol.dims, c) && 0.0 <= vol.At(c) && NoNegativeBefore(vol, c)
    ensures NoNegativeBefore(vol, Next(c))
  {
    forall v | InBounds(vol.dims, v) && Seen(v, Next(c))
      ensures 0.0 <= vol.At(v)
    {
      if v != c {
        assert Seen(v, c);
      }
    }
  }

  lemma SeenRowEnd(vol: Image, j: int, k: int)
    requires vol.Valid() && NoNegativeBefore(vol, Voxel(vol.dims.n0, j, k))
    ensures NoNegativeBefore(vol, Voxel(0, j + 1, k))
  {
    forall v | InBounds(vol.dims, v) && Seen(v, Voxel(0, j + 1, k))
      ensures Seen(v, Voxel(vol.dims.n0, j, k))
    {
    }
  }

  lemma SeenSliceEnd(vol: Image, k: int)
    requires vol.Valid() && NoNegativeBefore(vol, Voxel(0, vol.dims.n1, k))
    ensures NoNegativeBefore(vol, Voxel(0, 0, k + 1))
  {
    forall v | InBounds(vol.dims, v) && Seen(v, Voxel(0, 0, k + 1))
      ensures Seen(v, Voxel(0, vol.dims.n1, k))
    {
    }
  }

  /** Once every voxel is seen, no value is negative, and all are zero exactly when the maximum is. */
  lemma AllSeen(vol: Image, b: Bounds)
    requires vol.Valid() && Tallies(vol, Voxel(0, 0, vol.dims.n2), b)
    ensures !HasNegative(vol)
    ensures b.max == 0.0 <==> AllZero(vol)
    ensures forall v :: InBounds(vol.dims, v) ==> vol.At(v) <= b.max
  {
    assert forall v :: InBounds(vol.dims, v) ==> Seen(v, Voxel(0, 0, vol.dims.n2));
  }

  /** Once every voxel is seen, the bounds of axis a are the extreme indices of non-zero voxels. */
  lemma AxisConclude(vol: Image, a: int, any: bool, low: int, top: int, bottom: int)
    requires vol.Valid() && 0 <= a < 3 && any
    requires AxisTally(vol, Voxel(0, 0, vol.dims.n2), a, any, low, top)
    requires bottom == if low != 0 then low - 1 else low
    ensures AxisSummary(vol, a, bottom, top)
  {
    assert forall v :: NonZeroAt(vol, v) ==> Seen(v, Voxel(0, 0, vol.dims.n2));
    var w :| NonZeroAt(vol, w) && Seen(w, Voxel(0, 0, vol.dims.n2)) && Coord(w, a) == low;
    assert IsLowest(vol, a, low);
  }

  /**
   * A non-zero maximum once every voxel is seen, and bottom lowered by one
   * where it is not 0, summarize the image.
   */
  lemma Conclude(vol: Image, t: Bounds)
    requires vol.Valid() && Tallies(vol, Voxel(0, 0, vol.dims.n2), t) && t.max != 0.0
    requires t.sum == Total(vol)
    ensures Summarizes(vol, Pad(t))
  {
    var c := Voxel(0, 0, vol.dims.n2);
    var b := Pad(t);
    AllSeen(vol, t);
    var w :| InBounds(vol.dims, w) && Seen(w, c) && vol.At(w) == t.max;
    AxisConclude(vol, 0, t.max != 0.0, t.bottom.i, t.top.i, b.bottom.i);
    AxisConclude(vol, 1, t.max != 0.0, t.bottom.j, t.top.j, b.bottom.j);
    AxisConclude(vol, 2, t.max != 0.0, t.bottom.k, t.top.k, b.bottom.k);
  }

  // The crop of the constructor: a sub-block given by its first voxel and its size.

  /** A sub-block of an image: its first voxel and its size along each axis. */
  datatype Extent = Extent(from: Voxel, size: Voxel)

  predicate AxisFits(n: int, from: int, size: int) {
    0 <= from && 1 <= size && from + size <= n
  }

  /** e is a non-empty sub-block of an image of dimensions d. */
  predicate Fits(d: Dims, e: Extent) {
    AxisFits(d.n0, e.from.i, e.size.i) && AxisFits(d.n1, e.from.j, e.size.j) && AxisFits(d.n2, e.from.k, e.size.k)
  }

  predicate Inside(e: Extent, v: Voxel) {
    && e.from.i <= v.i < e.from.i + e.size.i
    && e.from.j <= v.j < e.from.j + e.size.j
    && e.from.k <= v.k < e.from.k + e.size.k
  }

  /**
   * The crop as line 185 requests it: bottom as the first voxel and top as
   * the size. It holds a voxel only when top is positive on every axis.
   */
  function CropAsWritten(b: Bounds): (r: Extent)
    ensures forall v :: Inside(r, v) ==> b.top.i > 0 && b.top.j > 0 && b.top.k > 0
    ensures b.top.i > 0 && b.top.j > 0 && b.top.k > 0 ==> Inside(r, b.bottom)
  {
    Extent(b.bottom, b.top)
  }

  /**
   * The size along one axis of the corrected crop: from bottom up to one
   * voxel past top, as bottom is one voxel before the lowest non-zero
   * index, clipped to the image.
   */
  function AxisSize(n: int, bottom: int, top: int): (r: int)
    ensures 0 <= bottom <= top < n ==> AxisFits(n, bottom, r) && top < bottom + r <= top + 2
    ensures 0 <= bottom <= top < n ==> (bottom + r == top + 2 || bottom + r == n)
  {
    if n - bottom < top + 2 - bottom then n - bottom else top + 2 - bottom
  }

  /**
   * The corrected crop of an image of dimensions d from the scan's bounds:
   * when the box of b lies in the image, the crop fits and holds the box.
   */
  function CropExtent(d: Dims, b: Bounds): (r: Extent)
    ensures r.from == b.bottom
    ensures InBox(d, b) ==> Fits(d, r) && forall v :: Covers(b, v) ==> Inside(r, v)
  {
    Extent(b.bottom, Voxel(AxisSize(d.n0, b.bottom.i, b.top.i),
                           AxisSize(d.n1, b.bottom.j, b.top.j),
                           AxisSize(d.n2, b.bottom.k, b.top.k)))
  }

  /** The box of b is non-empty and lies in an image of dimensions d. */
  predicate InBox(d: Dims, b: Bounds) {
    && 0 <= b.bottom.i <= b.top.i < d.n0
    && 0 <= b.bottom.j <= b.top.j < d.n1
    && 0 <= b.bottom.k <= b.top.k < d.n2
  }

  function DimsOf(e: Extent): Dims {
    Dims(e.size.i, e.size.j, e.size.k)
  }

  /**
   * The copy of the sub-block e of vol into a scratch image: voxel c of
   * the result holds the value of voxel from + c of vol.
   */
  function Crop(vol: Image, e: Extent): (r: Image)
    requires vol.Valid() && Fits(vol.dims, e)
    ensures r.Valid() && r.dims == DimsOf(e)
    ensures forall c :: InBounds(r.dims, c) ==> Inside(e, Offset(e.from, c)) && r.At(c) == vol.At(Offset(e.from, c))
  {
    Volume(DimsOf(e), seq(e.size.i, i requires 0 <= i < e.size.i => CropPlane(vol, e, i)))
  }

  /** The row (i, j) of the copy: the values of voxels from + (i, j, k) of vol. */
  function CropRow(vol: Image, e: Extent, i: int, j: int): (r: seq<real>)
    requires vol.Valid() && Fits(vol.dims, e) && 0 <= i < e.size.i && 0 <= j < e.size.j
    ensures |r| == e.size.k
    ensures forall k :: 0 <= k < e.size.k ==> r[k] == vol.At(Voxel(e.from.i + i, e.from.j + j, e.from.k + k))
  {
    seq(e.size.k, k requires 0 <= k < e.size.k => vol.At(Voxel(e.from.i + i, e.from.j + j, e.from.k + k)))
  }

  /** The plane i of the copy. */
  function CropPlane(vol: Image, e: Extent, i: int): (r: seq<seq<real>>)
    requires vol.Valid() && Fits(vol.dims, e) && 0 <= i < e.size.i
    ensures |r| == e.size.j
    ensures forall j :: 0 <= j < e.size.j ==> r[j] == CropRow(vol, e, i, j)
  {
    seq(e.size.j, j requires 0 <= j < e.size.j => CropRow(vol, e, i, j))
  }

  /** Along an axis of size n, the corrected crop is in range and covers every index from lo to top. */
  lemma AxisCrop(vol: Image, a: int, n: int, bottom: int, top: int)
    requires vol.Valid() && 0 <= a < 3 && AxisSummary(vol, a, bottom, top)
    requires n == if a == 0 then vol.dims.n0 else if a == 1 then vol.dims.n1 else vol.dims.n2
    ensures AxisFits(n, bottom, AxisSize(n, bottom, top))
    ensures forall v :: NonZeroAt(vol, v) ==> bottom <= Coord(v, a) < bottom + AxisSize(n, bottom, top)
  {
    var w :| NonZeroAt(vol, w) && Coord(w, a) == top;
    var lo :| IsLowest(vol, a, lo) && bottom == if lo > 0 then lo - 1 else lo;
    var u :| NonZeroAt(vol, u) && Coord(u, a) == lo;
  }

  /**
   * The corrected crop of a successful scan fits in the image, holds every
   * non-zero voxel, and reaches at most one voxel beyond them on each side.
   */
  lemma CropCovers(vol: Image, b: Bounds)
    requires vol.Valid() && Summarizes(vol, b)
    ensures Fits(vol.dims, CropExtent(vol.dims, b))
    ensures forall v :: NonZeroAt(vol, v) ==> Inside(CropExtent(vol.dims, b), v)
    ensures forall v :: Inside(CropExtent(vol.dims, b), v) ==> v.i <= b.top.i + 1 && v.j <= b.top.j + 1 && v.k <= b.top.k + 1
  {
    AxisCrop(vol, 0, vol.dims.n0, b.bottom.i, b.top.i);
    AxisCrop(vol, 1, vol.dims.n1, b.bottom.j, b.top.j);
    AxisCrop(vol, 2, vol.dims.n2, b.bottom.k, b.top.k);
  }

  /**
   * The crop as written loses a non-zero voxel whenever bottom is 0 along
   * axis 0, which is when the lowest non-zero index there is 0 or 1: the
   * voxel at index top lies past bottom + top.
   */
  lemma CropAsWrittenMisses(vol: Image, b: Bounds)
    requires vol.Valid() && Summarizes(vol, b) && b.bottom.i == 0
    ensures exists v :: NonZeroAt(vol, v) && !Inside(CropAsWritten(b), v)
  {
    var w :| NonZeroAt(vol, w) && Coord(w, 0) == b.top.i;
    assert !Inside(CropAsWritten(b), w);
  }

  /** A single voxel of value 1. */
  const OneVoxel: Image := Volume(Dims(1, 1, 1), [[[1.0]]])

  /**
   * Whatever bounds the scan of the one-voxel image yields, the crop as
   * written has size 0 on every axis, and the corrected crop is the whole
   * image.
   */
  lemma OneVoxelCrop(b: Bounds)
    requires OneVoxel.Valid() && Summarizes(OneVoxel, b)
    ensures CropAsWritten(b).size == Voxel(0, 0, 0)
    ensures CropExtent(OneVoxel.dims, b) == Extent(Origin, Voxel(1, 1, 1))
  {
    AxisCrop(OneVoxel, 0, 1, b.bottom.i, b.top.i);
    AxisCrop(OneVoxel, 1, 1, b.bottom.j, b.top.j);
    AxisCrop(OneVoxel, 2, 1, b.bottom.k, b.top.k);
    assert NonZeroAt(OneVoxel, Origin);
  }

  // What the constructor keeps, and get_seed.

  /**
   * The state of a constructed sampler: the cropped copy of the image,
   * the index in the original image of its first voxel, max, and the
   * volume (the sum of all values times the number of voxels of the copy).
   */
  datatype Sampler = Sampler(image: Image, origin: Voxel, max: real, volume: real)

  function VoxelCount(d: Dims): int { d.n0 * d.n1 * d.n2 }

  /** The sum scaled by the voxel count of the copy. */
  function Scaled(sum: real, count: int): real { sum * count as real }

  function ExtentOf(s: Sampler): Extent {
    Extent(s.origin, Voxel(s.image.dims.n0, s.image.dims.n1, s.image.dims.n2))
  }

  /**
   * s is a sampler built from vol: its image is the sub-block of vol at
   * ExtentOf(s), which holds every non-zero voxel of vol; max is the
   * largest value of vol, which is positive; and volume is the sum of the
   * values of vol scaled by the number of voxels of the copy.
   */
  ghost predicate Represents(vol: Image, s: Sampler)
    requires vol.Valid()
  {
    && s.image.Valid()
    && Fits(vol.dims, ExtentOf(s))
    && (forall c :: InBounds(s.image.dims, c) ==> s.image.At(c) == vol.At(Offset(s.origin, c)))
    && (forall v :: NonZeroAt(vol, v) ==> Inside(ExtentOf(s), v))
    && s.max > 0.0
    && (forall v :: InBounds(vol.dims, v) ==> vol.At(v) <= s.max)
    && (exists v :: InBounds(vol.dims, v) && vol.At(v) == s.max)
    && s.volume == Scaled(Total(vol), VoxelCount(s.image.dims))
  }

  /**
   * The constructor: the scan with its two exceptions, then the corrected
   * crop, its copy, and the scaling of volume by the copy's voxel count.
   */
  method Build(vol: Image) returns (r: Result<Sampler, ScanError>)
    requires vol.Valid() && Addressable(vol.dims)
    ensures r == Failure(NegativeValue) <==> HasNegative(vol)
    ensures r == Failure(EmptyImage) <==> !HasNegative(vol) && AllZero(vol)
    ensures r.Success? ==> Represents(vol, r.value)
  {
    var scan := Scan(vol);
    if scan.Failure? {
      return Failure(scan.error);
    }
    CropCovers(vol, scan.value);
    MakeRepresents(vol, scan.value);
    r := Success(Make(vol, scan.value));
  }

  /** The sampler the constructor builds from the bounds b of its scan. */
  function Make(vol: Image, b: Bounds): (r: Sampler)
    requires vol.Valid() && Fits(vol.dims, CropExtent(vol.dims, b))
    ensures r.origin == b.bottom && r.max == b.max && r.image.Valid() && Fits(vol.dims, ExtentOf(r))
    ensures forall c :: InBounds(r.image.dims, c) ==> r.image.At(c) == vol.At(Offset(r.origin, c))
  {
    var e := CropExtent(vol.dims, b);
    var image := Crop(vol, e);
    Sampler(image, e.from, b.max, Scaled(b.sum, VoxelCount(image.dims)))
  }

  lemma MakeRepresents(vol: Image, b: Bounds)
    requires vol.Valid() && Summarizes(vol, b) && Fits(vol.dims, CropExtent(vol.dims, b))
    requires forall v :: NonZeroAt(vol, v) ==> Inside(CropExtent(vol.dims, b), v)
    ensures Represents(vol, Make(vol, b))
  {
    var s := Make(vol, b);
    assert ExtentOf(s) == CropExtent(vol.dims, b);
  }

  /** The copy keeps the largest value of the image, and no value of the copy exceeds it. */
  lemma CopyHoldsMax(vol: Image, s: Sampler)
    requires vol.Valid() && Represents(vol, s)
    ensures forall c :: InBounds(s.image.dims, c) ==> s.image.At(c) <= s.max
    ensures exists c :: InBounds(s.image.dims, c) && s.image.At(c) == s.max
  {
    var v :| InBounds(vol.dims, v) && vol.At(v) == s.max;
    assert NonZeroAt(vol, v);
    var c := Voxel(v.i - s.origin.i, v.j - s.origin.j, v.k - s.origin.k);
    assert Offset(s.origin, c) == v;
    assert InBounds(s.image.dims, c);
  }

  /**
   * One round of get_seed: the three index draws in [0, size(a) - 1] of
   * the copy, and the uniform draw u that scales max into the selector.
   */
  datatype Draw = Draw(voxel: Voxel, u: real)

  /** The do-while exits on a draw whose value is not below the selector u * max. */
  predicate Accepts(s: Sampler, d: Draw)
    requires s.image.Valid() && InBounds(s.image.dims, d.voxel)
    ensures s.max > 0.0 ==> (Accepts(s, d) <==> d.u <= s.image.At(d.voxel) / s.max)
  {
    !(s.image.At(d.voxel) < d.u * s.max)
  }

  /**
   * get_seed without interpolation: returns the index in the original
   * image of the first accepted draw, with the number of draws it used;
   * every earlier draw was rejected. It is None only when every draw is
   * rejected.
   */
  method GetSeed(s: Sampler, draws: seq<Draw>) returns (seed: Option<Voxel>, used: nat)
    requires s.image.Valid()
    requires forall n :: 0 <= n < |draws| ==> InBounds(s.image.dims, draws[n].voxel)
    ensures used <= |draws|
    ensures forall n :: 0 <= n < used - 1 ==> !Accepts(s, draws[n])
    ensures seed.Some? ==> used >= 1 && Accepts(s, draws[used - 1]) && seed.value == Offset(s.origin, draws[used - 1].voxel)
    ensures seed.None? <==> forall n :: 0 <= n < |draws| ==> !Accepts(s, draws[n])
    ensures seed.None? ==> used == |draws|
  {
    used := 0;
    while used < |draws|
      invariant used <= |draws|
      invariant forall n :: 0 <= n < used ==> !Accepts(s, draws[n])
    {
      var d := draws[used];
      var selector := d.u * s.max;
      used := used + 1;
      if !(s.image.At(d.voxel) < selector) {
        return Some(Offset(s.origin, d.voxel)), used;
      }
    }
    return None, used;
  }

  /**
   * An accepted draw names a voxel of the original image whose value is at
   * least its selector; with a positive u, that voxel is non-zero.
   */
  lemma AcceptedSeed(vol: Image, s: Sampler, d: Draw)
    requires vol.Valid() && Represents(vol, s) && InBounds(s.image.dims, d.voxel) && Accepts(s, d)
    ensures InBounds(vol.dims, Offset(s.origin, d.voxel))
    ensures vol.At(Offset(s.origin, d.voxel)) >= d.u * s.max
    ensures d.u > 0.0 ==> NonZeroAt(vol, Offset(s.origin, d.voxel))
  {
    assert d.u > 0.0 ==> d.u * s.max > 0.0;
  }

  /**
   * Acceptance against a uniform u in [0, 1]: a voxel holding max is
   * always accepted, and a zero voxel only when u is 0.
   */
  lemma AcceptanceBounds(vol: Image, s: Sampler, d: Draw)
    requires vol.Valid() && Represents(vol, s) && InBounds(s.image.dims, d.voxel) && 0.0 <= d.u <= 1.0
    ensures s.image.At(d.voxel) == s.max ==> Accepts(s, d)
    ensures s.image.At(d.voxel) == 0.0 ==> (Accepts(s, d) <==> d.u == 0.0)
  {
    assert d.u * s.max <= s.max;
    assert d.u > 0.0 ==> d.u * s.max > 0.0;
  }
}
