/**
 * The exhaustive grid-per-voxel seeder: it walks the eligible voxels of the
 * mask once in raster order and, in each, emits every cell of an os*os*os
 * sub-grid, pos[2] fastest. Each call is one atomic step of
 * Grid_per_voxel::get_seed; the position offset + pos*step and the
 * transform to scanner space are left out, so a seed is the pair of its
 * voxel and its sub-grid cell.
 */
module GridPerVoxel {
  import opened Raster
  import opened Volumes
  import opened Enumeration

  /** A seed: the voxel and the sub-grid cell pos inside it. */
  datatype Seed = Seed(voxel: Voxel, cell: Voxel)

  /** The sub-grid of one voxel, [0,os) on each axis. */
  function CellDims(os: int): Dims { Dims(os, os, os) }

  /** The last cell; the initial pos, so that the first call wraps. */
  function LastCell(os: int): Voxel { Voxel(os - 1, os - 1, os - 1) }

  /** Voxel v paired with each of the cells, in order. */
  function Pairs(v: Voxel, cells: seq<Voxel>): seq<Seed>
  {
    if cells == [] then [] else [Seed(v, cells[0])] + Pairs(v, cells[1..])
  }

  /** Every cell of every voxel of vs, voxel by voxel, cells in raster order. */
  function Grid(vs: seq<Voxel>, os: int): seq<Seed>
    requires os >= 1
  {
    if vs == [] then [] else Pairs(vs[0], Span(CellDims(os), Origin)) + Grid(vs[1..], os)
  }

  /**
   * The seeds still to come from a seeder in the given state: the cells
   * after pos in the current voxel, then all cells of each later eligible voxel.
   */
  ghost function Queue(mask: Mask, os: int, expired: bool, cursor: Voxel, pos: Voxel): seq<Seed>
    requires mask.Valid() && os >= 1
    requires expired || (Steppable(mask.dims, cursor) && InBounds(CellDims(os), pos))
  {
    if expired then []
    else Pairs(cursor, Span(CellDims(os), Step(CellDims(os), pos))) + Grid(NonZeroAfter(mask, cursor), os)
  }

  class Seeder {
    const mask: Mask
    /** Sub-grid cells per axis. */
    const os: int
    /** The cursor mask.index(0..2). */
    var cursor: Voxel
    /** The sub-grid cell pos[0..2] of the last seed. */
    const pos: array<int>
    var expired: bool

    function Pos(): Voxel
      reads this, pos
      requires pos.Length == 3
    {
      Voxel(pos[0], pos[1], pos[2])
    }

    ghost predicate Valid()
      reads this, pos
    {
      && mask.Valid()
      && os >= 1
      && pos.Length == 3
      && InBounds(CellDims(os), Pos())
      && (cursor == BeforeStart || Resting(mask.dims, cursor))
      && (!expired ==> cursor != End(mask.dims))
      && (!expired && cursor == BeforeStart ==> Pos() == LastCell(os))
      && (!expired && cursor != BeforeStart ==> mask.At(cursor))
    }

    /** The seeds every later call will emit, in order. */
    ghost function Pending(): seq<Seed>
      reads this, pos
      requires Valid()
    {
      Queue(mask, os, expired, cursor, Pos())
    }

    /**
     * The initial state: the cursor just before the first voxel and pos on
     * the last cell, so the pending seeds are all cells of each eligible voxel.
     */
    constructor (mask: Mask, os: int)
      requires mask.Valid() && os >= 1
      ensures Valid() && !expired && fresh(pos)
      ensures this.mask == mask && this.os == os
      ensures Pending() == Grid(NonZeroFrom(mask, Origin), os)
    {
      this.mask := mask;
      this.os := os;
      cursor := BeforeStart;
      pos := new int[3] [os - 1, os - 1, os - 1];
      expired := false;
      new;
      assert Step(CellDims(os), LastCell(os)) == End(CellDims(os));
    }

    /**
     * One call of get_seed. It succeeds exactly when a seed is pending,
     * returns the first pending seed and removes it; on failure the seeder
     * is expired, and an expired seeder fails without changing anything.
     */
    method GetSeed() returns (ok: bool, s: Seed)
      requires Valid()
      modifies this, pos
      ensures Valid()
      ensures ok <==> old(Pending()) != []
      ensures ok ==> old(Pending()) == [s] + Pending()
      ensures ok ==> InBounds(mask.dims, s.voxel) && mask.At(s.voxel) && InBounds(CellDims(os), s.cell)
      ensures !ok ==> expired && Pending() == []
      ensures old(expired) ==> !ok && unchanged(this, pos)
    {
      if expired {
        return false, Seed(cursor, Pos());
      }
      ghost var c0, p0 := cursor, Pos();
      pos[2] := pos[2] + 1;
      if pos[2] >= os {
        pos[2] := 0;
        pos[1] := pos[1] + 1;
        if pos[1] >= os {
          pos[1] := 0;
          pos[0] := pos[0] + 1;
          if pos[0] >= os {
            pos[0] := 0;
            var next := Advance(mask, cursor);
            cursor := next;
            if cursor.i == mask.dims.n0 {
              expired := true;
              QueueDone(mask, os, c0, p0);
              return false, Seed(cursor, Pos());
            }
            assert Pos() == Origin;
            QueueMove(mask, os, c0, p0, next);
            return true, Seed(cursor, Pos());
          }
        }
      }
      assert p0 != LastCell(os) && Pos() == Step(CellDims(os), p0);
      QueueStay(mask, os, c0, p0);
      return true, Seed(cursor, Pos());
    }
  }

  /** Within a voxel: the head is the next cell, and pos moves on to it. */
  lemma QueueStay(mask: Mask, os: int, c: Voxel, p: Voxel)
    requires mask.Valid() && os >= 1 && InBounds(mask.dims, c) && InBounds(CellDims(os), p)
    requires p != LastCell(os)
    ensures InBounds(CellDims(os), Step(CellDims(os), p))
    ensures Queue(mask, os, false, c, p)
            == [Seed(c, Step(CellDims(os), p))] + Queue(mask, os, false, c, Step(CellDims(os), p))
  {
    var cd := CellDims(os);
    var q := Step(cd, p);
    assert Span(cd, q) == [q] + Span(cd, Step(cd, q));
  }

  /** Leaving the last cell for cell 0 of the next eligible voxel. */
  lemma QueueMove(mask: Mask, os: int, c: Voxel, p: Voxel, next: Voxel)
    requires mask.Valid() && os >= 1 && Steppable(mask.dims, c)
    requires p == LastCell(os)
    requires InBounds(mask.dims, next)
    requires NonZeroAfter(mask, c) == [next] + NonZeroAfter(mask, next)
    ensures Queue(mask, os, false, c, p) == [Seed(next, Origin)] + Queue(mask, os, false, next, Origin)
  {
    var cd := CellDims(os);
    assert Step(cd, p) == End(cd);
    assert Span(cd, Origin) == [Origin] + Span(cd, Step(cd, Origin));
    var after := Grid(NonZeroAfter(mask, next), os);
    assert Grid(NonZeroAfter(mask, c), os) == Pairs(next, Span(cd, Origin)) + after;
  }

  /** Leaving the last cell when no eligible voxel follows. */
  lemma QueueDone(mask: Mask, os: int, c: Voxel, p: Voxel)
    requires mask.Valid() && os >= 1 && Steppable(mask.dims, c)
    requires p == LastCell(os)
    requires NonZeroAfter(mask, c) == []
    ensures Queue(mask, os, false, c, p) == []
  {
    assert Step(CellDims(os), p) == End(CellDims(os));
  }

  /**
   * Calls get_seed until it fails and collects the seeds: they are exactly
   * the pending seeds, and the seeder ends expired.
   */
  method Drain(s: Seeder) returns (seeds: seq<Seed>)
    requires s.Valid()
    modifies s, s.pos
    ensures s.Valid() && s.expired
    ensures seeds == old(s.Pending())
  {
    seeds := [];
    var ok, v := s.GetSeed();
    while ok
      invariant s.Valid()
      invariant ok ==> old(s.Pending()) == seeds + [v] + s.Pending()
      invariant !ok ==> old(s.Pending()) == seeds && s.expired
      decreases |s.Pending()| + (if ok then 1 else 0)
    {
      seeds := seeds + [v];
      ok, v := s.GetSeed();
    }
  }

  /**
   * A fresh seeder run to exhaustion on a mask with N eligible voxels emits
   * N*os^3 seeds: each pair of an eligible voxel and a sub-grid cell exactly
   * once, and nothing else; the next call fails.
   */
  method RunToExhaustion(mask: Mask, os: int) returns (seeds: seq<Seed>, again: bool)
    requires mask.Valid() && os >= 1
    ensures seeds == Grid(NonZeroFrom(mask, Origin), os)
    ensures |seeds| == |NonZeroVoxels(mask)| * (os * os * os)
    ensures forall s :: multiset(seeds)[s]
                        == if s.voxel in NonZeroVoxels(mask) && InBounds(CellDims(os), s.cell) then 1 else 0
    ensures !again
  {
    var s := new Seeder(mask, os);
    seeds := Drain(s);
    var v;
    again, v := s.GetSeed();
    GridYield(mask, os);
  }

  lemma {:induction false} PairsCount(v: Voxel, cells: seq<Voxel>, s: Seed)
    ensures |Pairs(v, cells)| == |cells|
    ensures multiset(Pairs(v, cells))[s] == if s.voxel == v then multiset(cells)[s.cell] else 0
  {
    if cells != [] {
      PairsCount(v, cells[1..], s);
      CountCons(cells, s.cell);
      CountConcat([Seed(v, cells[0])], Pairs(v, cells[1..]), s);
    }
  }

  /** The grid has os^3 seeds per voxel of vs. */
  lemma {:induction false} GridLength(vs: seq<Voxel>, os: int)
    requires os >= 1
    ensures |Grid(vs, os)| == |vs| * (os * os * os)
  {
    if vs != [] {
      var cd := CellDims(os);
      var cells := Span(cd, Origin);
      GridLength(vs[1..], os);
      PairsCount(vs[0], cells, Seed(Origin, Origin));
      SpanLength(cd, Origin);
      var n := os * os * os;
      assert |cells| == n;
      MulDistributes(1, |vs[1..]|, n);
    }
  }

  /** Each cell of voxel v occurs once in the pairs of v with the whole sub-grid. */
  lemma PairsOnce(v: Voxel, os: int, s: Seed)
    requires os >= 1
    ensures multiset(Pairs(v, Span(CellDims(os), Origin)))[s]
            == if s.voxel == v && InBounds(CellDims(os), s.cell) then 1 else 0
  {
    var cd := CellDims(os);
    PairsCount(v, Span(cd, Origin), s);
    SpanDistinct(cd, Origin);
    SpanHas(cd, Origin, s.cell);
    DistinctOnce(Span(cd, Origin), s.cell);
  }

  /** The grid holds each cell of each voxel of vs as often as vs holds the voxel. */
  lemma {:induction false} GridCount(vs: seq<Voxel>, os: int, s: Seed)
    requires os >= 1
    ensures multiset(Grid(vs, os))[s] == multiset(vs)[s.voxel] * (if InBounds(CellDims(os), s.cell) then 1 else 0)
  {
    if vs != [] {
      var t := vs[1..];
      var p, r := Pairs(vs[0], Span(CellDims(os), Origin)), Grid(t, os);
      var a: int := if vs[0] == s.voxel then 1 else 0;
      var b := multiset(t)[s.voxel];
      var e: int := if InBounds(CellDims(os), s.cell) then 1 else 0;
      GridCount(t, os, s);
      PairsOnce(vs[0], os, s);
      CountConcat(p, r, s);
      CountCons(vs, s.voxel);
      MulDistributes(a, b, e);
    }
  }

  /** Multiplicities and total of the seeds a fresh seeder will emit. */
  lemma GridYield(mask: Mask, os: int)
    requires mask.Valid() && os >= 1
    ensures |Grid(NonZeroFrom(mask, Origin), os)| == |NonZeroVoxels(mask)| * (os * os * os)
    ensures forall s :: multiset(Grid(NonZeroFrom(mask, Origin), os))[s]
                        == if s.voxel in NonZeroVoxels(mask) && InBounds(CellDims(os), s.cell) then 1 else 0
  {
    var vs := NonZeroFrom(mask, Origin);
    NonZeroEnumeration(mask);
    DistinctCard(vs);
    assert (set y | y in vs) == NonZeroVoxels(mask);
    GridLength(vs, os);
    forall s ensures multiset(Grid(vs, os))[s]
                     == if s.voxel in NonZeroVoxels(mask) && InBounds(CellDims(os), s.cell) then 1 else 0 {
      GridCount(vs, os, s);
      DistinctOnce(vs, s.voxel);
    }
  }
}
