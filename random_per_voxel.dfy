/**
 * The exhaustive random-per-voxel seeder: it walks the eligible voxels of
 * the mask once in raster order and emits num seeds in each before moving
 * on. Each call is one atomic step of Random_per_voxel::get_seed; the
 * jitter inside the voxel and the transform to scanner space are left out,
 * so a seed is represented by the voxel it lies in.
 */
module RandomPerVoxel {
  import opened Raster
  import opened Volumes
  import opened Enumeration

  class Seeder {
    const mask: Mask
    /** Seeds per voxel. */
    const num: int
    /** The cursor mask.index(0..2). */
    var cursor: Voxel
    /** Seeds already emitted in the current voxel, minus one. */
    var inc: int
    var expired: bool

    ghost predicate Valid()
      reads this
    {
      && mask.Valid()
      && num >= 1
      && (cursor == BeforeStart || Resting(mask.dims, cursor))
      && (!expired ==> cursor != End(mask.dims))
      && (!expired && cursor != BeforeStart ==> mask.At(cursor) && 0 <= inc < num)
    }

    /** The seeds every later call will emit, in order. */
    ghost function Pending(): seq<Voxel>
      reads this
      requires Valid()
    {
      Queue(mask, num, expired, cursor, inc)
    }

    /**
     * The initial state: the cursor just before the first voxel and no seed
     * emitted, so the pending seeds are num copies of each eligible voxel.
     */
    constructor (mask: Mask, num: int)
      requires mask.Valid() && num >= 1
      ensures Valid() && !expired
      ensures this.mask == mask && this.num == num
      ensures Pending() == Repeat(NonZeroFrom(mask, Origin), num)
    {
      this.mask := mask;
      this.num := num;
      cursor := BeforeStart;
      inc := 0;
      expired := false;
    }

    /**
     * One call of get_seed. It succeeds exactly when a seed is pending,
     * returns the first pending seed and removes it; on failure the seeder
     * is expired, and an expired seeder fails without changing anything.
     */
    method GetSeed() returns (ok: bool, v: Voxel)
      requires Valid()
      modifies this
      ensures Valid()
      ensures ok <==> old(Pending()) != []
      ensures ok ==> old(Pending()) == [v] + Pending()
      ensures ok ==> InBounds(mask.dims, v) && mask.At(v)
      ensures !ok ==> expired && Pending() == []
      ensures old(expired) ==> !ok && unchanged(this)
    {
      if expired {
        return false, cursor;
      }
      ghost var c0, inc0 := cursor, inc;
      var advance: bool;
      if cursor.k < 0 {
        advance := true;
      } else {
        inc := inc + 1;
        advance := inc == num;
      }
      if advance {
        inc := 0;
        var next := Advance(mask, cursor);
        cursor := next;
        if cursor.i == mask.dims.n0 {
          expired := true;
          QueueDone(mask, num, c0, inc0);
          return false, cursor;
        }
        QueueMove(mask, num, c0, inc0, next);
      } else {
        QueueStay(mask, num, c0, inc0);
      }
      return true, cursor;
    }
  }

  /**
   * The seeds still to come from a seeder in the given state: the rest of
   * the current voxel's num seeds, then num seeds in each later eligible voxel.
   */
  ghost function Queue(mask: Mask, num: int, expired: bool, cursor: Voxel, inc: int): seq<Voxel>
    requires mask.Valid() && (expired || Steppable(mask.dims, cursor))
  {
    if expired then []
    else (if cursor == BeforeStart then [] else Copies(cursor, num - 1 - inc))
         + Repeat(NonZeroAfter(mask, cursor), num)
  }

  /** Within a voxel: the head is the current voxel and inc moves on by one. */
  lemma QueueStay(mask: Mask, num: int, c: Voxel, inc: int)
    requires mask.Valid() && InBounds(mask.dims, c) && 0 <= inc && inc + 1 < num
    ensures Queue(mask, num, false, c, inc) == [c] + Queue(mask, num, false, c, inc + 1)
  {
  }

  /** Leaving the current voxel for the next eligible one, with inc reset. */
  lemma QueueMove(mask: Mask, num: int, c: Voxel, inc: int, next: Voxel)
    requires mask.Valid() && Steppable(mask.dims, c) && num >= 1
    requires c == BeforeStart || inc + 1 == num
    requires InBounds(mask.dims, next)
    requires NonZeroAfter(mask, c) == [next] + NonZeroAfter(mask, next)
    ensures Queue(mask, num, false, c, inc) == [next] + Queue(mask, num, false, next, 0)
  {
    var after := Repeat(NonZeroAfter(mask, next), num);
    assert Repeat(NonZeroAfter(mask, c), num) == Copies(next, num) + after;
  }

  /** Leaving the current voxel when no eligible voxel follows. */
  lemma QueueDone(mask: Mask, num: int, c: Voxel, inc: int)
    requires mask.Valid() && Steppable(mask.dims, c)
    requires c == BeforeStart || inc + 1 == num
    requires NonZeroAfter(mask, c) == []
    ensures Queue(mask, num, false, c, inc) == []
  {
  }

  /**
   * Calls get_seed until it fails and collects the seeds: they are exactly
   * the pending seeds, and the seeder ends expired.
   */
  method Drain(s: Seeder) returns (seeds: seq<Voxel>)
    requires s.Valid()
    modifies s
    ensures s.Valid() && s.expired
    ensures seeds == old(s.Pending())
  {
    seeds := [];
    var ok, v := s.GetSeed();
    while ok
      invariant s.Valid()
      invariant ok ==> old(s.Pending()) == seeds + [v] + s.Pending()
      invariant !ok ==> old(s.Pending()) == seeds && s.expired
      decreases |s.Pending()| + (if ok then 1 else 0)
    {
      seeds := seeds + [v];
      ok, v := s.GetSeed();
    }
  }

  /**
   * A fresh seeder run to exhaustion on a mask with N eligible voxels emits
   * N*num seeds, num in each eligible voxel and none elsewhere, in raster
   * order; the next call fails.
   */
  method RunToExhaustion(mask: Mask, num: int) returns (seeds: seq<Voxel>, again: bool)
    requires mask.Valid() && num >= 1
    ensures seeds == Repeat(NonZeroFrom(mask, Origin), num)
    ensures |seeds| == |NonZeroVoxels(mask)| * num
    ensures forall v :: multiset(seeds)[v] == if v in NonZeroVoxels(mask) then num else 0
    ensures !again
  {
    var s := new Seeder(mask, num);
    seeds := Drain(s);
    var v;
    again, v := s.GetSeed();
    YieldPerVoxel(mask, num);
  }

  /** Multiplicities and total of the seeds a fresh seeder will emit. */
  lemma YieldPerVoxel(mask: Mask, num: nat)
    requires mask.Valid()
    ensures |Repeat(NonZeroFrom(mask, Origin), num)| == |NonZeroVoxels(mask)| * num
    ensures forall v :: multiset(Repeat(NonZeroFrom(mask, Origin), num))[v]
                        == if v in NonZeroVoxels(mask) then num else 0
  {
    var s := NonZeroFrom(mask, Origin);
    NonZeroEnumeration(mask);
    RepeatLength(s, num);
    DistinctCard(s);
    assert (set y | y in s) == NonZeroVoxels(mask);
    forall v ensures multiset(Repeat(s, num))[v] == if v in NonZeroVoxels(mask) then num else 0 {
      RepeatCount(s, num, v);
      DistinctOnce(s, v);
    }
  }
}
