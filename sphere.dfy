/**
 * Uniform seeding in a sphere by rejection (Sphere::get_seed): draw a point
 * of the cube [-1,1]^3 until it lies in the unit ball, then scale by the
 * radius and translate to the centre. Coordinates are exact reals, and the
 * random draws are an input sequence.
 */
module Sphere {
  import opened Wrappers

  datatype Point = Point(x: real, y: real, z: real)

  function Add(p: Point, q: Point): Point { Point(p.x + q.x, p.y + q.y, p.z + q.z) }

  function Sub(p: Point, q: Point): Point { Point(p.x - q.x, p.y - q.y, p.z - q.z) }

  function Scale(r: real, p: Point): Point { Point(r * p.x, r * p.y, r * p.z) }

  function SquaredNorm(p: Point): real { p.x * p.x + p.y * p.y + p.z * p.z }

  /** Three uniform(rng) values, one draw of the loop. */
  datatype Draw = Draw(u0: real, u1: real, u2: real)

  /** The candidate point 2u - 1 of a draw, in the cube [-1,1]^3 when each u is in [0,1]. */
  function Candidate(d: Draw): (p: Point)
    ensures 0.0 <= d.u0 <= 1.0 && 0.0 <= d.u1 <= 1.0 && 0.0 <= d.u2 <= 1.0 ==> InCube(p)
  {
    Point(2.0 * d.u0 - 1.0, 2.0 * d.u1 - 1.0, 2.0 * d.u2 - 1.0)
  }

  predicate InCube(p: Point) {
    -1.0 <= p.x <= 1.0 && -1.0 <= p.y <= 1.0 && -1.0 <= p.z <= 1.0
  }

  /**
   * The loop stops on a candidate with squared norm at most 1, which lies
   * in the cube [-1,1]^3.
   */
  predicate Accepts(d: Draw)
    ensures Accepts(d) ==> InCube(Candidate(d))
  {
    var p := Candidate(d);
    BallInCube(p);
    SquaredNorm(p) <= 1.0
  }

  /** The unit ball lies in the cube [-1,1]^3. */
  lemma BallInCube(p: Point)
    ensures SquaredNorm(p) <= 1.0 ==> InCube(p)
  {
    if SquaredNorm(p) <= 1.0 {
      SquareBound(p.x, p.y * p.y + p.z * p.z);
      SquareBound(p.y, p.x * p.x + p.z * p.z);
      SquareBound(p.z, p.x * p.x + p.y * p.y);
    }
  }

  /** x * x + rest <= 1 with rest >= 0 bounds x to [-1, 1]. */
  lemma SquareBound(x: real, rest: real)
    requires 0.0 <= rest && x * x + rest <= 1.0
    ensures -1.0 <= x <= 1.0
  {
  }

  lemma ScaledNorm(r: real, p: Point)
    ensures SquaredNorm(Scale(r, p)) == r * r * SquaredNorm(p)
  {
    calc {
      SquaredNorm(Scale(r, p));
      (r * p.x) * (r * p.x) + (r * p.y) * (r * p.y) + (r * p.z) * (r * p.z);
      r * r * (p.x * p.x) + r * r * (p.y * p.y) + r * r * (p.z * p.z);
      r * r * SquaredNorm(p);
    }
  }

  /** Scaling a point of the unit ball by r lands within distance r. */
  lemma {:induction false} ScaledInBall(r: real, p: Point)
    requires SquaredNorm(p) <= 1.0
    ensures SquaredNorm(Scale(r, p)) <= r * r
  {
    ScaledNorm(r, p);
    assert r * r >= 0.0;
    assert r * r * SquaredNorm(p) <= r * r * 1.0;
  }

  /**
   * One get_seed: returns the point of the first accepted draw, scaled and
   * translated, with the number of draws it used; every earlier draw was
   * rejected. The seed lies within distance rad of the centre. It is None
   * only when no draw is accepted.
   */
  method GetSeed(center: Point, rad: real, draws: seq<Draw>) returns (seed: Option<Point>, used: nat)
    ensures used <= |draws|
    ensures forall n :: 0 <= n < used - 1 ==> !Accepts(draws[n])
    ensures seed.Some? ==> used >= 1 && Accepts(draws[used - 1])
                           && seed.value == Add(center, Scale(rad, Candidate(draws[used - 1])))
    ensures seed.Some? ==> SquaredNorm(Sub(seed.value, center)) <= rad * rad
    ensures seed.None? <==> forall n :: 0 <= n < |draws| ==> !Accepts(draws[n])
    ensures seed.None? ==> used == |draws|
  {
    used := 0;
    while used < |draws|
      invariant used <= |draws|
      invariant forall n :: 0 <= n < used ==> !Accepts(draws[n])
    {
      var p := Candidate(draws[used]);
      used := used + 1;
      if SquaredNorm(p) <= 1.0 {
        var q := Scale(rad, p);
        ScaledInBall(rad, p);
        assert Sub(Add(center, q), center) == q;
        return Some(Add(center, q)), used;
      }
    }
    return None, used;
  }
}
