/**
 * Sequences of emitted seeds and how often each element occurs in them.
 */
module Enumeration {
  import opened Raster

  /** n copies of x. */
  function Copies<T>(x: T, n: int): seq<T>
    decreases n
  {
    if n <= 0 then [] else [x] + Copies(x, n - 1)
  }

  /** Each element of s, n times in a row, in the order of s. */
  function Repeat<T>(s: seq<T>, n: int): seq<T>
  {
    if s == [] then [] else Copies(s[0], n) + Repeat(s[1..], n)
  }

  lemma {:induction false} CopiesCount<T>(x: T, n: nat, y: T)
    ensures |Copies(x, n)| == n
    ensures multiset(Copies(x, n))[y] == if x == y then n else 0
  {
    if n > 0 {
      CopiesCount(x, n - 1, y);
    }
  }

  /** Repeating multiplies the length by n. */
  lemma {:induction false} RepeatLength<T>(s: seq<T>, n: nat)
    ensures |Repeat(s, n)| == |s| * n
  {
    if s != [] {
      RepeatLength(s[1..], n);
      CopiesCount(s[0], n, s[0]);
      assert |Repeat(s, n)| == n + |s[1..]| * n;
      assert (1 + |s[1..]|) * n == n + |s[1..]| * n;
    }
  }

  lemma CountConcat<T>(a: seq<T>, b: seq<T>, y: T)
    ensures multiset(a + b)[y] == multiset(a)[y] + multiset(b)[y]
  {
  }

  lemma CountCons<T>(s: seq<T>, y: T)
    requires s != []
    ensures multiset(s)[y] == (if s[0] == y then 1 else 0) + multiset(s[1..])[y]
  {
    assert s == [s[0]] + s[1..];
    CountConcat([s[0]], s[1..], y);
  }

  lemma MulDistributes(a: int, b: int, n: int)
    ensures (a + b) * n == a * n + b * n
  {
  }

  /** Repeating multiplies every multiplicity by n. */
  lemma {:induction false} RepeatCount<T>(s: seq<T>, n: nat, y: T)
    ensures multiset(Repeat(s, n))[y] == multiset(s)[y] * n
  {
    if s != [] {
      var t := s[1..];
      var a: int := if s[0] == y then 1 else 0;
      var b := multiset(t)[y];
      RepeatCount(t, n, y);
      CopiesCount(s[0], n, y);
      CountConcat(Copies(s[0], n), Repeat(t, n), y);
      CountCons(s, y);
      MulDistributes(a, b, n);
      assert multiset(Repeat(s, n))[y] == a * n + b * n;
    }
  }

  /** In a sequence without repetitions every element occurs once. */
  lemma {:induction false} DistinctOnce<T>(s: seq<T>, y: T)
    requires Distinct(s)
    ensures multiset(s)[y] == if y in s then 1 else 0
  {
    if s != [] {
      assert s == [s[0]] + s[1..];
      assert Distinct(s[1..]) by {
        forall p, q | 0 <= p < q < |s[1..]| ensures s[1..][p] != s[1..][q] {
          assert s[1..][p] == s[p + 1] && s[1..][q] == s[q + 1];
        }
      }
      assert s[0] !in s[1..] by {
        forall n | 0 <= n < |s[1..]| ensures s[1..][n] != s[0] { assert s[1..][n] == s[n + 1]; }
      }
      DistinctOnce(s[1..], y);
    }
  }

  /** A sequence without repetitions is as long as its set of elements. */
  lemma {:induction false} DistinctCard<T>(s: seq<T>)
    requires Distinct(s)
    ensures |set y | y in s| == |s|
  {
    if s != [] {
      var t := s[1..];
      assert Distinct(t) by {
        forall p, q | 0 <= p < q < |t| ensures t[p] != t[q] {
          assert t[p] == s[p + 1] && t[q] == s[q + 1];
        }
      }
      assert s[0] !in t by {
        forall n | 0 <= n < |t| ensures t[n] != s[0] { assert t[n] == s[n + 1]; }
      }
      DistinctCard(t);
      assert s == [s[0]] + t;
      assert (set y | y in s) == {s[0]} + (set y | y in t);
    }
  }
}
