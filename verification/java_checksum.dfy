/**
 The contiguity test evaluated the way the Java code evaluates it: every
 `int` operation wraps modulo 2^32 and `/` truncates toward zero. Up to 46341
 ports in 0..65535 the test agrees with the mathematical one; from 46342 ports
 on, `total * (total - 1)` wraps and a genuine run is refused.
 */
module JavaChecksum {
  import opened Checksum

  const IntMin: int := -0x8000_0000
  const IntMax: int := 0x7fff_ffff
  const Modulus: int := 0x1_0000_0000

  /** A Java `int` result: the mathematical value reduced into [IntMin, IntMax]. */
  function Wrap(x: int): (r: int)
    ensures IntMin <= r <= IntMax
    ensures (r - x) % Modulus == 0
    ensures IntMin <= x <= IntMax ==> r == x
  {
    (x - IntMin) % Modulus + IntMin
  }

  /** Java's `x / 2` on an `int`: rounds toward zero. */
  function Half(x: int): (r: int)
    ensures x >= 0 ==> 2 * r <= x < 2 * r + 2
    ensures x < 0 ==> 2 * r - 2 < x <= 2 * r
  {
    if x >= 0 then x / 2 else -((-x) / 2)
  }

  /** Values that agree modulo 2^32 wrap to the same `int`. */
  lemma WrapCongruent(x: int, y: int)
    requires (x - y) % Modulus == 0
    ensures Wrap(x) == Wrap(y)
  {
    var k := (x - y) / Modulus;
    assert x - IntMin == (y - IntMin) + k * Modulus;
  }

  /** `sum += port` over the block, wrapping at every step: an `int` that
      agrees with the true sum modulo 2^32. */
  function SumInt(s: seq<int>): (r: int)
    ensures IntMin <= r <= IntMax
    ensures (r - Sum(s)) % Modulus == 0
  {
    if |s| == 0 then 0
    else
      var front := SumInt(s[..|s| - 1]);
      var r := Wrap(front + s[|s| - 1]);
      assert Sum(s) == Sum(s[..|s| - 1]) + s[|s| - 1];
      MultiplesAdd(r - (front + s[|s| - 1]), front - Sum(s[..|s| - 1]));
      r
  }

  /** The sum and the difference of two multiples of 2^32 are ones. */
  lemma MultiplesAdd(a: int, b: int)
    requires a % Modulus == 0 && b % Modulus == 0
    ensures (a + b) % Modulus == 0
    ensures (a - b) % Modulus == 0
  {
    assert a + b == (a / Modulus + b / Modulus) * Modulus;
    assert a - b == (a / Modulus - b / Modulus) * Modulus;
  }

  /**
   The test as written: `sum - (total * min) != total * (total - 1) / 2`
   rejects. Wrapping the running sum does not matter; what matters is that the
   difference is taken modulo 2^32 and the right-hand side may wrap.
   */
  function PassesChecksumInt(s: seq<int>): (r: bool)
    requires |s| >= 1
    ensures r <==> Wrap(Sum(s) - |s| * Min(s)) == Half(Wrap(|s| * (|s| - 1)))
  {
    var total := |s|;
    var product := Wrap(total * Min(s));
    var sum := SumInt(s);
    assert (sum - product) - (Sum(s) - total * Min(s))
        == (sum - Sum(s)) - (product - total * Min(s));
    MultiplesAdd(sum - Sum(s), product - total * Min(s));
    WrapCongruent(sum - product, Sum(s) - total * Min(s));
    Wrap(sum - product) == Half(Wrap(total * (total - 1)))
  }

  lemma {:induction false} SumAtMost(s: seq<int>, hi: int)
    requires forall x :: x in s ==> x <= hi
    ensures Sum(s) <= |s| * hi
  {
    if |s| > 0 {
      var front := s[..|s| - 1];
      assert forall x :: x in front ==> x in s;
      SumAtMost(front, hi);
      assert s[|s| - 1] in s;
      assert |s| * hi == (|s| - 1) * hi + hi;
    }
  }

  lemma {:induction false} SumAtLeast(s: seq<int>, lo: int)
    requires forall x :: x in s ==> lo <= x
    ensures |s| * lo <= Sum(s)
  {
    if |s| > 0 {
      var front := s[..|s| - 1];
      assert forall x :: x in front ==> x in s;
      SumAtLeast(front, lo);
      assert s[|s| - 1] in s;
      assert |s| * lo == (|s| - 1) * lo + lo;
    }
  }

  lemma ProductBound(a: int, x: int, amax: int, xmax: int)
    requires 0 <= a <= amax
    requires 0 <= x <= xmax
    ensures 0 <= a * x <= amax * xmax
  {
    assert a * x <= a * xmax;
    assert a * xmax <= amax * xmax;
  }

  /**
   For at most 46341 ports in 0..65535 the Java test accepts exactly what the
   mathematical test accepts: the right-hand side does not wrap, and the
   difference lies in [0, 2^32), where wrapping can only make it negative.
   */
  lemma Int32ChecksumAgrees(s: seq<int>)
    requires 1 <= |s| <= 46341
    requires forall x :: x in s ==> 0 <= x <= 65535
    ensures PassesChecksumInt(s) == PassesChecksum(s)
  {
    var n := |s|;
    var m := Min(s);
    SumAtMost(s, 65535);
    SumAtLeast(s, m);
    ProductBound(n, 65535, 46341, 65535);
    ProductBound(n, m, 46341, 65535);
    ProductBound(n, n - 1, 46341, 46340);
    var d := Sum(s) - n * m;
    var t := n * (n - 1);
    assert 0 <= d < Modulus;
    assert Wrap(t) == t;
    assert Half(t) == t / 2;
    if d > IntMax {
      WrapCongruent(d, d - Modulus);
      assert Wrap(d) < 0;
    }
  }

  /** The ports 1, 2, ..., n. */
  function Ascending(n: nat): (c: seq<int>)
    ensures |c| == n
    ensures forall i :: 0 <= i < n ==> c[i] == i + 1
  {
    seq(n, i => i + 1)
  }

  /**
   A genuine run the Java test refuses: the 46342 ports 1..46342 are distinct
   and contiguous, the mathematical test accepts them, but `total * (total - 1)`
   wraps to a negative number and the Java test rejects them.
   */
  lemma Int32ChecksumRejectsRun()
    ensures var c := Ascending(46342);
            && Distinct(c)
            && IsRunFrom(c, 1)
            && PassesChecksum(c)
            && !PassesChecksumInt(c)
  {
    var c := Ascending(46342);
    forall x
      ensures x in c <==> 1 <= x < 1 + |c|
    {
      if 1 <= x < 1 + |c| {
        assert c[x - 1] == x;
      }
    }
    RunStartsAtMin(c, 1);
    RunSum(c, 1);
    assert Sum(c) == 1073813653;
    assert Wrap(46342 * 46341) == -2147432674;
  }
}
