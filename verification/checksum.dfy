/**
 The arithmetic behind the pool allocator's contiguity test: a block of
 `total` ports is accepted when `sum - total * min == total * (total - 1) / 2`.
 This module proves what that identity does and does not establish.
 */
module Checksum {

  /** Sum of the ports, accumulated front to back as the Java loop does. */
  function Sum(s: seq<int>): (r: int)
    ensures (forall x :: x in s ==> x >= 0) ==> r >= 0
  {
    if |s| == 0 then 0
    else
      var front := s[..|s| - 1];
      assert forall x :: x in front ==> x in s;
      assert s[|s| - 1] in s;
      Sum(front) + s[|s| - 1]
  }

  /** Smallest port of a non-empty block, found front to back as the Java loop does. */
  function Min(s: seq<int>): (m: int)
    requires |s| >= 1
    ensures m in s
    ensures forall x :: x in s ==> m <= x
  {
    if |s| == 1 then s[0]
    else
      var m' := Min(s[..|s| - 1]);
      assert s == s[..|s| - 1] + [s[|s| - 1]];
      if s[|s| - 1] < m' then s[|s| - 1] else m'
  }

  /** No port occurs twice in the block. */
  predicate Distinct(s: seq<int>)
  {
    forall i, j :: 0 <= i < j < |s| ==> s[i] != s[j]
  }

  /** The block holds exactly the ports b, b+1, ..., b+|s|-1. */
  ghost predicate IsRunFrom(s: seq<int>, b: int)
  {
    forall x :: x in s <==> b <= x < b + |s|
  }

  /** 0 + 1 + ... + (n-1). */
  function Tri(n: nat): nat
  {
    if n == 0 then 0 else Tri(n - 1) + (n - 1)
  }

  /**
   The test the Java code applies to a non-empty candidate block. For distinct
   ports it is exact: it passes iff the block is min, min+1, ..., min+|s|-1.
   */
  function PassesChecksum(s: seq<int>): (r: bool)
    requires |s| >= 1
    ensures Distinct(s) ==> (r <==> IsRunFrom(s, Min(s)))
  {
    var passes := Sum(s) - |s| * Min(s) == |s| * (|s| - 1) / 2;
    if Distinct(s) then
      RunLowerBound(s, Min(s));
      TriClosedForm(|s|);
      passes
    else
      passes
  }

  lemma {:induction false} TriClosedForm(n: nat)
    ensures 2 * Tri(n) == n * (n - 1)
    ensures Tri(n) == n * (n - 1) / 2
  {
    if n > 0 {
      TriClosedForm(n - 1);
      assert n * (n - 1) == (n - 1) * (n - 2) + 2 * (n - 1);
    }
  }

  /** Moving the lower bound from b+1 over n-1 ports to b over n ports. */
  lemma ShiftBound(n: int, b: int)
    requires n >= 1
    ensures (n - 1) * (b + 1) + Tri(n - 1) + b == n * b + Tri(n)
  {
    assert Tri(n) == Tri(n - 1) + (n - 1);
    assert (n - 1) * (b + 1) == (n - 1) * b + (n - 1);
    assert n * b == (n - 1) * b + b;
  }

  lemma {:induction false} SumConcat(a: seq<int>, b: seq<int>)
    ensures Sum(a + b) == Sum(a) + Sum(b)
    decreases |b|
  {
    if |b| > 0 {
      var b' := b[..|b| - 1];
      assert (a + b)[..|a + b| - 1] == a + b';
      SumConcat(a, b');
    } else {
      assert a + b == a;
    }
  }

  /** Taking the k-th port out of a block lowers its sum by that port. */
  lemma RemoveAtSum(s: seq<int>, k: int)
    requires 0 <= k < |s|
    ensures Sum(s) == Sum(s[..k] + s[k + 1..]) + s[k]
  {
    var front, mid, back := s[..k], [s[k]], s[k + 1..];
    assert Sum(mid) == s[k] by {
      assert mid[..0] == [];
    }
    assert Sum(front + mid) == Sum(front) + s[k] by {
      SumConcat(front, mid);
    }
    assert Sum(s) == Sum(front + mid) + Sum(back) by {
      assert s == (front + mid) + back;
      SumConcat(front + mid, back);
    }
    assert Sum(front + back) == Sum(front) + Sum(back) by {
      SumConcat(front, back);
    }
  }

  /** Taking the k-th port out of a distinct block leaves a distinct block
      that lacks exactly that port. */
  lemma RemoveAtElements(s: seq<int>, k: int)
    requires 0 <= k < |s|
    requires Distinct(s)
    ensures Distinct(s[..k] + s[k + 1..])
    ensures forall x :: x in s[..k] + s[k + 1..] <==> x in s && x != s[k]
  {
    var t := s[..k] + s[k + 1..];
    assert |t| == |s| - 1;
    assert forall i :: 0 <= i < k ==> t[i] == s[i];
    assert forall i :: k <= i < |t| ==> t[i] == s[i + 1];
    forall x
      ensures x in t <==> x in s && x != s[k]
    {
      if x in t {
        var i :| 0 <= i < |t| && t[i] == x;
        if i < k { assert s[i] == x; } else { assert s[i + 1] == x; }
      }
      if x in s && x != s[k] {
        var i :| 0 <= i < |s| && s[i] == x;
        if i < k { assert t[i] == x; } else { assert t[i - 1] == x; }
      }
    }
  }

  /** For a block that contains its lower bound b, being a run from b is the
      same as the rest being a run from b+1. */
  lemma RunWithoutBase(s: seq<int>, k: int, b: int)
    requires 0 <= k < |s|
    requires Distinct(s)
    requires s[k] == b
    ensures IsRunFrom(s, b) <==> IsRunFrom(s[..k] + s[k + 1..], b + 1)
  {
    var t := s[..k] + s[k + 1..];
    RemoveAtElements(s, k);
    if IsRunFrom(t, b + 1) {
      forall x
        ensures x in s <==> b <= x < b + |s|
      {
        if x != b {
          assert x in s <==> x in t;
        }
      }
    }
    if IsRunFrom(s, b) {
      forall x
        ensures x in t <==> b + 1 <= x < b + 1 + |t|
      {
        assert x in t <==> x in s && x != b;
      }
    }
  }

  /**
   For distinct ports all at least b, the sum is at least |s|*b + Tri(|s|),
   and it reaches that bound exactly when the ports are b, b+1, ..., b+|s|-1.
   */
  lemma {:induction false} RunLowerBound(s: seq<int>, b: int)
    requires Distinct(s)
    requires forall x :: x in s ==> b <= x
    ensures Sum(s) >= |s| * b + Tri(|s|)
    ensures Sum(s) == |s| * b + Tri(|s|) <==> IsRunFrom(s, b)
    decreases |s|, 1
  {
    if |s| == 0 {
    } else if b in s {
      RunLowerBoundHolding(s, b);
    } else {
      RunLowerBoundMissing(s, b);
    }
  }

  /** RunLowerBound when b is one of the ports: take it out and recurse from b+1. */
  lemma {:induction false} RunLowerBoundHolding(s: seq<int>, b: int)
    requires Distinct(s)
    requires forall x :: x in s ==> b <= x
    requires b in s
    ensures Sum(s) >= |s| * b + Tri(|s|)
    ensures Sum(s) == |s| * b + Tri(|s|) <==> IsRunFrom(s, b)
    decreases |s|, 0
  {
    var n := |s|;
    var k :| 0 <= k < n && s[k] == b;
    var t := s[..k] + s[k + 1..];
    RemoveAtSum(s, k);
    RemoveAtElements(s, k);
    forall x | x in t
      ensures b + 1 <= x
    {
      assert x in s && x != b;
    }
    RunLowerBound(t, b + 1);
    RunWithoutBase(s, k, b);
    assert |t| == n - 1;
    ShiftBound(n, b);
  }

  /** RunLowerBound when b is not one of the ports: every port is at least b+1,
      so the sum is strictly above the bound. */
  lemma {:induction false} RunLowerBoundMissing(s: seq<int>, b: int)
    requires |s| >= 1
    requires Distinct(s)
    requires forall x :: x in s ==> b <= x
    requires b !in s
    ensures Sum(s) > |s| * b + Tri(|s|)
    ensures !IsRunFrom(s, b)
    decreases |s|, 0
  {
    var n := |s|;
    var t := s[..n - 1];
    assert s == t + [s[n - 1]];
    assert Distinct(t);
    assert forall x :: x in t ==> x in s;
    RunLowerBound(t, b + 1);
    ShiftBound(n, b);
    assert Sum(s) == Sum(t) + s[n - 1];
    assert s[n - 1] in s && s[n - 1] != b;
    assert b <= b < b + n;
  }

  /** A run can only start at its smallest port. */
  lemma RunStartsAtMin(s: seq<int>, b: int)
    requires |s| >= 1
    requires IsRunFrom(s, b)
    ensures b == Min(s)
  {
    assert b in s;
  }

  /** A distinct run from b has the sum the test expects. */
  lemma RunSum(s: seq<int>, b: int)
    requires Distinct(s)
    requires IsRunFrom(s, b)
    ensures Sum(s) == |s| * b + |s| * (|s| - 1) / 2
  {
    RunLowerBound(s, b);
    TriClosedForm(|s|);
  }

  /** Without distinctness the test is fooled: [1, 1, 4] passes it but is no run. */
  lemma DuplicatesFoolChecksum()
    ensures PassesChecksum([1, 1, 4])
    ensures !Distinct([1, 1, 4])
    ensures !IsRunFrom([1, 1, 4], Min([1, 1, 4]))
  {
    var s := [1, 1, 4];
    assert s[..2] == [1, 1] && s[..2][..1] == [1] && [1][..0] == [];
    assert Min(s) == 1;
    assert Sum(s) == 6;
    assert 4 in s;
  }
}
