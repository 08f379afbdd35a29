/**
 The contiguous-block pool allocator (TCPPortAllocator2): a reservation set
 bounded by a limit, and an acquisition attempt that probes `total` ports one
 after another and reserves them as a block when they pass every test.

 Probing the operating system is an oracle: `probes[i]` is what the i-th call
 of `take` answered, `None` standing for an IOException.
 */
module PoolAllocator {
  import opened Wrappers
  import opened Checksum

  /** The allocator's state: the reserved ports and the capacity fixed at construction. */
  datatype Pool = Pool(reserved: set<int>, limit: int)

  /** One pass of the critical section: the block it hands back (null in the Java
      code when the attempt is abandoned) and the pool afterwards. */
  datatype Attempt = Attempt(block: Option<seq<int>>, pool: Pool)

  /** The outcome of the retry loop: the first port of the first granted block,
      or the timeout once the clock allows no further attempt. */
  datatype Acquisition =
    | Acquired(port: int, block: seq<int>, pool: Pool)
    | TimedOut(pool: Pool)

  /** The largest port number `new ServerSocket` accepts. */
  const MaxPort: int := 65535

  /** A port number `new ServerSocket` accepts; any other request throws
      IllegalArgumentException before the socket is opened. */
  predicate ValidPort(p: int)
  {
    0 <= p <= MaxPort
  }

  /** The port the i-th probe of an attempt asks for: 0 (any free port) for the
      first, one past the previous answer for the others. */
  function ProbeRequest(probes: seq<Option<int>>, i: nat): int
    requires i < |probes|
    requires i > 0 ==> probes[i - 1].Some?
  {
    if i == 0 then 0 else probes[i - 1].value + 1
  }

  /** Every probe after the first that succeeds answers with the port it asked
      for, which is what binding a specific port in 1..65535 does. */
  predicate HonestProbes(probes: seq<Option<int>>)
  {
    forall i :: 1 <= i < |probes| && probes[i - 1].Some? && probes[i].Some? ==>
      probes[i].value == ProbeRequest(probes, i)
  }

  /** Every request of the loop is a valid port and every probe answers. */
  predicate ProbesSucceed(probes: seq<Option<int>>)
  {
    && (forall i :: 0 <= i < |probes| ==> probes[i].Some?)
    && (forall i :: 1 <= i < |probes| ==> ValidPort(ProbeRequest(probes, i)))
  }

  /** How the probing loop ends: with every answer, on an IOException, or on the
      IllegalArgumentException of an out-of-range request. */
  datatype ProbeRun = Collected(ports: seq<int>) | ProbeFailed | RequestRejected

  /** The loop's first i probes all succeed and its request number i is
      outside the port range: the loop ends there with the exception. */
  predicate RejectsAt(probes: seq<Option<int>>, i: int)
  {
    && 1 <= i < |probes|
    && ProbesSucceed(probes[..i])
    && probes[i - 1].Some?
    && !ValidPort(probes[i - 1].value + 1)
  }

  /**
   The probing loop as written. An out-of-range request (one past an answer of
   65535) throws IllegalArgumentException, which the loop's `catch (IOException)`
   does not catch, whatever the probe would have answered. Whichever failure
   comes first decides the outcome.
   */
  function ProbeLoop(probes: seq<Option<int>>): (r: ProbeRun)
    ensures r.Collected? <==> ProbesSucceed(probes)
    ensures r.Collected? ==> |r.ports| == |probes|
    ensures r.Collected? ==> forall i :: 0 <= i < |probes| ==> probes[i] == Some(r.ports[i])
    ensures r.RequestRejected? <==> exists i :: RejectsAt(probes, i)
  {
    var n := |probes|;
    if n == 0 then Collected([])
    else
      var front := probes[..n - 1];
      assert forall i :: 0 <= i < n - 1 ==> front[i] == probes[i];
      assert forall i :: 1 <= i < n - 1 && front[i - 1].Some? ==>
        ProbeRequest(front, i) == ProbeRequest(probes, i);
      RejectsAtFront(probes);
      match ProbeLoop(front)
      case Collected(ports) =>
        SucceededNeverRejects(front);
        if n > 1 && !ValidPort(ports[n - 2] + 1) then
          assert probes[n - 2] == Some(ports[n - 2]);
          assert !ValidPort(ProbeRequest(probes, n - 1));
          assert RejectsAt(probes, n - 1);
          RequestRejected
        else if probes[n - 1].None? then
          assert n > 1 ==> probes[n - 2] == Some(ports[n - 2]);
          assert !RejectsAt(probes, n - 1);
          ProbeFailed
        else
          assert n > 1 ==> probes[n - 2] == Some(ports[n - 2]);
          assert n > 1 ==> ValidPort(ProbeRequest(probes, n - 1));
          assert !RejectsAt(probes, n - 1);
          Collected(ports + [probes[n - 1].value])
      case ProbeFailed =>
        assert !ProbesSucceed(front);
        assert !RejectsAt(probes, n - 1);
        ProbeFailed
      case RequestRejected =>
        var j :| RejectsAt(front, j);
        assert RejectsAt(probes, j);
        RequestRejected
  }

  /** Rejection points below the last probe are those of the script without it. */
  lemma RejectsAtFront(probes: seq<Option<int>>)
    requires |probes| >= 1
    ensures forall i :: i < |probes| - 1 ==>
              (RejectsAt(probes, i) <==> RejectsAt(probes[..|probes| - 1], i))
  {
    var front := probes[..|probes| - 1];
    forall i | 1 <= i < |probes| - 1
      ensures RejectsAt(probes, i) <==> RejectsAt(front, i)
    {
      assert front[..i] == probes[..i];
      assert front[i - 1] == probes[i - 1];
    }
  }

  /** A script whose every probe and request succeeds has no rejection point. */
  lemma SucceededNeverRejects(probes: seq<Option<int>>)
    requires ProbesSucceed(probes)
    ensures forall i :: !RejectsAt(probes, i)
  {
    forall i | 1 <= i < |probes|
      ensures !RejectsAt(probes, i)
    {
      assert ValidPort(ProbeRequest(probes, i));
    }
  }

  /** An IOException before the out-of-range request wins: the script 5, fail,
      65535, 0 ends on the caught exception, and the request 65536 it would
      have led to is never made. */
  lemma EarlierFailureIsCaught()
    ensures ProbeLoop([Some(5), None, Some(MaxPort), Some(0)]) == ProbeFailed
  {
    var probes := [Some(5), None, Some(MaxPort), Some(0)];
    assert !ProbesSucceed(probes) by {
      assert probes[1].None?;
    }
    forall i | 1 <= i < 4
      ensures !RejectsAt(probes, i)
    {
      if i >= 2 {
        assert probes[..i][1] == None;
      }
    }
  }

  /** The candidate block of an attempt: every answer in order, or None when the
      loop stops early. A rejected request abandons the attempt like a failed
      probe does (see Findings in the README for the code as written). */
  function Candidates(probes: seq<Option<int>>): (c: Option<seq<int>>)
    ensures c.Some? <==> ProbesSucceed(probes)
    ensures c.Some? ==> |c.value| == |probes|
    ensures c.Some? ==> forall i :: 0 <= i < |probes| ==> probes[i] == Some(c.value[i])
  {
    match ProbeLoop(probes)
    case Collected(ports) => Some(ports)
    case _ => None
  }

  /** Some candidate port is already reserved: the block meets the reservation set. */
  function Collides(c: seq<int>, reserved: set<int>): (r: bool)
    ensures r <==> (set p | p in c) * reserved != {}
  {
    var hit := exists i :: 0 <= i < |c| && c[i] in reserved;
    if hit then
      var i :| 0 <= i < |c| && c[i] in reserved;
      assert c[i] in (set p | p in c) * reserved;
      hit
    else
      assert forall p :: p in c ==> p !in reserved;
      hit
  }

  /**
   One acquisition attempt: refuse on capacity, on a failed probe, on an
   out-of-range request, on a collision with a reserved port or on the
   contiguity test; otherwise reserve every candidate and hand the block back.
   */
  function TryAcquire(pool: Pool, total: int, probes: seq<Option<int>>): (r: Attempt)
    requires total >= 1
    requires |probes| == total
    ensures r.pool.limit == pool.limit
    ensures |pool.reserved| + total > pool.limit ==> r == Attempt(None, pool)
    ensures (exists i :: 0 <= i < total && probes[i].None?) ==> r == Attempt(None, pool)
    ensures (exists i :: 1 <= i < total && probes[i - 1].Some? && !ValidPort(ProbeRequest(probes, i))) ==>
              r == Attempt(None, pool)
    ensures (exists i :: 0 <= i < total && probes[i].Some? && probes[i].value in pool.reserved) ==>
              r == Attempt(None, pool)
    ensures Candidates(probes).Some? && !PassesChecksum(Candidates(probes).value) ==>
              r == Attempt(None, pool)
    ensures r.block.None? ==> r.pool == pool
    ensures r.block.Some? <==>
              && |pool.reserved| + total <= pool.limit
              && ProbesSucceed(probes)
              && (forall i :: 0 <= i < total ==> probes[i].Some? && probes[i].value !in pool.reserved)
              && PassesChecksum(Candidates(probes).value)
    ensures r.block.Some? ==>
              && |r.block.value| == total
              && (forall i :: 0 <= i < total ==> probes[i] == Some(r.block.value[i]))
              && (forall p :: p in r.pool.reserved <==> p in pool.reserved || p in r.block.value)
  {
    if |pool.reserved| + total > pool.limit then Attempt(None, pool)
    else
      match Candidates(probes)
      case None => Attempt(None, pool)
      case Some(c) =>
        if Collides(c, pool.reserved) then
          assert exists i :: 0 <= i < |c| && c[i] in pool.reserved;
          Attempt(None, pool)
        else if !PassesChecksum(c) then Attempt(None, pool)
        else
          assert forall i :: 0 <= i < |c| ==> c[i] !in pool.reserved;
          Attempt(Some(c), pool.(reserved := pool.reserved + set p | p in c))
  }

  /** The distinct ports of a block number at most its length, and exactly its
      length when the block is distinct. */
  lemma {:induction false} PortsOfBlock(c: seq<int>)
    ensures |set p | p in c| <= |c|
    ensures Distinct(c) ==> |set p | p in c| == |c|
  {
    if |c| > 0 {
      var front := c[..|c| - 1];
      var last := c[|c| - 1];
      assert c == front + [last];
      assert (set p | p in c) == (set p | p in front) + {last};
      PortsOfBlock(front);
      if Distinct(c) {
        assert Distinct(front);
        assert last !in front;
      }
    }
  }

  /** An attempt never lets the reservation set outgrow the limit, and a
      granted distinct block grows it by exactly `total` ports. */
  lemma AttemptKeepsCapacity(pool: Pool, total: int, probes: seq<Option<int>>)
    requires total >= 1
    requires |probes| == total
    requires |pool.reserved| <= pool.limit
    ensures |TryAcquire(pool, total, probes).pool.reserved| <= pool.limit
    ensures var r := TryAcquire(pool, total, probes);
            r.block.Some? && Distinct(r.block.value) ==> |r.pool.reserved| == |pool.reserved| + total
  {
    var r := TryAcquire(pool, total, probes);
    if r.block.Some? {
      var c := r.block.value;
      var added := set p | p in c;
      assert r.pool.reserved == pool.reserved + added;
      assert pool.reserved * added == {};
      PortsOfBlock(c);
    }
  }

  /** A granted block of distinct ports is contiguous: exactly min..min+total-1. */
  lemma GrantedDistinctIsRun(pool: Pool, total: int, probes: seq<Option<int>>)
    requires total >= 1
    requires |probes| == total
    ensures var r := TryAcquire(pool, total, probes);
            r.block.Some? && Distinct(r.block.value) ==> IsRunFrom(r.block.value, Min(r.block.value))
  {
    var r := TryAcquire(pool, total, probes);
    if r.block.Some? {
      assert PassesChecksum(r.block.value);
    }
  }

  /** Probes that answer what they were asked for build base, base+1, ... */
  lemma {:induction false} HonestProbesStep(probes: seq<Option<int>>, i: nat)
    requires HonestProbes(probes)
    requires i < |probes|
    requires forall j :: 0 <= j <= i ==> probes[j].Some?
    ensures probes[i].value == probes[0].value + i
  {
    if i > 0 {
      HonestProbesStep(probes, i - 1);
    }
  }

  /**
   When every probe after the first answers with the port it asked for, the
   candidates are base, base+1, ..., base+total-1: distinct, contiguous, and
   accepted by the contiguity test.
   */
  lemma HonestCandidatesAreRun(probes: seq<Option<int>>)
    requires |probes| >= 1
    requires HonestProbes(probes)
    requires Candidates(probes).Some?
    ensures var c := Candidates(probes).value;
            && (forall i :: 0 <= i < |c| ==> c[i] == c[0] + i)
            && Distinct(c)
            && IsRunFrom(c, c[0])
            && Min(c) == c[0]
            && PassesChecksum(c)
  {
    var c := Candidates(probes).value;
    forall i | 0 <= i < |c|
      ensures c[i] == c[0] + i
    {
      HonestProbesStep(probes, i);
    }
    forall x
      ensures x in c <==> c[0] <= x < c[0] + |c|
    {
      if c[0] <= x < c[0] + |c| {
        assert c[x - c[0]] == x;
      }
    }
    RunStartsAtMin(c, c[0]);
  }

  /**
   With room in the pool, every probe succeeding honestly, the run from the
   first answer inside the port range and no probed port reserved, the attempt
   grants the block base..base+total-1.
   */
  lemma HonestAttemptGrantsRun(pool: Pool, total: int, probes: seq<Option<int>>)
    requires total >= 1
    requires |probes| == total
    requires HonestProbes(probes)
    requires |pool.reserved| + total <= pool.limit
    requires forall i :: 0 <= i < total ==> probes[i].Some? && probes[i].value !in pool.reserved
    requires total > 1 ==> 0 <= probes[0].value && probes[0].value + total - 1 <= MaxPort
    ensures var r := TryAcquire(pool, total, probes);
            && r.block.Some?
            && (forall i :: 0 <= i < total ==> r.block.value[i] == probes[0].value + i)
  {
    forall i | 1 <= i < total
      ensures ValidPort(ProbeRequest(probes, i))
    {
      HonestProbesStep(probes, i - 1);
    }
    assert ProbesSucceed(probes);
    HonestCandidatesAreRun(probes);
  }

  /** As written, an answer of 65535 makes the next request 65536, which is
      rejected with an exception that escapes the loop, whatever that probe
      would have answered. */
  lemma TopPortRequestEscapes(next: Option<int>)
    ensures ProbeLoop([Some(MaxPort), next]) == RequestRejected
  {
    var probes := [Some(MaxPort), next];
    assert probes[..1] == [Some(MaxPort)];
    assert probes[..1][..0] == probes[..0];
  }

  /** Corrected, that attempt is refused like one whose probe failed: the pool
      is unchanged and the retry loop goes on. */
  lemma TopPortAttemptRefused(pool: Pool, next: Option<int>)
    ensures TryAcquire(pool, 2, [Some(MaxPort), next]) == Attempt(None, pool)
  {
    var probes := [Some(MaxPort), next];
    assert probes[0].Some? && !ValidPort(ProbeRequest(probes, 1));
  }

  /** `acquire`: retry attempts until one is granted or the clock runs out.
      The clock decides how many attempts happen; `attempts[k]` holds what the
      probes of the k-th attempt answer. */
  method Acquire(pool: Pool, total: int, attempts: seq<seq<Option<int>>>) returns (r: Acquisition)
    requires total >= 1
    requires forall k :: 0 <= k < |attempts| ==> |attempts[k]| == total
    ensures r.TimedOut? <==>
              forall k :: 0 <= k < |attempts| ==> TryAcquire(pool, total, attempts[k]).block.None?
    ensures r.TimedOut? ==> r.pool == pool
    ensures r.Acquired? ==>
              exists k :: 0 <= k < |attempts|
                && (forall j :: 0 <= j < k ==> TryAcquire(pool, total, attempts[j]).block.None?)
                && TryAcquire(pool, total, attempts[k]) == Attempt(Some(r.block), r.pool)
    ensures r.Acquired? ==> |r.block| == total && r.port == r.block[0] && r.port in r.pool.reserved
    ensures |pool.reserved| + total > pool.limit ==> r.TimedOut?
    ensures |pool.reserved| <= pool.limit ==> |r.pool.reserved| <= pool.limit
  {
    var i := 0;
    while i < |attempts|
      invariant 0 <= i <= |attempts|
      invariant forall j :: 0 <= j < i ==> TryAcquire(pool, total, attempts[j]).block.None?
    {
      var a := TryAcquire(pool, total, attempts[i]);
      if a.block.Some? {
        var c := a.block.value;
        assert |c| == total && c[0] in c;
        r := Acquired(c[0], c, a.pool);
        assert TryAcquire(pool, total, attempts[i]) == Attempt(Some(r.block), r.pool);
        if |pool.reserved| <= pool.limit {
          AttemptKeepsCapacity(pool, total, attempts[i]);
        }
        return;
      }
      assert a.block.None?;
      assert forall j :: 0 <= j < i + 1 ==> TryAcquire(pool, total, attempts[j]).block.None? by {
        forall j | 0 <= j < i + 1
          ensures TryAcquire(pool, total, attempts[j]).block.None?
        {
          if j == i {
            assert TryAcquire(pool, total, attempts[j]) == a;
          }
        }
      }
      i := i + 1;
    }
    r := TimedOut(pool);
  }

  /** `release`: forget one reservation; nothing else changes. */
  function Release(pool: Pool, port: int): (r: Pool)
    ensures r.limit == pool.limit
    ensures port !in r.reserved
    ensures forall q :: q != port ==> (q in r.reserved <==> q in pool.reserved)
    ensures port !in pool.reserved ==> r == pool
  {
    pool.(reserved := pool.reserved - {port})
  }

  /** Releasing twice is releasing once. */
  lemma ReleaseIdempotent(pool: Pool, port: int)
    ensures Release(Release(pool, port), port) == Release(pool, port)
  {
  }

  /** `count`: the number of reserved ports; releasing a reserved port lowers it by one. */
  function Count(pool: Pool): (n: nat)
    ensures n == 0 <==> pool.reserved == {}
    ensures forall p :: p in pool.reserved ==> n == |Release(pool, p).reserved| + 1
  {
    |pool.reserved|
  }

  /** `isEmpty`: no port is reserved. */
  function IsEmpty(pool: Pool): (b: bool)
    ensures b <==> Count(pool) == 0
  {
    pool.reserved == {}
  }

  /** An attempt whose candidates fit, meet no reserved port and pass the
      contiguity test grants exactly those candidates. */
  lemma GrantedBlock(pool: Pool, total: int, probes: seq<Option<int>>, c: seq<int>)
    requires total >= 1 && |probes| == total
    requires |pool.reserved| + total <= pool.limit
    requires Candidates(probes) == Some(c)
    requires !Collides(c, pool.reserved) && PassesChecksum(c)
    ensures TryAcquire(pool, total, probes) == Attempt(Some(c), pool.(reserved := pool.reserved + set p | p in c))
  {
  }

  /** The ports of a three-port block. */
  lemma ThreePorts(a: int, b: int, c: int)
    ensures (set p | p in [a, b, c]) == {a, b, c}
  {
    var s := [a, b, c];
    forall q
      ensures q in s <==> q in {a, b, c}
    {
      assert q in s <==> q == s[0] || q == s[1] || q == s[2];
    }
  }

  /** Honest probes from `base` yield the candidates base, base+1, base+2,
      which pass the contiguity test. */
  lemma ThreeBlockCandidates(base: int)
    requires 0 <= base && base + 2 <= MaxPort
    ensures var c := [base, base + 1, base + 2];
            Candidates([Some(base), Some(base + 1), Some(base + 2)]) == Some(c) && PassesChecksum(c)
  {
    var probes := [Some(base), Some(base + 1), Some(base + 2)];
    assert ProbeRequest(probes, 1) == base + 1 && ProbeRequest(probes, 2) == base + 2;
    assert ProbesSucceed(probes);
    assert HonestProbes(probes);
    HonestCandidatesAreRun(probes);
    var d := Candidates(probes).value;
    assert probes[0] == Some(d[0]) && probes[1] == Some(d[1]) && probes[2] == Some(d[2]);
    assert d == [base, base + 1, base + 2];
  }

  /** The limit=10 scenario, first step: with honest probes from `base`, the
      attempt grants [base, base+1, base+2] and reserves exactly those ports. */
  lemma ThreeBlockGranted(base: int)
    requires 0 <= base && base + 2 <= MaxPort
    ensures TryAcquire(Pool({}, 10), 3, [Some(base), Some(base + 1), Some(base + 2)])
            == Attempt(Some([base, base + 1, base + 2]), Pool({base, base + 1, base + 2}, 10))
  {
    ThreeBlockCandidates(base);
    GrantedBlock(Pool({}, 10), 3, [Some(base), Some(base + 1), Some(base + 2)], [base, base + 1, base + 2]);
    ThreePorts(base, base + 1, base + 2);
  }

  /** The pool after the limit=10 scenario's first step holds three ports;
      releasing the first leaves two. */
  lemma ThreeBlockCounts(base: int)
    ensures var granted := Pool({base, base + 1, base + 2}, 10);
            Count(granted) == 3 && Count(Release(granted, base)) == 2
  {
    assert Release(Pool({base, base + 1, base + 2}, 10), base).reserved == {base + 1, base + 2};
  }

  /** The limit=10 scenario: `acquire(3, …)` with honest probes from `base`
      answers `base` and holds three ports; releasing the first leaves two. */
  method ThreeBlockDemo(base: int) returns (port: int, held: nat, afterRelease: nat)
    requires 0 <= base && base + 2 <= MaxPort
    ensures port == base && held == 3 && afterRelease == 2
  {
    var probes := [Some(base), Some(base + 1), Some(base + 2)];
    var r := Acquire(Pool({}, 10), 3, [probes]);
    var granted := Pool({base, base + 1, base + 2}, 10);
    assert r == Acquired(base, [base, base + 1, base + 2], granted) by {
      ThreeBlockGranted(base);
      assert [probes][0] == probes;
    }
    port := r.port;
    held := Count(r.pool);
    afterRelease := Count(Release(r.pool, port));
    ThreeBlockCounts(base);
  }

  /** A single attempt for one port succeeds on the shared pool of 65536
      whatever the operating system answers: the only request is 0. */
  lemma SingletonGranted(port: int)
    ensures TryAcquire(Pool({}, 65536), 1, [Some(port)]) == Attempt(Some([port]), Pool({port}, 65536))
  {
    var probes := [Some(port)];
    HonestAttemptGrantsRun(Pool({}, 65536), 1, probes);
    var r := TryAcquire(Pool({}, 65536), 1, probes);
    assert r.block.value == [port];
    assert r.pool.reserved == {port} by {
      forall q
        ensures q in r.pool.reserved <==> q == port
      {
        assert q in r.block.value <==> q == port;
      }
    }
  }

  /** The demo: `acquire(1, 4)` on the shared pool hands back the port the
      operating system chose, and releasing it leaves the pool empty again. */
  method SingletonDemo(port: int) returns (acquired: int, emptyAfter: bool)
    ensures acquired == port && emptyAfter
  {
    var probes := [Some(port)];
    var r := Acquire(Pool({}, 65536), 1, [probes]);
    SingletonGranted(port);
    assert [probes][0] == probes;
    assert r.pool == Pool({port}, 65536);
    acquired := r.port;
    var pool := Release(r.pool, acquired);
    emptyAfter := IsEmpty(pool);
  }

  /** An oracle that repeats a port defeats the contiguity test: the block
      [1, 1, 4] is granted, and only two ports get reserved. */
  lemma DuplicateProbesGranted()
    ensures var r := TryAcquire(Pool({}, 10), 3, [Some(1), Some(1), Some(4)]);
            && r.block == Some([1, 1, 4])
            && r.pool.reserved == {1, 4}
  {
    DuplicateCandidates();
    DuplicatesFoolChecksum();
    GrantedBlock(Pool({}, 10), 3, [Some(1), Some(1), Some(4)], [1, 1, 4]);
    ThreePorts(1, 1, 4);
  }

  /** The probes 1, 1, 4 are all collected: the requests 0, 2, 2 are valid ports. */
  lemma DuplicateCandidates()
    ensures Candidates([Some(1), Some(1), Some(4)]) == Some([1, 1, 4])
  {
    var probes := [Some(1), Some(1), Some(4)];
    assert ProbeRequest(probes, 1) == 2 && ProbeRequest(probes, 2) == 2;
    assert ProbesSucceed(probes);
    var d := Candidates(probes).value;
    assert probes[0] == Some(d[0]) && probes[1] == Some(d[1]) && probes[2] == Some(d[2]);
    assert d == [1, 1, 4];
  }
}
