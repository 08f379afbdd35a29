/**
 The lowest-free range allocator (TCPPortAllocator): hands out the smallest
 port of [startPort, endPort] that is not allocated yet, and takes ports back.
 */
module RangeAllocator {

  /** The allocator's state: its inclusive range and the ports handed out. */
  datatype Allocator = Allocator(startPort: int, endPort: int, allocatedPorts: set<int>)

  /** What `allocatePort` answers: a port, or NoAvailablePortsException. */
  datatype Allocation = Allocated(port: int) | NoAvailablePorts

  /** A fresh allocator over [startPort, endPort]: nothing handed out, so it is
      exhausted only when the range is empty, and otherwise its first
      allocation is startPort. */
  function NewAllocator(startPort: int, endPort: int): (r: Allocator)
    ensures r.startPort == startPort && r.endPort == endPort
    ensures r.allocatedPorts == {}
    ensures WithinRange(r)
    ensures Exhausted(r) <==> startPort > endPort
    ensures startPort <= endPort ==> IsLowestFree(r, startPort)
  {
    var r := Allocator(startPort, endPort, {});
    assert startPort <= endPort ==> startPort !in r.allocatedPorts;
    r
  }

  /** Every allocated port lies in the allocator's range. */
  ghost predicate WithinRange(a: Allocator)
  {
    forall p :: p in a.allocatedPorts ==> a.startPort <= p <= a.endPort
  }

  /** Every port of the range is allocated (vacuously so when startPort > endPort). */
  ghost predicate Exhausted(a: Allocator)
  {
    forall q :: a.startPort <= q <= a.endPort ==> q in a.allocatedPorts
  }

  /** p is the smallest port of the range that is not allocated. */
  ghost predicate IsLowestFree(a: Allocator, p: int)
  {
    && a.startPort <= p <= a.endPort
    && p !in a.allocatedPorts
    && forall q :: a.startPort <= q < p ==> q in a.allocatedPorts
  }

  /** At most one port is the lowest free one, so the scan's answer is determined. */
  lemma LowestFreeUnique(a: Allocator, p: int, p': int)
    requires IsLowestFree(a, p) && IsLowestFree(a, p')
    ensures p == p'
  {
  }

  /**
   `allocatePort`: scan the range upwards and take the first free port; fail,
   leaving the allocator as it was, when every port is taken.
   */
  method AllocatePort(a: Allocator) returns (r: Allocation, next: Allocator)
    ensures r.NoAvailablePorts? <==> Exhausted(a)
    ensures r.NoAvailablePorts? ==> next == a
    ensures r.Allocated? ==> IsLowestFree(a, r.port) && r.port in next.allocatedPorts
    ensures r.Allocated? ==> next.startPort == a.startPort && next.endPort == a.endPort
    ensures r.Allocated? ==> forall q :: q in next.allocatedPorts <==> q in a.allocatedPorts || q == r.port
    ensures WithinRange(a) ==> WithinRange(next)
  {
    var port := a.startPort;
    while port <= a.endPort
      invariant a.startPort <= port
      invariant a.startPort <= a.endPort ==> port <= a.endPort + 1
      invariant forall q :: a.startPort <= q < port ==> q in a.allocatedPorts
      decreases a.endPort - port
    {
      if port !in a.allocatedPorts {
        r := Allocated(port);
        next := a.(allocatedPorts := a.allocatedPorts + {port});
        return;
      }
      port := port + 1;
    }
    r := NoAvailablePorts;
    next := a;
  }

  /** `releasePort`: forget one port; nothing else changes. */
  function ReleasePort(a: Allocator, port: int): (r: Allocator)
    ensures r.startPort == a.startPort && r.endPort == a.endPort
    ensures port !in r.allocatedPorts
    ensures forall q :: q != port ==> (q in r.allocatedPorts <==> q in a.allocatedPorts)
    ensures port !in a.allocatedPorts ==> r == a
    ensures WithinRange(a) ==> WithinRange(r)
  {
    a.(allocatedPorts := a.allocatedPorts - {port})
  }

  /** Releasing twice is releasing once. */
  lemma ReleasePortIdempotent(a: Allocator, port: int)
    ensures ReleasePort(ReleasePort(a, port), port) == ReleasePort(a, port)
  {
  }

  /** The demo over 10000..10010: allocate, allocate, release the first, allocate. */
  method Demo() returns (port1: int, port2: int, port3: int)
    ensures port1 == 10000 && port2 == 10001 && port3 == 10000
  {
    var a := NewAllocator(10000, 10010);
    var r1, a1 := AllocatePort(a);
    assert 10000 !in a.allocatedPorts;
    port1 := r1.port;
    var r2, a2 := AllocatePort(a1);
    assert 10001 !in a1.allocatedPorts;
    port2 := r2.port;
    var a3 := ReleasePort(a2, port1);
    var r3, a4 := AllocatePort(a3);
    assert 10000 !in a3.allocatedPorts;
    port3 := r3.port;
  }
}
