# Port allocators, modelled in Dafny

This project models the two in-memory TCP port allocators of the repository.

- **Pool allocator** (`TCPPortAllocator2`). It keeps a reservation set bounded by a `limit`. `acquire(total, timeout)` retries attempts until the clock runs out. One attempt asks the operating system for one free port. It then asks for each following port number in turn. The attempt refuses the block on capacity, on a failed probe, on a collision with a reserved port, or when the arithmetic contiguity test `sum - total*min == total*(total-1)/2` fails. Otherwise it reserves the whole block and `acquire` returns its first port. A request past port 65535 makes the Java code throw out of `acquire`. The model instead refuses such an attempt and retries (see Findings). `release`, `count` and `isEmpty` work on the set.
- **Range allocator** (`TCPPortAllocator`). `allocatePort` hands out the lowest free port of `[startPort, endPort]` and throws `NoAvailablePortsException` when none is free. `releasePort` takes a port back.

Both are modelled as pure state transitions over `set<int>`. The operating system is an oracle. `probes[i]` is the answer to the i-th `take` call of an attempt, and `None` stands for an `IOException`. `ProbeRequest` records the port each call asks for: 0 first, then one past the previous answer. `HonestProbes` says every later probe that succeeds returns the port it asked for. Binding a specific port in 1..65535 does exactly that. Asking for 65536 is not a probe at all: `new ServerSocket` refuses it with an `IllegalArgumentException` (see Findings). The retry loop receives one probe script per attempt that the clock allows.

Files:
- `wrappers.dfy`: the `Option` datatype.
- `checksum.dfy`: sum, minimum, distinctness and runs, plus the exactness proof of the contiguity test.
- `java_checksum.dfy`: the same test with Java's 32-bit `int` arithmetic (see Findings).
- `pool_allocator.dfy`: the pool allocator.
- `range_allocator.dfy`: the range allocator.

Three behaviours of the code that the model keeps as written:
- `acquire` returns `opts[0]`, the first probed port, not "the smallest". With honest probes the two are the same port (`HonestCandidatesAreRun`).
- A request that can never fit (`total > limit`) is not refused up front. It spins until the timeout (`Acquire` ensures `TimedOut`).
- The code never checks that the probed ports are distinct. The contiguity test alone lets `[1, 1, 4]` through. Distinct, contiguous blocks are guaranteed only for honest probes.

## Model

| member | source | states |
|---|---|---|
| `PoolAllocator.TryAcquire` | src/TCPPortAllocator2.java:34-66 | Refuses, leaving the pool unchanged, when size+total exceeds the limit, when any probe fails, when a request would be past port 65535 (the correction; see Findings), when a probed port is already reserved, or when the contiguity test fails. It grants exactly when none of these holds. A granted block is the probe answers in order, and the new reservation set is the old set plus the block and nothing else. The limit never changes. |
| `PoolAllocator.ProbeLoop` | src/TCPPortAllocator2.java:38-45 | The probing loop as written ends in one of three ways, decided by its first failure. It collects every answer, in call order, iff every probe succeeds and every request is a valid port. It ends with the escaping `IllegalArgumentException` iff, for some i, the first i probes succeed and request i lies outside 0..65535. Otherwise it ends on the caught `IOException`. |
| `PoolAllocator.EarlierFailureIsCaught` | src/TCPPortAllocator2.java:40-44 | For the script 5, fail, 65535, 0, the loop ends on the caught `IOException`: the out-of-range request that 65535 would lead to is never made. |
| `PoolAllocator.Candidates` | src/TCPPortAllocator2.java:38-45 | The corrected probing loop yields a block iff every probe succeeds and every request is a valid port. The block holds the answers in call order. |
| `PoolAllocator.Collides` | src/TCPPortAllocator2.java:46-50 | Holds iff the block shares at least one port with the reservation set. |
| `PoolAllocator.TopPortRequestEscapes` | src/TCPPortAllocator2.java:41-45 | As written, a first answer of 65535 in a two-port attempt makes the next request 65536. The loop then ends with the escaping exception, whatever that probe would answer. |
| `PoolAllocator.TopPortAttemptRefused` | src/TCPPortAllocator2.java:41-45 | Corrected, the same attempt is refused and the pool is left unchanged, so `acquire` retries. |
| `PoolAllocator.AttemptKeepsCapacity` | src/TCPPortAllocator2.java:35-65 | If the reservation set is within the limit before an attempt, it is within the limit after it. A granted distinct block grows the set by exactly `total`. |
| `PoolAllocator.GrantedDistinctIsRun` | src/TCPPortAllocator2.java:51-65 | A granted block of distinct ports is exactly min, min+1, …, min+total-1. |
| `PoolAllocator.HonestCandidatesAreRun` | src/TCPPortAllocator2.java:40-42 | Suppose every probe after the first returns the port it asked for (previous + 1). Then the candidates are base, base+1, …, base+total-1. They are distinct and contiguous, their minimum is the first one, and they pass the contiguity test. |
| `PoolAllocator.HonestAttemptGrantsRun` | src/TCPPortAllocator2.java:34-66 | Assume room in the pool, honest successful probes, no reserved port among them, and a run base..base+total-1 that stays within the port range. Then the attempt grants that run. |
| `PoolAllocator.DuplicateProbesGranted` | src/TCPPortAllocator2.java:38-65 | An oracle answering 1, 1, 4 gets the non-contiguous block [1, 1, 4] granted. Only the two ports {1, 4} are reserved. |
| `PoolAllocator.Acquire` | src/TCPPortAllocator2.java:28-71 | Times out iff every allowed attempt is refused, and a timeout leaves the pool unchanged. Otherwise the result is the first granted attempt, with all earlier attempts refused. The returned port is the block's first element and is reserved. When size+total exceeds the limit, the result is always a timeout. A pool within its limit stays within it. |
| `PoolAllocator.Release` | src/TCPPortAllocator2.java:73-75 | Removes the port and nothing else. Releasing an absent port is a no-op. |
| `PoolAllocator.ReleaseIdempotent` | src/TCPPortAllocator2.java:73-75 | Releasing the same port twice has the effect of releasing it once. |
| `PoolAllocator.Count` | src/TCPPortAllocator2.java:20-22 | Is zero iff nothing is reserved. It drops by exactly one when a reserved port is released. |
| `PoolAllocator.IsEmpty` | src/TCPPortAllocator2.java:24-26 | Holds iff `count()` is zero. |
| `PoolAllocator.ThreeBlockGranted` | src/TCPPortAllocator2.java:34-66 | With limit 10, one attempt with honest probes from `base` grants [base, base+1, base+2] and reserves exactly those three ports. |
| `PoolAllocator.ThreeBlockDemo` | src/TCPPortAllocator2.java:28-75 | With limit 10, `acquire(3, …)` with honest probes from `base` returns `base` and holds three ports. Releasing `base` leaves two. |
| `PoolAllocator.SingletonGranted` | src/TCPPortAllocator2.java:34-66 | On the shared pool (limit 65536), a one-port attempt is granted whatever port the operating system answers, and only that port is reserved. |
| `PoolAllocator.SingletonDemo` | src/TCPPortAllocator2.java:108-118 | The demo's `acquire(1, 4)` on the shared pool returns the port the operating system chose. After `release` of that port the pool is empty. |
| `Checksum.Sum` | src/TCPPortAllocator2.java:51-54 | The sum of the block's ports is non-negative when every port is. |
| `Checksum.SumConcat` | src/TCPPortAllocator2.java:51-54 | The sum of two blocks laid end to end is the sum of their sums, so the running sum does not depend on how the block is split. |
| `Checksum.Min` | src/TCPPortAllocator2.java:52-58 | The running minimum is an element of the block and is at most every element. |
| `Checksum.RunLowerBound` | src/TCPPortAllocator2.java:51-59 | For distinct ports that are all at least b, the sum is at least total·b + total(total-1)/2. It equals that value iff the ports are exactly b..b+total-1. |
| `Checksum.PassesChecksum` | src/TCPPortAllocator2.java:59 | For distinct ports, the test passes iff the ports are exactly min..min+total-1. |
| `Checksum.RunStartsAtMin` | src/TCPPortAllocator2.java:52-59 | A run can only start at the block's minimum, so the minimum is the only base worth testing. |
| `Checksum.RunSum` | src/TCPPortAllocator2.java:53-59 | A distinct run from b sums to total·b + total(total-1)/2, the value the test expects. |
| `Checksum.DuplicatesFoolChecksum` | src/TCPPortAllocator2.java:51-61 | [1, 1, 4] passes the test, yet it is neither distinct nor a run from its minimum. |
| `JavaChecksum.Wrap` | src/TCPPortAllocator2.java:51-59 | A Java `int` result lies in [-2^31, 2^31-1], agrees with the true value modulo 2^32, and equals it when that value is in range. |
| `JavaChecksum.Half` | src/TCPPortAllocator2.java:59 | Java's `/ 2` rounds toward zero for both signs. |
| `JavaChecksum.SumInt` | src/TCPPortAllocator2.java:51-58 | The running `int` sum lies in the 32-bit range and agrees with the true sum modulo 2^32. |
| `JavaChecksum.PassesChecksumInt` | src/TCPPortAllocator2.java:59 | The 32-bit test passes iff the wrapped value of sum - total·min equals half, rounded toward zero, of the wrapped total·(total-1). |
| `JavaChecksum.Int32ChecksumAgrees` | src/TCPPortAllocator2.java:51-61 | For 1..46341 ports in 0..65535, the test in 32-bit arithmetic accepts exactly what the mathematical test accepts. |
| `JavaChecksum.Int32ChecksumRejectsRun` | src/TCPPortAllocator2.java:59 | The ports 1..46342 are distinct and contiguous and pass the mathematical test. The 32-bit test rejects them. |
| `RangeAllocator.NewAllocator` | src/TCPPortAllocator.java:9-13 | A fresh allocator keeps its bounds and holds no port inside or outside the range. It is exhausted iff the range is empty. Otherwise its first allocation is `startPort`. |
| `RangeAllocator.AllocatePort` | src/TCPPortAllocator.java:15-23 | Throws iff every port of [startPort, endPort] is allocated (including an empty range), and then leaves the allocator unchanged. Otherwise it returns the lowest free port of the range and adds exactly that port. Allocated ports stay inside the range. |
| `RangeAllocator.LowestFreeUnique` | src/TCPPortAllocator.java:16-20 | At most one port is the lowest free port of the range, so `allocatePort`'s answer is determined. |
| `RangeAllocator.ReleasePort` | src/TCPPortAllocator.java:25-27 | Removes the port and nothing else. Releasing an absent port is a no-op. Allocated ports stay inside the range. |
| `RangeAllocator.ReleasePortIdempotent` | src/TCPPortAllocator.java:25-27 | Releasing the same port twice has the effect of releasing it once. |
| `RangeAllocator.Demo` | src/TCPPortAllocator.java:29-47 | On 10000..10010, the allocator answers 10000, then 10001, and after 10000 is released it answers 10000 again. |

## Left out

- Probing the operating system (`take`, src/TCPPortAllocator2.java:77-85) is OS input/output. It is an oracle of answers, and the model makes no claim about which ports the OS hands out. The requests the loop makes are modelled. `PoolAllocator.ProbeLoop` keeps the out-of-range request as an escaping outcome (see Findings).
- The wall-clock deadline (src/TCPPortAllocator2.java:29-33) depends on `System.currentTimeMillis()`. The clock only decides how many attempts run, so `Acquire` takes the attempts as a sequence. Whether `timeout == 0` allows one attempt is a question of timing and is not pinned down. The timeout message, with its floating-point elapsed time, is not modelled.
- Locking (`sync`, `safe`, the `synchronized` methods) exists only for concurrency. The model is sequential.
- `SINGLETON` appears only through its limit 65536 in `PoolAllocator.SingletonDemo`. Console output in both `main` methods and the exception messages are not modelled.
- PoolAllocator.TryAcquire: requires `total >= 1`. For `total == 0`, `opts[0]` throws `ArrayIndexOutOfBoundsException`. A negative `total` makes the array allocation throw. Neither case is modelled.
- PoolAllocator.TryAcquire: `ports.size() + total` and `result[i - 1] + 1` use unbounded integers. Java `int` overflow there needs totals near 2^31 or a port at 2^31-1, which ports never reach. The contiguity test's own overflow is modelled separately in `java_checksum.dfy`.
- PoolAllocator.Acquire: is built on the corrected attempt. Where the Java `acquire` throws `IllegalArgumentException` after a probe answers 65535 (see Findings), the model refuses that attempt and retries. It times out if no later attempt is granted. The as-written escape is stated only for the probing loop, by `PoolAllocator.ProbeLoop`.
- PoolAllocator.Acquire: requires every attempt's probe script to have exactly `total` answers. This is an artefact of the oracle, not a demand of the Java code.
- RangeAllocator.AllocatePort: `port++` with `endPort == Integer.MAX_VALUE` would wrap in Java. Ports are unbounded integers here.

## Findings

| source | as written | input that shows it | evidently intended | confidence | as-written member | corrected member |
|---|---|---|---|---|---|---|
| src/TCPPortAllocator2.java:59 | `total * (total - 1) / 2` is computed in 32-bit `int`, and the product wraps once `total >= 46342` | `acquire(46342, t)` on the shared pool (limit 65536), with the probes answering 1, 2, …, 46342: the block is contiguous, but the right-hand side wraps to -1073716337 while `sum - total*min` is 1073767311, so every attempt is refused | compare against the true value total(total-1)/2, e.g. in `long` arithmetic | not executed; it needs the OS to hand out a first port at or below 19194, outside the usual ephemeral range | `JavaChecksum.PassesChecksumInt`, shown by `JavaChecksum.Int32ChecksumRejectsRun` | `Checksum.PassesChecksum` (used by `PoolAllocator.TryAcquire`), whose contract proves it exact for distinct ports |
| src/TCPPortAllocator2.java:41-45 | after an answer of 65535, `take(result[i - 1] + 1)` asks for port 65536; `new ServerSocket(65536)` throws `IllegalArgumentException`, which the `catch (IOException)` does not catch, so it escapes `acquire` | `acquire(2, t)` when the operating system's first answer is 65535 | treat the attempt as failed and retry, as for any other port that cannot be had | not executed; the first answer comes from the ephemeral range, which ends at 65535 on common systems (49152–65535 on Windows) | `PoolAllocator.ProbeLoop`, shown by `PoolAllocator.TopPortRequestEscapes` | `PoolAllocator.Candidates` and `PoolAllocator.TryAcquire`, shown by `PoolAllocator.TopPortAttemptRefused`; `PoolAllocator.Acquire` retries over the corrected attempt |
