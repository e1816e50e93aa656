# Verification of OptiNet's proxies, pools, caches and statistics

This project models six parts of the OptiNet repository in Dafny and proves what they
guarantee, and where the guarantees end.

- `UdpSessions`, `UdpTheorems`, `UdpServer`: the UDP proxy's session table. Packet handlers,
  relay goroutines, teardown by key and the cleanup sweep interleave at single atomic
  actions: one lock section, one socket call, one atomic counter update. A run is any
  sequence of enabled actions. `UdpServer` holds the mutable state itself, with session
  records that handlers and relays share by pointer, and proves each lock section equal to
  the function that the transition system uses.
- `WorkerPool`, `PoolTheorems`, `PoolSchedule`, `PoolObject`: the worker pool in the same
  style, with submitters, workers and any number of callers of `Stop`. `PoolObject` has the
  bodies of the worker loop, `Submit` and `Stop` over the pool's own fields; a schedule says
  what the other goroutines do between their actions, and `PoolSchedule` what a body does
  under a given schedule.
- `Socks5Spec`, `Socks5Delivery`, `Socks5Server`: the SOCKS5 handshake of RFC 1928
  (sections 3 to 5). The specification parses the whole client stream; the methods read it
  through a connection that delivers it in the chunks of an arbitrary schedule, through the
  reused 256-byte buffer, and through the peek-and-replay and buffered readers.
  `Socks5Delivery` follows how far ahead of the parser those readers get.
- `LatencyStats`, `LatencyTester`, `BenchmarkSuite`: latency statistics over exact reals,
  the counters that one target's pings share, the ranking, and the suite's aggregates.
- `GoSlice`, `Subscribers`, `Monitor`: sliding windows as Go slices over shared arrays,
  lossy subscriber channels, and the monitor on top of them.
- `DnsCache`: the TTL cache with bulk eviction, against a log of stores and flushes.
- `ProxyStats`: the throughput windows of the proxy's statistics. `Options` is shared.

What the proofs show about the code that its documentation does not say:

- A relay's or handler's teardown closes a successor session when its own is gone: any
  goroutine of the same client can end a session. With an identity check only its own
  goroutines, an insert for its client or a sweep that finds it stale could. Two handlers
  that race on one client's first packet leave one connection open and unmapped, and no
  path of this code closes it. A run leaves such a connection exactly when some insert in
  it finds its key mapped.
- A second `Stop` returns at once while jobs still run; that nothing runs any more is
  certain exactly when every worker has exited. Two calls that overlap always end in a
  second close of `quit`. A job that a late `Submit` gets into the channel never runs, and
  one accepted before `Stop` was called may be left behind in it too. Jobs leave the
  channel in order, but start in order on every run only in a pool of one worker.
- The SOCKS5 handler behind the protocol sniffer reads the replayed version byte as the
  method count. It agrees with the standalone handler on complete messages only for four
  offered methods, and on cut or unsupported requests under the conditions of
  `HandlersAgreeIff`: it dials zero-filled addresses when the request is cut short, and
  with an unknown address type. Once a dial has connected, the relay misses the bytes that
  the buffered reader has read ahead; a stream is safe under every delivery exactly when
  the dial does not connect or nothing follows the request in it.
- Latency jitter is computed on sorted samples, so it depends only on the extremes and the
  count. Before truncation it is the jitter of consecutive samples only if those never fell
  or never rose, and less otherwise.
- The DNS cache's comment speaks of clearing the oldest entries; the code deletes in map
  order. From a limit of four on, an older entry may outlive a newer one.

## Model

| member | source | states |
|---|---|---|
| UdpSessions.StepKeepsInv | internal/udpproxy/udpproxy.go:118-242 | every atomic action of every interleaving keeps the session-table invariant, with and without the identity check |
| UdpSessions.RunKeepsInv | internal/udpproxy/udpproxy.go:118-242 | so does every run |
| UdpTheorems.SessionTableSafety | internal/udpproxy/udpproxy.go:126-141 | mapped sessions are open and under their own client's address, no connection is closed twice, no datagram crosses between clients |
| UdpTheorems.MappedSessionHasOneReader | internal/udpproxy/udpproxy.go:178-212 | each mapped session has exactly one live relay, or its creating handler on the way to start it, even under racing inserts |
| UdpTheorems.SessionsConserved | internal/udpproxy/udpproxy.go:178-181 | the Sessions counter is mapped plus removed plus overwritten, and the overwritten ones are exactly the open connections that are unmapped and past their insert |
| UdpTheorems.OverwrittenLeaksForever | internal/udpproxy/udpproxy.go:214-221 | no path of this code closes an overwritten connection, in any continuation of any run |
| UdpTheorems.SerialRunsLeakNothing | internal/udpproxy/udpproxy.go:126-181 | if no two handlers of one client are between lookup and insert, nothing is overwritten and every open connection is mapped or in flight |
| UdpTheorems.RunLeaksNothingIff | internal/udpproxy/udpproxy.go:126-181 | a run leaves every open connection mapped or in flight iff every insert in it finds its key unmapped |
| UdpTheorems.OverwriteHappens | internal/udpproxy/udpproxy.go:126-181 | a two-handler run that overwrites a session |
| UdpTheorems.SweepDeletesExactlyTheStale | internal/udpproxy/udpproxy.go:231-239 | a sweep deletes a session iff its LastUsed is older than the TTL, whatever the map order |
| UdpTheorems.LastUsedIsLastUse | internal/udpproxy/udpproxy.go:139-211 | on every run LastUsed is the time of the session's last insert, packet or reply |
| UdpTheorems.SweepDeletesExactlyTheIdle | internal/udpproxy/udpproxy.go:231-239 | after any run a sweep deletes a session iff its last use in that run is more than two minutes ago |
| UdpTheorems.PacketOnSession | internal/udpproxy/udpproxy.go:126-141 | a packet of a client with a session goes out on it with its size, is counted, and refreshes it |
| UdpTheorems.ReplyRelayed | internal/udpproxy/udpproxy.go:196-210 | a reply goes back to the session's client with its size, is counted, and refreshes the session |
| UdpTheorems.RelayEndsOnError | internal/udpproxy/udpproxy.go:198-207 | after a failed read or write a relay can only tear down and is gone |
| UdpTheorems.StaleTeardownIff | internal/udpproxy/udpproxy.go:196-207 | a relay's teardown closes another session iff its own has departed and that session sits under the key |
| UdpTheorems.StaleHandlerTeardownIff | internal/udpproxy/udpproxy.go:131-136 | the same for a handler whose write failed |
| UdpTheorems.StaleTeardownHappens | internal/udpproxy/udpproxy.go:189-239 | the run sweep, new packet, old relay's error closes the successor, which nothing of its own or of its client had ended |
| UdpTheorems.StaleHandlerTeardownHappens | internal/udpproxy/udpproxy.go:126-239 | the run lookup, sweep, new session, failed write closes the new session |
| UdpTheorems.SessionSurvivesIff | internal/udpproxy/udpproxy.go:178-239 | a session is still mapped after a run iff no step of it was a teardown by a goroutine of its client, an insert under its key or a sweep more than two minutes after its last use; with an identity check the teardown must be by its own goroutine |
| UdpTheorems.CountersConserved | internal/udpproxy/udpproxy.go:137-138 | on every run each traffic counter plus what goroutines still owe it equals the datagrams and bytes transferred |
| UdpServer.Server.Insert | internal/udpproxy/udpproxy.go:178-181 | the insert section equals the model's insert |
| UdpServer.Server.Teardown | internal/udpproxy/udpproxy.go:214-221 | closing by key equals the model's unguarded teardown |
| UdpServer.Server.TouchRecord | internal/udpproxy/udpproxy.go:210-210 | LastUsed written through a shared session pointer is seen through the map |
| UdpServer.Server.CleanupSweep | internal/udpproxy/udpproxy.go:231-239 | the sweep loop, in arbitrary map order, equals the model's sweep over some order of all keys |
| WorkerPool.StepKeepsInv | internal/workerpool/workerpool.go:41-81 | every step keeps order, conservation and the active count |
| PoolTheorems.JobsConserved | internal/workerpool/workerpool.go:41-67 | jobs leave the channel in entry order, the queue stays within 1000, every submitted job is blocked, dropped, queued, in one worker's hands or finished, and active counts the workers inside a job |
| PoolTheorems.StartsInOrderIff | internal/workerpool/workerpool.go:41-56 | on every run jobs start in the order in which they left the channel iff the pool has one worker |
| PoolTheorems.SecondMayFinishFirst | internal/workerpool/workerpool.go:41-56 | with two workers, a run in which the second job has finished before the first has begun |
| PoolTheorems.RunLengthBounded | internal/workerpool/workerpool.go:41-81 | the pool's own steps are bounded by the work present plus five for each call, on every run |
| PoolTheorems.StuckIffSettled | internal/workerpool/workerpool.go:41-81 | a reachable pool cannot step exactly when nothing is left to do |
| PoolTheorems.ShutdownCompletes | internal/workerpool/workerpool.go:75-81 | once quit is closed, runs are bounded by the work and the calls made, and end only with all workers exited, active zero and no caller waiting |
| PoolTheorems.AfterStopNothingRuns | internal/workerpool/workerpool.go:75-81 | after a Stop that waited, no job runs or ever starts, queued or submitted later |
| PoolTheorems.NothingRunsIffAllExited | internal/workerpool/workerpool.go:41-67 | in no continuation is a job running iff every worker has exited |
| PoolTheorems.StopKeepsPromiseIff | internal/workerpool/workerpool.go:75-81 | a Stop that waited returns with that promise kept; one that returns at once keeps it iff the workers are already gone |
| PoolTheorems.QueueMayStartIff | internal/workerpool/workerpool.go:41-56 | some continuation starts all queued jobs iff a worker is left |
| PoolTheorems.EarlyJobMayBeLeftBehind | internal/workerpool/workerpool.go:41-81 | a job accepted before Stop was called is still queued when the waiting Stop has returned, and never runs |
| PoolTheorems.LateJobIsAcceptedAndNeverRuns | internal/workerpool/workerpool.go:59-81 | a reachable state in which a job submitted after Stop sits in the channel, and no continuation takes it |
| PoolTheorems.SerialStopsDoNotPanic | internal/workerpool/workerpool.go:75-81 | Stop calls that do not overlap between reading started and closing quit close it once |
| PoolTheorems.DoomedIffOverlap | internal/workerpool/workerpool.go:75-81 | a run ends panicked or bound to panic iff two Stop calls overlapped there |
| PoolTheorems.PanicsIffOverlap | internal/workerpool/workerpool.go:75-81 | when no caller is left on the way to closing quit, the pool has panicked iff two calls overlapped |
| PoolTheorems.OverlapEndsInPanic | internal/workerpool/workerpool.go:75-81 | a pool that cannot go on after an overlap has panicked |
| PoolTheorems.RacingStopsPanic | internal/workerpool/workerpool.go:75-81 | two overlapping Stop calls close quit twice |
| PoolTheorems.SecondStopReturnsEarly | internal/workerpool/workerpool.go:75-81 | a second Stop returns while a job is running |
| PoolObject.Pool.New | internal/workerpool/workerpool.go:22-39 | the constructor's loop starts the given number of workers, four when it is not positive |
| PoolObject.NoneAliveIffAllExited | internal/workerpool/workerpool.go:32-42 | the wait group is zero iff every worker has exited |
| PoolTheorems.ReachableSize | internal/workerpool/workerpool.go:22-36 | the pool has the given number of workers, four when it is not positive |
| PoolObject.Pool.Worker | internal/workerpool/workerpool.go:41-56 | the worker loop does, turn by turn, what its schedule works out: one job, the head of the queue it sees, for every look that sees one and does not pick quit; left alone with quit open it runs the first jobs, one a turn |
| PoolObject.Pool.Submit | internal/workerpool/workerpool.go:59-67 | Submit sends, gives up or stays blocked as its looks find the channel and quit; blocked only with a thousand waiting and quit open |
| PoolObject.Pool.Stop | internal/workerpool/workerpool.go:75-81 | Stop, whatever the others do in between: after the wait nothing ever runs, at once only if the workers are gone, still waiting only while a worker is left, or the second close panics |
| PoolSchedule.AloneWorkerRuns | internal/workerpool/workerpool.go:41-56 | a worker left alone runs one queued job a turn, from the front, and the rest stays queued |
| PoolSchedule.AloneWorkerLeaves | internal/workerpool/workerpool.go:53-54 | with quit closed it returns when it picks quit or sees no job |
| PoolSchedule.AloneSubmit | internal/workerpool/workerpool.go:59-67 | left alone Submit puts its job at the end of the channel unless a thousand wait there |
| PoolSchedule.AloneStop | internal/workerpool/workerpool.go:75-81 | the first Stop clears started, closes quit and waits for the workers; a later one returns at once |
| PoolSchedule.OthersAreFree | internal/workerpool/workerpool.go:41-81 | a schedule holds no other goroutine back: what it is able to do, it does |
| Socks5Spec.Handshake | internal/proxy/proxy.go:362-451 | for every stream at most 519 bytes are parsed and the output is one of three forms; success only after a complete CONNECT |
| Socks5Spec.HandshakeReplies | internal/proxy/proxy.go:375-451 | what the handler writes, byte by byte, for every stream: refusal codes, and the local address and port of a dial that connected |
| Socks5Spec.ReplayedReplies | internal/proxy/proxy.go:496-559 | the same for the handler behind the sniffer |
| Socks5Spec.HandshakeRoundTrip | internal/proxy/proxy.go:362-430 | every encoded greeting and request is parsed back exactly and the stream is left at the payload |
| Socks5Spec.OnlyMessagesAreDialled | internal/proxy/proxy.go:362-430 | whatever is dialled was one encoded message with that host and port |
| Socks5Spec.HandshakeLooksNoFurther | internal/proxy/proxy.go:362-430 | a finished handshake does not depend on later bytes |
| Socks5Spec.DialledIffComplete | internal/proxy/proxy.go:362-430 | the standalone handler dials iff the stream starts with a complete encoded CONNECT message |
| Socks5Spec.HandlersAgreeIff | internal/proxy/proxy.go:477-549 | for every version-5 stream of two bytes or more, the exact condition on its bytes under which the two handlers write, consume and dial the same |
| Socks5Spec.HandlersAgreeIffFourMethods | internal/proxy/proxy.go:486-541 | in particular, on complete version-5 messages they do the same iff four methods are offered |
| Socks5Delivery.NeverLosesIff | internal/proxy/proxy.go:484-572 | no delivery makes a relay miss a byte iff the dial does not connect or, judged by the stream's bytes, nothing follows the request |
| Socks5Delivery.EagerDeliveryGetsAhead | internal/proxy/proxy.go:484-541 | a delivery that offers all it can leaves in the buffered reader everything behind the handshake that fits in the first fill |
| Socks5Delivery.ByteByByteLosesNothing | internal/proxy/proxy.go:484-572 | delivered byte by byte no stream gets ahead of its handshake or loses anything |
| Socks5Delivery.EarlyPayloadIsLost | internal/proxy/proxy.go:484-572 | payload sent along with a four-method CONNECT whose dial connects is lost, by this many bytes |
| Socks5Delivery.OneByteLost | internal/proxy/proxy.go:484-572 | a concrete stream of seventeen bytes that loses its last when the dial connects |
| Socks5Server.ReadFull | internal/proxy/proxy.go:365-368 | reading in arbitrary chunks fills the buffer with the next bytes or exhausts the stream |
| Socks5Server.HandleSocks5 | internal/proxy/proxy.go:352-451 | the handler with its reused buffer meets the specification under every chunking |
| Socks5Server.ReplayReader.Read | internal/proxy/proxy.go:167-182 | peek and replay delivers exactly the client's stream for any read sizes |
| Socks5Server.ReplayReader.ReadPeeked | internal/proxy/proxy.go:467-474 | the limited byte reader delivers the peeked bytes once, in order |
| Socks5Server.HandleSocks5FromReader | internal/proxy/proxy.go:477-549 | the second handler meets its specification on the buffered reader |
| Socks5Server.HandleConnection | internal/proxy/proxy.go:156-198 | protocol choice, how many bytes the buffered reader holds under the given delivery, and that a relay, which follows a connected dial only, misses exactly those |
| LatencyStats.SortedIsUnique | internal/latency/latency.go:191-191 | a multiset of samples has one sorted arrangement |
| LatencyStats.VarianceBound | internal/latency/latency.go:199-205 | the variance is at most (max - mean)(mean - min) |
| LatencyStats.VarianceZeroIffConstant | internal/latency/latency.go:199-205 | the variance is nonnegative, and zero iff all samples are equal |
| LatencyStats.MeanBetween | internal/latency/latency.go:193-197 | the mean lies between the extremes |
| LatencyStats.SortedVariation | internal/latency/latency.go:212-216 | neighbouring differences of sorted samples add up to max - min |
| LatencyStats.SortingMinimisesVariation | internal/latency/latency.go:191-216 | no order of the samples gives less |
| LatencyStats.SortingKeepsVariationIff | internal/latency/latency.go:191-216 | it equals the figure for consecutive samples iff those never fell or never rose |
| LatencyStats.PercentileMonotone | internal/latency/latency.go:236-256 | the percentile is monotone in p over all reals |
| LatencyStats.PercentileWithin | internal/latency/latency.go:236-256 | it stays within the data |
| LatencyStats.PercentileHitsSamples | internal/latency/latency.go:247-253 | it equals data[k] at p = 100k/(n-1) |
| LatencyStats.PercentileOnSegment | internal/latency/latency.go:247-255 | between two neighbouring samples the percentile is the straight line through them |
| LatencyStats.PercentileAffine | internal/latency/latency.go:247-255 | so it is affine in p there |
| LatencyStats.VarianceIsMeanOfSquares | internal/latency/latency.go:199-205 | the variance is the mean of the squares less the square of the mean |
| LatencyTester.ComputeStats | internal/latency/latency.go:190-234 | sorting in place and the accumulation loops compute the specified statistics |
| LatencyTester.StatsIgnoreOrder | internal/latency/latency.go:190-234 | the statistics are the same for every permutation of the samples |
| LatencyTester.StatsOrdered | internal/latency/latency.go:221-227 | Min <= Median <= P95 <= P99 <= Max and Min <= Avg <= Max after truncation |
| LatencyTester.MedianOfSamples | internal/latency/latency.go:207-227 | the reported median is the middle sample or the mean of the two in the middle |
| LatencyTester.TailOfSamples | internal/latency/latency.go:207-227 | the reported percentiles lie on the line between their two neighbours |
| LatencyTester.OneSample | internal/latency/latency.go:190-234 | a single sample of so many microseconds is every figure, in nanoseconds |
| LatencyTester.MicrosCutsTowardZero | internal/latency/latency.go:219-234 | reported durations are cut to whole microseconds toward zero |
| LatencyTester.LossIsThePercentage | internal/latency/latency.go:219-234 | the reported loss is the percentage lost to within half a hundredth |
| LatencyTester.StatsJitterTelescopes | internal/latency/latency.go:212-217 | reported jitter is the truncated (max - min)/(n - 1) |
| LatencyTester.StatsVarianceBounded | internal/latency/latency.go:199-205 | the reported deviation obeys the variance bound |
| LatencyTester.ReportIgnoresOrder | internal/latency/latency.go:92-134 | a target's report depends on the multiset of ping outcomes only |
| LatencyTester.Tally.Record | internal/latency/latency.go:100-112 | launched equals succeeded plus lost plus in flight, and the samples are the successes |
| LatencyTester.BenchmarkTarget | internal/latency/latency.go:78-135 | any schedule of completions gives the report of the outcomes; cancellation gives none |
| BenchmarkSuite.UnreachableAveragesZero | internal/latency/latency.go:126-132 | a target is reachable iff a ping connected, and otherwise its average is zero |
| BenchmarkSuite.BenchmarkTargets | internal/latency/latency.go:175-187 | the error-free results, ranked by average |
| BenchmarkSuite.FinishedExactly | internal/latency/latency.go:175-187 | a result is ranked as often as a job ended with it |
| BenchmarkSuite.LatUnit | internal/benchmark/benchmark.go:118-139 | an average enters in milliseconds, by whole microseconds |
| BenchmarkSuite.FindFastestTarget | internal/latency/latency.go:269-282 | the result is a reachable target of least average, none iff none is reachable |
| BenchmarkSuite.AverageLoop | internal/benchmark/benchmark.go:118-139 | count, total and extremes of the reachable averages |
| BenchmarkSuite.PairLoop | internal/benchmark/benchmark.go:142-151 | the suite's jitter sum and pair count |
| BenchmarkSuite.SuiteJitterTelescopes | internal/benchmark/benchmark.go:141-154 | when every reachable average is positive the pairs are one fewer than the averages and add up to their spread |
| BenchmarkSuite.SuiteJitterTelescopesIff | internal/benchmark/benchmark.go:141-154 | the pairs are one fewer than the reachable averages iff no unreachable target sits between two of them, and then add up to the spread |
| BenchmarkSuite.QuickLoop | internal/benchmark/benchmark.go:296-312 | the quick benchmark's totals and jitter sum |
| BenchmarkSuite.QuickJitterExactIff | internal/benchmark/benchmark.go:306-309 | the quick figure equals the full variation iff it is not the case that the least average is zero and the greatest is not |
| GoSlice.Append | internal/monitor/monitor.go:117-117 | append writes at most the cell after the slice, or moves to a new array |
| GoSlice.Window.Push | internal/monitor/monitor.go:117-120 | the window holds the last max values pushed, and no issued copy changes although the array is shared |
| Monitor.Monitor.Update | internal/monitor/monitor.go:101-176 | all four histories hold the last maxHistory inputs, min and max are the window's, the message reaches every subscriber by the lossy send, earlier snapshots keep their contents, and new backing arrays are fresh, so that calls compose |
| Monitor.Monitor.GetMetrics | internal/monitor/monitor.go:195-202 | the snapshot shows the last maxHistory points of both charts, each with its input's value and time under its label, and joins the earlier ones on record |
| Monitor.Monitor.PlainHistories | internal/monitor/monitor.go:134-142 | the two plain histories hold the last inputs' latencies and jitters |
| Monitor.Monitor.ReceiveFrom | internal/monitor/monitor.go:205-211 | a receive hands over the oldest waiting message and frees its place, or blocks |
| Monitor.Monitor.Drive | internal/monitor/monitor.go:101-211 | after any run of calls every slice handed out before it or by a poll in it still shows the last maxHistory inputs of its own moment |
| Monitor.DriveFromNew | internal/monitor/monitor.go:75-211 | the same from the monitor's creation on |
| Monitor.Monitor.SubscriberGetsUpdates | internal/monitor/monitor.go:165-211 | what a subscriber has received plus what waits is an ordered subsequence of the updates' messages since it subscribed, and all of them iff no update found sixteen waiting; one is received for each receive that found something |
| Monitor.MinMax | internal/monitor/monitor.go:145-154 | the loop finds the extremes of the window |
| Monitor.CalculateJitter | internal/monitor/monitor.go:221-232 | the mean absolute neighbouring difference, rounded, zero below two samples |
| Monitor.RankedJitterIsLeast | internal/monitor/monitor.go:221-232 | ranked samples give the least jitter of any order |
| Monitor.JitterIsTheMeanDifference | internal/monitor/monitor.go:221-232 | the figure is the mean neighbouring difference to within half a hundredth |
| Monitor.ScoreWeights | internal/monitor/monitor.go:40-60 | what each measurement alone can take from a perfect score, in proportion up to its limit |
| Monitor.ScoreMonotone | internal/monitor/monitor.go:40-60 | a connection no worse in any measurement never scores lower, across the 150 ms break and after rounding |
| Monitor.ScoreBounds | internal/monitor/monitor.go:39-60 | nonnegative measurements score between 0 and 100 |
| Subscribers.DeliveryIsOrderedAndExactIff | internal/monitor/monitor.go:170-175 | by the events alone: received plus pending are the offers that found fewer than sixteen waiting, in order, all of them iff none found sixteen; received is the front of that, one for each receive that found something |
| DnsCache.HitIsLatestAndFresh | internal/dns/dns.go:166-171 | on every run a hit is the latest answer stored since the last flush and younger than the TTL |
| DnsCache.LookupHitsIff | internal/dns/dns.go:165-171 | on every run a lookup hits iff the host has a store since the last flush that no eviction deleted and that is younger than the TTL |
| DnsCache.SizeBoundedIff | internal/dns/dns.go:199-213 | the size stays within maxCache on every run iff maxCache is positive |
| DnsCache.EvictionsSpaced | internal/dns/dns.go:200-208 | two bulk evictions are separated by at least ceil(maxCache/2) stores |
| DnsCache.NewerMayGoFirstIff | internal/dns/dns.go:199-208 | an eviction from a full cache may delete one entry and spare any other iff the limit is at least four |
| DnsCache.OldestMaySurvive | internal/dns/dns.go:199-213 | a run whose eviction keeps the entry stored first and deletes the one stored after it |
| DnsCache.Optimizer.Evict | internal/dns/dns.go:202-207 | the loop deletes an admissible set: until fewer than half are left, in any order |
| DnsCache.Optimizer.ResolveWith | internal/dns/dns.go:165-216 | hit, failed lookup and store, with their effect on the cache |
| ProxyStats.Meter.GetStats | internal/proxy/proxy.go:88-117 | in one direction, the measured windows account for every byte up to the last measurement |

## Left out

- Sockets, dialling, deadlines, DNS resolution and HTTP: their outcomes are parameters of the events and methods, and a read error or timeout is the end of the client's stream.
- The relayed bytes after a handshake: the model ends where the relay starts, at the connection's current position. HTTP parsing in handleCONNECT and handleHTTP is not modelled.
- Textual addresses: a client address is a key, a SOCKS5 host is its bytes; the printed form of an IP and the joining with the port are not modelled. The code joins them without brackets, so that an IPv6 address that does not print in dotted form gives an address that the dialler should refuse; here the outcome of a dial does not depend on the host.
- The choice of a UDP target from the packet and the port: a handler either finds a target and dials or gives up.
- Panics, recover and nil jobs, and jobs that call Submit or Stop on their own pool; jobs are taken to return.
- Floating-point rounding, NaN and infinities: reals are exact. The standard deviation is represented by its square, and jitter of a single sample, a quotient by zero, by no value.
- Garbage collection: Go's runtime may in the end close a UDP connection that nothing references; the model has only the Close calls of this code.
- Reads that return no bytes and no error, and the contents of a read in progress: each read of a connection moves one chunk.
- Callers that submit the same job at once are interchangeable, and a goroutine that is never scheduled again simply takes no further step.
- Integer overflow of counters and durations: the integers are unbounded.
- Wall-clock time: each event or call is given the time it reads.
- The library sort: any order that its comparison allows; for samples that is one sequence, for equal averages it is not.
- Two goroutines writing LastUsed or GetStats reading the map length at the same moment: such writes are atomic here.
- The other direction's throughput, which repeats the same arithmetic, and the proxy's connection, query and latency counters.
- Scores of DNS servers, labels, formatted reports and the dashboard only present the figures modelled here; buffer pools, speed test and TCP options are separate from them.
- LatencyTester.BenchmarkTarget: pings complete in the order of the given outcomes, an arbitrary sequence; that the order does not matter is ReportIgnoresOrder.
