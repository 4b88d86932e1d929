# curf: a verified model of its admission and balancing logic

This Dafny project models the stateful parts of the curf reverse proxy and proves what
they do over whole runs: the per-client rate limiter, the load balancer with its circuit
breakers and health checker, the connection admission of the two listeners, and the path
and cache decisions of the static file server. `dafny verify dfyconfig.toml` checks all of
it.

| file | models |
|---|---|
| `RateLimit.dfy` | the token bucket: closed form, greedy optimality, independence of clients |
| `CircuitBreaker.dfy` | one backend and its breaker, calls taken as atomic |
| `BreakerRaces.dfy` | the same breaker with every load, store, increment and clock reading as a step of its own |
| `LoadBalancer.dfy` | the three selection strategies and the feedback by URL |
| `RoundRobinFairness.dfy`, `RoundRobinRaces.dfy` | fairness of round robin, for consecutive calls and for interleaved threads |
| `LeastConnectionsBalance.dfy`, `IpHashStability.dfy` | imbalance of least-connections, stability of the IP hash |
| `PoolRuns.dfy`, `HealthSchedule.dfy` | runs of selections and feedback; what the timing of the health checks guarantees |
| `Outages.dfy` | exactly which health-check configurations keep a dead backend out |
| `Security.dfy`, `Admission.dfy` | per-IP counts, TLS-failure blocking, and the permit protocol of both listeners |
| `StaticPath.dfy`, `HttpCache.dfy` | path resolution; conditional requests and client caches |
| `HealthUrl.dfy`, `Decimal.dfy` | the health-check URL; decimal numbers |
| `Modular.dfy`, `Prelude.dfy` | remainders, counting and small shared definitions |

Classes (`RateLimiter`, `Backend`, `LoadBalancer`, `SecurityChecker`) carry the fields that
the source updates in place; each of their methods is tied to a function on the old state,
and the theorems are about those functions. Concurrent behaviour is a step system over such
functions; all theorems about it hold for every sequence of steps of any number of threads.

## Conventions

- Token buckets use exact integers: nanoseconds, and tokens in billionths. A timestamp is a
  parameter, because it is read before the bucket is locked; timestamps may arrive in any
  order, and `duration_since` is zero for a backward step, as in the standard library.
- `u64` and `usize` arithmetic on clocks, counters and the cursor wraps, as it does in the
  release profile of `Cargo.toml`, which enables no overflow checks.
- Clock readings, client hashes and check results are parameters.

## Where the code differs from its own words

- "Half-open: allow one probe" (`src/load_balancer.rs:87`): the reset closes the circuit and
  forgets all failures (`ResetForgetsEverything`).
- "Returns None when all backends have open circuits" (`src/load_balancer.rs:131`): exact for
  an undisturbed walk that cannot skip a slot at the 64-bit wrap (`NoneIsExactIff`); a
  concurrent caller can be told "none" beside a healthy backend (`FalseNoneHappens`), unless
  the backends are all healthy or all down (`NoneMeansAllDownIff`).
- The clock is read before the last failure (`src/load_balancer.rs:85`), so a failure recorded
  in between closes the circuit it should keep open (`FreshFailureReadmits`).
- The elapsed time is measured from a timestamp that any request may set back
  (`src/rate_limit.rs:52`), so a backdated denial is worth extra tokens
  (`BackdatedDenialIsVisible`); a denied request leaves no trace on the ordered requests
  after it iff it is stamped no earlier than the one before it (`DenialIsInvisibleIff`).
- "Opens after 5 failures" (`CHANGELOG.md:16`): under races a circuit can be left closed
  with five failures, or open with fewer; `ClosedAtRestIff` and `OpenWithFewFailuresIff`
  say exactly when.
- "Automatically routes around broken backends" (`README.md:20`): a backend whose checks all
  fail stays out of rotation iff the longest time between two of its checks is below 30 s
  (`ConfigurationKeepsOutIff`); with the default interval of 15 s and timeout of 5 s that
  holds for the first two of up to five backends, and not for the others
  (`DefaultsKeepTwoOfFiveOut`).
- The change log says that all `..` components are rejected; `safe_path` resolves them and
  also accepts paths that leave the root and re-enter it by name
  (`ParentComponentsAreAccepted`).
- After an ETag mismatch the server still honours If-Modified-Since, which section 13.1.3 of
  RFC 9110 rules out (`FallThroughNeedsMore`).
- "Maximum simultaneous connections across all clients" (`src/config.rs:49`): each listener
  has a semaphore of its own, so with TLS domains twice as many are reached
  (`TwiceIsReached`, `DocumentedCapHoldsIff`).

## Model

| member | source | states |
|---|---|---|
| `RateLimit.RateLimiter.IsAllowed` | src/rate_limit.rs:36-60 | the decision and the client's new bucket are those of the specification; every other bucket is untouched; tokens stay within the burst |
| `RateLimit.LevelIsLeastSlack` | src/rate_limit.rs:49-52 | min-plus closed form: the token level is the least, over all windows ending now, of burst plus refill less the requests charged |
| `RateLimit.BucketShowsLevel` | src/rate_limit.rs:44-59 | a request is admitted iff that level is at least one token, the stored bucket shows it, and it stays between zero and the burst |
| `RateLimit.AdmittedIffEveryWindowFits` | src/rate_limit.rs:36-60 | for timestamps in any order, a request is admitted iff every window it ends fits burst plus refill, backward steps counting as extra time |
| `RateLimit.AdmittedIffRateConforms` | src/rate_limit.rs:36-60 | in plain numbers, for ordered timestamps in nanoseconds: admitted iff 10^9 * count <= 10^9 * burst + rps * duration over every window |
| `RateLimit.AdmittedIffSecondsFit` | src/rate_limit.rs:13-35 | for stamps at whole seconds: admitted iff every window holds at most burst + rps * seconds |
| `RateLimit.WindowNeverExceeded` | src/rate_limit.rs:42-59 | no window admits more than burst + rps * (elapsed time + backward steps), for any timestamps |
| `RateLimit.DecisionsConform` | src/rate_limit.rs:49-59 | the limiter's own decisions respect burst plus refill in every window |
| `RateLimit.LeadPaysForLevel` | src/rate_limit.rs:49-59 | against any conforming selection the limiter is never behind in count, and trails in tokens only by its lead |
| `RateLimit.GreedyIsOptimal` | src/rate_limit.rs:36-59 | no conforming selection of the requests has admitted more at any prefix |
| `RateLimit.DeniedRequestsAreInvisible` | src/rate_limit.rs:44-59 | with ordered timestamps, deleting any denied requests changes no other decision |
| `RateLimit.DenialIsInvisibleIff` | src/rate_limit.rs:42-59 | after any trace, a denied request changes no later decision, for all later requests in order, iff it is stamped no earlier than the request before it (or the burst is zero) |
| `RateLimit.DenialIsAlwaysInvisibleIff` | src/rate_limit.rs:42-59 | for all later requests in any order, iff it repeats the stamp of the request before it (or the burst is zero) |
| `RateLimit.BackdatedDenialIsVisible` | src/rate_limit.rs:42-52 | an instance: a concrete denied request that buys a later one its token |
| `RateLimit.ClientsAreIndependent` | src/rate_limit.rs:36-60 | in an interleaved trace each client is decided, and its bucket left, exactly as by its own requests alone |
| `CircuitBreaker.Backend.RecordSuccess` | src/load_balancer.rs:66-69 | the failures are zeroed and the circuit closed, nothing else |
| `CircuitBreaker.Backend.RecordFailure` | src/load_balancer.rs:71-77 | one more failure, stamped now; the circuit opens from the fifth on and never closes |
| `CircuitBreaker.Backend.IsHealthy` | src/load_balancer.rs:81-94 | the answer, and the reset of a matured circuit that the query performs |
| `CircuitBreaker.StateIsHistory` | src/load_balancer.rs:66-94 | after any run the failures are those since the last success or reset, the circuit is open iff they are five or more, and the time is the latest failure's |
| `CircuitBreaker.TimerIsQueried` | src/load_balancer.rs:81-94 | while no failure has come late, an eager 30 s timer is in the state a query would leave now |
| `CircuitBreaker.LazyResetIsTimerIff` | src/load_balancer.rs:81-94 | the lazy reset answers like an eager 30 s timer iff no failure lands between maturity and the next query |
| `CircuitBreaker.ResetForgetsEverything` | src/load_balancer.rs:86-91 | after a reset exactly five further failures are needed to open the circuit again |
| `CircuitBreaker.RefusedIffQueriedSoon` | src/load_balancer.rs:71-94 | an open circuit without successes refuses every query iff each comes less than 30 s after the failure before it |
| `BreakerRaces.UndisturbedCallIsAtomic` | src/load_balancer.rs:66-94 | the steps of any call, with nothing in between, do and answer what the atomic call does |
| `BreakerRaces.EveryOpeningIsEarned` | src/load_balancer.rs:71-77 | in every interleaving an opening store belongs to an increment that was at least the fifth since the last zeroing before it |
| `BreakerRaces.OpenCircuitRecoversOnTime` | src/load_balancer.rs:81-94 | in every reachable state at rest an open circuit admits the next undisturbed query iff 30 s have passed, and is then clean |
| `BreakerRaces.OverchargedCircuitOpensNext` | src/load_balancer.rs:71-77 | a circuit left with five or more failures is open after the next undisturbed failure iff it was open or the 64-bit counter does not wrap |
| `BreakerRaces.ClosedAtRestIff` | src/load_balancer.rs:66-94 | at rest, closed with five or more failures iff a closing store came after the fifth increment, with no opening or zeroing since |
| `BreakerRaces.OpenWithFewFailuresIff` | src/load_balancer.rs:66-94 | in every reachable state, open with fewer than five failures iff a zeroing came after the increment of an opening that nothing closed since, with fewer than five increments after it |
| `BreakerRaces.ChargedCircuitIsOpenWithoutSuccesses` | src/load_balancer.rs:86-91 | while no success is recorded, a circuit at rest with five failures is open: a reset closes before it zeroes |
| `BreakerRaces.OpenCircuitIsStamped` | src/load_balancer.rs:71-77 | in every reachable state an open circuit shows the time of a failure of this run: the stamp is stored before the circuit opens |
| `BreakerRaces.CountedBeforeStamped` | src/load_balancer.rs:71-77 | in every reachable state a stamp follows an increment |
| `BreakerRaces.ConcurrentFailuresCount` | src/load_balancer.rs:71-77 | concurrent failures are never lost: at rest the circuit is open iff five were recorded |
| `BreakerRaces.StaleReadingAdmitsIff` | src/load_balancer.rs:85-90 | in every reachable state a query resets the circuit iff 30 s have passed since the stored failure or that failure is later than the query's reading |
| `BreakerRaces.FreshFailureReadmits` | src/load_balancer.rs:85-90 | a failure recorded a second after a query read the clock makes that query reset the circuit and answer "healthy" |
| `BreakerRaces.FreshFailureReadmitsOccurs` | src/load_balancer.rs:85-90 | reachable: a circuit that failed this very second is reset and its backend reported healthy |
| `BreakerRaces.OpenWithoutFailuresOccurs` | src/load_balancer.rs:66-77 | a reachable state at rest is open with no failures |
| `BreakerRaces.ClosedWithFiveFailuresOccurs` | src/load_balancer.rs:66-77 | a reachable state at rest is closed with five failures |
| `LoadBalancer.Hash` | src/load_balancer.rs:169-176 | the hash is below 2^32, so that adding a slot offset cannot overflow |
| `LoadBalancer.HashReadsBack` | src/load_balancer.rs:169-176 | dividing by 256 again and again gives the four bytes back, last one first |
| `LoadBalancer.HashIdentifiesV4` | src/load_balancer.rs:169-176 | two IPv4 clients hash alike iff they are equal; an IPv6 client hashes by its last four bytes, no address as 0 |
| `LoadBalancer.FirstHealthy` | src/load_balancer.rs:150-157 | all probes before the result are unhealthy and the one at it, if any, is healthy |
| `LoadBalancer.LeastLoaded` | src/load_balancer.rs:160-166 | none iff none is healthy; otherwise a healthy backend of least active count, the first such in order |
| `LoadBalancer.LoadBalancer.PickRoundRobin` | src/load_balancer.rs:148-158 | the first healthy slot in cursor order, one ticket used per probe, only the chosen circuit queried to effect |
| `LoadBalancer.LoadBalancer.PickLeastConnections` | src/load_balancer.rs:160-166 | the least loaded healthy backend; every circuit is queried, chosen or not |
| `LoadBalancer.LoadBalancer.PickIpHash` | src/load_balancer.rs:168-186 | the first healthy slot in circular order from the hash |
| `LoadBalancer.LoadBalancer.Select` | src/load_balancer.rs:132-146 | the strategy's pick and its whole effect, plus one on the pick's active count; none for an empty balancer |
| `LoadBalancer.WhatSelectionChanges` | src/load_balancer.rs:132-186 | the pick's active count goes up by one; the walking strategies touch only the pick's circuit and leave it closed, least-connections resets every matured one; nothing else changes |
| `LoadBalancer.Addressee` | src/load_balancer.rs:189-200 | the first backend with the URL, none iff no backend has it |
| `LoadBalancer.LoadBalancer.Report` | src/load_balancer.rs:189-200 | feedback changes the first backend with that URL and nothing else |
| `LoadBalancer.WhatFeedbackChanges` | src/load_balancer.rs:189-200 | in terms of URLs: a backend's circuit makes the step iff it is the first with that URL; counts and cursor stay |
| `RoundRobinFairness.FullTurn` | src/load_balancer.rs:150-152 | any n consecutive tickets hit as often as there are healthy backends |
| `RoundRobinFairness.RunTakesHits` | src/load_balancer.rs:148-158 | consecutive selections take the healthy tickets in order, skipping none |
| `RoundRobinFairness.EveryHealthyBackendOncePerTurn` | src/load_balancer.rs:148-158 | with fixed health, as many selections as there are healthy backends return each exactly once, from any cursor, if the turn does not wrap or n divides 2^64 |
| `RoundRobinFairness.TurnsAreFairIff` | src/load_balancer.rs:148-158 | from every pool with a given cursor a full turn is fair iff that condition holds |
| `RoundRobinFairness.CoversIff` | src/load_balancer.rs:149-151 | one walk reaches every slot iff that condition holds |
| `RoundRobinFairness.NoneIsExactIff` | src/load_balancer.rs:130-158 | for sequential calls, with a clock reading per probe: "none" only if every backend was unhealthy at some reading, and always if all were at every reading, from every state with this cursor iff that condition holds |
| `RoundRobinRaces.InvAlways` | src/load_balancer.rs:148-158 | every reachable state, however health changes: no ticket probed twice, probes report their slot, each walker's tickets are exactly those issued to it |
| `RoundRobinRaces.TicketsAreAccountedFor` | src/load_balancer.rs:150-153 | in every interleaving each issued ticket has been probed or is in its taker's hand |
| `RoundRobinRaces.AnswerIsLastProbe` | src/load_balancer.rs:150-155 | in every interleaving a returned backend is the last ticket modulo n, found healthy, and all tickets before found theirs unhealthy |
| `RoundRobinRaces.AnswerIsHealthy` | src/load_balancer.rs:150-155 | while health does not change, every returned backend is healthy |
| `RoundRobinRaces.ConsecutiveTicketsAreFair` | src/load_balancer.rs:148-158 | in every interleaving, n consecutive tickets that found the same backends healthy hold exactly as many successes as there are of these |
| `RoundRobinRaces.EachHealthyBackendHitOnce` | src/load_balancer.rs:148-158 | a backend that stays healthy, whatever the others do, is hit by exactly one of any n consecutive tickets |
| `RoundRobinRaces.FalseNoneNeedsRival` | src/load_balancer.rs:130-158 | "none" beside a backend that stays healthy only if another thread took that backend's ticket during the walk |
| `RoundRobinRaces.NoneMeansAllDownIff` | src/load_balancer.rs:130-158 | with fixed health, in every interleaving from every cursor "none" is answered only if all backends are down, iff the backends are all down or all healthy |
| `RoundRobinRaces.DownSlotMisleads` | src/load_balancer.rs:148-158 | two threads suffice to be told "none" as soon as one backend stays down, whatever the others do |
| `RoundRobinRaces.NoneIsRightIff` | src/load_balancer.rs:130-158 | in every interleaving, "none" is right under every health that explains what the caller found iff its own tickets met every slot |
| `RoundRobinRaces.UndisturbedNoneIsTrue` | src/load_balancer.rs:130-158 | a caller with no other ticket in between that is told "none" has found every backend unhealthy |
| `RoundRobinRaces.FalseNoneHappens` | src/load_balancer.rs:148-158 | two threads, two backends, one healthy, and a caller is told "none" |
| `RoundRobinRaces.SoloTakesFirstHit` | src/load_balancer.rs:148-158 | undisturbed, a stepwise walk returns the first healthy slot and uses the same tickets as the sequential selection |
| `RoundRobinRaces.SoloGivesUp` | src/load_balancer.rs:148-158 | undisturbed, a stepwise walk past n unhealthy slots answers "none" |
| `RoundRobinRaces.WholeWalkIsSelection` | src/load_balancer.rs:148-158 | under fixed health an undisturbed stepwise walk answers, and moves the cursor, as the sequential selection does, also across the wrap |
| `LeastConnectionsBalance.ImbalanceIsBounded` | src/load_balancer.rs:137-145 | with at most k calls between choosing and acquiring, active counts of healthy backends stay within k of each other |
| `LeastConnectionsBalance.ImbalanceIsReached` | src/load_balancer.rs:160-166 | a difference of exactly k does occur |
| `IpHashStability.SelectionIsAssignment` | src/load_balancer.rs:168-186 | under fixed health a selection returns the client's assigned backend |
| `IpHashStability.AddressPicksBackend` | src/load_balancer.rs:168-186 | with all backends up an IPv4 client is given the backend at its address, as a number, modulo n |
| `IpHashStability.LastBytePicksBackend` | src/load_balancer.rs:168-186 | if n divides 256, at its last byte modulo n |
| `IpHashStability.NoneIffAllDown` | src/load_balancer.rs:178-186 | a client is unassigned iff every backend is down |
| `IpHashStability.OutageMovesOnlyItsClients` | src/load_balancer.rs:178-186 | taking a backend down, or bringing it back, moves exactly the clients that are on it |
| `IpHashStability.OutageClientsStayTogether` | src/load_balancer.rs:178-186 | they all move to one backend, the first healthy one after it |
| `IpHashStability.SelectionsDifferOnlyForItsClients` | src/load_balancer.rs:168-186 | the same for whole selections from pools that differ in one backend |
| `PoolRuns.ActiveCountsLiveGuards` | src/load_balancer.rs:99-105 | in every run each active count is the number of guards held on the backend |
| `PoolRuns.FailingBackendIsNeverPicked` | src/load_balancer.rs:71-94 | an open backend that keeps failing less than 30 s apart is returned by no selection of any strategy before a success |
| `PoolRuns.DuplicateUrlNeverHearsFeedback` | src/load_balancer.rs:189-200 | a later backend with a repeated URL keeps its fresh circuit in every run, whatever is reported |
| `PoolRuns.FeedbackReachesOwnerIff` | src/load_balancer.rs:189-200 | feedback reaches the backend it is about iff no earlier backend shares its URL |
| `HealthSchedule.NextDueKeepsPhase` | src/health_check.rs:32-33 | the ticker's next deadline keeps the phase, is an interval after one that fired at most 5 ms late, and never brings missed ticks in a burst |
| `HealthSchedule.ConsecutiveChecks` | src/health_check.rs:32-74 | two consecutive results for backend i are at most max(interval, (n - 1 - i) * timeout) + (i + 1) * timeout apart, also when rounds overrun |
| `HealthSchedule.WorstGapIsReached` | src/health_check.rs:32-74 | under every configuration some schedule reaches that gap |
| `HealthSchedule.ChecksKeepDeadBackendOut` | src/health_check.rs:42-74 | if the gap is below 30 s, a backend whose checks all fail is returned by no selection, whatever selections, reports and drops are interleaved |
| `Outages.FifthResultIsLate` | src/health_check.rs:31-74 | the fifth round has its result four intervals after the first or later |
| `Outages.LongGapReadmits` | src/health_check.rs:31-74 | a run from a new balancer in which five rounds of checks fail and a selection then returns the dead backend before the sixth |
| `Outages.ConfigurationKeepsOutIff` | src/health_check.rs:31-74 | for each strategy: in no run from a new balancer is a dead backend selected iff the gap of the configuration is below 30 s (or the clock ends before the fifth failure is 30 s old) |
| `Outages.DefaultsKeepTwoOfFiveOut` | src/config.rs:279-284 | with 15 s and 5 s and five backends, the first two are kept out while dead and the third is not |
| `Security.SecurityChecker.CheckAndAcquireConnection` | src/security.rs:40-50 | refused if blocked or at the cap, otherwise counted; a refusal at the cap still creates the entry |
| `Security.SecurityChecker.ReleaseConnection` | src/security.rs:53-59 | one less, never below zero |
| `Security.SecurityChecker.RecordTlsFailure` | src/security.rs:63-76 | counted in 32 bits and blocked at the limit, or nothing when the flag is off |
| `Admission.CheckThenCountIsAcquire` | src/security.rs:40-50 | the block check and the count step, undisturbed, are the checker's one acquisition, and a refusal returns the permit |
| `Admission.AlwaysConserved` | src/main.rs:200-239 | in every reachable state per-IP counts equal the guards held over both listeners and respect the cap, and free, held and live permits add up per listener |
| `Admission.TotalIsBounded` | src/main.rs:272-308 | at most 2 * max_connections live connections, and at most the cap per address |
| `Admission.TwiceIsReached` | src/main.rs:149-174 | with a TLS domain, some run holds 2 * max_connections connections |
| `Admission.DocumentedCapHoldsIff` | src/config.rs:49-51 | no run exceeds max_connections over all clients iff only one listener runs, or nothing can be admitted |
| `Admission.ReleaseAlwaysCounts` | src/main.rs:64-68 | a dropped guard always decrements: the zero branch of release is never taken |
| `Admission.TlsFailuresAreBounded` | src/security.rs:63-76 | in every configuration: blocked iff blocking is on and failures reach max(1, limit); nothing is counted when it is off; when on, failures exceed the limit at most by min(cap, max_connections - 1), and stay below it plus the cap unless the address was blocked in the middle of an HTTPS acceptance |
| `Admission.RacedMeansPassed` | src/main.rs:292-312 | an address counts as blocked in the middle of an acceptance only if a handshake failed while the loop had passed it and it was not blocked yet |
| `Admission.AdmittedIffBelowCap` | src/security.rs:40-50 | a connection with a permit is refused iff its address is blocked or at its cap |
| `Admission.OffAdmitsBelowCap` | src/security.rs:63-66 | with blocking off, in every run, it is refused only at the cap |
| `Admission.ServedConnectionLeavesNoTrace` | src/main.rs:225-239 | an admitted connection that is served and ends leaves counts, permits and everything else as they were |
| `Admission.FailureBoundIsReached` | src/main.rs:292-325 | under every configuration that admits TLS connections some run reaches that bound |
| `Admission.BlockedForEver` | src/security.rs:41-43 | blocking is permanent, and a blocked address that no loop has let through gets no new connection |
| `StaticPath.SafePath` | src/static_files.rs:172-194 | the loop computes the specified resolution, with the same refusals |
| `StaticPath.UpsIsHighestClimb` | src/static_files.rs:174-186 | the normal form's climb is the highest excess of `..` over names of any prefix |
| `StaticPath.ResolveByNormalForm` | src/static_files.rs:173-186 | resolution removes as many parts of the root as the path climbs and appends its names, or refuses |
| `StaticPath.AcceptedIff` | src/static_files.rs:163-195 | a path is accepted iff, after its highest climb, it comes back through the root's own names; and the result is the root plus the rest |
| `StaticPath.DescendingPathIsNormalForm` | src/static_files.rs:172-194 | a path that never climbs above the root yields the root plus its lexical normal form |
| `StaticPath.AcceptedPathsAreFixed` | src/static_files.rs:172-194 | resolving an accepted path's own names again yields the same path |
| `StaticPath.ParentComponentsAreAccepted` | src/static_files.rs:177-182 | `..` inside the root, and `..` out of it and back in by name, are both accepted |
| `HttpCache.ETagIdentifiesStamp` | src/static_files.rs:79-85 | two ETags are equal iff length and whole second of modification are |
| `HttpCache.ETagReadsBack` | src/static_files.rs:79-85 | quoted, the length and the whole second of modification in canonical decimal, with a dash between them |
| `HttpCache.NotModifiedByPlainRule` | src/static_files.rs:87-115 | for any request: 304 iff the tag is the file's, or the file is no newer than the date |
| `HttpCache.HeadMirrorsGet` | src/static_files.rs:117-158 | HEAD is answered 304 when GET is, and otherwise with the body's length and the same tag |
| `HttpCache.NotModifiedIff` | src/static_files.rs:87-115 | exactly when a client with a copy of one version is told that another is not modified, by this server and by the standard |
| `HttpCache.CoherentIff` | src/static_files.rs:78-115 | all runs of a file history are coherent iff no version can be confirmed in place of a later one with another body |
| `HttpCache.AdvancingSecondsAreCoherent` | src/static_files.rs:78-115 | if every change of the body moves the whole second forward, a 304 always means the cached body is current |
| `HttpCache.FallThroughNeedsMore` | src/static_files.rs:99-115 | the standard needs only distinct stamps; this server is incoherent on a history where they are distinct |
| `Decimal.ValueOfPrint` | src/health_check.rs:121 | parsing a printed number gives it back |
| `Decimal.PrintOfValue` | src/static_files.rs:85 | printing a parsed canonical numeral gives it back |
| `HealthUrl.CheckUrlOf` | src/health_check.rs:51-59 | the check URL drops all trailing slashes and has exactly one before the configured name, given with or without it |
| `HealthUrl.SplitsAt` | src/health_check.rs:101-119 | any `http://` URL is taken apart at its first slash and at the last colon before that; no path means "/", a missing or unreadable port 80 |
| `HealthUrl.ParseU16Iff` | src/health_check.rs:116 | a port is read iff it is a numeral up to 65535: leading zeros and one plus sign are allowed |
| `HealthUrl.SplitOf` | src/health_check.rs:101-119 | splitting scheme, authority and path gives each back; the host iff a port is given or it has no colon |
| `HealthUrl.HealthCheckReachesBackend` | src/health_check.rs:51-119 | building and splitting returns host, port (80 if absent) and the configured path with one leading slash iff a port is given or the host has no colon |
| `HealthUrl.ConfiguredPathIsRequested` | src/health_check.rs:54-58 | whatever the host, the path asked for is the configured one, with one leading slash ensured |
| `HealthUrl.CheckedIff` | src/health_check.rs:101-103 | a backend is checked at all iff its URL starts with `http://` and has more than slashes after it (or is only `http:` and slashes, and the path starts with two) |

## Left out

- Sockets, hyper, TLS handshakes, certificates and WebSocket tunnels: accept, handshake failure and close are abstract steps.
- Configuration loading, command line, logging, error pages and directory listings.
- The pattern lists of `check_request` and the header injection of the proxy: flat checks with no state.
- Rounding of `f64` in the token bucket: tokens are exact.
- Relaxed memory ordering: the interleaved models are sequentially consistent.
- The map shards' locks: an entry is updated in one step while it is locked, and so is a TLS failure's count with the block that follows it.
- Percent-decoding, dropping the query string, the splitting of a URL path into components, and symbolic links: `SafePath` starts from the component list.
- `HttpCache.NotModifiedIff`: modification times are always available and not before 1970; the file is not changed between reading its metadata and its body; a header that does not decode is the empty string, which equals no ETag.
- `HttpCache.CoherentIff`: every fetch revalidates; the server's `max-age=3600` lets a client show its copy for an hour without asking.
- `Outages.ConfigurationKeepsOutIff`: a selection's hash may be any number, so with more than 2^32 backends ip_hash is given clients that do not exist.
- `HealthSchedule.ConsecutiveChecks`: delays of the asynchronous runtime are not counted, and in the timed runs a selection reads the same second throughout.
- `RoundRobinRaces.ConsecutiveTicketsAreFair`: the tickets of the interleaved model are unbounded numbers; what a wrap of the cursor does is stated for sequential calls (`CoversIff`, `TurnsAreFairIff`).
