# Paykit server: verified model

This project models the stateful and arithmetic core of the Paykit server, a
receiver-side payment server, and proves what that core promises. Each part that the
server updates under a lock is a class whose methods are proved equal to one step of a
transition function; the theorems are about every run of those steps.

| file | part of the server |
|---|---|
| `ProofScan.dfy` | the bounded cache that decides which USDT proofs are looked up next |
| `ScanSpacing.dfy`, `ScanSkew.dfy`, `ScanSweep.dfy`, `ScanCalls.dfy`, `ScanFairness.dfy` | its rate bound and where that ends, its coverage for a sequence of grants and of calls, its fairness |
| `ScanAdmission.dfy`, `ScanRotation.dfy`, `Rotation.dfy` | exactly whom it turns away, lets in and gives up; what each grant offers, for ever; the arithmetic of its cursor |
| `SetupFlow.dfy`, `SetupService.dfy` | setup flows: permits, one-shot attempts, completion leases, tombstones |
| `SetupExpiry.dfy`, `SetupCompletion.dfy`, `SetupOutcome.dfy` | how long a flow lives and is remembered; how a completion ends and what its caller is told; what the answers are, from the events alone |
| `PollSlots.dfy` | the two-level poll counters |
| `IpLimiter.dfy`, `IpReference.dfy`, `IpLimiterSkew.dfy`, `TokenBucket.dfy` | the per-address window limiter, a reference it follows, where its bound ends, and the signed-request token bucket |
| `Decimal.dfy`, `InvoicePricing.dfy` | decimal texts, rates and payment amounts |
| `LifecyclePasses.dfy`, `LifecycleFairness.dfy`, `LifecycleReadiness.dfy` | the lifecycle pass scheduler, how long it lets a Creator wait, and its readiness tracker |
| `MutationLocks.dfy`, `PeerReads.dfy` | the registries of weak references: locks per key, shared reads |
| `PaymentBindings.dfy` | which Bitcoin output an invoice is bound to |
| `LifecycleAggregate.dfy` | Payment Request attempts: what a stored one accepts, how several collapse |
| `Wrappers.dfy`, `FiniteSets.dfy` | `Option` and `Result`; sizes of sets |

How the code is read:

- A critical section under a mutex, or one atomic operation, is one event. A run is any
  sequence of enabled events, so a theorem about runs covers every interleaving.
- Clock readings are natural numbers carried by the events. They need not be in order
  unless a theorem says so. `payment_scan`, the callers of the address limiter and the
  clean-up at the start of a begin read the clock before they wait for their lock, so
  those critical sections may see times out of order. The theorems about the scan cache
  and the limiter take a `skew`: no reading lies more than that behind an earlier one.
  The token bucket and the other setup calls read the clock under the lock.
- Where the code takes whichever entry a hash map yields first among equals, the choice
  is part of the event and every choice is covered.
- Request hashes are the numbers below 2^256 with their order. The fingerprint of a
  proof list is the list itself. Texts are sequences of bytes, written as characters.
- Fixed-width arithmetic is written out: saturating 64- and 128-bit steps in the token
  bucket, saturating durations in the limiters, checked 256- and 64-bit steps in pricing.

Where the code does not keep a promise one might expect, the model follows the code,
gives an input that shows it and proves the exact condition:

- The lifecycle scheduler lets a Creator start twice while another one waits if that
  Creator is, in between, neither pending, running nor known: its turn is then forgotten
  (`LifecyclePasses.StarvationCycle`, `LifecyclePasses.OvertakesExactly`). The comments
  that promise every Creator a turn (paykit/allowances.rs:178-180) and that hints cannot
  reset one (server.rs:1551-1552) hold for enumerated Creators only.
- The address limiter loses the match between its queue and its table exactly when a
  window is opened less than a minute before the end of representable time
  (`IpLimiter.WindowAtTheEndOfTimeNeverCloses`, `IpLimiter.PermitKeepsValid`).
- Grants to one request are 15 s apart, and at most 1024 fall into 15 s, only if no clock
  reading is late; with readings up to `skew` late both hold for 15 s less the skew, and
  for no longer (`ScanSkew.LateRunBreaksGap`, `ScanSkew.SpacingExactly`,
  `ScanSkew.RateExactly`).
- From any grant on, the next ceil(candidates / 8) grants of an unchanged request offer every
  candidate, except that the cursor is a machine word (64 bits) that wraps: if it does so
  within them they miss some exactly when the break at the end of the word is wider than
  what they overlap (`ScanRotation.RotationExactly`, `Rotation.ShowsAllExactly`).
- The address limiter permits no more than twice its limit in every minute if and only if
  no clock reading is late or, for a limit of one, none is more than half a minute late
  (`IpLimiterSkew.MinuteExactly`). With readings up to `skew` late the bound holds in every
  interval shorter than a minute by twice the skew, and for limits of three or more no
  further (`IpLimiter.PermitBound`, `IpLimiterSkew.BoundIsExact`).
- A flow that is over is remembered as expired for a lifetime from the first clean-up that
  finds it, not from its end, so for longer if nobody looks
  (`SetupExpiry.LateBurialProlongs`, `SetupExpiry.ExpiryIsExact`).
- The comment that a panicked or aborted completion fails its flow (setup.rs:620) holds at
  once only if the state lock is free at that moment, later if a runtime is left to spawn
  a task on, and otherwise never; meanwhile the caller is told the flow failed while
  status calls answer pending (`SetupCompletion.FailedThenPending`,
  `SetupCompletion.AgreesWithLater`, `SetupCompletion.CompletingIsWatched`).
- The two payment-binding forms report the same confirmations exactly when the output is
  present or was stored with none (`PaymentBindings.BindingsAgree`).
- An expired proposal never becomes proposed in one step, but it can through a recovery
  with the cursors standing still (`LifecycleAggregate.ExpiredReturnsThroughRecovery`).

## Model

| member | source | states |
|---|---|---|
| `ProofScan.CandidatesAreExact` | paykit-server/src/usdt.rs:158-183 | the candidates are strictly ordered by event, no more than the proofs; each carries exactly the signers some proof attests for its event, and every readable proof has its candidate |
| `ProofScan.FromProofs` | paykit-server/src/usdt.rs:158-183 | the grouping loop yields exactly the candidate table, and nothing for more than 128 proofs |
| `ProofScan.StepKeepsValid` | paykit-server/src/usdt.rs:245-346 | each call and each release keeps at most 1024 requests, and a waiting key only while the cache is full and the key is not in it; the number of resident requests never falls |
| `ProofScan.ReachableIsValid` | paykit-server/src/usdt.rs:245-346 | so does every run |
| `ProofScan.SecondSearchServesCaller` | paykit-server/src/usdt.rs:275-302 | when the caller's own search for a victim succeeds, nobody is left waiting |
| `ProofScan.StepOnResident` | paykit-server/src/usdt.rs:118-130 | a slot is lost only to another caller that finds it evictable; otherwise only its owner's events change it |
| `ProofScan.StepOnAbsent` | paykit-server/src/usdt.rs:275-334 | a request enters only by its own call, granted from the first candidate, or by a reservation made for it while it waited |
| `ProofScan.ScanCache.constructor` | paykit-server/src/usdt.rs:109-116 | the cache starts empty, with nobody waiting |
| `ProofScan.ScanCache.FindOldestReady` | paykit-server/src/usdt.rs:118-130 | the loop returns a least recently used evictable request, or none exactly if there is none |
| `ProofScan.ScanCache.DeferRequest` | paykit-server/src/usdt.rs:132-147 | the waiting slot keeps the circularly first of the two keys |
| `ProofScan.ScanCache.PaymentScanAt` | paykit-server/src/usdt.rs:245-336 | the whole critical section is one enabled event, and hands out exactly the candidates that event offers |
| `ProofScan.ScanCache.Enter` | paykit-server/src/usdt.rs:303-334 | reset on changed proofs, retry delay, and cursor of a resident request |
| `ProofScan.ScanCache.FinishPaymentScan` | paykit-server/src/usdt.rs:338-346 | only a lookup that had candidates and observed all of them lifts the delay |
| `ScanSpacing.GrantHolds` | paykit-server/src/usdt.rs:118-130 | from a grant on, the request keeps its slot and gets nothing for 15 s unless its delay is lifted |
| `ScanSpacing.GrantSpacing` | paykit-server/src/usdt.rs:275-334 | with readings at most `skew` late, two grants to one request less than 15 s less the skew apart have a lifted delay between them, whatever was evicted, readmitted or reserved |
| `ScanSpacing.StepMovesProtected` | paykit-server/src/usdt.rs:303-346 | each grant whose delay reaches to a bound adds a protected request, and only a lifted delay takes one away before that bound |
| `ScanSpacing.GrantsAreCovered` | paykit-server/src/usdt.rs:245-346 | over a stretch of readings near an interval, the grants in it are at most the protected requests plus the lifted delays |
| `ScanSpacing.StretchBound` | paykit-server/src/usdt.rs:245-346 | over such a stretch they are at most 1024 plus the lifted delays, for any clock |
| `ScanSpacing.WindowBound` | paykit-server/src/usdt.rs:245-346 | with readings at most `skew` late, the grants of a whole run that read a time in an interval of 15 s less the skew are at most 1024 plus the delays lifted near it, each of at most 8 candidates |
| `ScanSkew.LateRunBreaksGap` | paykit-server/src/usdt.rs:237-245 | for every skew up to 15 s, a run from the empty cache that grants one request twice, 15 s less the skew apart, with no lifted delay |
| `ScanSkew.SpacingExactly` | paykit-server/src/usdt.rs:275-334 | all runs with such readings keep a gap between grants if and only if it is at most 15 s less the skew |
| `ScanSkew.RateExactly` | paykit-server/src/usdt.rs:275-334 | all runs with such readings keep the bound of 1024 in every interval of a given length if and only if it is at most 15 s less the skew |
| `ScanSpacing.GrantedExactlyAfterDelay` | paykit-server/src/usdt.rs:303-324 | a resident request is granted if and only if 15 s have passed since its last grant |
| `ScanSweep.SweepIsExact` | paykit-server/src/usdt.rs:310-334 | in every reachable state the sweep flag is set exactly when the grants since the sweep started cover the proofs, eight each, and then every candidate was offered |
| `ScanSweep.SweepKeepsSlot` | paykit-server/src/usdt.rs:118-127 | an unfinished sweep loses its slot only by five idle minutes |
| `ScanSweep.FullCoverage` | paykit-server/src/usdt.rs:118-127 | a request that is never idle for five minutes and calls with unchanged proofs keeps its slot until it was offered every candidate, after at most ceil(proofs / 8) grants |
| `ScanCalls.CallsAreGranted` | paykit-server/src/usdt.rs:303-334 | until its sweep is complete, every call of a request whose calls are 15 s apart is granted |
| `ScanCalls.SpacedCallsCover` | paykit-server/src/usdt.rs:303-334 | ceil(proofs / 8) calls at least 15 s apart and never five minutes idle are offered every candidate, whatever other requests do |
| `ScanRotation.CursorIsExact` | paykit-server/src/usdt.rs:319-324 | in every reachable cache the cursor is eight times the grants since the sweep started, modulo 2^64, whether or not the sweep is complete |
| `ScanRotation.GrantOffers` | paykit-server/src/usdt.rs:319-334 | grant number g of a sweep offers the candidates at (8g mod 2^64 + i) mod their number, eight of them or all if fewer |
| `ScanRotation.RotationExactly` | paykit-server/src/usdt.rs:303-334 | from any grant of a resident request with unchanged proofs, ceil(candidates / 8) grants offer every candidate if and only if the cursor does not wrap within them or the break at the wrap is no wider than their overlap |
| `ScanRotation.RotationGoesOn` | paykit-server/src/usdt.rs:303-334 | under that condition more grants offer every candidate too |
| `Rotation.ShowsAllExactly` | paykit-server/src/usdt.rs:319-334 | the arithmetic of it: which numbers of moves by eight in a 64-bit word show every position |
| `ScanAdmission.TurnedAwayExactly` | paykit-server/src/usdt.rs:275-302 | while nobody waits, a call is turned away if and only if its request is new, 1024 are resident and none of them is past its delay and either only reserved, completely swept or idle for five minutes |
| `ScanAdmission.LetInExactly` | paykit-server/src/usdt.rs:275-302 | a waiting request is let in if and only if somebody other than the caller may leave, unless the caller comes to use a reservation |
| `ScanAdmission.LeastRecentlyUsedGoes` | paykit-server/src/usdt.rs:118-130 | whoever is evicted was used no later than anyone else who might have been |
| `ScanAdmission.ReservationLapses` | paykit-server/src/usdt.rs:118-130 | a reservation not used for 15 s no longer keeps others out |
| `ScanAdmission.ChangedProofsAreGranted` | paykit-server/src/usdt.rs:303-318 | a resident request with other proofs is granted at once, from the first candidate |
| `ScanAdmission.GrantedExactlyAfterFinish` | paykit-server/src/usdt.rs:338-346 | after a lookup that observed everything, the request is granted again exactly from its finish on |
| `ScanFairness.RankIsDistance` | paykit-server/src/usdt.rs:132-147 | the comparison in the waiting slot is the circular distance after the last admitted key |
| `ScanFairness.AdmissionApproaches` | paykit-server/src/usdt.rs:132-147 | admitting a key on the way strictly shortens that distance |
| `ScanFairness.StepOnWaiting` | paykit-server/src/usdt.rs:275-302 | what each event does to the waiting request and to the turn |
| `ScanFairness.WaitingIsFirst` | paykit-server/src/usdt.rs:132-147 | in every reachable state the waiting request is exactly the circularly first one turned away since the last reservation |
| `ScanFairness.TurnApproaches` | paykit-server/src/usdt.rs:275-302 | while a request is turned away before every reservation, the distance falls with each reservation |
| `ScanFairness.EachOtherOnce` | paykit-server/src/usdt.rs:275-302 | meanwhile each reservation goes to a different request |
| `ScanFairness.NoStarvation` | paykit-server/src/usdt.rs:275-302 | a request that calls before each reservation is let in after at most as many reservations as there are callers |
| `ScanFairness.ReservationHonoured` | paykit-server/src/usdt.rs:118-130 | a reservation lasts the retry delay less the skew: its owner's first call with an earlier reading is granted from the first candidate |
| `SetupFlow.NextConserves` | paykit-server/src/setup.rs:509-541 | every event keeps free permits + pending flows + begins under way + live leases equal to the configured maximum |
| `SetupFlow.NextCoherent` | paykit-server/src/setup.rs:559-622 | every event keeps a flow pending exactly while it owns both attempt and permit |
| `SetupFlow.NextOneShot` | paykit-server/src/setup.rs:559-583 | every event keeps each attempt consumed at most once |
| `SetupFlow.ReachableIsValid` | paykit-server/src/setup.rs:489-622 | all three hold under every interleaving of begin, complete, expiry, cancellation and panic |
| `SetupFlow.NextFollows` | paykit-server/src/setup.rs:594-621 | one event moves the status of an issued flow only forward |
| `SetupFlow.AnswersInOrder` | paykit-server/src/setup.rs:656-674 | the answers that status calls and finished completions give about a flow are pending, then only complete or only failed, then expired, then unknown; nothing revives or overwrites (the answer after a dropped lease: `SetupCompletion.AgreesWithLater`) |
| `SetupOutcome.OutcomeExactly` | paykit-server/src/setup.rs:559-622 | from the events alone: complete if and only if the flow is there and a completion of it ended with success; failed if and only if it is there and one ended without, or its lease was dropped and it was failed; pending if and only if it is there and none of that happened |
| `SetupOutcome.CompletionAnswers` | paykit-server/src/setup.rs:594-614 | a completion that ends while its flow is there tells its caller complete exactly on success and failed otherwise; after that only expired or unknown |
| `SetupOutcome.AdmittedExactly` | paykit-server/src/setup.rs:509-514 | a begin gets a permit if and only if begins under way, pending flows and leases are together fewer than the configured maximum |
| `SetupOutcome.AttemptStays` | paykit-server/src/setup.rs:530-541 | a pending flow owns the attempt it was inserted with |
| `SetupOutcome.PendingUntilTriggered` | paykit-server/src/setup.rs:559-583 | a flow that is there is pending if and only if no completion of it was asked for |
| `SetupOutcome.TriggerHandsOut` | paykit-server/src/setup.rs:559-583 | the first call to complete a flow that is still there hands out the attempt it was inserted with; every other call hands out none |
| `SetupOutcome.LeaseIsTriggered` | paykit-server/src/setup.rs:569-583 | every lease belongs to the flow of the call that made it |
| `SetupExpiry.LivesUntilBuried` | paykit-server/src/setup.rs:730-743 | for any clock, a flow is there until the first clean-up whose reading finds it over |
| `SetupExpiry.TombstoneStays` | paykit-server/src/setup.rs:730-743 | from then on it is expired until the first clean-up a lifetime after that reading |
| `SetupExpiry.ForgottenForGood` | paykit-server/src/setup.rs:730-743 | after that clean-up it is unknown for good |
| `SetupExpiry.BuriedExactly` | paykit-server/src/setup.rs:730-760 | for any clock, after its burial a flow is unknown if and only if some clean-up has read a lifetime after it, and expired otherwise |
| `SetupExpiry.ExpiryIsExact` | paykit-server/src/setup.rs:656-674 | a status call answers with the flow's state before its lifetime is over; later it answers expired if and only if less than a lifetime has passed since the first clean-up that found the flow over, and unknown otherwise; older readings in between change nothing |
| `SetupExpiry.LateBurialProlongs` | paykit-server/src/setup.rs:730-743 | a run in which a flow is still expired two lifetimes after it was over |
| `SetupCompletion.NextOrphan` | paykit-server/src/setup.rs:191-212 | without a running completion, only a task left behind changes the status of a flow that is no longer pending |
| `SetupCompletion.DroppedExactly` | paykit-server/src/setup.rs:191-212 | after a dropped lease the flow, while it is there, has failed if and only if the lock was free or the spawned task has run; with no runtime it stays pending until it expires |
| `SetupCompletion.AgreesWithLater` | paykit-server/src/setup.rs:620-622 | what the caller of a completion is told agrees with later answers, after a dropped lease if and only if the lock was free, the spawned task has run or the flow is gone |
| `SetupCompletion.PendingUntilEnd` | paykit-server/src/setup.rs:559-583 | until its completion ends, a flow that is there answers pending |
| `SetupCompletion.AgreesWithEarlier` | paykit-server/src/setup.rs:620-622 | a failure told after a dropped lease agrees with an earlier answer if and only if the flow was still there |
| `SetupCompletion.FailedThenPending` | paykit-server/src/setup.rs:620-622 | a run in which the caller is told failed and a status call then answers pending |
| `SetupCompletion.CompletingIsWatched` | paykit-server/src/setup.rs:191-212 | a completing flow has a running completion or a task left to fail it, if and only if its lease was not dropped without a runtime |
| `SetupService.SharedState.constructor` | paykit-server/src/setup.rs:137-167 | the service starts with all permits free and no flows |
| `SetupService.SharedState.Bury` | paykit-server/src/setup.rs:730-744 | removing flows one by one leaves a tombstone for each and returns the permits of the pending ones |
| `SetupService.SharedState.CleanupExpired` | paykit-server/src/setup.rs:730-744 | drops stale tombstones and buries expired flows |
| `SetupService.SharedState.TryAcquire` | paykit-server/src/setup.rs:509-514 | takes a permit exactly if one is free |
| `SetupService.SharedState.AbandonBegin` | paykit-server/src/setup.rs:509-530 | a begin that fails gives its permit back |
| `SetupService.SharedState.InsertFlow` | paykit-server/src/setup.rs:530-541 | the begin's permit moves into the new pending flow |
| `SetupService.SharedState.ExpiredOrUnknown` | paykit-server/src/setup.rs:754-760 | a missing flow is expired exactly if it has a tombstone |
| `SetupService.SharedState.BeginCompletion` | paykit-server/src/setup.rs:559-583 | hands out the attempt of a pending flow and of no other; otherwise answers as a status call |
| `SetupService.SharedState.TakeAttempt` | paykit-server/src/setup.rs:569-583 | moves attempt and permit out of the flow into a lease |
| `SetupService.SharedState.FinishCompletion` | paykit-server/src/setup.rs:594-614 | records the outcome on the flow if it still exists and answers with the flow's state; the permit stays with the lease until it is released |
| `SetupService.SharedState.FailCancelledCompletion` | paykit-server/src/setup.rs:746-752 | marks a flow failed only if it is still completing |
| `SetupService.SharedState.DropLease` | paykit-server/src/setup.rs:191-212 | a lease dropped while armed fails its flow at once if the lock is free, leaves that to a spawned task if not, and does nothing without a runtime |
| `SetupService.SharedState.RunFailer` | paykit-server/src/setup.rs:206-210 | the task does the same later |
| `SetupService.SharedState.ReleaseReservation` | paykit-server/src/setup.rs:191-212 | the lease's permit becomes free |
| `SetupService.SharedState.Status` | paykit-server/src/setup.rs:656-674 | cleans up, then answers with the flow's state |
| `PollSlots.NextKeepsValid` | paykit-server/src/setup.rs:676-722 | each atomic step keeps both counters equal to the slots held |
| `PollSlots.CountersAreExact` | paykit-server/src/setup.rs:676-722 | under every interleaving of the two-step acquire, its undo and lease drops, the counters equal the slots held, stay in bounds, and no subtraction wraps |
| `PollSlots.NothingLeaks` | paykit-server/src/setup.rs:676-722 | once every poll is gone all counters are zero |
| `PollSlots.ReservesExactly` | paykit-server/src/setup.rs:690-722 | a poll gets a slot of its flow if and only if fewer polls than the limit hold one, and then one of the total if and only if fewer than the maximum do |
| `PollSlots.PollCounters.constructor` | paykit-server/src/setup.rs:137-167 | the counters start at zero |
| `PollSlots.PollCounters.ReserveOnFlow` | paykit-server/src/setup.rs:690-692 | reserves on the flow exactly below its limit |
| `PollSlots.PollCounters.ReserveOnTotal` | paykit-server/src/setup.rs:693-696 | reserves on the total exactly below its limit, and otherwise is refused |
| `PollSlots.PollCounters.GiveBackFlow` | paykit-server/src/setup.rs:709-714 | gives one slot of the flow back |
| `PollSlots.PollCounters.GiveBackTotal` | paykit-server/src/setup.rs:709-714 | gives one slot of the total back |
| `IpLimiter.PerIpRateLimiter.constructor` | paykit-server/src/setup.rs:257-264 | the limiter starts empty |
| `IpLimiter.PerIpRateLimiter.TryPermit` | paykit-server/src/setup.rs:266-301 | eviction loop, client bound, count and queue: the step of the model |
| `IpLimiter.EvictKeepsCorrespondence` | paykit-server/src/setup.rs:267-280 | eviction removes a prefix of the queue and exactly its windows, and only closed ones |
| `IpLimiter.PermitKeepsValid` | paykit-server/src/setup.rs:266-301 | for any clock a call keeps queue and table matched and within bounds if and only if the window it may open does not end beyond representable time |
| `IpLimiter.WindowAtTheEndOfTimeNeverCloses` | paykit-server/src/setup.rs:266-301 | an input where the match is lost |
| `IpLimiter.SurvivorsAreYoung` | paykit-server/src/setup.rs:266-301 | with readings at most `skew` late, less than a minute, queue and table stay matched and every surviving window is younger than 60 s and the skew |
| `IpLimiter.LogAlwaysFits` | paykit-server/src/setup.rs:266-301 | with such readings, the grants of an address fall into windows of at most the limit, each closed before the next is opened, the last one being the table's |
| `IpLimiter.PermitBound` | paykit-server/src/setup.rs:244-302 | with such readings, an address gets at most the limit per window and twice the limit in any interval of a minute and a nanosecond less twice the skew; so without skew in any minute |
| `IpReference.TableFollows` | paykit-server/src/setup.rs:266-301 | under a monotone clock the table is that of a reference that never cleans up, less windows that are over |
| `IpReference.PermitsExactly` | paykit-server/src/setup.rs:266-301 | under a monotone clock a call is permitted if and only if its address has an open window with count left, or has none and fewer than the client bound are open |
| `IpLimiterSkew.BoundIsExact` | paykit-server/src/setup.rs:437-443 | for every skew from one nanosecond to half a minute and every limit of three or more, a run with more than twice the limit in an interval one nanosecond longer than that |
| `IpLimiterSkew.MinuteExactly` | paykit-server/src/setup.rs:501-502 | limit by limit, all runs keep twice the limit in every minute if and only if no reading is late or, for a limit of one, none is more than half a minute late |
| `TokenBucket.SaturationIsInvisible` | paykit-server/src/http/auth.rs:139-153 | the saturating refill equals the unbounded one on every input |
| `TokenBucket.TokenBucketState.constructor` | paykit-server/src/http/auth.rs:124-132 | the bucket starts full |
| `TokenBucket.TokenBucketState.TryTake` | paykit-server/src/http/auth.rs:134-159 | the fixed-width code is the exact bucket |
| `TokenBucket.RefillComposes` | paykit-server/src/http/auth.rs:135-153 | refilling in two parts is refilling once |
| `TokenBucket.RefusedCallLosesNothing` | paykit-server/src/http/auth.rs:134-159 | a refused call changes no later answer |
| `TokenBucket.Accounting` | paykit-server/src/http/auth.rs:134-159 | between two calls the level moves by flow less grants, exactly so unless the bucket was full |
| `TokenBucket.GrantBound` | paykit-server/src/http/auth.rs:134-159 | grants between two calls are at most burst + floor(rate * time) |
| `TokenBucket.RefusesExactlyAtBound` | paykit-server/src/http/auth.rs:134-159 | a call is refused if and only if that bound is used up since some earlier call |
| `Decimal.DecimalUnitsExact` | paykit-server/src/application/invoice_pricing.rs:150-177 | parsing yields exactly what the text denotes and refuses only unreadable, zero or too large texts; no checked step refuses early |
| `Decimal.ReadableExactly` | paykit-server/src/application/invoice_pricing.rs:150-163 | a text is readable if and only if it has at most 80 bytes and is a row of digits, alone or followed by a point and at most the asset's decimals of digits |
| `Decimal.RateRoundTrip` | paykit-server/src/application/invoice_pricing.rs:139-148 | parsing a printed rate gives every nonzero 256-bit rate back, within 79 bytes |
| `Decimal.LongestRate` | paykit-server/src/application/invoice_pricing.rs:139-148 | 79 bytes are reached |
| `Decimal.AmountRoundTrip` | paykit-server/src/domain/invoice.rs:87-101 | parsing a printed amount gives every nonzero 64-bit amount of every asset back |
| `InvoicePricing.ConversionRates` | paykit-server/src/application/invoice_pricing.rs:97-137 | the loop publishes one rate per enabled asset other than the requested one, in order, or the first error |
| `InvoicePricing.FeedPriceExact` | paykit-server/src/application/invoice_pricing.rs:49-67 | the feed answers the price of ticker i if and only if i is its only BTC/USD index ticker, at most ten minutes old, with a readable positive price of at most eighteen digits; it is unavailable if there is no such ticker |
| `InvoicePricing.AcceptedPriceHasRates` | paykit-server/src/application/invoice_pricing.rs:49-137 | an accepted price is positive and below 10^18 dollars, and every rate computed from it exists |
| `InvoicePricing.BitcoinRates` | paykit-server/src/application/invoice_pricing.rs:97-137 | what a bitcoin request publishes: the price itself for USDT; unavailable without a price, invalid with a bad one, nothing if USDT is off |
| `InvoicePricing.DollarRates` | paykit-server/src/application/invoice_pricing.rs:97-137 | what a dollar asset publishes: the nearest reciprocal for bitcoin, then one for one for USDT; which price makes it unavailable or invalid; no price needed without bitcoin |
| `InvoicePricing.FirstRateIsFound` | paykit-server/src/application/invoice_pricing.rs:186-195 | the rate used is the first with the asset's name, and missing exactly if there is none |
| `InvoicePricing.ReciprocalUnwrapped` | paykit-server/src/application/invoice_pricing.rs:108-127 | no 256-bit step of the rounding wraps |
| `InvoicePricing.ReciprocalIsNearest` | paykit-server/src/application/invoice_pricing.rs:108-127 | the rate is the nearest to 10^36 / price, the even one on a tie |
| `InvoicePricing.ReciprocalIsZero` | paykit-server/src/application/invoice_pricing.rs:108-127 | the rate is zero exactly for prices of 2 * 10^36 units or more, which no feed gives |
| `InvoicePricing.PaymentUnitsExact` | paykit-server/src/application/invoice_pricing.rs:179-202 | the payment is the exact rational ceiling whenever that fits in 64 bits, and refused otherwise |
| `InvoicePricing.CeilingsAreClose` | paykit-server/src/application/invoice_pricing.rs:179-202 | the ceiling at the rounded rate and the ideal ceiling differ by at most the slack |
| `InvoicePricing.PublishedRate` | paykit-server/src/application/invoice_pricing.rs:97-148 | the published bitcoin rate reads back as the rounded, nonzero reciprocal |
| `InvoicePricing.EndToEnd` | paykit-server/src/application/invoice_pricing.rs:49-202 | from feed to satoshi, at the price of the feed's only BTC/USD ticker, any nonzero dollar amount is priced within the slack of the ideal, and refused only if it would not fit |
| `InvoicePricing.SlackIsOne` | paykit-server/src/application/invoice_pricing.rs:179-202 | the slack is one satoshi exactly up to 2 * 10^10 whole dollars |
| `InvoicePricing.BitcoinInUsdt` | paykit-server/src/application/invoice_pricing.rs:97-202 | a bitcoin amount is priced in USDT at the quote itself |
| `InvoicePricing.DollarsInUsdt` | paykit-server/src/application/invoice_pricing.rs:97-202 | cents become USDT units exactly, with no feed |
| `LifecyclePasses.TurnFacts` | paykit-server/src/server.rs:1540-1578 | a turn of the loop never runs two passes for one Creator, never exceeds the limit, and takes exactly the started ones off the pending set |
| `LifecyclePasses.SlotsAreUsed` | paykit-server/src/server.rs:1540-1578 | a slot stays free with an idle Creator pending only in a shutdown |
| `LifecyclePasses.ReachableIsValid` | paykit-server/src/workers/creator_tasks.rs:16-71 | in every run at most the limit of passes is active |
| `LifecyclePasses.HintsSurvive` | paykit-server/src/server.rs:1444-1489 | a Creator hinted since its last start is still pending |
| `LifecyclePasses.StartedComesFirst` | paykit-server/src/paykit/allowances.rs:178-203 | whoever starts stands before every idle one that does not |
| `LifecyclePasses.StandsBehind` | paykit-server/src/paykit/allowances.rs:178-203 | after its start a Creator stands behind the waiting one until its turn is forgotten |
| `LifecyclePasses.OvertakesExactly` | paykit-server/src/server.rs:1550-1577 | it gets ahead again if and only if its turn was forgotten and the waiting one has started before or has the higher id |
| `LifecyclePasses.AtMostOneStart` | paykit-server/src/server.rs:1550-1577 | while one waits, no other that stays pending, running or known starts twice |
| `LifecyclePasses.StarvationStarts` | paykit-server/src/server.rs:1540-1578 | the beginning of a run in which two unknown Creators overtake a third |
| `LifecyclePasses.StarvationCycle` | paykit-server/src/server.rs:1540-1578 | its cycle of four turns |
| `LifecycleFairness.StarvesForEver` | paykit-server/src/server.rs:1540-1578 | for every n a run with more than n starts in which a Creator is pending after every turn and never starts |
| `LifecycleFairness.StartsAreDistinct` | paykit-server/src/server.rs:1550-1577 | while one waits and nobody who starts is forgotten, each start goes to a different Creator |
| `LifecycleFairness.WaitIsBounded` | paykit-server/src/server.rs:1550-1577 | so there are fewer starts than Creators pending, running or known: the wait is bounded |
| `LifecycleFairness.PendingExactly` | paykit-server/src/server.rs:1444-1489 | a Creator is pending if and only if it was hinted or enumerated since its last start |
| `LifecycleFairness.ActiveExactly` | paykit-server/src/workers/creator_tasks.rs:39-71 | its pass is active if and only if it started and has not ended since |
| `LifecycleFairness.KnownExactly` | paykit-server/src/server.rs:1453-1480 | the known Creators are those of the last enumeration |
| `LifecycleFairness.ForgetsExactly` | paykit-server/src/server.rs:1550-1555 | a turn is forgotten if and only if its Creator is then neither pending, nor active, nor among the last enumerated |
| `LifecycleFairness.ShutdownStartsNothing` | paykit-server/src/server.rs:1556-1577 | once a shutdown was observed nothing starts any more |
| `LifecyclePasses.Scheduler.constructor` | paykit-server/src/server.rs:1444-1452 | nothing pending, nothing running |
| `LifecyclePasses.Scheduler.Receive` | paykit-server/src/server.rs:1453-1480 | what each kind of wake-up does to the pending, running and known Creators |
| `LifecyclePasses.Scheduler.Order` | paykit-server/src/paykit/allowances.rs:188-196 | forgets turns of Creators that are not ready and orders the others, least recently started first |
| `LifecyclePasses.Scheduler.TrySpawn` | paykit-server/src/workers/creator_tasks.rs:39-52 | spawns exactly if admission is open, a slot is free and the Creator is not active |
| `LifecyclePasses.Scheduler.StartIfIdle` | paykit-server/src/server.rs:1556-1577 | one round of the loop |
| `LifecyclePasses.Scheduler.StartPasses` | paykit-server/src/server.rs:1540-1578 | the whole loop starts exactly the first idle pending Creators in order that fit |
| `LifecycleReadiness.Tracker.constructor` | paykit-server/src/server.rs:1506-1509 | not available at first |
| `LifecycleReadiness.Tracker.FullPass` | paykit-server/src/server.rs:1512-1516 | an enumeration starts a check only if none is running |
| `LifecycleReadiness.Tracker.Fail` | paykit-server/src/server.rs:1518-1521 | a failure ends the check and withdraws availability |
| `LifecycleReadiness.Tracker.Complete` | paykit-server/src/server.rs:1523-1530 | a completion removes its Creator from the check, a failed one ends it |
| `LifecycleReadiness.Tracker.PublishIfComplete` | paykit-server/src/server.rs:1532-1537 | an emptied check publishes availability |
| `LifecycleReadiness.AlwaysExplained` | paykit-server/src/server.rs:1504-1538 | after any events the check holds exactly the Creators of the first enumeration since the last failure that have not completed since |
| `LifecycleReadiness.AvailableExactly` | paykit-server/src/server.rs:1504-1538 | available if and only if there is such an enumeration and all its Creators completed successfully after it |
| `LifecycleReadiness.FirstEnumerationMeaning` | paykit-server/src/server.rs:1504-1538 | what being that enumeration means, in terms of the events |
| `MutationLocks.NextKeepsValid` | paykit-server/src/paykit.rs:1170-1183 | each lookup, copy, drop, acquisition and release keeps every held lock registered under its key |
| `MutationLocks.ReachableIsValid` | paykit-server/src/paykit.rs:1170-1183 | so does every run |
| `MutationLocks.OneLockPerKey` | paykit-server/src/application/marketplace_preparation.rs:509-528 | two holders hold the same lock if and only if they asked for the same key |
| `MutationLocks.MutualExclusion` | paykit-server/src/paykit.rs:1170-1183 | at most one holder at a time owns the fence of a key |
| `MutationLocks.LookupPrunes` | paykit-server/src/paykit.rs:1176-1181 | after a lookup the registry has exactly the keys whose lock is held |
| `MutationLocks.LookupGives` | paykit-server/src/paykit.rs:1170-1183 | a lookup gives the lock somebody holds for the key, and a new one exactly if nobody does |
| `MutationLocks.Registry.constructor` | paykit-server/src/paykit.rs:1171-1172 | the registry starts empty |
| `MutationLocks.Registry.LockFor` | paykit-server/src/paykit.rs:1170-1183 | returns the live lock of the key, or registers a new one |
| `PeerReads.NextKeepsValid` | paykit-server/src/application/connection_status.rs:103-157 | each event keeps a caller's unfinished read registered under its key, with at most one reader |
| `PeerReads.ReachableIsValid` | paykit-server/src/application/connection_status.rs:103-157 | so does every run |
| `PeerReads.OneReadPerKey` | paykit-server/src/application/connection_status.rs:138-157 | at most one read per Creator and Reader is unfinished |
| `PeerReads.ResultsAreFinished` | paykit-server/src/application/connection_status.rs:121-124 | a cell gets its result only from a read finished meanwhile |
| `PeerReads.NoStaleResult` | paykit-server/src/application/connection_status.rs:103-157 | a delivered answer is that of a read finished after the caller asked |
| `PeerReads.AskPrunes` | paykit-server/src/application/connection_status.rs:147-157 | after a call the registry has exactly the keys with an unfinished read somebody waits for |
| `PeerReads.AskShares` | paykit-server/src/application/connection_status.rs:147-157 | a call joins the unfinished read of its key that somebody waits for |
| `PeerReads.FinishedIsAnswered` | paykit-server/src/application/connection_status.rs:121-124 | once a read is finished, everybody still waiting for it can have its answer and no other |
| `PeerReads.PendingReads.constructor` | paykit-server/src/application/connection_status.rs:92-101 | the registry starts empty |
| `PeerReads.PendingReads.PendingPeerState` | paykit-server/src/application/connection_status.rs:138-157 | returns the unfinished live read of the key, or registers a new one |
| `PaymentBindings.BindingsAgree` | paykit-server/src/bitcoin.rs:152-195 | the stored and the domain form agree on finality and on replacement, and report the same confirmations if and only if the output is present or was stored with none |
| `PaymentBindings.StoreFollowsDomain` | paykit-server/src/domain/payment.rs:196-253 | every accepted observation does to the stored form what the domain form's own constructors and regression do |
| `PaymentBindings.RefusedExactly` | paykit-server/src/persistence/invoices.rs:1205-1274 | a report is refused if and only if its confirmations exceed 31 bits, or its output is stored for another owner or at another amount |
| `PaymentBindings.TakenExactly` | paykit-server/src/persistence/invoices.rs:1290-1345 | any other report is bound and stored as seen if the binding gives way to it, and otherwise changes nothing |
| `PaymentBindings.TrackedIsUpdated` | paykit-server/src/persistence/invoices.rs:1290-1345 | a report about the bound output is stored until the binding is final |
| `PaymentBindings.NewIsBound` | paykit-server/src/persistence/invoices.rs:1290-1345 | a present output new to the store is bound when the binding is replaceable |
| `PaymentBindings.ReachableIsValid` | paykit-server/src/persistence/invoices.rs:1251-1274 | the active output always has this invoice's row, at that row's amount |
| `PaymentBindings.FrozenStep` | paykit-server/src/persistence/invoices.rs:1290-1345 | a confirmed output that pays stays bound through any event, and stays frozen exactly unless stored as gone or unconfirmed |
| `PaymentBindings.ConfirmedMatchStays` | paykit-server/src/bitcoin.rs:176-195 | over any run such an output is given up only after it was stored as gone or unconfirmed |
| `PaymentBindings.FinalIsForever` | paykit-server/src/persistence/invoices.rs:1290-1300 | a final binding is never changed again |
| `PaymentBindings.RowsAreFixed` | paykit-server/src/persistence/invoices.rs:1251-1274 | a bound invoice stays bound, and an output keeps its owner and amount |
| `PaymentBindings.ReportsAgree` | paykit-server/src/bitcoin.rs:156-162 | if absences come without confirmations, both forms always report the same |
| `LifecycleAggregate.ParseInvertsName` | paykit-server/src/domain/payment_request_lifecycle.rs:27-54 | the persisted spellings parse back, and nothing else parses to a state |
| `LifecycleAggregate.AttemptOrder` | paykit-server/src/domain/payment_request_lifecycle.rs:116-127 | rank, time and spelling order attempts totally, with no ties between different ones |
| `LifecycleAggregate.AggregateIsMaximum` | paykit-server/src/domain/payment_request_lifecycle.rs:120-132 | the aggregate is the greatest attempt, and missing exactly for no attempts |
| `LifecycleAggregate.AggregateExactly` | paykit-server/src/domain/payment_request_lifecycle.rs:116-146 | the aggregate, from the attempts alone: of the strongest open stage that occurs, in a spelled-out order, the latest; if all are terminal, the latest, the greatest spelling on equal times |
| `LifecycleAggregate.OrderIsInvisible` | paykit-server/src/domain/payment_request_lifecycle.rs:116-132 | neither the order nor the repetition of rows can be seen |
| `LifecycleAggregate.AggregateMerges` | paykit-server/src/domain/payment_request_lifecycle.rs:120-132 | aggregating two parts and taking the better gives the whole |
| `LifecycleAggregate.TerminalExactly` | paykit-server/src/domain/payment_request_lifecycle.rs:134-146 | the aggregate is terminal if and only if every attempt is |
| `LifecycleAggregate.CursorsAdvance` | paykit-server/src/persistence/payment_request_lifecycles.rs:537-568 | in any history neither cursor nor the event time goes back |
| `LifecycleAggregate.TakenExactly` | paykit-server/src/persistence/payment_request_lifecycles.rs:537-568 | which snapshots are taken: with cursors moved on, unless the time goes back or an expired proposal would be renewed; with equal cursors, only with the same state event and time not going back, and for the same stage, an expiry or a recovery |
| `LifecycleAggregate.RegressedExactly` | paykit-server/src/persistence/payment_request_lifecycles.rs:821-827 | a cursor goes back if and only if it disappears or falls |
| `LifecycleAggregate.StandingCursors` | paykit-server/src/domain/payment_request_lifecycle.rs:57-71 | while the cursors stand still the state event stays, a conflict is neither entered nor left, and without a recovery a proposal can only expire |
| `LifecycleAggregate.ReachableExactly` | paykit-server/src/domain/payment_request_lifecycle.rs:57-71 | which states can follow with everything else unchanged: any from any, except that a conflict is entered and left never |
| `LifecycleAggregate.ExpiredReturnsThroughRecovery` | paykit-server/src/persistence/payment_request_lifecycles.rs:553-568 | an expired proposal is refused as proposed, but reaches it through a recovery |

## Left out

- The PostgreSQL stores, apart from the two row updates modelled in `PaymentBindings.dfy` and `LifecycleAggregate.dfy`; invoices of the second provider version, which replace bindings freely, are not among them.
- Cryptography, key derivation, hashing and envelopes; two proof lists with one fingerprint are not modelled.
- The Paykit SDK, Pubky, Electrum, Arbitrum and relay clients, and what their calls return.
- The USDT chain-tip cache, which shares one reading of the chain's head for a short time, and the confirmation counts computed from it: not modelled.
- The Electrum readiness (a count of failures and the time since the last success), the record of identity reads and the doubling retry delays of `server.rs`: not modelled.
- The transport maintenance pass of `server.rs`, which runs one bounded task per Creator and joins their results: not modelled beyond the task slots it shares with the lifecycle passes.
- HTTP routing, authentication of signatures, JSON, configuration, metrics and logs.
- The long pipelines that create invoices and prepare Marketplace payments.
- Wake-ups and time-outs of a long poll: only its slots are modelled.
- Clock values beyond what an `Instant` can hold in the scan cache and the token bucket.
- Poisoned mutexes, and memory reclamation other than the weak references themselves.
- Liveness that depends on the scheduler of the runtime: fairness is stated over the events that do happen.
- MutationLocks.MutualExclusion: the asynchronous mutex itself is taken to admit one owner; its waiting queue is not modelled.
- PeerReads.OneReadPerKey: the initialisation cell is taken to admit one initialiser at a time and to let another caller retry after a cancellation.
