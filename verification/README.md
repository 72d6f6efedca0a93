# A verified model of the coordinator's logic

This project models, in Dafny 4.11, the decision logic of an open inference mesh: a coordinator that
hands inference jobs to independently run nodes, and the parts of the node agent, the dashboard and
the phone app that must agree with it. It proves what that logic promises over every input, every
order of map iteration, and every interleaving of its goroutines. `dafny verify dfyconfig.toml` checks
everything.

| file | what it models |
|---|---|
| `PullDispatch.dfy` | the pull protocol: mailbox, waiters, claims, submissions, as an object and as a transition system |
| `CanonicalJson.dfy` | the canonical JSON printer behind output checksums, with a parser that undoes it |
| `HashRing.dfy` | the consistent-hash ring behind prompt affinity |
| `Words.dfy`, `Sha256.dfy`, `Fips180.dfy`, `ProofOfWork.dfy` | FIPS 180-4, the dashboard's in-place SHA-256, what its functions and constants are, and the two miners |
| `ExpertShares.dfy`, `ExpertTies.dfy`, `MoePlanner.dfy`, `LoadImbalance.dfy` | expert placement by largest remainders, token routing, imbalance detection |
| `JobQueue.dfy` | queue capacity, one worker's retry loop, and the queue as a concurrent system |
| `Registry.dfy`, `InFlight.dfy`, `Router.dfy` | liveness, cluster de-duplication; the in-flight counters under concurrency; ranking and the dispatch loop |
| `FanOut.dfy`, `Decomposer.dfy`, `RouteDecomposition.dfy` | concurrent fan-out of sub-tasks, decomposition, verify-then-merge |
| `TtlStores.dfy`, `AdminAuth.dfy` | single-use reservations, admin challenges and sessions |
| `Splitter.dfy` | document splitting |
| `Pricing.dfy`, `Ledgers.dfy`, `Credits.dfy` | charges and rewards; the ledger; the credit gate, crediting, debiting and conservation |
| `MemoryCommit.dfy` | how much memory a node commits |
| `HintValidator.dfy` | routing hints |
| `Ordering.dfy`, `Numerals.dfy`, `Wrappers.dfy` | orders, sorting, sums, numerals, an option type |

## How the code is modelled

- Methods that change fields are methods of a class here. Code that runs concurrently is given a second
  time as a transition system whose steps are the critical sections and channel operations, and the
  theorems quantify over all its runs.
- Go's `sort.Slice` is not stable: `Ordering.SortSlice` promises a sorted permutation and no more. Map
  iteration picks any remaining key. Random picks are arbitrary.
- Go floats are real numbers, and JavaScript numbers are integers with the truncations written out.
  Prices are whole ten-thousandths of a credit, since the program rounds them to four decimals.
- Strings are sequences of characters compared by character; where the program counts bytes a character
  stands for one byte. JSON number literals are opaque texts.
- The clock is an argument. FNV-1a, the checksum digest, signatures, the classifier and the behaviour of
  nodes are arbitrary functions, relations or values passed in.

## Where the code and its promises part

Each of these is a lemma with an exact condition or a witness for a whole family of inputs.

- A pull node's answer belongs to the Dispatch that returns it only while job IDs are not reused; for
  every reused ID a retried submission, or an output that comes after the first call gave up, can answer
  the wrong call (`AnswerIsOwn`, `ReusedIdCrossesAnswers`, `LateOutputAnswersNextCall`). The router's
  fallback reuses a job ID for its next node.
- A call under its own job ID accepts at most one result exactly when its result is not submitted twice
  (`AcceptsAtMostOneIff`, `AcceptedWithinSubmissions`). With a second submission two can be accepted
  (`SecondAcceptHappens`), though never more, and only one is returned.
- Hash ring answers are independent of member order exactly when the key has one owner
  (`OrderIndependentIffOneOwner`); the promises that a departure moves only the departed member's keys,
  and that an arrival moves keys only to the new member, have exact conditions too
  (`RemovalMovesOnlyItsKeysIff`, `AdditionMovesOnlyToNewIff`).
- The dashboard's SHA-256 writes only the low word of the message length: its padding is the standard's
  exactly below 2^32 bits (`PaddingMatchesStandard`). From 2^31 - 72 bytes on its buffer size is negative
  or too small, and it throws.
- Every expert plan is complete, however the unstable sort breaks ties, exactly when no two candidates
  under one node ID may both get experts, which can be read off their shares
  (`EveryPlanIsCompleteIff`).
- The soft queue capacity bounds the channel exactly when at most one caller is between its check and its
  send (`CapacityHoldsIff`); with k callers the excess is at most k - 1, and that is reached (`SteadyBound`,
  `SteadyBoundIsReached`). Lowering the capacity leaves a backlog above it, which then only shrinks
  (`LoweringLeavesBacklog`, `NoAdmissionAbove`). A node that claims a negative throughput can shrink the
  queue (`GrowthIff`).
- In the `peers` topology shape two devices of one ring compute the same signature only if each one's
  mesh node ID is its Exo ID (`PeersShapeAgreesIff`).
- The fallback order after the first node is best-first, as the comment at
  `internal/coordinator/router.go:179-183` says, unless the affinity node, or without one a third node tied
  for second, overtakes one worse than the best (`FallbackOrderIff`, `FallbackOrderForSomeHashIff`,
  `SlowestPromoted`).
- An in-flight counter is not floored at zero at every moment: after a registration amid dispatches it can
  be any amount below, until the dispatches that took it there store zero (`CounterFallsBelowZero`,
  `BelowZeroIsTransient`). It never stays above zero when all is quiet (`QuietMeansZero`).
- A ring's signature identifies the listed IDs only if no ID contains a comma (`SignatureIgnoresOrder`,
  `SeparatorMixesIDs`).
- A parallelism limit below the number of analytical sub-tasks drops the rest of them from the merge
  (`AllAnalyticalIff`). The merge goes to a node without a sub-task exactly when the answers name every
  node that had one and leave another unnamed (`MergeAvoidsParticipantsIff`); nothing in the repository
  makes answers name their nodes (`MergeGoesToAParticipant`).
- A clock that goes back loses reservations (`ClockGoingBackLosesReservation`, `SweepingMattersIff`).
- The nearest boundary does not always give the nearest cut (`CutIsNearestIff`, `FartherCutChosen`).
- The credit gate keeps what orderly requests mint paid for, under every schedule, exactly when the
  operator did not opt in to anonymous callers and no user has two requests open at once
  (`GateKeepsBooksIff`; `OverlapMintsUnpaid`, `AnonymousMintsUnpaid`). Requests of different users may
  overlap freely. A request without interference mints unpaid exactly when its node can be paid and the
  gate's terms do not hold (`NeverUnpaidIff`): besides the anonymous caller, a price above the estimate
  because the node counts more tokens or activity rose (`MoreTokensCostMore`, `RisenActivityCostsMore`), or
  a debit that cannot be recorded.
- A single machine of 128 GB or more is not clamped to its free memory, nor is a cluster without reported
  sizes: for shares up to 1 a node is safe exactly when it is clamped or all its memory is free to give
  (`SafeForEveryShareIff`, `LargeMachineIsUnclamped`).
- No router version can read as two behind (`NeverTwoBehind`), and the weight cap of 0.95 is never reached.

## Model

| member | source | states |
|---|---|---|
| PullDispatch.PullDispatcher.QueueFor | internal/coordinator/pulldispatch.go:67-76 | a node's queue is created empty on first use and otherwise untouched |
| PullDispatch.PullDispatcher.Register | internal/coordinator/pulldispatch.go:84-88 | the waiter entry of the job ID points to the new call's empty channel |
| PullDispatch.PullDispatcher.Unregister | internal/coordinator/pulldispatch.go:89-93 | a finishing Dispatch removes the entry of its job ID, whoever owns it |
| PullDispatch.PullDispatcher.Offer | internal/coordinator/pulldispatch.go:98-104 | the job is appended to the node's queue when fewer than 16 wait there, unless the caller is done and that wins |
| PullDispatch.PullDispatcher.Claim | internal/coordinator/pulldispatch.go:118-126 | takes the oldest job of the node's queue, or nothing |
| PullDispatch.PullDispatcher.Lookup | internal/coordinator/pulldispatch.go:132-138 | the waiter's channel at the moment of the lookup, before the unlock |
| PullDispatch.PullDispatcher.Send | internal/coordinator/pulldispatch.go:139-145 | delivered exactly when the one place is free; otherwise nothing changes |
| PullDispatch.PullDispatcher.Receive | internal/coordinator/pulldispatch.go:106-108 | takes what is in the channel and empties it |
| PullDispatch.RunKeepsInv | internal/coordinator/pulldispatch.go:82-146 | the inductive invariant (waiters, channels, queues, provenance, executions) holds after every interleaving |
| PullDispatch.ClaimedOnceInOrder | internal/coordinator/pulldispatch.go:95-126 | jobs offered to a node are claimed in the order offered, each at most once, by that node, and at most 16 wait |
| PullDispatch.NoWaiterOutlivesItsDispatch | internal/coordinator/pulldispatch.go:86-93 | a waiter entry always belongs to a Dispatch that has not returned, under its own job ID |
| PullDispatch.ExecutionIsGenuine | internal/agent/pull.go:54-67 | every execution is of a job that some Dispatch offered to that very node |
| PullDispatch.AnswerIsOwn | internal/coordinator/pulldispatch.go:82-112 | a Dispatch whose job ID no other call carries returns the outcome its own node produced for its own job |
| PullDispatch.AnswerIsProduced | internal/coordinator/pulldispatch.go:132-146 | with no assumption: an answer is the outcome of some execution under the same job ID |
| PullDispatch.ReusedIdCrossesAnswers | internal/coordinator/pulldispatch.go:86-93 | for every reused job ID a run exists in which the second call returns the first node's outcome |
| PullDispatch.LateOutputAnswersNextCall | internal/coordinator/router.go:315-329 | the fallback's own reuse: the first call gave up, and its node's late output answers the call to the next node |
| PullDispatch.AcceptedWithinSubmissions | internal/coordinator/pulldispatch.go:128-146 | over every run, a call under its own job ID accepts no more results than were submitted for it |
| PullDispatch.AcceptsAtMostOneIff | internal/coordinator/pulldispatch.go:128-146 | over all runs, at most one acceptance under an own job ID is guaranteed by at most n submissions exactly when n is at most 1 |
| PullDispatch.AcceptsAtMostTwo | internal/coordinator/pulldispatch.go:132-146 | whatever is submitted and reused, a channel accepts at most two results, and two only after the first was taken |
| PullDispatch.SecondAcceptHappens | internal/coordinator/pulldispatch.go:128-146 | for every job ID, node, payload and outcome, two submissions can both be accepted; the call returns one copy and the other is left in its slot |
| CanonicalJson.CanonicalJson | internal/coordinator/parallelverifier.go:56-89 | whatever order the fields come in, the bytes are the canonical text of the value, keys sorted |
| CanonicalJson.Marshal | internal/coordinator/parallelverifier.go:66-76 | nested values are printed canonically at every depth |
| CanonicalJson.RoundTrip | internal/coordinator/parallelverifier.go:56-89 | parsing a printed value followed by any delimited text gives the value back and leaves the text |
| CanonicalJson.EqualBytesIffEqualValues | internal/coordinator/parallelverifier.go:39-41 | two values print to the same bytes exactly when they are equal |
| CanonicalJson.ComputeOutputChecksum | internal/coordinator/parallelverifier.go:45-52 | the digest of the canonical text |
| CanonicalJson.ChecksumMeaning | internal/coordinator/parallelverifier.go:39-52 | equal outputs have equal checksums, and unequal ones share a checksum only through a digest collision |
| CanonicalJson.PrintIsHarmless | internal/coordinator/parallelverifier.go:66-76 | printed text has no control character, no "<", ">" or "&", and no line separator |
| CanonicalJson.PlainIsVerbatim | internal/coordinator/parallelverifier.go:66-76 | text that needs no escape is printed as it is |
| CanonicalJson.KeysInOrder | internal/coordinator/parallelverifier.go:56-65 | an object's text starts with its least key in byte order and goes on as the text of the rest |
| HashRing.NewHashRing | internal/coordinator/consistenthash.go:45-54 | the points are exactly the 512 virtual points of each member, in hash order |
| HashRing.Search | internal/coordinator/consistenthash.go:64 | binary search finds the first hash at or after a value |
| HashRing.Get | internal/coordinator/consistenthash.go:59-69 | the member of the first point at or after the key's hash, or of the first of all if there is none |
| HashRing.RingMeans | internal/coordinator/consistenthash.go:45-54 | the points are hashed from the member, "#" and a number below 512, and stand in hash order |
| HashRing.PointTextsDiffer | internal/coordinator/consistenthash.go:45-54 | different points are hashed from different texts |
| HashRing.LookupIsOwner | internal/coordinator/consistenthash.go:56-69 | a lookup returns a member with a point no other point is strictly closer to, clockwise, than |
| HashRing.OwnerIsLookup | internal/coordinator/consistenthash.go:52 | every owner is returned by some ring over the same members: ties are decided by the unstable sort |
| HashRing.OrderIndependentIffOneOwner | internal/coordinator/consistenthash.go:45-69 | all rings over the same members agree on a key exactly when its owner is unique |
| HashRing.NoTiesOneOwner | internal/coordinator/consistenthash.go:29-36 | when no two members share a point hash every key has one owner |
| HashRing.RemovalMovesOnlyItsKeysIff | internal/coordinator/consistenthash.go:29-36 | removing a member leaves a key it did not answer alone exactly when the key has one owner among those that stay |
| HashRing.AdditionMovesOnlyToNewIff | internal/coordinator/consistenthash.go:29-36 | adding a member leaves a key where it was or moves it to the new member, on every ring, exactly when the key had one owner or the new member takes it from all |
| Sha256.ZeroBitsAreLeast | dashboard/src/pow.ts:31-38 | the number of zero bits is the least solution of the congruence in section 5.1.1 of FIPS 180-4 |
| Sha256.PadBuffer | dashboard/src/pow.ts:31-38 | throws exactly from 2^31 - 72 bytes on; else the padded buffer is the message, 0x80, zeros, and the low word of the bit length |
| Sha256.PaddingMatchesStandard | dashboard/src/pow.ts:31-38 | what is padded is the standard's padding exactly when the message has fewer than 2^32 bits |
| Sha256.ExpandSchedule | dashboard/src/pow.ts:42-47 | the in-place array holds the message schedule of section 6.2.2 |
| Sha256.OneRound | dashboard/src/pow.ts:49-58 | the eight working variables, as words, take one round of section 6.2.2 |
| Sha256.CompressBlock | dashboard/src/pow.ts:41-61 | the in-place state becomes the compression of the old state with the block |
| Sha256.HashBuffer | dashboard/src/pow.ts:40-61 | all blocks in turn, from the initial hash value |
| Sha256.Sha256 | dashboard/src/pow.ts:25-67 | the output is the FIPS 180-4 digest of every message shorter than 2^32 bits |
| Words.BitsOfOperations | dashboard/src/pow.ts:21-23 | the bitwise operations and shifts by what they do to each binary digit |
| Fips180.RotrBit | dashboard/src/pow.ts:21-23 | a rotation moves every bit down around the end |
| Fips180.ChoiceAndMajority | dashboard/src/pow.ts:49-58 | each bit of Ch and of Maj |
| Fips180.SumsAndSigmas | dashboard/src/pow.ts:42-55 | each bit of the four functions, with their rotations and shifts |
| Fips180.ScheduleEntry | dashboard/src/pow.ts:42-47 | the message schedule of section 6.2.2, step 1 |
| Fips180.RoundMeans | dashboard/src/pow.ts:49-58 | the round of section 6.2.2, step 3, in one sum for each of its two new values |
| Fips180.FirstEight | dashboard/src/pow.ts:10-19 | the first eight round constants are the fractions of the cube roots of the first eight primes |
| Fips180.SecondEight | dashboard/src/pow.ts:10-19 | and so on for the primes 23 to 53 |
| Fips180.ThirdEight | dashboard/src/pow.ts:10-19 | for 59 to 89 |
| Fips180.FourthEight | dashboard/src/pow.ts:10-19 | for 97 to 131 |
| Fips180.FifthEight | dashboard/src/pow.ts:10-19 | for 137 to 173 |
| Fips180.SixthEight | dashboard/src/pow.ts:10-19 | for 179 to 223 |
| Fips180.SeventhEight | dashboard/src/pow.ts:10-19 | for 227 to 263 |
| Fips180.EighthEight | dashboard/src/pow.ts:10-19 | for 269 to 311 |
| Fips180.InitialValue | dashboard/src/pow.ts:26-29 | the initial hash value is the fractions of the square roots of the first eight primes |
| ProofOfWork.CountLeadingZeroBits | dashboard/src/pow.ts:69-79 | the byte and mask loops count the leading zero bits |
| ProofOfWork.LeadingZerosMeaning | internal/settlement/pow.go:35-50 | having at least k leading zero bits is being, as a number, below 2^(8n - k) |
| ProofOfWork.AcceptsIff | internal/settlement/pow.go:22-33 | a nonce is accepted exactly when the digest of the user ID and the nonce's eight bytes, high first, is below 2^(256 - difficulty) as a number |
| ProofOfWork.WriteNonce | dashboard/src/pow.ts:97-100 | the buffer's last eight bytes are the nonce, big-endian, from two 32-bit words |
| ProofOfWork.WriteNonceBytewise | OIMDashboard/Shared/ProofOfWork.swift:24-31 | the byte-wise loop writes the same eight bytes |
| ProofOfWork.Mine | dashboard/src/pow.ts:89-104 | returns the least accepted nonce, or fails exactly when no safe integer is accepted |
| ProofOfWork.MineStartupGrant | OIMDashboard/Shared/ProofOfWork.swift:16-37 | returns the least accepted nonce when there is one |
| ProofOfWork.LeastNonceIsUnique | internal/settlement/pow.go:22-33 | the two miners find the same nonce, and the coordinator accepts it |
| ExpertShares.SharesAddUp | internal/coordinator/moe_planner.go:50-52 | the exact proportional shares add up to all the experts |
| ExpertShares.LeftoverFits | internal/coordinator/moe_planner.go:58-62 | the leftover loop stays in range and rounds up only nodes with a fractional part |
| ExpertShares.RoundUp | internal/coordinator/moe_planner.go:60-62 | one more expert for each node at the head of the sorted remainders and for no other |
| ExpertShares.Apportion | internal/coordinator/moe_planner.go:41-62 | counts sum exactly to the total, each is the floor or ceiling of its share, and larger remainders are rounded up first |
| ExpertShares.MoreMemoryNeverFewer | internal/coordinator/moe_planner.go:41-62 | a node with more capacity never gets fewer experts |
| MoePlanner.PlanMoEExpertAssignment | internal/coordinator/moe_planner.go:18-89 | errors exactly for no candidates and no experts; otherwise an apportionment laid out in node-ID order |
| MoePlanner.AssignBlocks | internal/coordinator/moe_planner.go:75-87 | the final loop builds the layout of the sorted entries, later entries overwriting earlier ones of the same ID |
| ExpertTies.BothGetIff | internal/coordinator/moe_planner.go:58-62 | two nodes both get experts in some apportionment exactly when the nodes that must be rounded up for it are no more than the leftover experts |
| MoePlanner.PlanPartitionsIff | internal/coordinator/moe_planner.go:64-88 | no expert has two holders and blocks are contiguous in node-ID order; every expert has a holder exactly when no ID is repeated with experts |
| MoePlanner.EveryPlanIsCompleteIff | internal/coordinator/moe_planner.go:41-88 | every plan of some candidates gives each expert a holder exactly when no two of them with one ID may both get experts, by their shares |
| MoePlanner.PlanIsPartition | internal/coordinator/moe_planner.go:64-88 | with distinct IDs the plan partitions the experts, and more capacity never means fewer |
| MoePlanner.LoadIsShare | internal/coordinator/moe_planner.go:41-42 | with distinct IDs every node holds the floor or ceiling of its exact share |
| MoePlanner.LoadFollowsMemory | internal/coordinator/moe_planner.go:31-52 | with distinct IDs a node's load is its part of the experts in proportion to memory times offered share, or 1 where that is not positive, to within one expert |
| MoePlanner.RepeatedIdLosesExperts | internal/coordinator/moe_planner.go:86 | two candidates under one ID with a share of at least one expert each: every plan loses experts |
| MoePlanner.RouteTokenToExpertNode | internal/coordinator/moe_planner.go:102-141 | the first named expert's node, or an error exactly when none is named or nobody holds it |
| MoePlanner.FirstExpert | internal/coordinator/moe_planner.go:102-130 | the first activated expert decides, other entries of a mixed list are read past, and the single expert counts only without an entry for activated ones |
| MoePlanner.RouteFindsTheHolder | internal/coordinator/moe_planner.go:91-92 | in a plan of distinct IDs an expert of the model has one holder and no other number has any |
| LoadImbalance.DetectExpertLoadImbalance | internal/coordinator/moe_planner.go:152-194 | the sorted list of exactly the nodes above twice their expected activations |
| LoadImbalance.OverloadedIff | internal/coordinator/moe_planner.go:152-194 | a node is flagged exactly when its part of all activations is more than twice its part of all experts |
| LoadImbalance.FlaggedHoldUnderHalf | internal/coordinator/moe_planner.go:152-194 | on disjoint assignments and non-negative counts the flagged nodes hold fewer than half of all experts |
| JobQueue.ComputeQueueCapacity | internal/coordinator/queue.go:106-123 | the accumulator loop computes the clamped larger of throughput slots and node slots |
| JobQueue.CapacityMeaning | internal/coordinator/queue.go:106-123 | the capacity by the bounds that leave no other number: a slot per two tokens a second, three per live node, between 10 and 500 |
| JobQueue.CapacityIgnoresOrder | internal/coordinator/queue.go:106-123 | the order of the snapshot does not matter |
| JobQueue.GrowthIff | internal/coordinator/queue.go:101-105 | a joining node never shrinks any queue exactly when it is not live or claims no negative throughput |
| JobQueue.BoundedQueue.TrySend | internal/coordinator/queue.go:155-159 | appends exactly when fewer than 500 jobs wait |
| JobQueue.BoundedQueue.Receive | internal/coordinator/queue.go:184-193 | takes the oldest job |
| JobQueue.BoundedQueue.Retarget | internal/coordinator/queue.go:88-99 | the capacity follows the network |
| JobQueue.BoundedQueue.Enqueue | internal/coordinator/queue.go:138-159 | admits exactly below the soft and the hard limit; no timeout means the default one |
| JobQueue.ProcessJob | internal/coordinator/queue.go:195-226 | terminates and leaves exactly one answer: the data of a dispatch that was made and succeeded, exactly if there is one; the deadline, a shutdown or a caller who gave up exactly when the last turn met them; turns begin 400 ms and more apart |
| JobQueue.DispatchesAreBounded | internal/coordinator/queue.go:195-226 | the time to the deadline bounds the dispatches: at most 76 under the default timeout |
| JobQueue.ExactlyOnePlace | internal/coordinator/queue.go:138-193 | every admitted job is once in the channel, with one worker, or answered; nothing is lost or duplicated |
| JobQueue.WorkerNeverBlocks | internal/coordinator/queue.go:152-166 | a worker with an answer always finds the slot empty |
| JobQueue.AnswersAreFinal | internal/coordinator/queue.go:160-165 | an answer is never replaced |
| JobQueue.QueueIsBoundedFifo | internal/coordinator/queue.go:73-83 | at most 500 jobs wait, capacity stays within 10 and 500, and jobs leave in the order admitted |
| JobQueue.CapacityBound | internal/coordinator/queue.go:138-159 | with at most k callers between check and send, admitted and waiting jobs never exceed the greatest capacity so far by k or more |
| JobQueue.SteadyBound | internal/coordinator/queue.go:138-159 | and while the capacity stays, they never exceed it by k or more |
| JobQueue.SteadyBoundIsReached | internal/coordinator/queue.go:142-159 | for every capacity and k within the hard limit some run reaches that bound |
| JobQueue.CapacityHoldsIff | internal/coordinator/queue.go:138-159 | the capacity bounds the channel over all runs exactly when at most one caller at a time is between check and send |
| JobQueue.LoweringLeavesBacklog | internal/coordinator/queue.go:88-99 | lowering the capacity leaves any backlog up to 500 above it |
| JobQueue.NoAdmissionAbove | internal/coordinator/queue.go:142-147 | at or above the capacity nobody passes the check, and the load never grows |
| JobQueue.SoftLimitOvershoots | internal/coordinator/queue.go:142-159 | with enough callers every length up to 500 is reached while the capacity is 10 |
| Registry.NodeRegistry.Register | internal/coordinator/registry.go:166-189 | accepts exactly a matching ID with a good signature, with a fresh entry under the node's own ID |
| Registry.NodeRegistry.Refresh | internal/coordinator/registry.go:192-203 | updates a known entry; keys keep matching manifests exactly when the manifest is the node's own |
| Registry.NodeRegistry.MarkUnreachable | internal/coordinator/registry.go:223-229 | sets the flag of a known node and nothing else |
| Registry.NodeRegistry.MarkSeen | internal/coordinator/registry.go:249-256 | a known node is live afterwards |
| Registry.NodeRegistry.IncrInFlight | internal/coordinator/registry.go:415-422 | one more for a known node |
| Registry.NodeRegistry.DecrInFlight | internal/coordinator/registry.go:425-435 | one less, never below zero |
| Registry.NodeRegistry.RecordObservedThroughput | internal/coordinator/registry.go:75-89 | positive samples are folded into the known node's rolling average |
| Registry.OneEntryChanges | internal/coordinator/registry.go:75-89 | marking, loading and measuring change one field group of the one entry: the flag; the counter by one, not below zero; the average by 0.3 of a positive sample |
| Registry.AverageStaysInRange | internal/coordinator/registry.go:66-89 | the average stays between the least and greatest accepted sample |
| Registry.NodeRegistry.RunEviction | internal/coordinator/registry.go:151-162 | removes exactly the entries older than five minutes |
| Registry.EvictionIsInvisible | internal/coordinator/registry.go:21-23 | when a sweep happened changes neither candidates nor standbys |
| Registry.NodeRegistry.ClusterStandbyNodeIDs | internal/coordinator/registry.go:278-296 | in any iteration order, exactly the live members with a lower live member of the same signature |
| Registry.OneRepresentative | internal/coordinator/registry.go:266-277 | every signature with a live member has exactly one representative, its lowest live node ID |
| Registry.NextTakesOver | internal/coordinator/registry.go:274-276 | when it stops being live the next lowest, until then on standby, represents at once |
| Registry.MarkingLeavesCluster | internal/coordinator/registry.go:223-229 | marking a node unreachable takes it and nobody else out of its cluster |
| Registry.NodeRegistry.CandidatesWithLoad | internal/coordinator/registry.go:337-357 | exactly the live non-standby nodes with the model, each once |
| Registry.CandidateIff | internal/coordinator/registry.go:278-357 | a candidate was seen within 45 seconds, is not marked, lists the model in the quantization asked for, and has no such node with a lower ID in its cluster |
| Registry.OneCandidatePerCluster | internal/coordinator/registry.go:298-318 | no two candidates share a ring, and a ring is offered exactly when its representative has the model |
| Registry.LoadAndUnload | internal/coordinator/registry.go:414-435 | an increment and the decrement after it cancel out |
| InFlight.CountersTrackDispatches | internal/coordinator/registry.go:414-435 | over every interleaving of lookups, atomic operations, registrations and evictions a counter never exceeds the dispatches that have incremented and not decremented, and equals their number for a node registered while none was under way |
| InFlight.BelowZeroIsTransient | internal/coordinator/registry.go:424-435 | a counter is below zero only while a store of zero is pending, and only after a registration amid dispatches |
| InFlight.CounterFallsBelowZero | internal/coordinator/registry.go:424-435 | and then by any amount |
| InFlight.QuietMeansZero | internal/coordinator/registry.go:424-435 | when all dispatches to a node have ended its counter is zero, whatever registered meanwhile |
| Registry.ClusterSignature | internal/capability/manifest.go:313-318 | the digest of the joined sorted IDs |
| Registry.SignatureIgnoresOrder | internal/capability/manifest.go:285-318 | listings of the same IDs in any order hash the same joined text, and if no ID contains the separator only they do |
| Registry.SeparatorMixesIDs | internal/capability/manifest.go:313-318 | an ID with a separator hashes the same text as the IDs it consists of |
| Registry.PeersShapeAgreesIff | internal/capability/manifest.go:265-284 | in the peers shape two devices agree exactly when each one's mesh node ID is its Exo ID |
| Router.ScoreForFastLane | internal/coordinator/router.go:35-63 | minus infinity exactly for a node that lacks attestation, the model as its first match loaded, or the price asked for; else the throughput over one and half the load |
| Router.LoadedIff | internal/coordinator/registry.go:721-732 | a model counts as loaded exactly when the first entry that matches is |
| Router.EligibleIff | internal/coordinator/router.go:35-55 | what a job asks of a node: attestation, the model loaded, the price |
| Router.ScoreMeans | internal/coordinator/router.go:56-84 | the score is the observed throughput, else the claimed one, else 1, over one and half the load |
| Router.LoadLowersScore | internal/coordinator/router.go:60-62 | among equally fast nodes more load means a strictly lower score |
| Router.PromptAffinityKey | internal/coordinator/router.go:130-153 | the loop builds the model and the first 200 bytes of the system text, or of the first message |
| Router.KeyMeans | internal/coordinator/router.go:130-153 | the key is the model and up to 200 bytes of the system messages' contents, or without any of the first message's |
| Router.SharedPrefixSharesKey | internal/coordinator/router.go:110-122 | conversations with the same model and a long enough system block share a key, whatever else they say |
| Router.PromoteAffinityNode | internal/coordinator/router.go:226-252 | promotes an owner of the key on the ring of eligible nodes, unless it is too busy |
| Router.ChooseOfTwo | internal/coordinator/router.go:202-213 | the better of two among the first three is at least as good as the second best |
| Router.RankCandidates | internal/coordinator/router.go:192-220 | the eligible nodes best first but for one swap with the head, by affinity or by load |
| Router.RankingMeans | internal/coordinator/router.go:192-252 | the head owns the key and has at most four jobs in flight; or it was among the first three, no worse than the second, and there is no key, nobody else, or a busier owner; the rest is best first but for that swap |
| Router.RankedAreTheEligible | internal/coordinator/router.go:155-158 | exactly the eligible candidates are ranked |
| Router.RankedOnce | internal/coordinator/router.go:192-220 | each of them once |
| Router.HeadAtLeastSecond | internal/coordinator/router.go:170-177 | without an affinity match the head scores at least as high as every node but the best |
| Router.FallbackOrderIff | internal/coordinator/router.go:179-213 | with a given hash, some ranking of the candidates has a tail that is not best-first exactly when the affinity node, or if affinity is declined a third node tied for second, overtakes one worse than the best |
| Router.FallbackOrderForSomeHashIff | internal/coordinator/router.go:179-213 | some hash allows that exactly when a node ranked third or lower that is not too busy, with a key, or the tied third node overtakes one worse than the best |
| Router.SlowestPromoted | internal/coordinator/router.go:179-213 | any three eligible nodes of which the slowest may be promoted have such a ranking |
| Router.TryInOrder | internal/coordinator/router.go:315-355 | fails exactly when every node it may try fails; otherwise the first that answers serves |
| Router.DispatchMeans | internal/coordinator/router.go:315-355 | no answer exactly when every delivery that may be made fails; otherwise the first one's, from its node |
| Router.OnlyFailuresAreMarked | internal/coordinator/router.go:321-329 | exactly the failed nodes are newly marked, every in-flight counter is restored, and only the serving node's throughput is measured |
| Router.DispatchFastLane | internal/coordinator/router.go:302-356 | routes over exactly the routable nodes, each tried at most once, in ranked order |
| FanOut.ReturnedMeaning | internal/coordinator/router.go:916-982 | under every schedule: an error exactly when a sub-task failed or timed out, else results[i] is node i mod n's answer to sub-task i |
| FanOut.DependenciesFirst | internal/coordinator/router.go:1020-1046 | every sub-task is dispatched at most once, after everything it depends on completed |
| FanOut.NoDeadlock | internal/coordinator/router.go:947-971 | in topological order, short of a failure, some sub-task is running or may start |
| Decomposer.DecomposeJob | internal/coordinator/decomposer.go:165-234 | refuses exactly without consent, on the fast lane, or without a confident intent; else one sub-task per kind with its own prompt and a merge that waits for all |
| Decomposer.DistinctIDs | internal/coordinator/decomposer.go:205-218 | the IDs are pairwise distinct, even when kinds repeat |
| Decomposer.TaskIDMeans | internal/coordinator/decomposer.go:205-207 | an ID ends in the sub-task's number, two digits at least, and its kind in lower case |
| Decomposer.MergeLast | internal/coordinator/decomposer.go:217-226 | topological order, and the last sub-task depends on all the others |
| Decomposer.MergeWaitsForAll | internal/coordinator/decomposer.go:142-156 | in the fan-out a merge is dispatched only after every other sub-task completed |
| Decomposer.IsDecompositionWorthIt | internal/coordinator/decomposer.go:265-286 | at least two analytical sub-tasks whose parallel time beats nine tenths of the baseline |
| RouteDecomposition.KeepAttested | internal/coordinator/router.go:809-820 | exactly the attested candidates, still distinct |
| RouteDecomposition.SelectMergeNode | internal/coordinator/merger.go:48-65 | the first node no answer names, or the first node when all are named |
| RouteDecomposition.UnnamedIff | internal/coordinator/merger.go:49-54 | an answer names a node by the text under "_node_id" in its object |
| RouteDecomposition.MergeAvoidsParticipantsIff | internal/coordinator/merger.go:40-65 | the merge goes to a node without a sub-task exactly when the answers name every node that took one and leave another unnamed |
| RouteDecomposition.MergeGoesToAParticipant | internal/coordinator/merger.go:40-65 | when no answer names its node the merge goes to the first node, which took the first sub-task |
| RouteDecomposition.Compare | internal/coordinator/router.go:869-877 | verification passes exactly when the replica answers and the checksums agree |
| RouteDecomposition.VerifyAndMerge | internal/coordinator/router.go:860-905 | unverified exactly when a deterministic background job of 500 tokens or more on two nodes or more has no equal answer from the second; otherwise merged exactly if the chosen node has an endpoint and its call returns |
| RouteDecomposition.SubTasks | internal/coordinator/router.go:785-794 | a job is split exactly with consent, a confident intent and two analytical kinds |
| RouteDecomposition.PodNodes | internal/coordinator/router.go:796-820 | the candidates, or the attested ones for a high-sensitivity job |
| RouteDecomposition.SplitJob | internal/coordinator/router.go:822-905 | no answer exactly when a sub-task failed or timed out; a null answer, a failed verification or the chosen node's merge otherwise |
| RouteDecomposition.Fallback | internal/coordinator/router.go:788-792 | the answer of the first delivery that has one, from its node; no node exactly if there is none |
| RouteDecomposition.RouteWithDecomposition | internal/coordinator/router.go:770-906 | which path is taken, and what it returns: a single node's answer is that of the first delivery that has one, no node comes exactly when all that may be made fail, and a fan-out gives an error or the chosen node's merge; every contacted node is in the snapshot and attested where that is asked for |
| RouteDecomposition.MergeIsProper | internal/coordinator/router.go:852-898 | answers all present from their own nodes, and the replica is a different node's answer with the same checksum |
| RouteDecomposition.VerifiedByTwoNodes | internal/coordinator/router.go:860-877 | a verified merge's first sub-task was given the same answer by two different nodes, unless the digest collides |
| RouteDecomposition.VerifiedAnswersAgree | internal/coordinator/router.go:874-876 | a verified sub-task's two answers are equal unless the digest collides |
| FanOut.AnswersReachable | internal/coordinator/router.go:947-982 | in topological order, whatever answers the nodes have, some schedule returns all of them |
| RouteDecomposition.SchedulesExist | internal/coordinator/router.go:916-982 | whatever the nodes may answer the fan-out has schedules that end, and if every node always answers one that returns all answers |
| RouteDecomposition.AllAnalyticalIff | internal/coordinator/router.go:826-838 | the merge sees every analytical sub-task exactly when the limit is off or not below their number; otherwise the first of them |
| TtlStores.Sweep | internal/coordinator/reservation.go:54-58 | removes exactly the expired entries |
| TtlStores.SweptMeans | internal/coordinator/reservation.go:54-80 | an entry is kept, and found, up to and including the instant it expires |
| TtlStores.ReservationStore.Create | internal/coordinator/reservation.go:45-61 | sweeps, then stores the reservation for thirty seconds |
| TtlStores.ReservationStore.Resolve | internal/coordinator/reservation.go:68-80 | consumes the entry and returns it exactly when it has not expired |
| TtlStores.AfterIs | internal/coordinator/reservation.go:45-80 | the store holds what one that never sweeps holds, less the outlived entries |
| TtlStores.SweepingMattersIff | internal/coordinator/reservation.go:54-58 | for any clock readings: sweeping changes an outcome exactly for an outlived entry asked for with an earlier reading |
| TtlStores.SweepingIsInvisible | internal/coordinator/reservation.go:43-44 | with a clock that does not go back sweeping never changes an outcome |
| TtlStores.ClockGoingBackLosesReservation | internal/coordinator/reservation.go:54-58 | with one that does, it loses a reservation that has not expired |
| TtlStores.ResolvesIff | internal/coordinator/reservation.go:63-80 | a resolution succeeds exactly when the last call about its ID created it at most thirty seconds before |
| TtlStores.ResolvesOncePerCreation | internal/coordinator/reservation.go:75 | between two successful resolutions of an ID it was created again |
| AdminAuth.Authenticator.IssueChallenge | internal/adminauth/adminauth.go:106-119 | sweeps both tables and stores the nonce for five minutes |
| AdminAuth.Authenticator.Consume | internal/adminauth/adminauth.go:126-146 | the nonce is used up whatever the checks say; passes exactly for a configured key, an unexpired nonce and a good signature |
| AdminAuth.Authenticator.Mint | internal/adminauth/adminauth.go:152-159 | stores the session for an hour from the login's reading |
| AdminAuth.Authenticator.ValidSession | internal/adminauth/adminauth.go:163-178 | valid exactly for a stored, unexpired token; an expired one is removed |
| AdminAuth.PassesIff | internal/adminauth/adminauth.go:121-146 | under every interleaving a login passes exactly for a nonce issued within five minutes, never tried, with a good signature |
| AdminAuth.ValidIff | internal/adminauth/adminauth.go:162-178 | a token is valid exactly when a login minted it at most an hour before |
| AdminAuth.OneSessionPerNonce | internal/adminauth/adminauth.go:121-160 | each nonce yields at most one session, by a login within its five minutes |
| Splitter.NearestSqlBoundary | internal/coordinator/splitter.go:109-120 | cuts after the nearest ";" in the window, right side on ties, or at the middle |
| Splitter.NearestLineBoundary | internal/coordinator/splitter.go:123-134 | the same for line ends |
| Splitter.NearestParagraphBoundary | internal/coordinator/splitter.go:137-148 | the same for blank lines, falling back to line ends |
| Splitter.NearestSentenceBoundary | internal/coordinator/splitter.go:151-164 | the same for sentence ends |
| Splitter.SqlCut | internal/coordinator/splitter.go:109-120 | after the ";" nearest to the middle, if one is nearer than half the document |
| Splitter.LineCut | internal/coordinator/splitter.go:123-134 | after the nearest line end |
| Splitter.ParagraphCut | internal/coordinator/splitter.go:137-148 | after the nearest blank line |
| Splitter.SentenceCut | internal/coordinator/splitter.go:151-164 | after the nearest sentence end and its space |
| Splitter.CutIsNearlyNearest | internal/coordinator/splitter.go:86-89 | the cut is at most twice the boundary's width farther from the middle than any other cut in the window |
| Splitter.CutIsNearestIff | internal/coordinator/splitter.go:109-164 | no boundary in the window gives a nearer cut exactly when the cut is not beyond the middle or no boundary lies in the gap its width opens on the left |
| Splitter.FartherCutChosen | internal/coordinator/splitter.go:109-119 | two boundaries equally far from the middle: the farther cut is taken |
| Splitter.FindMidpoint | internal/coordinator/splitter.go:90-105 | the strategy's cut, within the document |
| Splitter.StrategyMeans | internal/coordinator/splitter.go:64-85 | SQL and log lines by their keywords in the first 512 bytes, paragraphs by a blank line anywhere, else sentences |
| Splitter.MidpointIsUnique | internal/coordinator/splitter.go:90-105 | the strategy's cut is determined |
| Splitter.SplitDocument | internal/coordinator/splitter.go:194-244 | the halves put together are the document, neither is empty, the cut is the strategy's or the middle; exact error cases |
| Pricing.RewardBelowCost | internal/economics/pricing.go:110-114 | the reward of any work is positive and strictly below its cost, rounding included |
| Pricing.FloorNeverBinds | internal/economics/pricing.go:149-152 | the discount alone never takes the charge below the reward |
| Pricing.ChargeWithinSpread | internal/economics/pricing.go:143-152 | the charge lies between reward and undiscounted cost |
| Pricing.ChargeFollowsActivity | internal/economics/pricing.go:121-141 | an idle network charges the reward, a busy one the full cost, monotonically between |
| Pricing.CostPerToken | internal/economics/pricing.go:77-108 | the cost of a token in every lane and sensitivity |
| Pricing.RewardIsThreeQuarters | internal/economics/pricing.go:112-114 | providers earn three quarters of the cost, to the nearest ten-thousandth |
| Pricing.ChargeIsProportional | internal/economics/pricing.go:131-152 | the charge runs from the reward to the cost in proportion to backpressure up to 40 percent |
| Ledgers.Ledger.DebitAccount | internal/settlement/ledger.go:381-430 | debits exactly when the balance covers the amount and it can be recorded |
| Ledgers.Ledger.CreditNodeEarning | cmd/coordinator/main.go:2776-2806 | for any lane and any charge: nothing for a simulated node, else the reward to the linked wallet, the registered account or the node, and what the charge leaves above it to the treasury |
| Ledgers.WhoIsPaid | cmd/coordinator/main.go:2739-2806 | on every account: the node's grows by the reward, the treasury's by the rest of the charge, and nobody else's changes |
| Ledgers.MintedTotal | cmd/coordinator/main.go:2762-2806 | reward and margin together are the charge exactly when it is not below the reward; nothing for a simulated node |
| Credits.Accounting.Admit | cmd/coordinator/main.go:733-773 | the credit gate: anonymous callers only with the operator's opt-in, others with a balance that covers the estimate |
| Credits.BilledTokens | cmd/coordinator/main.go:2812-2823 | the node's count cut to a whole number; without it nothing for a streamed answer, else the limit, 2048 unless set |
| Credits.Accounting.Complete | cmd/coordinator/main.go:859-970 | credit once per job ID, then debit, as the books' step function; a streamed answer without a token count is not billed |
| Credits.ServeIsComplete | cmd/coordinator/main.go:939-970 | without interference the single ledger calls of a request add up to that |
| Credits.MintIsPrice | cmd/coordinator/main.go:2762-2775 | what the handler mints for a job on a real node is exactly the consumer's price |
| Credits.AnonymousOnlyOptedIn | cmd/coordinator/main.go:739-755 | without the opt-in no request that passes the gate, in any interleaving, is anonymous |
| Credits.BooksBalance | cmd/coordinator/main.go:733-970 | over every interleaving of gates and single ledger calls, the credits of completed requests less the debits are the uncollected charges less the unearned ones, and credits stay within charges |
| Credits.NeverUnpaidIff | cmd/coordinator/main.go:733-970 | a request with nothing between its gate and its completion never mints unpaid, on any books, exactly when its node cannot be paid or the gate's terms still hold |
| Credits.PriceWithinEstimate | cmd/coordinator/main.go:756-773 | no more tokens than the limit and no more activity than at the gate keep the price within the estimate |
| Credits.CreditsWithinDebits | cmd/coordinator/main.go:733-970 | orderly requests, none anonymous, no user with two open at once: under every schedule credits never grow by more than debits |
| Credits.GateKeepsBooksIff | cmd/coordinator/main.go:733-970 | for orderly requests, at most n open per user, that is so exactly without the opt-in and with n at most 1 |
| Credits.MoreTokensCostMore | cmd/coordinator/main.go:939-970 | on a busy network every token above the limit makes the price exceed the estimate |
| Credits.RisenActivityCostsMore | cmd/coordinator/main.go:939-970 | so does activity that rises while the job is served |
| Credits.OverlapMintsUnpaid | cmd/coordinator/main.go:963-966 | two copies of an orderly request pass the gate on one balance, and the second mints its price unpaid |
| Credits.AnonymousMintsUnpaid | cmd/coordinator/main.go:739-755 | with the opt-in every anonymous request on a real node mints its whole price against no debit; without it the gate refuses it |
| Credits.CreditedOnce | cmd/coordinator/main.go:947-954 | over every interleaving each job ID is credited at most once |
| Credits.CreditedIff | cmd/coordinator/main.go:947-954 | once nobody is at the desk, a new job ID was credited exactly if some completed request of it could be |
| Credits.NoOverdraft | internal/settlement/ledger.go:407-409 | no interleaving takes a balance below zero |
| MemoryCommit.AggregateClusterStats | internal/capability/manifest.go:325-365 | the sums of reported sizes and of what each device can spare |
| MemoryCommit.AssembleManifest | internal/capability/manifest.go:27-146 | the declared total is the cluster's reported sum, else the declared size, else the local reading; the share never exceeds the request; a cluster by its devices or from 128 GB on |
| MemoryCommit.SpareMeans | internal/capability/manifest.go:231-239 | a device spares what is free above 2 GB or 15 percent of its size, whichever is more |
| MemoryCommit.CommitsAllItMay | internal/capability/manifest.go:99-123 | one hundredth more would exceed the request, or for a guarded node what its devices can spare |
| MemoryCommit.WithinRequest | internal/capability/manifest.go:79-82 | the commitment never exceeds the requested share |
| MemoryCommit.WithinSafe | internal/capability/manifest.go:99-118 | a guarded node never commits more than its devices can spare |
| MemoryCommit.ClusterKeepsReserves | internal/capability/manifest.go:346-351 | a cluster's commitment can be split over its devices leaving every reserve untouched |
| MemoryCommit.SafeForEveryShareIff | internal/capability/manifest.go:53-118 | for every share from 0 to 1 a node stays within what its devices can spare exactly when it is guarded or its whole memory is within that |
| MemoryCommit.LargeMachineIsUnclamped | internal/capability/manifest.go:53-56 | a machine of 128 GB with nothing free still commits |
| HintValidator.TrailingInt | internal/coordinator/hintvalidator.go:114-127 | the number of the longest run of digits at the end, if any and if it fits |
| HintValidator.NeverTwoBehind | internal/coordinator/hintvalidator.go:94-109 | no version reads as two behind, and one behind only as zero |
| HintValidator.WeightBounds | internal/coordinator/hintvalidator.go:49-52 | weights are at most 0.925, and 0.6475 for the rule-based router |
| HintValidator.ComputeHintWeight | internal/coordinator/hintvalidator.go:53-92 | the product of the four factors, or zero when something rules the hint out |
| HintValidator.FactorsMean | internal/coordinator/hintvalidator.go:58-79 | the four factors in numbers |
| HintValidator.WeightMeans | internal/coordinator/hintvalidator.go:53-92 | without a history or below half confidence a hint weighs nothing; otherwise every factor scales it |
| HintValidator.WeightMonotone | internal/coordinator/hintvalidator.go:58-79 | a better history or a more confident hint never weighs less |
| HintValidator.ValidateSensitivity | internal/coordinator/hintvalidator.go:160-178 | the tier ranks at least the coordinator's |
| HintValidator.RanksInOrder | internal/coordinator/hintvalidator.go:128-142 | low, moderate and high in this order, and any other text below them |
| HintValidator.ResolveRouting | internal/coordinator/hintvalidator.go:241-257 | the tier ranks at least the coordinator's and the override's and is one of those given; no hint and no override, and rule-based hints, change nothing; a raise needs a learned hint above 0.7 |
| HintValidator.GuaranteedIffRouted | internal/coordinator/hintvalidator.go:241-257 | what a caller may rely on leaves exactly one routing, the one the other lemmas are about |
| HintValidator.NeverLowered | internal/coordinator/hintvalidator.go:236-240 | the tier is never lowered, and no hint and no override change nothing |
| HintValidator.RuleBasedHintsChangeNothing | internal/coordinator/hintvalidator.go:156-178 | without an override the tier changes exactly to a higher hinted tier of weight above 0.7, never for a rule-based hint |
| HintValidator.SkippingNeverRaisesToAttestation | internal/coordinator/hintvalidator.go:185-204 | skipped classification comes only with a low or moderate hint of weight at least 0.7, never with a hint-raised attestation tier |

## Left out

- ProofOfWork.MineStartupGrant: assumes that some 64-bit nonce is accepted, because the program's loop does not end otherwise.
- Router.DispatchFastLane: other calls on the registry while a delivery is under way are not interleaved with it; their effect on the counters is `InFlight.CountersTrackDispatches`. Ranking reads counters that are not below zero.
- Registry.NodeRegistry.DecrInFlight: without interference; with it, the lookup, the decrement and the reset are separate steps in `InFlight.dfy`. The counter's 32-bit width is not modelled.
- RouteDecomposition.RouteWithDecomposition: one registry snapshot serves the whole call, where the program takes a second one for the fallback.
- Splitter.SplitDocument: blank means ASCII white space and keywords are upper-cased in ASCII only; a cut may fall inside a multi-byte character, as in the program.
- Credits.Accounting.Complete: the fast lane; the background lane credits every cycle without a debit. A credit that cannot be recorded is not modelled.
- JobQueue.ProcessJob: one job; the dispatch it repeats is `Router.DispatchFastLane`, whose outcome is a parameter.
- Shutdown of the queue's workers: jobs still in the channel are then never answered.
- Liveness under fair scheduling: the results are about what every run keeps and which steps are possible.
- Floating-point rounding, except where the program rounds explicitly.
- HTTP handlers, SSE relay, TLS pinning, JSON decoding and command-line flags.
- Signatures, key agreement, secure-enclave proofs and random ID generation.
- Ledger persistence, startup grants, wallets, federation, directory gossip and the pod store.
- The keyword classifier, prompt texts, spot checks, statistical baselines and benchmarks.
- Background assignments, idle candidates, verified capacity scores and the coordination registry.
- User interfaces and deployment tools.
