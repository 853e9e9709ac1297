# Poise: verified model

Poise is a load-balancing library. This project models its integer and combinatorial core in Dafny and
proves what that core promises: which backend each policy picks, how evenly, how the answer changes when
membership changes, and what the shared state machines beside the policies keep over every run.

`dafny verify dfyconfig.toml` checks everything. The files, by component:

| component | files |
|---|---|
| shared vocabulary and arithmetic | `Core`, `Listings`, `Arith`, `Sorting`, `Sums`, `SeqSums`, `Tickets` |
| Maglev table and policy | `Primality`, `MaglevTable`, `MaglevBalance`, `MaglevPolicy`, `MaglevOrder`, `MaglevReference` |
| smooth weighted round robin | `SmoothWeightedRoundRobin`, `FairShare`, `FairWindows`, `UnevenShares`, `CreditBounds` |
| snapshot publish and subscribe | `SnapshotChannel`, `SnapshotLaws`, `SnapshotReports` |
| bounded-load selection | `Capacity`, `BoundedLoad`, `ClosedLoop`, `DecisionRuns` |
| ring hash | `WeightGcd`, `Ring`, `RingHash`, `RingLaws`, `RingOrder`, `RingReference` |
| reservoir samplers | `Tapes`, `Reservoirs`, `RandomPolicies` |
| priority and locality routing | `PriorityGroups`, `Priority`, `PriorityLaws`, `LocalityGroups`, `LocalityRouting`, `LocalityLaws` |
| probe pool | `ProbePoolState`, `ProbeFreshness` |
| active health | `ActiveProbes`, `ActiveRuns` |
| membership directory | `Registry`, `MembershipDirectory` |
| endpoint reconciliation | `Reconciliation` |
| hashing | `Hashing` |

## How the source is represented

- Policies and shared states are classes with the source's fields; each method is proved against a
  specification function of its inputs and the old state, and the laws are lemmas about those functions.
  Loops of the source are loops here. Vectors and hash maps are `seq` and `map` fields; the Maglev scratch
  arrays and the two-slot reservoir are arrays.
- `u32`, `u64`, `usize` and positive weights are bounded subset types, so every addition and product that
  could leave its word is either a proved bound or the source's checked error. Bit-level hashing uses
  64-bit vectors. Instants and durations are natural numbers; saturating subtraction is written out.
- A hash builder is an arbitrary function, so the laws hold for every hash. Hash domains are its first argument.
- Each answer is stated twice: by the functions the methods share, and once more from the primitives alone (hash
  values, weights, loads, positions), so that the shared functions are themselves pinned.
- A random draw is an input. The reservoirs read a tape of in-range draws and the laws count tapes; the
  ticket policies take one number per draw and reduce it below the drawn range.
- A rendezvous score is an arbitrary integer function of hash and weight, standing for any total order.
- A critical section is one atomic step. The snapshot channel is finer: every atomic load, store, lock and
  wake is a step of its own, and the laws hold in every interleaving of them.
- An unstable sort is a method that promises only order and permutation. Where the result must not depend
  on how ties fall, that is a theorem.
- Factories and ranking functions are arbitrary: reconciliation takes the answer the factory would give
  for each member, the probe pool takes any function of the offered slice.
- Automatic induction is off for every lemma that proves itself by recursion, so each inductive proof is written out.

The Maglev table follows the populate algorithm in section 3.4 of the Maglev paper (NSDI 2016).

## Where the code and its descriptions differ

The model follows the code. Each of the first five differences names a lemma with a concrete input and one with
the exact condition; the last two are limits of a counter or a clock, with the exact limit.

- `crates/poise-core/tests/exact_invariants.rs:126-164` says that at factor 100 every load is the floor or
  the ceiling of its share. The ceiling always holds (`LoadNeverExceedsBound`). The floor does not: in
  `FloorOfShareCanFail` three decisions of the policy over weights 5,1,1,1 serve the light candidates first.
  `FloorHoldsIff` says exactly which lower bounds hold on every run of decisions, and `WholeSharesAreExact`
  gives equality whenever all shares are whole. Both need that the policy can produce every run the bounds
  allow (`DecisionRunsAreRuns`), for any score by which some hash beats some other hash at every pair of
  weights; the logarithmic score is one, since the all-ones hash scores zero and the
  zero hash does not (`FallingScoreFavours` is an integer instance).
- `crates/poise-discovery/src/snapshot.rs:213-216` says a stream ends only after the latest snapshot is
  observed. `EndCanSkipLatest` is an interleaving that ends it one revision early; `EndsUpToDateIff` says
  it is exactly a store after the stream's last load that does it.
- `PickError::NoEligibleCandidates` does not mean nobody was eligible. Priority shares are rounded down to
  millionths, so a small eligible weight can round away: `EligibleCanBeRefused`, on every draw, with panic
  off. And a member that opted out of panic is passed over when its priority panics:
  `PanicCanRefuseEligible`, under the default settings, with nothing rounded away. `RefusalIff` is the exact
  condition for one draw and `SomeDrawRefusedIff` the one on weights and settings that decides whether any
  draw is refused. Locality weights do not have the rounding gap (`ScaledWeight`).
- In smooth weighted round robin the credits sum to zero and stay above minus the total weight only while the
  eligible identities stay the same. `PruningCanLoseCredit` breaks both with two members and two calls;
  `PruningKeepsZeroIff` says when the sum survives a departure: exactly when those that left had been picked in
  their share. `DepartureKeepsFloorIff` says when the bound survives a change of slice, in weights and picks.
- In the same policy W consecutive picks serve every identity by its weight when they are aligned to cycles
  (`CyclesAreExact`). A window that is not aligned can be uneven when the slice is reordered between cycles
  (`ReorderedWindowCanBeUneven`), and only through the tie-break: the policy serves the first one listed of those
  due most (`FirstMostDueIsServed`), where what is due follows from weights and picks alone. Every window is exact
  if and only if at every pick the slice seen and the slice W picks later list first the same one of these
  (`EveryWindowExactIff`). It is so when the slices recur with period W (`EveryWindowIsExact`) and, in whatever
  order they come, when nobody ties (`WithoutTiesEveryWindowIsExact`); and any tie can be broken so as to make a
  window uneven (`BrokenTieIsUneven`). So slice order is immaterial for given weights exactly when no run over
  them ends in a tie (`OrderNeverMattersIff`).
- The 64-bit epoch of that policy wraps at the 2^64th pick and every credit is dropped. The quota and cycle laws
  are stated up to the first wrap; `WrapStartsAfresh` carries them to the picks between any two wraps.
- The delay that a refused probe start advertises is sufficient only if the caller's clock had reached the
  last completion (`RetryAfterSufficesIff`; `RetryAfterCanFallShort` reads the clock five units early), and
  reservations are told apart only below 2^64 forced statuses (`WrappedGenerationIsAccepted`).

## Model

| member | source | states |
|---|---|---|
| `Primality.IsPrimeByTrial` | crates/poise-core/src/policy/maglev.rs:424-439 | trial division over odd divisors up to the square root answers true exactly for the primes |
| `Primality.NewMaglevConfig` | crates/poise-core/src/policy/maglev.rs:35-50 | accepts exactly the primes in 2..=limit; each refusal names the reason that applies first |
| `Primality.NoSmallDivisorMeansPrime` | crates/poise-core/src/policy/maglev.rs:431-438 | a number with no divisor up to its square root has none at all |
| `Primality.DefaultTableSizeIsPrime` | crates/poise-core/src/policy/maglev.rs:58-65 | the default size, which bypasses validation, is prime |
| `MaglevTable.PermutationSlot` | crates/poise-core/src/policy/maglev.rs:399-405 | the 64-bit arithmetic of a slot never wraps below the size limit, so it is the mathematical slot |
| `MaglevTable.SlotsDistinct` | crates/poise-core/src/policy/maglev.rs:399-405 | with a prime size and a skip in 1..m, two ordinals below m never share a slot |
| `MaglevTable.PermutationHitsEverySlot` | crates/poise-core/src/policy/maglev.rs:399-405 | every slot is visited by exactly one of the first m ordinals |
| `MaglevTable.ClaimsDistinct` | crates/poise-core/src/policy/maglev.rs:373-394 | successive turns claim pairwise different slots below m |
| `MaglevTable.EverySlotClaimed` | crates/poise-core/src/policy/maglev.rs:373-394 | after m turns every slot has been claimed |
| `MaglevTable.TurnKeepsFillState` | crates/poise-core/src/policy/maglev.rs:378-392 | one turn of the nested loop claims the first free slot of the member whose turn it is and keeps all others |
| `MaglevTable.TakeTurn` | crates/poise-core/src/policy/maglev.rs:378-392 | the cursor loop terminates with its ordinal below m, so the checked increment cannot fail; it fills exactly one slot |
| `MaglevTable.PopulateTable` | crates/poise-core/src/policy/maglev.rs:356-397 | both loops terminate, no slot stays empty and the returned table is the table of claims |
| `MaglevBalance.ShareIsBalanced` | crates/poise-core/src/policy/maglev.rs:373-394 | member j of n owns floor(m/n) slots, and one more exactly when j < m mod n |
| `MaglevBalance.LabelledSlots` | crates/poise-core/src/policy/maglev.rs:373-394 | the populated table carries a member's index in exactly as many slots as that member owns |
| `MaglevBalance.EveryMemberIsReachable` | crates/poise-core/src/policy/maglev.rs:253-255 | with no more members than slots nobody is left without a slot |
| `MaglevBalance.RelabelKeepsClaims` | crates/poise-core/src/policy/maglev.rs:356-397 | filling depends on offsets and skips only, so it commutes with renaming the indices |
| `MaglevPolicy.SortIsDetermined` | crates/poise-core/src/policy/maglev.rs:284-303 | the unstable sort by hash order and index has a single possible outcome |
| `MaglevPolicy.Maglev.Matches` | crates/poise-core/src/policy/maglev.rs:315-332 | the cache check holds exactly when the slice calls for the committed member list |
| `MaglevPolicy.Maglev.HasDuplicate` | crates/poise-core/src/policy/maglev.rs:257-267 | reports a repeated eligible identity exactly when there is one |
| `MaglevPolicy.Maglev.Reconcile` | crates/poise-core/src/policy/maglev.rs:241-313 | an error leaves members, table and generation untouched; success leaves exactly what a build from nothing leaves |
| `MaglevPolicy.Maglev.Pick` | crates/poise-core/src/policy/maglev.rs:342-353 | from any valid cached state the answer, error or index, is that of a policy built on this slice alone |
| `MaglevPolicy.NobodyToPick` | crates/poise-core/src/policy/maglev.rs:342-353 | Empty is reported for the empty slice and only then, NoEligibleCandidates for a slice with nobody eligible and only then |
| `MaglevReference.PickFollowsPreferences` | crates/poise-core/src/policy/maglev.rs:282-397 | with preferences (hash6 + n*(hash7 mod (m-1) + 1)) mod m and turns in (hash8, hash9, position) order, each turn taking the first free preference, every pick is the candidate that took the request's slot |
| `MaglevReference.FillingExists` | crates/poise-core/src/policy/maglev.rs:282-397 | that order of turns and those slots exist, and every slot is taken |
| `MaglevReference.TurnOrderIsUnique` | crates/poise-core/src/policy/maglev.rs:299-305 | the hashes and positions admit one order of turns |
| `MaglevReference.FirstChoiceOfFirst` | crates/poise-core/src/policy/maglev.rs:288-303 | who comes first in hash order is served every request that falls on its first choice, hash6 mod m |
| `MaglevReference.FirstChoiceUnlessTaken` | crates/poise-core/src/policy/maglev.rs:288-303 | a later member is served on its first choice unless an earlier turn took it |
| `MaglevOrder.FreshPickReadsOwner` | crates/poise-core/src/policy/maglev.rs:345-353 | the picked index is the candidate that owns the request's slot |
| `MaglevOrder.ReorderingKeepsWinner` | crates/poise-core/src/policy/maglev.rs:287-305 | when order keys are distinct, reordering a slice keeps the winning identity for every request |
| `MaglevOrder.CandidateShare` | crates/poise-core/src/policy/maglev.rs:287-305 | every eligible candidate wins floor(m/n) or floor(m/n)+1 of the m slots, the extras going to the first in sort order |
| `SmoothWeightedRoundRobin.SmoothWeightedRoundRobin.Scan` | crates/poise-core/src/policy/smooth_weighted_round_robin.rs:93-114 | the candidate loop leaves every eligible identity at its bumped credit and tracks the first greatest score, or finds the repeated identity |
| `SmoothWeightedRoundRobin.SmoothWeightedRoundRobin.Pick` | crates/poise-core/src/policy/smooth_weighted_round_robin.rs:75-126 | every outcome with the credits it leaves: empty slice, repeated identity, nobody eligible, or one step of the credit law |
| `SmoothWeightedRoundRobin.SeenTwice` | crates/poise-core/src/policy/smooth_weighted_round_robin.rs:101-106 | meeting an entry already stamped with this epoch means an eligible identity repeats |
| `SmoothWeightedRoundRobin.PruningKeepsBumped` | crates/poise-core/src/policy/smooth_weighted_round_robin.rs:116-116 | pruning by epoch leaves exactly this slice's eligible identities at their bumped credits |
| `FairShare.StepConservesCredit` | crates/poise-core/src/policy/smooth_weighted_round_robin.rs:93-125 | a pick moves credit among its eligible identities and creates none |
| `FairShare.WrapStartsAfresh` | crates/poise-core/src/policy/smooth_weighted_round_robin.rs:81-87 | at each wrap of the 64-bit epoch the credits and picks are those of a run begun at the wrap, so the laws hold between any two wraps |
| `FairShare.PickAll` | crates/poise-core/src/policy/smooth_weighted_round_robin.rs:75-126 | calling the policy on slice after slice leaves the credits, and serves the identities, that the run laws speak of |
| `FairShare.AccumulatorFits` | crates/poise-core/src/policy/smooth_weighted_round_robin.rs:89-124 | for a membership that stays, fewer than 2^32 members of 32-bit weight keep every credit, score and total inside a signed 128-bit word for ever |
| `CreditBounds.CallAll` | crates/poise-core/src/policy/smooth_weighted_round_robin.rs:75-126 | the policy keeps these books over any calls: empty slices, repeats, nobody eligible, members coming and going |
| `CreditBounds.PickStaysWithin` | crates/poise-core/src/policy/smooth_weighted_round_robin.rs:93-125 | a pick moves no credit by more than the total weight of its slice |
| `CreditBounds.AnyCallsFit` | crates/poise-core/src/policy/smooth_weighted_round_robin.rs:89-124 | over any calls whatever with slice totals below 2^63, no stored credit, score or running total leaves a signed 128-bit word |
| `FairShare.PruningKeepsZeroIff` | crates/poise-core/src/policy/smooth_weighted_round_robin.rs:116-116 | after a run over weights w, a slice without the identities D keeps the credit total at zero if and only if |run| * w(D) == W * (picks that went to D) |
| `UnevenShares.PruningCanLoseCredit` | crates/poise-core/src/policy/smooth_weighted_round_robin.rs:116-116 | two members of weight 1, one pick, then one of them alone: the total becomes -1, and the credit left falls below the floor for W = 1 |
| `FairShare.DepartureKeepsFloorIff` | crates/poise-core/src/policy/smooth_weighted_round_robin.rs:93-125 | after a run, a pick over any slice of weights v and total V leaves every credit above -V if and only if what each identity is owed with v added, in picks and weights, exceeds -V, and is positive for somebody |
| `FairShare.RunIsBalanced` | crates/poise-core/src/policy/smooth_weighted_round_robin.rs:93-125 | from fresh state, after every prefix of any length, wraps of the epoch at 2^64 - 1 picks included, in any slice order, credits sum to zero and each is strictly above -W |
| `FairShare.CreditFormula` | crates/poise-core/src/policy/smooth_weighted_round_robin.rs:93-125 | up to the first wrap of the epoch a credit is exactly t*w_k - W*count_k after t picks |
| `FairShare.QuotaUpperBound` | crates/poise-core/src/policy/smooth_weighted_round_robin.rs:93-125 | count_k * W < t*w_k + W at every prefix up to the first wrap |
| `FairShare.QuotaLowerBound` | crates/poise-core/src/policy/smooth_weighted_round_robin.rs:93-125 | up to the first wrap count_k * W is never further below t*w_k than the other members' floors together allow |
| `FairShare.CyclesAreExact` | crates/poise-core/src/policy/smooth_weighted_round_robin.rs:93-125 | up to the first wrap, after any whole number of cycles each identity was picked exactly its weight per cycle and every credit is zero |
| `FairWindows.EveryWindowIsExact` | crates/poise-core/src/policy/smooth_weighted_round_robin.rs:93-125 | slices that recur with period W, in any order within it, make every window of W picks exact, wherever it starts |
| `FairWindows.EveryWindowExactIff` | crates/poise-core/src/policy/smooth_weighted_round_robin.rs:112-114 | up to the first wrap every window of W picks is exact if and only if at every pick the slice seen and the slice W picks later list first the same one of the identities that, by weights and picks so far, are due most |
| `FairWindows.FirstMostDueIsServed` | crates/poise-core/src/policy/smooth_weighted_round_robin.rs:112-114 | whichever slice a pick sees, it serves the first one listed of those due most, where due is (t+1)*w_k - W*count_k after t picks |
| `FairWindows.WithoutTiesEveryWindowIsExact` | crates/poise-core/src/policy/smooth_weighted_round_robin.rs:112-114 | while one identity alone is due most at every pick, every window is exact whatever order the slices come in |
| `FairWindows.BrokenTieIsUneven` | crates/poise-core/src/policy/smooth_weighted_round_robin.rs:112-114 | after a run whose tie two slices break differently, one of them for W picks and then the other make some window inexact |
| `FairWindows.OrderNeverMattersIff` | crates/poise-core/src/policy/smooth_weighted_round_robin.rs:112-114 | all windows of all runs over given weights are exact, whatever the slice orders, up to any length, if and only if no shorter run ends in a tie for the most due |
| `UnevenShares.ReorderedWindowCanBeUneven` | crates/poise-core/src/policy/smooth_weighted_round_robin.rs:112-114 | two members of weight 1, reordered between cycles: an unaligned window serves one of them twice |
| `SnapshotChannel.StepKeepsInv` | crates/poise-discovery/src/snapshot.rs:119-345 | every atomic access of publish, publisher drop, subscribe, poll and stream drop keeps the channel invariant |
| `SnapshotChannel.RunKeepsInv` | crates/poise-discovery/src/snapshot.rs:119-345 | the invariant holds in every state of every interleaving, with any number of streams |
| `SnapshotLaws.NoLostWakeup` | crates/poise-discovery/src/snapshot.rs:300-345 | a stream whose last poll was pending has seen the current revision with the publisher alive, or was woken since, or the publisher will wake it |
| `SnapshotLaws.QuietPublisherOwesNoWake` | crates/poise-discovery/src/snapshot.rs:119-133 | once no wake-up is under way, a pending stream that missed anything has been woken |
| `SnapshotLaws.PublisherWakesWhomItOwes` | crates/poise-discovery/src/snapshot.rs:119-133 | running the publisher's wake-up to its end wakes every stream it was certain to wake |
| `SnapshotLaws.YieldsIncrease` | crates/poise-discovery/src/snapshot.rs:305-311 | yielded revisions strictly increase and were published; the cursor never runs ahead of the current revision |
| `SnapshotReports.AnswerIsLatestYield` | crates/poise-discovery/src/snapshot.rs:305-342 | in every reachable state an answer that carries a snapshot is the latest yield, and the cursor stands on it |
| `SnapshotReports.FirstLoadAnswers` | crates/poise-discovery/src/snapshot.rs:300-311 | the first load answers with the current snapshot exactly when it is new to the stream |
| `SnapshotReports.SecondLoadAnswers` | crates/poise-discovery/src/snapshot.rs:328-337 | the load after registering answers with what was current at that load, whatever is published meanwhile, and leaves no waker |
| `SnapshotReports.SecondCheckEnds` | crates/poise-discovery/src/snapshot.rs:338-342 | a publisher found gone after the second load ends the stream and leaves no waker |
| `SnapshotReports.UninterruptedPoll` | crates/poise-discovery/src/snapshot.rs:300-345 | a poll nothing interrupts: ended for good, else the newest snapshot if new, else the end if the publisher is gone, else pending with this task's waker registered; nothing else changes |
| `SnapshotReports.ChangesAreNewer` | crates/poise-discovery/src/snapshot.rs:222-230 | a subscriber to changes never receives the revision current at its creation or an earlier one |
| `SnapshotReports.FirstPollAnswersCurrent` | crates/poise-discovery/src/snapshot.rs:210-220 | a full subscriber's first poll answers with the snapshot current at that poll |
| `SnapshotReports.SubscribeThenLeave` | crates/poise-discovery/src/snapshot.rs:254-266 | a new stream can always be made, attached and dropped; dropping forgets it |
| `SnapshotReports.UninterruptedPublish` | crates/poise-discovery/src/snapshot.rs:119-178 | a newer revision, and no other, can be published; it becomes current, exactly the tasks with registered wakers are woken, wakers are taken, dead subscribers forgotten, no cursor moves |
| `SnapshotReports.UninterruptedDrop` | crates/poise-discovery/src/snapshot.rs:186-191 | dropping the publisher marks it gone and wakes the same tasks |
| `SnapshotLaws.MarkMeansStoreSinceLoad` | crates/poise-discovery/src/snapshot.rs:164-178 | the recorded mark is set exactly when a store happened after the stream's latest load |
| `SnapshotLaws.EndsUpToDateIff` | crates/poise-discovery/src/snapshot.rs:313-343 | a terminated stream has observed the latest snapshot if and only if nothing was stored after its last load |
| `SnapshotLaws.LatePollEndsUpToDate` | crates/poise-discovery/src/snapshot.rs:313-316 | a poll begun after the publisher is gone ends the stream only on the latest snapshot |
| `SnapshotLaws.EndIsFinal` | crates/poise-discovery/src/snapshot.rs:301-303 | an ended stream stays ended, and what it skipped stays skipped |
| `SnapshotLaws.EndCanSkipLatest` | crates/poise-discovery/src/snapshot.rs:305-316 | publish then drop between the two loads of one poll: the stream ends without its last revision |
| `Capacity.CeilDivLeast` | crates/poise-core/src/policy/bounded_load.rs:374-376 | the ceiling is the least whole number not below the quotient |
| `Capacity.CapacityNeverOverflows` | crates/poise-core/src/policy/bounded_load.rs:364-377 | for all 64-, 32- and 32-bit operands every checked product fits, so the result is the ceiling of the scaled share |
| `Capacity.SomeoneHasRoom` | crates/poise-core/src/policy/bounded_load.rs:302-336 | for any loads, positive weights and factor at least 100, some candidate is strictly below its prospective capacity |
| `BoundedLoad.TotalsAreSums` | crates/poise-core/src/policy/bounded_load.rs:281-302 | the checked totals are the true sums, and an overflow is reported exactly when one of them does not fit |
| `BoundedLoad.EligibleAreSampled` | crates/poise-core/src/policy/bounded_load.rs:268-300 | every eligible candidate is sampled with its position, load and weight |
| `BoundedLoad.BoundedLoadRendezvous.Sample` | crates/poise-core/src/policy/bounded_load.rs:268-300 | samples mirror the eligible candidates, or the first overflowing total is reported |
| `BoundedLoad.BoundedLoadRendezvous.Choose` | crates/poise-core/src/policy/bounded_load.rs:304-328 | one pass finds the first best-ranked candidate overall and the first best-ranked among those with room |
| `BoundedLoad.BoundedLoadRendezvous.Decide` | crates/poise-core/src/policy/bounded_load.rs:253-346 | every outcome; a decision is the bounded choice among the candidates themselves, and the fallback error for nobody having room is unreachable |
| `BoundedLoad.DecisionIsBoundedChoice` | crates/poise-core/src/policy/bounded_load.rs:302-346 | affinity: least score of hash and weight over the eligible candidates, then larger hash, then earlier position; selection: the same among those with load*100*W < (L+1)*w*f; the capacity reported is the least whole number not below that share |
| `BoundedLoad.SpillsIffOwnerFull` | crates/poise-core/src/policy/bounded_load.rs:101-103 | the selection differs from the affinity owner exactly when the owner is at or above its bound |
| `ClosedLoop.LoadNeverExceedsBound` | crates/poise-core/tests/exact_invariants.rs:85-118 | after any T requests from zero every load is at most ceil(f*T*w/(100*W)) |
| `ClosedLoop.RunCanContinue` | crates/poise-core/src/policy/bounded_load.rs:302-336 | no run gets stuck: somebody can always take the next request |
| `ClosedLoop.DecisionExtendsRun` | crates/poise-core/src/policy/bounded_load.rs:302-346 | a decision of the policy over the loads of a run is a legal next step of that run |
| `ClosedLoop.WholeSharesAreExact` | crates/poise-core/tests/exact_invariants.rs:126-164 | at factor 100, whenever all shares T*w/W are whole every load equals its share |
| `ClosedLoop.LoadAtLeastForced` | crates/poise-core/tests/exact_invariants.rs:126-164 | at every earlier moment the other candidates' bounds force a minimum on everyone |
| `ClosedLoop.StarvingRun` | crates/poise-core/tests/exact_invariants.rs:126-164 | a run the bounds allow exists that starves a candidate down to a forced minimum; the policy can produce it by the rows that follow |
| `DecisionRuns.AnyRoomCanWin` | crates/poise-core/src/policy/bounded_load.rs:302-346 | whoever has room after a run is the selection of a decision for some hashes, with the ranks those hashes give |
| `DecisionRuns.DecisionIsUnique` | crates/poise-core/src/policy/bounded_load.rs:304-346 | samples, ranks and factor admit one decision, so the policy's answer is the one a run records |
| `DecisionRuns.DecideAfter` | crates/poise-core/src/policy/bounded_load.rs:253-346 | over the loads of a run the policy itself never refuses, and its decision extends the run |
| `DecisionRuns.DecisionRunsAreRuns` | crates/poise-core/src/policy/bounded_load.rs:302-346 | the sequences of winners the policy can produce are exactly the runs the bounds allow |
| `DecisionRuns.FloorHoldsIff` | crates/poise-core/tests/exact_invariants.rs:126-164 | every run of decisions gives candidate i at least a given load if and only if the others' bounds force it at some moment |
| `DecisionRuns.FloorOfShareCanFail` | crates/poise-core/tests/exact_invariants.rs:126-164 | weights 5,1,1,1 at factor 100: three decisions of the policy leave the large one below the floor of its share |
| `WeightGcd.GreatestCommonDivisor` | crates/poise-core/src/policy/ring_hash.rs:373-380 | Euclid's loop computes the gcd |
| `WeightGcd.GcdDivisors` | crates/poise-core/src/policy/ring_hash.rs:373-380 | the divisors of the result are exactly the common divisors of the operands |
| `WeightGcd.GcdOfDivisors` | crates/poise-core/src/policy/ring_hash.rs:247-256 | the folded divisor divides every weight and is divisible by every common divisor |
| `WeightGcd.GcdOfScales` | crates/poise-core/src/policy/ring_hash.rs:247-256 | multiplying all weights by c multiplies the folded divisor by c |
| `Ring.NearestIsUnique` | crates/poise-core/src/policy/ring_hash.rs:353-365 | at most one point is clockwise-nearest to a request, collisions included |
| `Ring.ClockwiseScan` | crates/poise-core/src/policy/ring_hash.rs:353-365 | the naive scan of all points returns the clockwise-nearest one |
| `Ring.PartitionPoint` | crates/poise-core/src/policy/ring_hash.rs:360-363 | the search returns the boundary between points before the request and the rest |
| `Ring.CutIsNearest` | crates/poise-core/src/policy/ring_hash.rs:360-364 | first point at or after the request, else the first of all, is the clockwise-nearest point |
| `RingHashPolicy.RingHash.Matches` | crates/poise-core/src/policy/ring_hash.rs:323-341 | the cache check holds exactly when identities, weights and positions are the committed ones |
| `RingHashPolicy.RingHash.FoldDivisor` | crates/poise-core/src/policy/ring_hash.rs:241-256 | rejects a repeated eligible identity, otherwise returns the gcd of the eligible weights |
| `RingHashPolicy.RingHash.CountPoints` | crates/poise-core/src/policy/ring_hash.rs:258-273 | refuses exactly when the true number of points exceeds the cap or the word size |
| `RingHashPolicy.RingHash.StagePoints` | crates/poise-core/src/policy/ring_hash.rs:284-310 | stages every replica of every member |
| `RingHashPolicy.RingHash.Reconcile` | crates/poise-core/src/policy/ring_hash.rs:232-321 | an error leaves the cache untouched; success leaves exactly what a build from nothing leaves |
| `RingHashPolicy.RingHash.Pick` | crates/poise-core/src/policy/ring_hash.rs:353-365 | from any valid cached state, binary search gives the answer of an uncached clockwise scan |
| `RingReference.WinnerIsNearest` | crates/poise-core/src/policy/ring_hash.rs:284-365 | the winner holds the replica met first clockwise from the request among all replicas r < (w_i/g)*multiplicity of all eligible identities, at position(identity, r); one position is settled by owner hash, replica number, slice position |
| `RingReference.ReplicaServesItsPosition` | crates/poise-core/src/policy/ring_hash.rs:301-307 | each replica serves the requests that fall exactly on its position unless another identity stands there |
| `RingReference.PickSucceedsIff` | crates/poise-core/src/policy/ring_hash.rs:232-283 | a winner exists exactly when no eligible identity repeats, somebody is eligible and the replicas fit the cap |
| `RingReference.DivisorIsGreatest` | crates/poise-core/src/policy/ring_hash.rs:247-256 | g is the greatest common divisor of the eligible weights |
| `RingReference.NobodyToPick` | crates/poise-core/src/policy/ring_hash.rs:353-365 | Empty is reported for the empty slice and only then, NoEligibleCandidates for a slice with nobody eligible and only then |
| `RingHashPolicy.SortIsDetermined` | crates/poise-core/src/policy/ring_hash.rs:311-313 | every field takes part in the order, so the unstable sort has a single possible outcome |
| `RingLaws.PointCountIsExact` | crates/poise-core/src/policy/ring_hash.rs:258-310 | the ring holds exactly replicas * sum(w_i / gcd) points |
| `RingLaws.EveryMemberOwnsPoints` | crates/poise-core/src/policy/ring_hash.rs:284-310 | the divisor divides each weight and every member owns at least the configured multiplicity |
| `RingLaws.ScalingKeepsRing` | crates/poise-core/src/policy/ring_hash.rs:247-313 | multiplying all weights by a common factor builds the identical ring |
| `RingLaws.NearestAfterInsert` | crates/poise-core/src/policy/ring_hash.rs:284-315 | the nearest point after adding a member is the newcomer's or the old nearest point |
| `RingLaws.MembershipChangeMovesOnlyItsKeys` | crates/poise-core/src/policy/ring_hash.rs:284-365 | adding or removing a member without changing the divisor moves a request only to or from that member |
| `RingOrder.SameDivisor` | crates/poise-core/src/policy/ring_hash.rs:247-256 | slices with the same eligible identities and weights, in any order, have the same divisor |
| `RingOrder.ReorderingKeepsWinner` | docs/ring-hash.md:71-72 | reordering keeps the winning identity of every request unless two identities place some replica at the same position under the same owner hash |
| `RingOrder.CollisionFollowsOrder` | docs/ring-hash.md:82-85 | two identities that collide completely: whichever the slice lists first wins every request |
| `Reservoirs.RandomTapesAreAll` | crates/poise-core/src/policy/random.rs:63-72 | the counted tapes are exactly the sequences of draws the loop can see |
| `Reservoirs.RandomIsUniform` | crates/poise-core/src/policy/random.rs:63-72 | each of n eligible candidates wins on exactly (n-1)! of the n! tapes |
| `RandomPolicies.RandomPick` | crates/poise-core/src/policy/random.rs:59-77 | consumes one draw per eligible candidate and returns the candidate the tape names |
| `Reservoirs.PairTapesAreAll` | crates/poise-core/src/policy/power_of_two.rs:70-84 | the counted tapes are exactly the draws of the two-slot reservoir |
| `Reservoirs.HoldingCount` | crates/poise-core/src/policy/power_of_two.rs:70-84 | each candidate is held on exactly (n-1)! of the n!/2 tapes |
| `Reservoirs.PairsAreUniform` | crates/poise-core/src/policy/power_of_two.rs:70-84 | each unordered pair is held on exactly (n-2)! of the n!/2 tapes |
| `Reservoirs.WinsByNumberBeaten` | crates/poise-core/src/policy/power_of_two.rs:70-104 | a candidate is held beside one of h given others on exactly h*(n-2)! tapes |
| `RandomPolicies.FillReservoir` | crates/poise-core/src/policy/power_of_two.rs:67-84 | the reservoir array ends holding the pair the tape names, with one draw per eligible candidate after the second |
| `RandomPolicies.PowerOfTwoPick` | crates/poise-core/src/policy/power_of_two.rs:66-105 | every outcome: error, the single candidate, or the lighter of the held pair, a tie costing one more draw |
| `RandomPolicies.WorstNeverWins` | crates/poise-core/src/policy/power_of_two.rs:90-104 | on every tape some other eligible candidate is at least as loaded as the winner |
| `RandomPolicies.WinsAreProportional` | crates/poise-core/src/policy/power_of_two.rs:66-105 | a candidate lighter than h others and tied with e wins on exactly (2h + e)*(n-2)! of the n! tapes that end in the tie-breaking coin |
| `Tickets.Scan` | crates/poise-core/src/policy/priority.rs:597-612 | the decrementing scan stops, at the entry owning the ticket, exactly when the ticket is below the total |
| `Tickets.TicketsOwned` | crates/poise-core/src/policy/priority.rs:700-716 | each entry owns exactly as many tickets as its weight |
| `PriorityGroups.Sample` | crates/poise-core/src/policy/priority.rs:505-533 | the sampled members are exactly the priority members, in slice order, with what they advertise |
| `PriorityGroups.CompactMerges` | crates/poise-core/src/policy/priority.rs:545-563 | merging a group into the last kept one keeps the exact sums of all read so far |
| `PriorityGroups.CompactAppends` | crates/poise-core/src/policy/priority.rs:564-567 | keeping a group for a new priority keeps the kept list strictly increasing and its sums exact |
| `PriorityGroups.RatioProductsFit` | crates/poise-core/src/policy/priority.rs:685-690 | the share products always fit 128 bits |
| `PriorityGroups.RatioIsFloor` | crates/poise-core/src/policy/priority.rs:685-690 | the share is the greatest number of units, up to the whole, that the scaled availability covers |
| `PriorityGroups.RatioIsZeroIff` | crates/poise-core/src/policy/priority.rs:685-690 | an available share rounds to nothing if and only if available*factor*10000 < total |
| `PriorityGroups.RatioIsFullIff` | crates/poise-core/src/policy/priority.rs:685-690 | availability is whole if and only if available*factor >= total*100 |
| `Priority.NewPriorityConfig` | crates/poise-core/src/policy/priority.rs:42-58 | accepts exactly a factor of at least 100 and a threshold of at most 100; otherwise the error of the first check that fails |
| `Priority.PriorityWeightedRandom.CalculateGroups` | crates/poise-core/src/policy/priority.rs:535-577 | after any unstable sort: one group per priority, strictly increasing, exact weights and availabilities; overflow exactly when a priority's weight does not fit |
| `PriorityGroups.GroupingIsUnique` | crates/poise-core/src/policy/priority.rs:542-577 | two groupings of the same members agree on everything routing reads |
| `PriorityLaws.RoutingIsDetermined` | crates/poise-core/src/policy/priority.rs:451-495 | the routed groups are a function of the members: ties in the sort leave no trace |
| `Priority.PriorityWeightedRandom.TotalEffective` | crates/poise-core/src/policy/priority.rs:458-462 | the saturating fold is the sum of availabilities capped at the whole |
| `Priority.PriorityWeightedRandom.AssignTraffic` | crates/poise-core/src/policy/priority.rs:474-486 | in-place assignment gives every group its share |
| `Priority.SharesAreExact` | crates/poise-core/src/policy/priority.rs:474-486 | shares sum to exactly 1,000,000 when capacity suffices, a later priority carrying traffic only once all earlier ones carry all they can; under shortage each carries its availability |
| `Priority.GrantedScopeHasTickets` | crates/poise-core/src/policy/priority.rs:615-638 | a granted scope always has endpoint tickets and they fit the accumulator |
| `Priority.PriorityWeightedRandom.SelectGlobalPanicScope` | crates/poise-core/src/policy/priority.rs:579-613 | with no availability the outcome is the panic draw's, error cases included; the scan never falls through |
| `Priority.PriorityWeightedRandom.SelectScope` | crates/poise-core/src/policy/priority.rs:451-495 | every outcome; past sampling and overflow it is the routed groups' answer to the draw |
| `Priority.FailClosedNeverPanics` | crates/poise-core/src/policy/priority.rs:615-619 | under fail-closed panic no scope serves panic members |
| `Priority.PriorityWeightedRandom.SelectMember` | crates/poise-core/src/policy/priority.rs:640-671 | the owner of the ticket among the members in scope, or the error that applies |
| `Priority.PriorityWeightedRandom.Decide` | crates/poise-core/src/policy/priority.rs:438-449 | once a scope is granted the endpoint draw cannot fail, and it lands on a member of that priority that the mode admits |
| `PriorityLaws.PanicTestIsExact` | crates/poise-core/src/policy/priority.rs:464-469 | despite the rounding, a priority panics if and only if capacity is short and eligible*100 < threshold*total |
| `PriorityLaws.PriorityOwnsItsShare` | crates/poise-core/src/policy/priority.rs:700-716 | a uniform ticket reaches each priority in exactly its share |
| `PriorityLaws.MemberOwnsItsWeight` | crates/poise-core/src/policy/priority.rs:640-671 | inside a scope a uniform ticket reaches each member in exactly its weight |
| `PriorityLaws.WholePrimaryTakesAll` | crates/poise-core/src/policy/priority.rs:479-486 | while the first priority's overprovisioned availability is whole no draw reaches another priority |
| `PriorityLaws.RefusalIff` | crates/poise-core/src/policy/priority.rs:451-495 | for any members: where all availability rounds away every draw is refused iff panic is off or nobody may serve one; otherwise a draw is refused iff it falls to a panicking priority with nobody to serve it |
| `PriorityLaws.PanicRejectedIff` | crates/poise-core/src/policy/priority.rs:579-619 | PanicRejected comes out exactly under fail-closed panic, when the draw falls to a panicking priority or, where all availability rounds away, panic is on, somebody may serve one and their weights fit |
| `PriorityLaws.PanicOverflowsIff` | crates/poise-core/src/policy/priority.rs:579-592 | past grouping, WeightOverflow comes out exactly where all availability rounds away and the panic-eligible weights reach 2^64 |
| `PriorityLaws.GrantedScopeIs` | crates/poise-core/src/policy/priority.rs:451-495 | a granted scope names the priority the draw falls to and serves panic members exactly if that priority panics |
| `PriorityLaws.SomeDrawRefusedIff` | crates/poise-core/src/policy/priority.rs:451-495 | whether some draw is refused is decided by the members' weights and settings alone |
| `PriorityLaws.PanicCanRefuseEligible` | crates/poise-core/src/policy/priority.rs:153-157 | one member eligible without panic rights beside one down, default settings: refused on every draw because the priority panics |
| `PriorityLaws.EligibleCanBeRefused` | crates/poise-core/src/policy/priority.rs:685-690 | candidates of weight 1 eligible and 2,000,000 down, panic off: their group is exhibited and refused on every draw |
| `LocalityGroups.FoldOpens` | crates/poise-core/src/policy/locality.rs:413-424 | an entry for a new locality opens a group of its own |
| `LocalityGroups.FoldMerges` | crates/poise-core/src/policy/locality.rs:413-424 | an entry that agrees with the last group is added into it with exact sums |
| `LocalityGroups.FoldDone` | crates/poise-core/src/policy/locality.rs:410-430 | however ties were sorted, a repeat is left exactly on a conflict; otherwise there is one group per locality with exact sums |
| `LocalityRouting.LocalityWeightedRandom.SortAndFold` | crates/poise-core/src/policy/locality.rs:410-430 | consistent exactly when no two members of the priority give one locality different weights |
| `LocalityRouting.ScaledWeight` | crates/poise-core/src/policy/locality.rs:437-448 | positive exactly when the locality has selected weight, and never overflowing |
| `LocalityRouting.ScaleIsFloorOrOne` | crates/poise-core/src/policy/locality.rs:437-448 | the scale is the greatest number of units covered, but never less than one where anything is selected |
| `LocalityRouting.LocalityWeightedRandom.CalculateLocalities` | crates/poise-core/src/policy/locality.rs:378-450 | inconsistent topology, overflow, or exact groups with scaled weights |
| `LocalityRouting.NeverTooHeavy` | crates/poise-core/src/policy/locality.rs:432-436 | inside a granted scope no locality's sums overflow |
| `LocalityRouting.SomeLocalityOffers` | crates/poise-core/src/policy/locality.rs:321-328 | inside a granted scope the effective weights are not all zero |
| `LocalityRouting.ChosenHasEndpoints` | crates/poise-core/src/policy/locality.rs:344-347 | the chosen locality's endpoint tickets are exactly its selected weight, at least one |
| `LocalityRouting.LocalityWeightedRandom.DecideInScope` | crates/poise-core/src/policy/locality.rs:321-376 | neither draw inside a granted scope can come up empty |
| `LocalityRouting.LocalityWeightedRandom.Decide` | crates/poise-core/src/policy/locality.rs:314-376 | every outcome: the priority stage's error, a conflict, an overflow of the effective total, or the owners of both tickets |
| `LocalityRouting.DecisionIsConsistent` | crates/poise-core/src/policy/locality.rs:369-375 | a decision names an endpoint of its priority, mode and locality, at the locality weight it advertises |
| `LocalityLaws.LocalitiesAreDetermined` | crates/poise-core/src/policy/locality.rs:378-450 | the localities routed between are a function of the members: ties in the sort leave no trace |
| `LocalityLaws.OutcomeIsDetermined` | crates/poise-core/src/policy/locality.rs:321-376 | two routings of the same members by the same draws decide alike |
| `LocalityLaws.LocalityOwnsItsWeight` | crates/poise-core/src/policy/locality.rs:330-343 | a uniform ticket reaches each locality in exactly its scaled weight |
| `LocalityLaws.EndpointOwnsItsWeight` | crates/poise-core/src/policy/locality.rs:344-368 | inside a locality a uniform ticket reaches each endpoint in scope in exactly its weight, and nobody else |
| `ProbePoolState.ProbePool.Expire` | crates/poise-core/src/probe.rs:622-625 | keeps exactly the unexpired observations in order, and the use ledger |
| `ProbePoolState.RetainedIff` | crates/poise-core/src/probe.rs:622-625 | an observation is retained exactly while now < recorded + max_age |
| `ProbePoolState.ProbePool.OldestIndex` | crates/poise-core/src/probe.rs:627-634 | the first of the least recorded instants |
| `ProbePoolState.ProbePool.RecordAt` | crates/poise-core/src/probe.rs:365-386 | expire, then push, evict the oldest, or drop a staler newcomer; never above capacity |
| `ProbePoolState.ProbePool.Charge` | crates/poise-core/src/probe.rs:457-466 | one use is charged; uses + remaining = max_uses, and a spent observation is gone |
| `ProbePoolState.LedgerCharges` | crates/poise-core/src/probe.rs:457-466 | charging keeps uses + remaining = max_uses for everything retained and uses <= max_uses for everything ever recorded |
| `ProbePoolState.ProbePool.DecideAt` | crates/poise-core/src/probe.rs:440-467 | an unexpired observation of the ranking's choice pays, its own use count rises by one and no other changes; or an error that only expires |
| `ProbePoolState.Offers` | crates/poise-core/src/probe.rs:585-593 | offers exactly the live observations whose identity has an eligible candidate, each with the first such candidate |
| `ProbePoolState.YoungIsOffered` | crates/poise-core/src/probe.rs:563-593 | whatever is younger than max_age and belongs to an eligible candidate is offered to the ranking |
| `ProbePoolState.ProbePool.DecideAmongAt` | crates/poise-core/src/probe.rs:563-620 | charges exactly the offered entry of an eligible same-identity candidate, whose position is returned, and counts the use on that entry's serial alone |
| `ProbeFreshness.TopIsUnique` | crates/poise-core/src/probe.rs:365-386 | the freshest instants up to capacity are a well-defined multiset |
| `ProbeFreshness.EarlyExpiryIsInvisible` | crates/poise-core/src/probe.rs:622-625 | expiring by an earlier clock changes nothing a later read shows |
| `ProbeFreshness.RecordKeepsFreshest` | crates/poise-core/src/probe.rs:365-386 | one recording keeps the pool showing the freshest of everything recorded |
| `ProbeFreshness.FreshestSurvive` | crates/poise-core/src/probe.rs:365-386 | after any record-only run, clocks in any order, a read no earlier than any instant recorded shows exactly the capacity freshest unexpired instants |
| `ActiveProbes.ActiveHealth.TryStartProbeAt` | crates/poise-health/src/active.rs:202-220 | refused while running or not due, with the exact delay; otherwise a reservation of the current generation |
| `ActiveProbes.ActiveHealth.ForceStatus` | crates/poise-health/src/active.rs:256-263 | sets the status, clears counters and flight, advances the wrapping generation, keeps the last completion |
| `ActiveProbes.ActiveHealth.FinishAt` | crates/poise-health/src/active.rs:271-299 | every field after an accepted completion, and none touched otherwise |
| `ActiveProbes.ActiveProbe.FinishAt` | crates/poise-health/src/active.rs:466-472 | a reservation finishes at most once |
| `ActiveRuns.AppliedClassifies` | crates/poise-health/src/active.rs:281-298 | applying a result moves counters and status exactly as the streaks of the result list say |
| `ActiveRuns.FinishKeepsInv` | crates/poise-health/src/active.rs:271-299 | finishing any reservation, late or not, keeps the run invariant |
| `ActiveRuns.RunKeepsInv` | crates/poise-health/src/active.rs:202-299 | below 2^64 forces: in flight if and only if exactly one unfinished reservation carries the current generation, and the classification is a function of the results since the last force |
| `ActiveRuns.OnlyOutstandingTakesEffect` | crates/poise-health/src/active.rs:271-276 | a finish changes the state if and only if its reservation is the outstanding one; all others change no field |
| `ActiveRuns.WrappedGenerationIsAccepted` | crates/poise-health/src/active.rs:262-275 | an old reservation is accepted if and only if the number of forces since is a multiple of 2^64 |
| `ActiveRuns.StartsAreSpaced` | crates/poise-health/src/active.rs:301-309 | on a non-decreasing clock every granted start is at least the interval after every applied completion |
| `ActiveRuns.StartIsDueIff` | crates/poise-health/src/active.rs:301-309 | a start is due at once while nothing has completed, else exactly one interval after the last completion |
| `ActiveRuns.NeverFinishedStartsAtOnce` | crates/poise-health/src/active.rs:202-220 | until a completion takes effect an idle target can be probed at any time |
| `ActiveRuns.RetryAfterSufficesIff` | crates/poise-health/src/active.rs:301-309 | waiting the advertised delay suffices if and only if the clock had reached the last completion; nothing shorter ever does |
| `MembershipDirectory.Directory.Upsert` | crates/poise-discovery/src/directory.rs:196-223 | refines insertion into an ordered roster; refused whole when the clock is exhausted |
| `MembershipDirectory.Directory.BeginDrain` | crates/poise-discovery/src/directory.rs:230-247 | refines the drain transition, unchanged for unknown or draining members |
| `MembershipDirectory.Directory.FinishDrain` | crates/poise-discovery/src/directory.rs:254-275 | refines removal from the ordered roster |
| `MembershipDirectory.Directory.RemoveAt` | crates/poise-discovery/src/directory.rs:267-272 | the re-indexing loop restores the inverse of positions and entries |
| `MembershipDirectory.RemovalRefines` | crates/poise-discovery/src/directory.rs:266-272 | re-indexed structures stand for the roster without the removed key, order kept |
| `MembershipDirectory.Directory.ApplyBatch` | crates/poise-discovery/src/directory.rs:177-188 | a batch is its sequence or nothing |
| `MembershipDirectory.Directory.Snapshot` | crates/poise-discovery/src/directory.rs:279-291 | lists the members in insertion order with their states and the revision |
| `Registry.BatchCountsEffectiveChanges` | crates/poise-discovery/src/directory.rs:177-188 | a batch raises the revision by exactly its number of effective changes and fails if and only if the clock cannot hold them, changing nothing |
| `Registry.RevisionCountsEffectiveSteps` | crates/poise-discovery/src/directory.rs:196-275 | over any run of upsert, begin-drain and finish-drain operations the roster stays well-formed, the revision rises by exactly the number of effective ones, and an unchanged revision means an unchanged directory |
| `Registry.UpsertReplaces` | crates/poise-discovery/src/directory.rs:196-223 | joining again replaces the backend, ends a drain, keeps the place and touches nobody else; Inserted, Revived and Updated are reported exactly when they apply |
| `Registry.DrainLifecycle` | crates/poise-discovery/src/directory.rs:230-275 | draining keeps backend and place; only an active member starts, only a draining one finishes and leaves; each report exactly when it applies |
| `Registry.OperationKeepsWellFormed` | crates/poise-discovery/src/directory.rs:196-275 | each operation keeps identities unique, and advances the revision by one exactly when it changes the roster |
| `Registry.BatchesConcatenate` | crates/poise-discovery/src/directory.rs:177-188 | two batches in a row equal their concatenation, outcomes included |
| `Registry.KeysAreIndependent` | crates/poise-discovery/src/directory.rs:157-247 | a member's fate depends only on the changes that name it |
| `Registry.JoinAndLeaveRoundTrip` | crates/poise-discovery/src/directory.rs:196-275 | joining, draining and leaving restores the roster, order included |
| `Registry.LeaveKeepsOthers` | crates/poise-discovery/src/directory.rs:266-272 | removal keeps every other key once |
| `Reconciliation.MakePlan` | crates/poise-tower/src/discovery.rs:362-412 | a plan for every member, or the first repeated identity, live endpoints checked first |
| `Reconciliation.Stage` | crates/poise-tower/src/discovery.rs:220-231 | builds exactly the members not retained and stops at the first failure |
| `Reconciliation.PlanIsInjective` | crates/poise-tower/src/discovery.rs:234-239 | no live endpoint is claimed by two members |
| `Reconciliation.MoveRetained` | crates/poise-tower/src/discovery.rs:240-251 | every reused endpoint lands in its member's slot with its runtime and the member's new attributes |
| `Reconciliation.Assemble` | crates/poise-tower/src/discovery.rs:240-257 | no slot is lost by flattening: one endpoint per member, in order |
| `Reconciliation.RemovedAreAbsent` | crates/poise-tower/src/discovery.rs:259-274 | the removed count is exactly the old keys the snapshot no longer names |
| `Reconciliation.RetainedAreReusable` | crates/poise-tower/src/discovery.rs:259-274 | the retained count is exactly the members whose endpoint is live with the same backend |
| `Reconciliation.DrainingAreCounted` | crates/poise-tower/src/discovery.rs:259-292 | the draining count is the number of snapshot members whose membership is draining |
| `Reconciliation.Reconcile` | crates/poise-tower/src/discovery.rs:219-292 | the reconciled endpoints and a report whose every count is fixed by the live endpoints and the snapshot, or the reason for refusal |
| `Reconciliation.DiscoveryBalance.ApplySnapshot` | crates/poise-tower/src/discovery.rs:185-292 | any error leaves endpoints and revision unchanged; an equal revision is a no-op whose whole report is stated; success commits both, with every count of the report fixed |
| `Reconciliation.RuntimeSurvives` | crates/poise-tower/src/discovery.rs:240-251 | an endpoint named with the same backend by every snapshot of a chain keeps its service, load and readiness to the end |
| `Hashing.MixIsBijective` | crates/poise-core/src/hash.rs:92-96 | the finalizer has an explicit two-sided inverse on all 2^64 values |
| `Hashing.MixVectors` | crates/poise-core/src/hash.rs:121-125 | the published finalizer vectors |
| `Hashing.Fnv1a64.Write` | crates/poise-core/src/hash.rs:25-30 | the byte loop is the fold of one absorb step |
| `Hashing.Fnv1a64.WriteU64` | crates/poise-core/src/hash.rs:44-46 | a word is written as its eight bytes, least significant first |
| `Hashing.LittleEndianRoundTrip` | crates/poise-core/src/hash.rs:44-46 | the eight bytes reassemble to the word |
| `Hashing.HelloVector` | crates/poise-core/src/hash.rs:103-107 | the published FNV-1a vector |
| `Hashing.WritesConcatenate` | crates/poise-core/src/hash.rs:25-30 | hashing in pieces is hashing the whole |
| `Hashing.StatesStayApart` | crates/poise-core/src/hash.rs:25-30 | equal bytes never merge two different states |
| `Hashing.SingleByteChangeNeverCollides` | crates/poise-core/src/hash.rs:25-30 | equal-length inputs that differ in one byte never collide |

## Left out

- Floating point: the logarithm in weighted rendezvous scores, peak-EWMA decay, outlier statistics and penalty scores. Scores appear only as a total order.
- The quality of hash functions and random-number generators, and statistical tests of either.
- Allocation failure (`try_reserve`) and retained scratch capacity.
- The 128-bit credit accumulator of smooth weighted round robin where one slice's weights reach 2^63, which takes more than 2^31 members: credits are unbounded integers, and `AnyCallsFit` bounds them below that.
- The 128-bit endpoint sums of one locality: they are unbounded until the 64-bit check the source makes.
- Memory effects weaker than sequentially consistent steps in the snapshot channel, and the value carried by a rejected publication.
- SnapshotChannel.RunKeepsInv: streams and publisher are a state machine over values, not objects with shared references, because its steps interleave.
- MembershipDirectory.Directory.ApplyBatch: the iterator is a finished sequence, so a source that fails or blocks while producing changes is not modelled.
- Reconciliation.DiscoveryBalance.ApplySnapshot: effects a factory has of its own before a later build fails are not modelled.
- ProbePoolState.ProbePool.RecordAt: `len_at`, `is_empty_at` and `clear` are not modelled; they add nothing to the run properties.
- The availability answer that combines active status with the unknown policy, and snapshots of the probe state: direct reads of the fields modelled.
- Passive health: a circuit permit stores only its kind, so the epoch its documentation speaks of is not there to reason about.
- Round robin, least loaded, weighted random and plain rendezvous: their argmax and ticket scans are instances of what is proved.
- The in-flight counter and outcome windows, which are counters.
- Tower services and futures, Tokio runners, metrics, tracing, Display and Debug, builders and accessors.
