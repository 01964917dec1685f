# ConsentChain: verified models

ConsentChain records data-protection consents: an API service keeps them in a database, a registry and an audit
trail keep them on chain, and a ring of supporting components (a work queue, an expiry worker, a rate limiter, a
circuit breaker, a shutdown coordinator, deep links, data deletion, a cache) keeps the service running.  This
project models the components whose promises are about whole runs or all inputs, and proves those promises.

The modules have the same layout: the state as a datatype, every call as a function on it that takes the source's
branches in the source's order, a class whose methods change their fields as the source does and are proved to
do what the function says, and lemmas about all runs of those functions.  The modules
without a class, such as `MerkleBinding`, `QueueLoss` and `OverlappingCalls`, hold further results on the model of
another one, or are about calls that come between the parts of others.

| module | what it models |
|---|---|
| `Merkle` | building the audit tree, extracting and checking inclusion proofs; a digest is the free term of the text it hashes, and a text is a sequence of digests and other characters |
| `MerkleBinding` | which presented texts and proofs verify against a root, and which lists share one |
| `BlockchainQueue` | any number of queue instances over one Redis stream, one 60-second lease and one dead-letter stream, with crashes, cancellations, stale reads and failing commands; one Redis command is one step |
| `QueueLoop` | in which order each instance acts, and on which operation, told by positions of a run |
| `QueueRepetition`, `QueueLoss` | when that queue executes an operation again, and when it loses one |
| `ConsentLifecycle` | create, revoke, modify and verify with lazy expiry, and the worker's eager sweep, as calls that do not overlap |
| `ConsentFold` | the answers of those calls and the rows of both logs, told by the calls alone |
| `OverlappingCalls` | the same calls on one consent with their checks and commits apart, any number in flight |
| `RateLimiter` | the fixed-window limiter; requests on a key interleave between their INCRBY and EXPIRE |
| `RateLimiterPeak` | the most it lets through in one window's length |
| `CircuitBreaker` | the breaker with any number of calls in flight; being admitted and recording an outcome are the two atomic parts of a call |
| `GracefulShutdown` | the drain and the cleanup handlers, interleaved with requests at every suspension point |
| `DeepLink` | printing and parsing deep links |
| `ConsentRegistry`, `AuditTrail` | the two version 2 contracts with their boxes and uint64 counters |
| `RegistryFold` | what the registry holds and whom it lets do what, told by the calls that succeeded before |
| `DataDeletion` | the relational delete, also where it breaks off, and the nine-step deletion workflow |
| `DeletionRuns` | any number of executions and verifications of deletion requests in flight, with rows added meanwhile |
| `DeletionFold` | what a deletion request holds and which verifications are accepted, told by the actions before |
| `LocalCache` | the cache without Redis, with lazy eviction, and the `cached` decorator |

`Wrappers` holds Option and Result.  `dafny verify dfyconfig.toml` checks everything.

Clocks, rounds, fresh ids, verification codes, stored hashes, the blockchain client's result and the outcome of
wrapped functions, handlers and deletion steps are parameters of the calls.  Times are integers.

## What does not hold, and exactly when it does

* Inclusion proofs: building a level pairs an unpaired last node with itself, but extraction emits no step for it.
  A proof verifies if and only if no level leaves the leaf's ancestor as the unpaired last node, so all proofs
  verify if and only if the number of leaves is a power of two.  Emitting the missing step repairs it.  A negative
  index is not checked: extraction raises for it exactly if it leads out of reach on some level.
* Inclusion checking: leaves and nodes share one hash, and a step may hold any text for the sibling's digest.  So
  the concatenation of two sibling digests verifies, under a proof shorter than the tree is high; and if an item
  begins or ends with a digest, the text that digest was computed from verifies under a longer one, as in every tree
  the audit service builds, whose items are single digests (`api/services.py:507-512`).  Some verifying proof is
  longer than the tree is high if and only if some item begins or ends with a digest.  If none does, a verifying
  proof is for an item if and only if it is as long as the tree is high, which is if and only if it presents no
  digest pair.  A proof as long as the tree is high is sound for all items.
* Roots: lists of different sizes can share a root.  Equally high trees share one if and only if they hold the same
  item at every position of the perfect tree, an unpaired node standing for both its positions.  A higher tree with
  the same root exists if and only if all items are digest pairs.
* The empty tree's root raises IndexError in the code; `tests/test_crypto.py:82-84` expects 64 zeros, and
  `tests/test_blockchain.py:147` a constant `MerkleTree.EMPTY_ROOT` that the class does not define.  The model
  follows the code.
* Queue: an operation can be executed twice.  Granting the lock repeats one that the length limit did not drop if
  and only if its entry has left the stream (a stale read), an execution of it is still in progress beyond its 60
  seconds, or one was broken off by a crash, a cancellation or a failing command.  With timely holders and no
  interruption, stale reads are the only cause.  An operation can be lost: it is missing if and only if its entry
  was removed by a command that raised after a successful process_fn, and nobody completed or dead-lettered it; it
  stays so if and only if no instance has it in hand.
* The expiry sweep names `EventTypeDB.CONSENT_EXPIRY`, which `api/database.py:20-25` does not define, so every
  selected consent raises after its status was assigned: the status is committed, no event row is written, and the
  sweep reports every one as an error.  It also skips MODIFIED consents, which only lazy expiry marks.
* Sweeps and extra verify calls are unobservable if and only if no clock reading is earlier than the one before.
* Creating a consent for a wallet without a principal row always fails: the row it inserts has no email hash, which
  `api/database.py:33` requires.
* With overlapping calls the history of a consent is a chain of statuses if and only if every row is written after
  no revocation, by a call that loaded the record after the last row, or loaded MODIFIED or EXPIRED.
* REVOKED is absorbing for calls that do not overlap.  With overlapping calls it stays if and only if every call in
  flight is another revocation or a modification that loaded MODIFIED, and no second revocation row is written if
  and only if there is no such revocation either.
* Rate limiter: one window never lets through more than the limit, but an interval of one window's length can let
  through twice the limit, and no more if and only if no cost is negative (the code does not check).  With costs of
  at least c the most is twice the limit less c if two such costs fit into the limit, and the limit if only one
  does.  With costs of at least one a key lacks a deadline if and only if the request that opened its window is
  about to issue the EXPIRE or vanished before it; after the latter the key lets through a single limit for ever.
* Circuit breaker: after a reset with calls in flight, the totals no longer balance without counting those calls.  A
  threshold below one acts as one, so the counter is not below it.
* Deep links: an empty source, a part containing the scheme text, or a separator in the wrong part is not returned;
  these are the only exceptions.
* Registry: modifying a consent makes it fail on-chain verification for good; registering its hash again is the only
  way back; a consent registered without expiry round never stops verifying by itself, but anyone can expire it.  A
  modification with a purpose longer than the one registered is refused, as the box has a fixed size.
* Audit trail: an event hash that repeats one on the walk, or where the walk stops, makes the walk endless, and
  these are the only ones.
* Deletion: as written, no request is ever completed.  The step that clears the caches imports `redis_client` from
  `api/main.py`, which defines no such name, outside its own try (`api/deletion/__init__.py:235-236`), and the next
  one imports a table class that no file defines; so an execution that nothing else troubles purges the pair and
  ends FAILED.  After a database error that aborts the transaction the commit of FAILED raises too, and the request
  stays IN_PROGRESS.
* Deletion: execution does not look at whether the request was verified or rejected, only whether it is completed.
  COMPLETED stays if and only if no execution or verification of the request that could write another status was in
  flight when it was reached.  Rows added after the delete step stay.
* Cache: a lookup misses a live entry if and only if an earlier lookup of it read a clock at or past its expiry;
  `cached` is transparent if and only if colliding keys belong to arguments with equal results.

## Model

| member | source | states |
|---|---|---|
| `Merkle.MerkleTree.constructor` | core/crypto.py:187-189 | the tree holds the digests of the items in order and all levels above them |
| `Merkle.MerkleTree.BuildTree` | core/crypto.py:191-208 | the pairing loop builds exactly the levels of the leaves, up to a single digest |
| `Merkle.MerkleTree.PairUp` | core/crypto.py:199-204 | one level up: each node over its two children, an unpaired last child twice |
| `Merkle.MerkleTree.Root` | core/crypto.py:210-212 | the single top digest; an IndexError exactly for no leaves |
| `Merkle.MerkleTree.GetProof` | core/crypto.py:214-232 | the sibling steps from the leaf upwards with Python's indexing, negative and out-of-range indices included |
| `Merkle.MerkleTree.VerifyProof` | core/crypto.py:234-245 | for every presented text, steps with any texts and any root: true exactly if the root is the digest that folding the steps over the text's digest gives |
| `Merkle.ProofVerifiesExactlyWhenPaired` | core/crypto.py:191-245 | for every list and index extraction succeeds, and the proof verifies against the root if and only if no level leaves the leaf's ancestor unpaired |
| `Merkle.EveryProofVerifiesExactlyForPowersOfTwo` | core/crypto.py:191-245 | all proofs of a tree verify if and only if its size is a power of two |
| `Merkle.LastProofVerifiesExactlyForPowersOfTwo` | core/crypto.py:202-229 | the last leaf's proof verifies if and only if the size is a power of two |
| `Merkle.NegativeIndexCountsFromTheEnd` | core/crypto.py:214-232 | in a power-of-two tree a negative index extracts the proof of the leaf counted from the end |
| `Merkle.ExtractionRaisesExactly` | core/crypto.py:214-232 | for every list and integer index, extraction raises an IndexError if and only if the index is past the end, or is negative and on some level the sibling's index is below minus the level's length; for the first leaf's negative index that is unless the size is a power of two |
| `Merkle.RepairedProofAlwaysVerifies` | core/crypto.py:202-229 | emitting the self-sibling gives a proof that verifies for every index, and the code's own proof wherever that one verifies |
| `MerkleBinding.FullLengthProofIsSound` | core/crypto.py:187-245 | whatever verifies under a proof as long as the tree is high, steps with any texts included, is one of the items, whatever the items are |
| `MerkleBinding.LongerProofVerifiesExactlyOverEdges` | core/crypto.py:187-245 | some text verifies under a proof longer than the tree is high if and only if some item begins or ends with a digest |
| `MerkleBinding.EdgeVerifies` | core/crypto.py:235-245 | for every item that begins or ends with a digest, the text that digest was computed from verifies under such a proof |
| `MerkleBinding.PreimageVerifiesInServiceTree` | api/services.py:507-512 | in every tree of single digests, as the audit service builds them, the text that any of the digests was computed from verifies, although it is no item unless it is a single digest |
| `MerkleBinding.VerifyingIsSoundExactlyAtFullLength` | core/crypto.py:187-245 | for every text and proof, steps with any texts included, that verify against a tree none of whose items begins or ends with a digest: the text is an item if and only if the proof is as long as the tree is high, and if and only if the text is no digest pair |
| `MerkleBinding.NeighboursVerify` | core/crypto.py:203-245 | every pair of neighbouring digests on every level below the root is a text that verifies, under the proof of the node above |
| `MerkleBinding.SomethingElseVerifies` | core/crypto.py:235-245 | every tree of more than one item accepts, under the empty proof, a text that is no item unless an item is a digest pair |
| `MerkleBinding.RootBindsLeaves` | core/crypto.py:187-212 | same size and same root if and only if the same leaves in the same order |
| `MerkleBinding.RootsEqualExactlyBySlots` | core/crypto.py:187-212 | lists without digest pairs, of any sizes, share a root if and only if their trees are equally high and hold the same item at every position of the perfect tree |
| `MerkleBinding.EquallyHighRootsEqualExactlyBySlots` | core/crypto.py:187-212 | the same for equally high trees of any items |
| `MerkleBinding.RepeatedLastLeafKeepsRoot` | core/crypto.py:202 | repeating the last leaf of any odd list of more than one gives a longer list with the same root |
| `MerkleBinding.EqualRootsEqualHeight` | core/crypto.py:187-212 | lists without digest pairs share a root only if their trees are equally high |
| `MerkleBinding.PairUnderTheRootKeepsRoot` | core/crypto.py:188-212 | every list of more than one item shares its root with a one-item list |
| `MerkleBinding.HigherTreeExactlyOverPairs` | core/crypto.py:188-212 | a higher tree with the same root exists if and only if all items are digest pairs |
| `BlockchainQueue.Queue.EnqueueOperation` | api/blockchain_queue.py:36-68 | appends the operation under the next stream id, within the approximate length limit |
| `BlockchainQueue.Queue.ProcessOnce` | api/blockchain_queue.py:80-134 | an uninterrupted pass is a run of the step machine: it does nothing when the stream is empty or the lease is held, and otherwise executes the head once, removes exactly it, dead-letters it exactly on failure, frees the lock and takes as long as process_fn |
| `BlockchainQueue.AtMostOneInsideProcess` | api/blockchain_queue.py:80-138 | over every interleaving with crashes, stale reads and failing commands, at most one instance is inside process_fn while holders release within 60 seconds, although the lock is deleted without an ownership check |
| `BlockchainQueue.SecondHolderExactlyWhenOverdue` | api/blockchain_queue.py:97-105 | the next asker gets in beside the holder if and only if the holder's 60 seconds are over |
| `BlockchainQueue.LockNeverOutlivesLease` | api/blockchain_queue.py:97-102 | whoever crashes, the lock frees itself within 60 seconds |
| `BlockchainQueue.EachInstanceInOrderAtMostOnce` | api/blockchain_queue.py:80-138 | with reliable commands each instance executes in enqueue order and nothing twice; a repeated operation is always by another instance |
| `BlockchainQueue.SingleInstanceInEnqueueOrder` | api/blockchain_queue.py:80-138 | a single instance executes all operations in enqueue order, each at most once |
| `BlockchainQueue.StaleReadExecutesTwice` | api/blockchain_queue.py:83-114 | a run in which two timely instances execute one operation |
| `QueueLoop.GrantIsForTheHeadJustRead` | api/blockchain_queue.py:83-108 | in every run, when the lock is granted to an instance, the latest of its reads, lock requests and failing commands was a read, and it starts the operation that headed the stream at that read: a refused instance reads again |
| `QueueLoop.CleanupIsForTheHeadLastRead` | api/blockchain_queue.py:107-134 | in every run an instance deletes and dead-letters exactly the operation that headed the stream when it last read |
| `QueueLoop.EveryInstanceFollowsTheLoop` | api/blockchain_queue.py:80-143 | in every run each action of an instance, cancellations, crashes and failing commands aside, is the one that the loop has after the instance's latest earlier action and how that went |
| `QueueLoop.WhatTouchesTheLock` | api/blockchain_queue.py:97-138 | a request sets a free lock for 60 seconds and leaves a held one, a release deletes it whoever holds it, and nothing else that succeeds touches it |
| `QueueLoop.LimitsKeepTheLatest` | api/blockchain_queue.py:61-128 | the streams lose only oldest entries to their limits and keep 10000 and 1000 when they do, the new entry last |
| `QueueRepetition.GrantRepeatsExactly` | api/blockchain_queue.py:83-138 | in every reachable state, granting the lock for an untrimmed operation repeats it if and only if its entry left the stream, an execution of it is in progress, or one was broken off |
| `QueueRepetition.NoRepetitionExactlyWhenGrantsFresh` | api/blockchain_queue.py:80-138 | over every run with crashes, cancellations, failing commands and overdue holders, nothing is executed twice if and only if every granted lock was for an entry in the stream, not in progress and never broken off |
| `QueueRepetition.NoRepetitionExactlyWithoutStaleGrants` | api/blockchain_queue.py:80-138 | with timely holders and no interruption, nothing is executed twice if and only if no lock was granted for an entry that had left the stream |
| `QueueLoss.MissingExactlyWhenRemovedSilently` | api/blockchain_queue.py:61-138 | in every run below the length limits, with crashes, cancellations and commands that fail before or after taking effect, an operation is neither in the stream nor completed nor dead-lettered if and only if its entry was removed by a command that raised after a successful process_fn and nobody completed or dead-lettered it |
| `QueueLoss.NothingLost` | api/blockchain_queue.py:61-138 | without such a removal every enqueued operation is in the stream, completed or dead-lettered |
| `QueueLoss.LostForGoodExactly` | api/blockchain_queue.py:80-138 | in every reachable state an operation is unaccounted for in all continuations if and only if it is so now and no instance has it in hand between reading and dead-lettering it |
| `ConsentLifecycle.ConsentService.CreateConsent` | api/services.py:101-192 | every refusal in order, the insertion of an unknown principal included, or the new record with the parties, terms and deadline given, and its event and audit row |
| `ConsentLifecycle.ConsentService.RevokeConsent` | api/services.py:194-241 | refusals, or the revoked record with its event and audit row; a failing chain call changes nothing |
| `ConsentLifecycle.ConsentService.ModifyConsent` | api/services.py:243-308 | refusals, or the amended record with its event and audit row; absent arguments keep their fields |
| `ConsentLifecycle.ConsentService.VerifyConsent` | api/services.py:310-353 | the answer with its reason and date; a past deadline marks the record EXPIRED |
| `ConsentLifecycle.ConsentService.ProcessExpiredConsents` | api/workers/expiry_worker.py:87-141 | the sweep marks exactly the GRANTED records past their deadline, writes no event and counts each of them as an error |
| `ConsentLifecycle.ExpiryMechanismsUnobservable` | api/services.py:194-353 | inserting any sweeps and extra verify calls anywhere in a run with a monotone clock changes no verify answer, no success or failure and no audit row, and event rows only in an EXPIRED previous status |
| `ConsentLifecycle.UnobservableExactlyWithoutDescent` | api/workers/expiry_worker.py:87-134 | for a sequence of clock readings, no insertion of sweeps and verify calls into any run with them changes an answer, if and only if no reading is earlier than the one before |
| `ConsentLifecycle.HistoryIsAChain` | api/services.py:171-308 | in every run of calls that do not overlap each event of a consent continues from the status its predecessor left, or from EXPIRED after a passed deadline; a revocation occurs at most once and last |
| `ConsentLifecycle.RevokedForever` | api/services.py:194-353 | REVOKED is absorbing: record, history and verify answer never change again under any calls that do not overlap |
| `ConsentFold.VerifyIsTheFold` | api/services.py:101-353 | with a monotone clock, after every run verify answers by a fold of the calls that knows no statuses: valid if and only if the consent was created, was not revoked, and the last deadline that was set has not passed; a valid answer carries the parties and time of the creation and the purpose, data types, deadline, transaction and hash last given |
| `ConsentFold.AnswersAreTheFold` | api/services.py:101-308 | after every run, with any clock, which creation, revocation or modification is refused and for what reason follows from the calls before |
| `ConsentFold.LogsAreTheCalls` | api/services.py:399-452 | after every run, with any clock, the event rows and the audit rows are exactly the successful creations, revocations and modifications in order, each with its consent, its time and the parties named at creation |
| `ConsentFold.AuditMirrorsEvents` | api/services.py:399-452 | from any state with mirrored logs the audit rows go on mirroring the event rows one by one |
| `ConsentFold.SweepMarksGrantedPastDue` | api/workers/expiry_worker.py:87-141 | a sweep marks exactly the GRANTED records past their deadline, changes nothing else, and reports as errors as many as it marked |
| `ConsentLifecycle.SweepLeavesOnlyUnselected` | api/workers/expiry_worker.py:91-106 | after a sweep, verify still has expiry work to do exactly for past-due MODIFIED or PENDING records |
| `OverlappingCalls.UninterruptedCallsAgree` | api/services.py:194-308 | a revocation or modification whose commit directly follows its check does what the atomic call does |
| `OverlappingCalls.ChecksAgree` | api/services.py:194-353 | a revocation's or modification's check passes exactly when the atomic call is not refused, an expiry's exactly when the atomic verify writes, and an expiry whose commit follows directly writes the same |
| `OverlappingCalls.RevokedForeverExactlyUnlessOverlapped` | api/services.py:200-353 | a revoked consent stays REVOKED in all continuations if and only if every call in flight is a revocation or a modification that loaded MODIFIED |
| `OverlappingCalls.RevokedOnceExactlyUnlessOverlapped` | api/services.py:203-241 | a revoked consent gets no further CONSENT_REVOKED row in any continuation if and only if every call in flight is a modification that loaded MODIFIED |
| `OverlappingCalls.RevokedFrozenExactlyWithNoneInFlight` | api/services.py:200-353 | record and history of a revoked consent never change again if and only if no call of it is in flight |
| `OverlappingCalls.HistoryChainsExactlyInTurn` | api/services.py:171-353 | in every run of overlapping calls on a created consent each event's previous status is the one its predecessor left, or EXPIRED, and nothing follows a revocation, if and only if every row was written after no revocation and by a call that loaded the record after the last row, or loaded MODIFIED or EXPIRED |
| `RateLimiter.TieredRateLimiter.CheckRateLimit` | api/middleware/rate_limiting.py:122-169 | the counter after INCRBY and EXPIRE, other keys untouched, allowed exactly up to the tier's limit, and the reported remaining count and time to live |
| `RateLimiter.LimitsByTier` | api/middleware/rate_limiting.py:100-152 | which tier has which limit on which endpoint, unknown tiers and endpoints included, all per minute |
| `RateLimiter.TtlIsWithinHalfASecond` | api/middleware/rate_limiting.py:160 | the reported reset is within half a second of the time left, -1 exactly for a key without deadline and -2 exactly for none |
| `RateLimiter.RequestIsARun` | api/middleware/rate_limiting.py:154-160 | the method's effect on its key is a run of the interleaved machine |
| `RateLimiter.DeadlineOnceOpenerCompletes` | api/middleware/rate_limiting.py:154-158 | in every interleaving a key without deadline is one whose opening request is still to issue EXPIRE or vanished |
| `RateLimiter.NoDeadlineExactlyWhileOpenerPending` | api/middleware/rate_limiting.py:154-158 | with costs of at least one, in every interleaving, a key lacks a deadline if and only if its opening request is still to issue EXPIRE or vanished |
| `RateLimiter.WindowNeverOverspent` | api/middleware/rate_limiting.py:154-162 | the cost let through in one window never exceeds the limit, for any integer costs |
| `RateLimiter.IntervalNeverOverspent` | api/middleware/rate_limiting.py:154-162 | without negative costs any interval of length L lets through at most (ceil(L / window) + 1) times the limit |
| `RateLimiter.AtMostTwiceTheLimit` | api/middleware/rate_limiting.py:154-162 | so an interval of one window's length lets through at most twice the limit |
| `RateLimiter.TwiceTheLimitLessOpening` | api/middleware/rate_limiting.py:154-162 | for every limit and opening cost there is a run that lets through twice the limit less the opening cost in such an interval |
| `RateLimiter.AtMostTwiceExactlyWithoutNegativeCosts` | api/middleware/rate_limiting.py:133-162 | twice the limit bounds all runs with costs from some least value upwards if and only if that value is not negative |
| `RateLimiterPeak.PeakIsTheMaximum` | api/middleware/rate_limiting.py:133-162 | with costs of at least c a number bounds all runs and intervals of one window's length if and only if it is at least the peak: twice the limit less c if two such costs fit into the limit, the limit if one does, and nothing if none does |
| `RateLimiterPeak.PeakIsAttained` | api/middleware/rate_limiting.py:133-162 | for every rate and least cost there is a run that lets the peak through |
| `RateLimiter.AbandonedKeyNeverExpires` | api/middleware/rate_limiting.py:154-158 | a key whose EXPIRE was lost never gets a deadline and its count never falls, in any continuation without negative costs |
| `RateLimiter.VanishedOpenerSpendsOneLimitForEver` | api/middleware/rate_limiting.py:154-162 | the run that gets there, and that in each of its continuations no interval, however long, lets through more than one limit |
| `CircuitBreaker.CircuitBreaker.constructor` | api/resilience/circuit_breaker.py:55-74 | a closed circuit with all counters at zero |
| `CircuitBreaker.CircuitBreaker.Begin` | api/resilience/circuit_breaker.py:105-117 | admitted exactly unless open with the recovery timeout not over; then counted, and half-open if it was open |
| `CircuitBreaker.CircuitBreaker.CheckStateTransition` | api/resilience/circuit_breaker.py:136-143 | half-open exactly when open and the timeout is over |
| `CircuitBreaker.CircuitBreaker.Succeed` | api/resilience/circuit_breaker.py:145-156 | the new counters, and closing on the last test success |
| `CircuitBreaker.CircuitBreaker.Fail` | api/resilience/circuit_breaker.py:158-180 | the new counters, and opening from half-open or at the threshold |
| `CircuitBreaker.CircuitBreaker.Transition` | api/resilience/circuit_breaker.py:182-192 | state, time stamp and which counters restart |
| `CircuitBreaker.CircuitBreaker.Reset` | api/resilience/circuit_breaker.py:226-230 | as newly made |
| `CircuitBreaker.CountersAreFolds` | api/resilience/circuit_breaker.py:105-200 | in every reachable state the counters are folds of the history: trailing failures, successes, failures and admissions since reset, test successes since half-open |
| `CircuitBreaker.ClosedBelowThresholdExactlyWhenPositive` | api/resilience/circuit_breaker.py:174-180 | closed implies fewer trailing failures than the threshold, in all runs, if and only if the threshold is positive |
| `CircuitBreaker.HalfOpenBelowThresholdExactlyWhenPositive` | api/resilience/circuit_breaker.py:151-156 | half-open implies fewer test successes than the success threshold, in all runs, if and only if the threshold is positive |
| `CircuitBreaker.TransitionsExactly` | api/resilience/circuit_breaker.py:136-200 | for all thresholds, which event changes the state, by the history alone: closed opens exactly when the failure run reaches the threshold (one, if it is less), half-open opens exactly on a failure and closes exactly on the last test success |
| `CircuitBreaker.CallsBalance` | api/resilience/circuit_breaker.py:116-134 | admitted calls plus those carried over a reset equal successes, failures, in-flight and cancelled calls |
| `CircuitBreaker.TotalsAgreeExactlyWithoutCarriedCalls` | api/resilience/circuit_breaker.py:226-230 | total equals successes plus failures plus in-flight plus cancelled if and only if the last reset found no call in flight |
| `CircuitBreaker.NoEarlyAdmission` | api/resilience/circuit_breaker.py:136-143 | with a monotone clock no call is admitted within the recovery timeout after any opening unless reset in between |
| `CircuitBreaker.OpenAdmitsExactlyAfterTimeout` | api/resilience/circuit_breaker.py:105-143 | in every run a call that finds the circuit open is admitted, as the first test of a half-open circuit, if and only if the recovery timeout has passed since the latest event that opened it; otherwise nothing changes |
| `CircuitBreaker.OthersAlwaysAdmit` | api/resilience/circuit_breaker.py:105-117 | in every run a call that finds the circuit closed or half-open is admitted and only counted |
| `GracefulShutdown.GracefulShutdown.RegisterHandler` | api/lifecycle/shutdown.py:54-56 | the handler is appended |
| `GracefulShutdown.GracefulShutdown.EnterRequest` | api/lifecycle/shutdown.py:63-72 | admitted exactly while running, under a new id |
| `GracefulShutdown.GracefulShutdown.ExitRequest` | api/lifecycle/shutdown.py:74-83 | the request is completed; the last one out during shutdown sets the event |
| `GracefulShutdown.GracefulShutdown.InitiateShutdown` | api/lifecycle/shutdown.py:101-129 | only the first initiation counts; it waits for the drain or, with nothing active, starts the cleanup |
| `GracefulShutdown.GracefulShutdown.ResumeDrain` | api/lifecycle/shutdown.py:131-142 | the wait ends by the event or by its timeout and the cleanup starts |
| `GracefulShutdown.GracefulShutdown.HandlerEnded` | api/lifecycle/shutdown.py:149-162 | a handler counts as run or as an error and the next one is called |
| `GracefulShutdown.GracefulShutdown.RunHandlersFrom` | api/lifecycle/shutdown.py:116-162 | the next handler is called, or the shutdown completes |
| `GracefulShutdown.NoLostWakeUp` | api/lifecycle/shutdown.py:74-136 | in every interleaving a waiting shutdown finds the event set if and only if no request is active |
| `GracefulShutdown.RequestsBalance` | api/lifecycle/shutdown.py:63-83 | active plus completed equals admitted |
| `GracefulShutdown.NothingAdmittedAfterInitiation` | api/lifecycle/shutdown.py:63-72 | after initiation the active set only shrinks |
| `GracefulShutdown.CleanupFindsNoActiveRequest` | api/lifecycle/shutdown.py:121-145 | a shutdown whose drain does not time out cleans up with no active request |
| `GracefulShutdown.HandlersRunOnceInOrder` | api/lifecycle/shutdown.py:144-162 | handlers are called once each in order, late registrations included, and on completion runs plus errors equal handlers |
| `GracefulShutdown.CompleteIsFinal` | api/lifecycle/shutdown.py:101-119 | after completion nothing is called; runs plus errors stay equal to the handlers exactly if none is registered late |
| `GracefulShutdown.CountsMatchEndings` | api/lifecycle/shutdown.py:149-162 | the run count and the error list count exactly the good and the bad endings of handler calls |
| `GracefulShutdown.ErrorsNameTheBadlyEnded` | api/lifecycle/shutdown.py:144-162 | in every run the error list holds, in order, the names of the handlers whose calls ended badly, the k-th call that ends being the k-th registered handler's |
| `DeepLink.ParseDeepLink` | api/mobile/__init__.py:295-319 | the loop yields the fold of all query pieces, later items overwriting earlier ones in place; nothing without the scheme |
| `DeepLink.ParsedBodyOfSeparable` | api/mobile/__init__.py:274-319 | parts free of misplaced separators are parsed back, `=` in values included |
| `DeepLink.SplitJoin` | api/mobile/__init__.py:282-305 | splitting undoes joining |
| `DeepLink.RemovalShortens` | api/mobile/__init__.py:299 | removing the scheme text changes exactly the strings that contain it |
| `DeepLink.BodySchemeFree` | api/mobile/__init__.py:274-293 | a printed body contains the scheme text if and only if one of its parts does |
| `DeepLink.ParsedNotLonger` | api/mobile/__init__.py:295-319 | parsing never yields a link that prints longer than what was parsed |
| `DeepLink.RoundTripsExactlyWhenClean` | api/mobile/__init__.py:274-319 | parsing a generated link returns path, parameters in order and source if and only if the parts avoid the separators, the key source, the empty source and the scheme text |
| `DeepLink.ParsedIsTold` | api/mobile/__init__.py:295-319 | for every text: parsed exactly if it starts with the scheme; pieces without `=` give nothing; the keys are those named, without source, in the order of first appearance, each with the value of the last piece that names it, and the source is that of the last piece that names it |
| `ConsentRegistry.Contract.constructor` | contracts_v2/consent_registry.py:23-27 | no boxes and zero counters |
| `ConsentRegistry.Contract.RegisterConsent` | contracts_v2/consent_registry.py:30-59 | by the admin or the principal; the box is written whatever it held, total and active grow, overflow rejects |
| `ConsentRegistry.Contract.RevokeConsent` | contracts_v2/consent_registry.py:62-81 | by the box's principal only and of a GRANTED box only; every refusal, or the revoked box and both counters moved |
| `ConsentRegistry.Contract.ModifyConsent` | contracts_v2/consent_registry.py:84-106 | every refusal, a purpose that outgrows its box included, or the amended box marked MODIFIED with the counters unchanged |
| `ConsentRegistry.Contract.ExpireConsent` | contracts_v2/consent_registry.py:137-154 | every refusal, or the expired box and one less active |
| `ConsentRegistry.Contract.VerifyConsent` | contracts_v2/consent_registry.py:109-125 | true exactly for a GRANTED box whose expiry round is zero or not over |
| `ConsentRegistry.NeverUnderflows` | contracts_v2/consent_registry.py:30-154 | in every run total equals active plus revoked plus expirations, active covers the GRANTED boxes, and no call is rejected for underflow |
| `ConsentRegistry.CountersCountBoxes` | contracts_v2/consent_registry.py:30-154 | with fresh hashes total counts the boxes, revoked the REVOKED ones, active the GRANTED and the never-expired MODIFIED ones |
| `ConsentRegistry.RejectionIsFinal` | contracts_v2/consent_registry.py:62-154 | with rounds that do not go back, a registered consent that fails verification fails it in every later state until its hash is registered anew |
| `ConsentRegistry.VerifiesExactlyWhenLastRegistered` | contracts_v2/consent_registry.py:30-154 | after every run a hash verifies if and only if the latest successful call on it registered it, with an expiry round that is zero or not over |
| `ConsentRegistry.RefusedForSizeExactly` | contracts_v2/consent_registry.py:30-154 | in every run a call is refused for its box's size if and only if it is an otherwise valid modification to a longer purpose than the hash was last registered with; stored purposes always fit |
| `ConsentRegistry.ModifyingWithdraws` | contracts_v2/consent_registry.py:84-125 | a modified consent never verifies again |
| `ConsentRegistry.ExpireWithdrawsExactlyUnlimited` | contracts_v2/consent_registry.py:109-154 | in every run a verifying consent can be expired if and only if it was registered without expiry round, once the chain has left round zero |
| `RegistryFold.SucceedsExactly` | contracts_v2/consent_registry.py:30-154 | in every run, with the earlier successful calls on the hash: a registration succeeds if and only if the creator or the named principal sends it; a revocation, if the latest is a registration and its principal sends it; a modification, if the latest is no revocation, the principal of the latest registration sends it and the purpose is no longer than the one registered; an expiry, if the latest is a registration whose round is over; the first two while their counters have room |
| `RegistryFold.RefusalsAreTheFold` | contracts_v2/consent_registry.py:30-154 | in every run a refused call names the first check that fails, by the same calls |
| `RegistryFold.RegistryIsTheFold` | contracts_v2/consent_registry.py:30-154 | after every run the counters count the successful calls of each kind, and a box holds the parties, data types and round of the latest registration, the purpose and expiry round last given, the status the latest call leaves and the round of a revocation |
| `AuditTrail.Contract.constructor` | contracts_v2/audit_trail.py:23-28 | an empty trail whose head is the zero hash |
| `AuditTrail.Contract.LogEvent` | contracts_v2/audit_trail.py:37-62 | the event's box linked to the old head, the new head and the counter; overflow changes nothing |
| `AuditTrail.Contract.BatchLogEvents` | contracts_v2/audit_trail.py:65-74 | root, head and counter move, boxes stay; overflow changes nothing |
| `AuditTrail.VerifiedExactlyWhenLogged` | contracts_v2/audit_trail.py:37-99 | after every run of logs and batches exactly the logged hashes verify, whatever the batches claim, and the counter counts the logged and the claimed events |
| `AuditTrail.TrailIsTheFold` | contracts_v2/audit_trail.py:37-74 | after every run of logs and batches the head is the hash last given, the Merkle root that of the latest batch, a box what the latest log call of its hash stored with the head before it as link, and the next call succeeds if and only if the counter has room, all by the calls alone |
| `AuditTrail.WalkUnique` | contracts_v2/audit_trail.py:37-62 | the back-links define at most one finite walk |
| `AuditTrail.WalkableExactlyWhenOffTheWalk` | contracts_v2/audit_trail.py:37-62 | logging keeps the walk finite if and only if the new hash is neither on the walk nor where it stops |
| `AuditTrail.LogsWalkableExactlyWhenOffTheWalk` | contracts_v2/audit_trail.py:37-62 | after any log calls the walk is finite if and only if their hashes were all different, off the walk there was and not where it stops |
| `AuditTrail.WalkFiniteExactlyWhenFresh` | contracts_v2/audit_trail.py:37-62 | from deployment the walk is finite if and only if the logged hashes are all different and none is zero |
| `AuditTrail.LogsExtendWalk` | contracts_v2/audit_trail.py:37-62 | logging fresh events puts them, newest first, in front of any walk there was |
| `AuditTrail.WalkVisitsLoggedEvents` | contracts_v2/audit_trail.py:37-62 | without batches the walk from the head terminates and visits exactly the logged events in reverse order, as many as the counter says |
| `AuditTrail.WalkStopsAtUnboxedBatch` | contracts_v2/audit_trail.py:65-74 | after a batch whose last hash has no box the walk covers exactly the events since the batch |
| `AuditTrail.WalkContinuesBelowBoxedBatch` | contracts_v2/audit_trail.py:65-74 | after a batch whose last hash is a logged event the walk goes on with that event's own walk and skips what was logged between |
| `AuditTrail.LogsAreStored` | contracts_v2/audit_trail.py:47-59 | every logged event keeps its box with what was logged and the link to the event before it |
| `DataDeletion.DeletionOrchestrator.constructor` | api/deletion/__init__.py:297-310 | the nine steps in order |
| `DataDeletion.DeletionOrchestrator.DeleteEventsOf` | api/deletion/__init__.py:172-176 | the loop deletes exactly the selected consents' events and counts the consents |
| `DataDeletion.DeletionOrchestrator.DeleteRecords` | api/deletion/__init__.py:156-203 | the tables without the pair's rows, and the number of its consents |
| `DataDeletion.DeletionOrchestrator.CreateDeletionRequest` | api/deletion/__init__.py:312-348 | a pending request with its code |
| `DataDeletion.DeletionOrchestrator.VerifyDeletionRequest` | api/deletion/__init__.py:350-382 | accepted exactly for the stored code, if that is not empty, of a request neither completed nor rejected; then the status and a date 24 hours on are written, and otherwise nothing |
| `DataDeletion.DeletionOrchestrator.DeleteRecordsPartly` | api/deletion/__init__.py:156-203 | the tables as far as the deletes came before one raised |
| `DataDeletion.DeletionOrchestrator.RunStep` | api/deletion/__init__.py:82-203 | a step fails if what it calls raises or the principal is missing; only the delete step changes the tables, wholly or as far as it came |
| `DataDeletion.DeletionOrchestrator.RunWorkflow` | api/deletion/__init__.py:501-536 | the loop runs the steps up to the first failure, with one report each |
| `DataDeletion.DeletionOrchestrator.ExecuteDeletionFull` | api/deletion/__init__.py:454-550 | response, request and tables after an execution, refusals and a failing commit of FAILED included |
| `DataDeletion.PurgeIsExact` | api/deletion/__init__.py:156-203 | no consent, attached event or audit row of the pair is left, every other row stays as it is, and every event still has its consent |
| `DataDeletion.PartialDeleteIsRecoverable` | api/deletion/__init__.py:172-199 | wherever the delete step breaks off it took rows of the pair only, every event still has its consent, and a later delete leaves what a single one would have left |
| `DataDeletion.CompletesExactlyWhenAllStepsSucceed` | api/deletion/__init__.py:454-550 | the request completes exactly when none of the nine steps fails, all nine having run in order and the pair's rows being gone |
| `DataDeletion.NothingCompletesAsWritten` | api/deletion/__init__.py:235-275 | with the cache step always raising no execution completes, and one that nothing else troubles purges the pair and ends FAILED after six steps |
| `DataDeletion.FailureRunsNothingLater` | api/deletion/__init__.py:519-535 | a failure at a step runs nothing later and marks the request FAILED, or leaves it IN_PROGRESS without a response if the transaction was aborted; the pair's rows are all there before the delete step, gone after it, and in between as far as was committed |
| `DataDeletion.ExecutionIgnoresOtherStatuses` | api/deletion/__init__.py:474-483 | any request not completed is executed alike, unverified and rejected ones included |
| `DataDeletion.RunsNothingExactlyWhenUnknownOrCompleted` | api/deletion/__init__.py:454-483 | an unknown or completed request is answered without a report and without a change; for any other one the first step is reported, unless an aborted transaction leaves no response |
| `DataDeletion.ReportsTellTheFailure` | api/deletion/__init__.py:501-536 | one report for each step up to the first failure, in order, and only that one is not completed |
| `DeletionRuns.CompletedForeverExactlyUnlessOverlapped` | api/deletion/__init__.py:350-550 | a completed request stays COMPLETED in all continuations if and only if every execution or verification of it in flight has done its nine steps or loaded the status it will write |
| `DeletionRuns.CompletedRowFrozenExactlyWithNoneInFlight` | api/deletion/__init__.py:350-550 | a completed request's row never changes again if and only if nothing of it is in flight |
| `DeletionRuns.CompletionMeansGone` | api/deletion/__init__.py:156-550 | in every run, with overlapping executions, failures, partial deletes and rows added at any time, a completed request had a successful delete step, and no row of its pair was there before it |
| `DeletionRuns.NothingCompletesAsWritten` | api/deletion/__init__.py:235-236 | in every run in which the cache step always raises, however executions overlap, no request is ever completed |
| `DeletionRuns.ExecutionIsARun` | api/deletion/__init__.py:454-550 | an execution that nothing comes between is a run of the interleaved machine with the uninterrupted result |
| `DeletionFold.VerificationAcceptedExactly` | api/deletion/__init__.py:350-382 | in every run a verification is accepted if and only if its code is the non-empty one of the action that created the request, which stands neither completed nor rejected; accepted and not interrupted it sets VERIFICATION_IN_PROGRESS and a date 24 hours on and changes nothing else, and refused it changes nothing |
| `DeletionFold.RequestsAreTold` | api/deletion/__init__.py:312-550 | in every run of overlapping executions and verifications each request holds what the actions so far wrote to it, a status only where it differs from the one its call loaded |
| `DeletionFold.ToldByCreation` | api/deletion/__init__.py:312-348 | the parties and the code are always those of the creation |
| `DeletionFold.ScheduledOnlyByCode` | api/deletion/__init__.py:350-382 | in every run a request has a scheduled date only if a verification of it was begun with the right code |
| `LocalCache.CacheService.constructor` | api/cache/__init__.py:117-122 | an empty cache with zero statistics |
| `LocalCache.CacheService.Lookup` | api/cache/__init__.py:153-175 | returns what the history of calls defines, for any clock |
| `LocalCache.CacheService.Find` | api/cache/__init__.py:161-172 | a live entry counts as a hit, an expired one is removed, and everything else counts as a miss |
| `LocalCache.CacheService.Store` | api/cache/__init__.py:177-200 | the entry with its expiry time replaces what was there |
| `LocalCache.CacheService.Remove` | api/cache/__init__.py:202-215 | the key is gone; the deletion counts whether it was there or not |
| `LocalCache.CacheService.RemovePattern` | api/cache/__init__.py:217-238 | the loop removes exactly the matching keys and returns how many keys that match the history left stored, unevicted expired ones included |
| `LocalCache.CacheService.Cached` | api/cache/__init__.py:297-327 | the value that the history of calls defines if there is one, and then only a lookup is added to the history; otherwise the function's result, which is then stored under the key with the time to live, unless it is None |
| `LocalCache.RefinesExactlyUnlessEvictedEarly` | api/cache/__init__.py:153-238 | for any clock a lookup finds what the latest call affecting the key defines, if and only if no earlier lookup evicted an entry that would still be live |
| `LocalCache.RefinesHistory` | api/cache/__init__.py:153-238 | when no earlier call read a later clock, a lookup finds v exactly when the latest call affecting the key is a set of v whose time to live has not run out |
| `LocalCache.StatsAreFolds` | api/cache/__init__.py:162-171 | for any clock, hits and misses are folds of the history of calls |
| `LocalCache.WritesAreFolds` | api/cache/__init__.py:177-238 | so are the other two counters: stores, and deletions, of which a pattern counts the stored keys it matches and one of a single key always one |
| `LocalCache.CachedIsTransparentExactly` | api/cache/__init__.py:304-327 | the decorator returns what the function returns, after all histories in which its keys hold only its own results, if and only if colliding keys belong to arguments with equal results |
| `LocalCache.CachedWithInjectiveKeys` | api/cache/__init__.py:304-327 | injective keys make the decorator transparent |

## Left out

- Real SHA-256: digests are free terms, and a text is read as whole digests and other characters, so parts of digests are other characters.
- BlockchainQueue.Queue.ProcessOnce: only the pass no other instance interrupts is a method; the interleaved loop is a step relation on values, because a method runs to its end.
- The queue's message payload, `get_operation_status`, the blocking time of reads and the one-second sleep after an error.
- ConsentLifecycle: registering and looking up principals and fiduciaries, `query_consents`, webhooks, reminders, metadata, signatures, `updated_at`, how hashes are computed; naive and aware date-times are both integers.
- ConsentLifecycle.HistoryIsAChain: is for calls that do not overlap; for overlapping ones `OverlappingCalls.HistoryChainsExactlyInTurn` says when the statuses chain, and not that the deadline of an expiry had passed, which an overtaken expiry need not keep.
- OverlappingCalls: how the rows of several calls are ordered by their time stamps, and overlapping creations, which have ids of their own.
- RateLimiter: the slowapi limiters, parsing of "N/unit" texts (limits are pairs), and tier changes while requests are in flight.
- CircuitBreaker: last error and time texts, the state-change callback, timeouts of the wrapped call (any call may fail at any time), the registry and the decorator.
- GracefulShutdown: signal handlers, the lengths of the drain and handler timeouts (a timeout may fire at any time), cancelling the shutdown coroutine, and the phase SHUTDOWN_REQUESTED, which is left before the first suspension point.
- DeepLink: devices, push notifications and platform payloads.
- ConsentRegistry and AuditTrail: fees of the virtual machine, `set_registry`, the plain getters, and the stale bytes a shorter purpose leaves behind in its box; hashes and addresses are numbers; registering is read as writing the whole box.
- DataDeletion: what the informational steps return (legal holds never stop a deletion in the code), the scheduler and certificates. The table class `DeletionRequestDB`, which `api/deletion/__init__.py:316` imports and `api/database.py` does not define, is taken to exist, with the columns its uses show.
- DeletionRuns: a step takes effect at its commit, so rows added between the statements of one delete step are not represented.
- LocalCache: the Redis branch, `disconnect`, the errors counter, the key builders, a stored None, and the text syntax of patterns (a pattern is the predicate it stands for).
- LocalCache.CacheService.Cached: the wrapped function runs without other cache calls in between; the transparency lemma covers all histories.
- `EventQueue`, compliance scores, templates, analytics, routes, dashboards, SDKs, migrations and foreign services: input and output, or calls that would only add easy members.
- The version 1 contracts and `api/cache.py`, which the package `api/cache/` shadows.
