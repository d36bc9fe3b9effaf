# Strict two-phase locking, verified

A Dafny model of the single-node transaction engine: the per-key lock manager, the three-phase
scheduler that acquires every lock, executes, and releases, the striped append-only store, the
reply builder, key routing, the bookkeeping of remote lock requests, and the length-prefixed frames
between peers.

## How it is built

**Atomic steps** (`Engine`). Any number of transactions run at once. A step is one critical section
of one transaction: create a lock entry, record interest in `held_locks`, poll the entry once, do one
store operation, take the `release_all` snapshot, release one key. Any enabled step may come next,
keys are requested and released in any order, and new transactions may begin at any time. `Serial`
says what transactions mean when run one at a time; `Invariant` holds the inductive invariant that
ties the two together; `Serializability`, `LockSafety`, `ConflictOrder`, `Progress`, `CircularWait`,
`Contention` and `Agreement` hold the theorems, each over every run.

**Instructions** (`Mutexes`). The same engine with its real mutexes: `table_mutex`, one mutex per lock
entry, `held_locks_mutex`, and one per stripe. A critical section locks, copies the guarded data,
computes on the copy, writes back, and unlocks, with other threads running between any two
instructions; so an update is atomic only if the mutexes make it so. `MutexSafety` proves that every
such run is a run of the atomic steps, `MutexProgress` that no threads ever wait in a circle and that
every run ends, and carries the results on atomic runs over: total correctness, real-time order and
acyclic conflicts.

**The program** (`LockManager`, `StripedStore`, `Scheduler`, `RemoteLocks`, `Reply`, `Routing`, `Framing`).
The loops and in-place updates, as methods. The scheduler's methods keep a ghost record of the steps taken, and
`Valid` says that the fields are what those steps make of the empty system; so everything proved of
runs holds of the fields at every return. Before each critical section a method calls `Interference`,
whose contract allows any steps of other transactions; its body is empty and nothing relies on the body.
A ghost flag `calm` may promise that others keep still; only the statements that say so use it.

## What the code does, where its comments say otherwise

- There is no wait-die rule (`lib/include/transactions/LockManager.h:99-100`, `lib/main.cpp:20`): `acquire`
  polls at most 1000 + 500 times and gives up. Age plays no part: of two transactions the older as well as the
  younger can be refused the other's key any number of times up to the limit, if and only if they share a key.
- Circular waits are not prevented, although line 9 of the repository's own README says so. Two transactions can
  come to wait for each other if and only if they share two keys; a ring of any length can form if and only if its
  keys are distinct and each member uses its own and the next one. A ring always ends with the abort of a member.
- `held_locks` records interest before the poll, so `holds_lock` is not ownership: it differs exactly on the key
  being polled for and, after the `release_all` snapshot, on every key not yet released but the refused one.
  Both states are reachable for every key.
- An aborted transaction is answered like a committed one, with null for every read. Of two transactions one
  can abort if and only if they share a key.
- `get_primary_node` uses a remainder as a node id although `all_nodes` holds the ids: every key has a home
  exactly when each remainder the hash reaches is an id.
- `handle_lock_response` compares the type of an answer by address (`lib/src/transactions/impl/TwoPLScheduler.cpp:181`),
  never with success, and a failed comparison clears the pending set, which the waiting loop takes for success
  (lines 198-201 and 468). So the wait succeeds if and only if nothing was asked for or any answer comes in time.
  Success can be wrong if and only if there is a remote key; and even when every node grants, if and only if there
  are two. With a comparison of the texts a denial would still be taken for success. On timeout, where the
  comment in line 471 says acquired locks are released, a key locked at its node stays locked if any answer came.
- The size test in `Peer::send` lets payloads through whose length plus 4 no longer fits in 32 bits.

## Model

| member | source | states |
|---|---|---|
| Serial.RunOpsContents | lib/include/storage/KVStore.h:18-37 | a transaction adds its appends to a key at the end of that key's list and does nothing else to it; a key exists exactly when something was appended |
| Types.KeysExact | lib/src/transactions/impl/TwoPLScheduler.cpp:571-574 | a transaction locks the keys of its operations and no others |
| LockTable.PollExact | lib/src/transactions/LockManager.cpp:43-73 | a poll succeeds exactly on a free key, or on an own key within the first 1000 polls, and gives the caller that key and nobody anything else |
| LockTable.ReleaseKeyExact | lib/src/transactions/LockManager.cpp:79-109 | release removes exactly the caller's own hold on the one key and its tracking entry, affects nobody else and leaves no empty tracking set |
| Invariant.StepInv | lib/src/transactions/impl/TwoPLScheduler.cpp:347-439 | every step of every transaction keeps the lock-table, tracking, log and serial-store invariant |
| Invariant.RunInv | lib/src/transactions/impl/TwoPLScheduler.cpp:347-439 | hence every run keeps it |
| Serializability.Serializable | lib/src/transactions/impl/TwoPLScheduler.cpp:347-439 | over every interleaving: committed transactions read what they would read run one at a time in lock-point order, each appears once in that order, and the quiescent store is the one that serial run leaves |
| Serializability.RealTimeOrder | lib/src/transactions/impl/TwoPLScheduler.cpp:336-401 | a transaction that returned before another began precedes it in the serial order |
| Serializability.Conservation | lib/src/transactions/impl/TwoPLScheduler.cpp:361-394 | at every moment a key's list followed by its owner's outstanding appends is exactly the logged appends to that key, grouped by transaction in log order |
| Serializability.ReadsAt | lib/src/transactions/impl/TwoPLScheduler.cpp:371-381 | the result vector has one entry per read operation, in order |
| Serializability.ReadContents | lib/src/transactions/impl/TwoPLScheduler.cpp:370-381 | a committed read returns all appends of earlier transactions in the serial order followed by the reader's own earlier ones, and null exactly when there are none |
| Serializability.ReadsComparable | lib/src/transactions/impl/TwoPLScheduler.cpp:370-381 | any two committed reads of one key are prefix-comparable, in serial order |
| LockSafety.OwnershipTracked | lib/src/transactions/LockManager.cpp:19-30 | an owner is in flight and the key is in its `held_locks` set or unprocessed snapshot; at the lock point recorded, owned and required keys coincide |
| LockSafety.HoldsLockMeaning | lib/src/transactions/LockManager.cpp:131-141 | `holds_lock` is true exactly before the snapshot, for an owned key or the one being polled |
| LockSafety.HoldsLockIsOwnershipIff | lib/src/transactions/LockManager.cpp:131-141 | in every reachable state `holds_lock` agrees with ownership exactly unless the key is the one being polled for, or is in the unprocessed snapshot and not the refused one |
| LockSafety.OwnershipExact | lib/src/transactions/LockManager.cpp:33-129 | in every reachable state a transaction owns exactly the keys its phase lists: those acquired so far, and after the snapshot those left but the refused one |
| LockSafety.ReleaseExact | lib/src/transactions/LockManager.cpp:79-109 | during `release_all` the entry always exists, `release` returns early exactly for the key on which the transaction gave up, and frees every other key; a committed transaction frees all |
| LockSafety.AcquireExact | lib/src/transactions/LockManager.cpp:33-77 | a polling transaction never owns the key, so neither loop meets its own id; a poll succeeds exactly when the key is free and then makes the caller its owner |
| LockSafety.OthersUntouched | lib/src/transactions/LockManager.cpp:79-109 | a step of one transaction changes no other's ownership or interest |
| LockSafety.OwnedUntilReleased | lib/src/transactions/LockManager.cpp:33-97 | an owned key stays owned through any interference until its owner releases it |
| LockSafety.NoLeaks | lib/src/transactions/LockManager.cpp:111-129 | whoever returned owns and tracks nothing, on commit and on abort; at quiescence all owners and `held_locks` are empty |
| ConflictOrder.HistoryFaithful | lib/src/transactions/impl/TwoPLScheduler.cpp:361-389 | replaying the operations in the order they happened gives the store; a committed transaction's part is all its operations, an aborted one's is empty |
| ConflictOrder.NoConflictCycle | lib/src/transactions/impl/TwoPLScheduler.cpp:361-392 | conflicts between two transactions go one way on all shared keys, that of the log, and the precedence graph of any run has no cycle |
| Progress.StepFalls | lib/src/transactions/LockManager.cpp:39-76 | a system-wide measure falls on every step |
| Progress.RunsAreBounded | lib/src/transactions/LockManager.cpp:39-76 | no run is longer than the cost of the transactions it starts |
| Progress.EveryRunEnds | lib/include/transactions/LockManager.h:28-37 | every run of finitely many transactions is bounded and can stop only when each has committed or aborted |
| Progress.CanFinish | lib/include/transactions/LockManager.h:28-37 | from every reachable state all transactions can be run to their end |
| Progress.PollBound | lib/src/transactions/LockManager.cpp:39-73 | a transaction with m distinct keys makes at most 1500 m polls |
| Progress.AbortNeedsPolls | lib/src/transactions/LockManager.cpp:40-76 | a transaction that aborted has made at least 1500 polls |
| Progress.CostInFigures | lib/src/transactions/LockManager.cpp:40-76 | the step bound of a transaction in figures: 1503 per distinct key, one per operation, and 5 |
| CircularWait.RingNeedsShape | lib/src/transactions/LockManager.cpp:39-76 | in every reachable state a ring of waiting transactions, of any length, has at least two members and distinct keys, and each member uses the key it holds and the next one |
| CircularWait.RingForms | lib/src/transactions/impl/TwoPLScheduler.cpp:421-428 | for any transactions of that shape there is a run that closes the ring |
| CircularWait.PairNeedsSharedKeys | lib/src/transactions/LockManager.cpp:39-76 | two transactions wait for each other only over two distinct keys that both use |
| CircularWait.CircularWaitForms | lib/src/transactions/impl/TwoPLScheduler.cpp:421-428 | for any two transactions and any two keys they share, a run in which they wait for each other over these keys |
| CircularWait.CircularWaitIff | lib/src/transactions/impl/TwoPLScheduler.cpp:421-428 | two transactions can come to wait for each other if and only if they share at least two keys |
| CircularWait.TwoReadersWait | lib/src/transactions/impl/TwoPLScheduler.cpp:421-428 | the smallest case, two transactions that read the same two keys |
| CircularWait.OnlyAbortBreaksIt | lib/src/transactions/LockManager.cpp:57-76 | a ring stays closed through any steps until one of its members gives up |
| CircularWait.RingEndsInAbort | lib/src/transactions/LockManager.cpp:57-76 | once all have returned, a member of every ring there was has aborted |
| Contention.AbortHasCause | lib/src/transactions/LockManager.cpp:39-76 | in any run a transaction aborts only if another one uses one of its keys; one that shares no key commits, whatever the others do |
| Contention.AbortForms | lib/src/transactions/impl/TwoPLScheduler.cpp:361-365 | for any two transactions that share a key there is a complete run in which the first aborts |
| Contention.AbortPossibleIff | lib/src/transactions/impl/TwoPLScheduler.cpp:361-365 | of two transactions one can abort if and only if they share a key |
| Contention.NoWaitDie | lib/src/transactions/LockManager.cpp:39-76 | of two transactions either, older or younger, can have been refused any number of polls up to the limit for a key the other owns, if and only if they share a key |
| Contention.InterestIsNotOwnership | lib/src/transactions/LockManager.cpp:131-141 | for every key a reachable state in which `holds_lock` is true of a transaction while another owns the key |
| Contention.OwnershipOutlivesInterest | lib/src/transactions/LockManager.cpp:111-129 | for every key a reachable state in which `holds_lock` is false of its owner |
| Agreement.SoloRun | lib/src/transactions/impl/TwoPLScheduler.cpp:562-604 | without interference a transaction commits exactly when all its keys are free; it has then read, done and logged its operations once each, in order, on the store it found, and otherwise nothing; owners, interest, counter and all other transactions are as they were; lock entries are added for its own keys only, for all of them if it commits |
| Agreement.ExecutorsAgree | lib/src/transactions/impl/TwoPLScheduler.cpp:562-604 | two such executions of one transaction, whatever their key orders, end in the same state but for lock entries after an abort, which depend on the key order |
| Striping.Flatten | lib/include/storage/impl/ThreadSafeKVStore.h:26-60 | the union of the partitions is one map that answers each key from its own stripe |
| Striping.OnStripeRefines | lib/src/storage/impl/ThreadSafeKVStore.cpp:20-33 | an operation on one partition keeps every key in its stripe and is that operation on the whole map |
| StripedStore.ThreadSafeKVStore.Get | lib/src/storage/impl/ThreadSafeKVStore.cpp:5-18 | returns what the plain map holds |
| StripedStore.ThreadSafeKVStore.Append | lib/src/storage/impl/ThreadSafeKVStore.cpp:20-33 | appends in the plain map, creating the list if absent, and changes no other key, in the same stripe or another |
| StripedStore.StripedRefinesMap | lib/src/storage/impl/ThreadSafeKVStore.cpp:5-33 | for any hash function and any operations, contents and answers are those of one plain map |
| Mutexes.HeadDisciplined | lib/src/transactions/LockManager.cpp:6-129 | every critical section takes mutexes in rising order and touches only data whose mutex it holds, up to its write |
| Mutexes.TailDisciplined | lib/src/transactions/LockManager.cpp:6-129 | and after it, for both outcomes of a poll and of a release |
| MutexSafety.StepRefines | lib/src/transactions/LockManager.cpp:6-129 | each instruction of each thread is one atomic step or none |
| MutexSafety.RefinesAtomicSteps | lib/src/transactions/LockManager.cpp:6-129 | every instruction-level run, for any hash and any interleaving, is a run of the atomic steps with the union of the stripes as store |
| MutexSafety.WritesGuarded | lib/src/transactions/LockManager.cpp:6-129 | in every instruction-level run the mutexes held at each write are exactly those the code names, by stripe number where it is the store; between critical sections only a thread in `acquire` holds one, its entry's |
| MutexProgress.NoDeadlock | lib/src/transactions/LockManager.cpp:6-129 | some thread can go on as long as any transaction is unfinished; a run stops only with all returned and all mutexes free |
| MutexProgress.InstructionsBounded | lib/src/transactions/LockManager.cpp:39-76 | however threads are scheduled, the number of instructions is bounded by the transactions started |
| MutexProgress.TotalCorrectness | lib/src/transactions/impl/TwoPLScheduler.cpp:347-439 | under the real mutexes every run is bounded, ends with everything released, and leaves the store and the results of the serial run |
| MutexProgress.FineRealTimeOrder | lib/src/transactions/impl/TwoPLScheduler.cpp:336-401 | under the real mutexes too, a transaction that returned before another began precedes it in the serial order |
| MutexProgress.FineNoConflictCycle | lib/src/transactions/impl/TwoPLScheduler.cpp:361-392 | under the real mutexes too, conflicts go one way and the precedence graph has no cycle |
| LockManager.LockManager.EnsureEntry | lib/src/transactions/LockManager.cpp:9-17 | the entry exists, with its owner kept if it existed |
| LockManager.LockManager.TrackInterest | lib/src/transactions/LockManager.cpp:24-28 | the key joins the transaction's interest set |
| LockManager.LockManager.PollEntry | lib/src/transactions/LockManager.cpp:43-73 | one poll of either loop: takes a free key, accepts an own key in the first loop only, otherwise changes nothing |
| LockManager.LockManager.Release | lib/src/transactions/LockManager.cpp:79-109 | the release step, with its three ways out |
| LockManager.LockManager.TakeHeld | lib/src/transactions/LockManager.cpp:113-123 | moves the interest set out of `held_locks` |
| LockManager.LockManager.HoldsLock | lib/src/transactions/LockManager.cpp:131-141 | membership in the interest set |
| Scheduler.NaiveOpExecutor.Visit | lib/include/transactions/impl/NaiveOpExecutor.h:7-17 | a read leaves the store alone and its answer in the visitor, an append the reverse |
| Scheduler.TwoPLScheduler.Acquire | lib/src/transactions/LockManager.cpp:6-77 | under any interference, true exactly when the caller owns the key on return, false only after 1500 failed polls of it |
| Scheduler.TwoPLScheduler.ReleaseAll | lib/src/transactions/LockManager.cpp:111-129 | takes the snapshot and releases every key of it, in any order |
| Scheduler.TwoPLScheduler.AcquireAllLocks | lib/src/transactions/impl/TwoPLScheduler.cpp:403-428 | for any grouping, ends with every local key acquired, or with everything released after the first failure; the remote groups are all others |
| Scheduler.TwoPLScheduler.ExecuteOps | lib/src/transactions/impl/TwoPLScheduler.cpp:368-389 | executes all operations in order, a fresh visitor each, collecting the reads |
| Scheduler.TwoPLScheduler.ExecuteOpsShared | lib/src/transactions/impl/TwoPLScheduler.cpp:586-593 | the same with one shared visitor |
| Scheduler.TwoPLScheduler.ExecuteWithDistributedSupport | lib/src/transactions/impl/TwoPLScheduler.cpp:347-401 | under any interference the transaction returns, with its reads if it committed and nothing if it aborted, having performed a run of the step system; without interference the state it leaves, but for lock entries after an abort, is a function of the state it began in |
| Scheduler.TwoPLScheduler.ExecuteWithId | lib/src/transactions/impl/TwoPLScheduler.cpp:562-604 | the same contract, so the two executors agree, with a flag that is true exactly on commit |
| Scheduler.TwoPLScheduler.BeginTransaction | lib/src/transactions/impl/TwoPLScheduler.cpp:336-340 | draws an id no transaction has had, and begins that one transaction and nothing else |
| Scheduler.TwoPLScheduler.ExecuteTransaction | lib/src/transactions/impl/TwoPLScheduler.cpp:336-345 | a committed transaction has its place in the log and the results of running alone after those before it; an aborted one returns nothing and is not in the log; without interference the node is as it was but for this one transaction, begun once and run once |
| Scheduler.TwoPLScheduler.Start | lib/src/transactions/impl/TwoPLScheduler.cpp:53-94 | fails, throws or starts exactly as the names say; sets the own id, and routes by the list of the own id and the peers, leaving locks, store and transactions alone |
| RemoteLocks.RemoteLockTable.RequestAll | lib/src/transactions/impl/TwoPLScheduler.cpp:447-463 | one request per remote key goes out and is registered, in addition to what the transaction awaited; other transactions keep theirs |
| RemoteLocks.RemoteLockTable.HandleLockResponse | lib/src/transactions/impl/TwoPLScheduler.cpp:172-206 | a successful comparison strikes exactly its key off, a failed one clears all the transaction waits for, and no other transaction is touched |
| RemoteLocks.RemoteLockTable.AwaitAnswers | lib/src/transactions/impl/TwoPLScheduler.cpp:465-486 | for any wake-ups and answers: the wait ends at the first moment nothing is awaited or the deadline has passed, and releases what was awaited then |
| RemoteLocks.RemoteLockTable.AcquireRemoteLocks | lib/src/transactions/impl/TwoPLScheduler.cpp:441-487 | requests and wait together |
| RemoteLocks.WaitOverIff | lib/src/transactions/impl/TwoPLScheduler.cpp:185-201 | nothing is awaited if and only if every key was struck off or a comparison failed |
| RemoteLocks.SucceedsIffAnswered | lib/src/transactions/impl/TwoPLScheduler.cpp:465-486 | as written, for any wake-ups and answers: the wait succeeds if and only if nothing was asked for or an answer, of any kind, comes before the deadline |
| RemoteLocks.OneAnswerMisleads | lib/src/transactions/impl/TwoPLScheduler.cpp:198-201 | for any remote keys, one answer in time, grant or denial, gives success with at most its own key granted |
| RemoteLocks.MisleadingIff | lib/src/transactions/impl/TwoPLScheduler.cpp:430-436 | as written, the wait can succeed without every node having granted if and only if the transaction has a remote key |
| RemoteLocks.MisleadingThoughGrantedIff | lib/src/transactions/impl/TwoPLScheduler.cpp:181-201 | as written, even with nodes that only grant what was asked, if and only if it has two |
| RemoteLocks.ByTextMisledByDenial | lib/src/transactions/impl/TwoPLScheduler.cpp:181-201 | with a comparison of the texts a wrong success would need a denial |
| RemoteLocks.ByTextMisleadingIff | lib/src/transactions/impl/TwoPLScheduler.cpp:198-201 | and could still happen if and only if there is a remote key |
| RemoteLocks.KeysLeak | lib/src/transactions/impl/TwoPLScheduler.cpp:469-483 | after a timeout, in whatever order the node handles the releases, a key locked there stays locked, as written, if and only if any answer came; by text, if and only if its grant or a denial came |
| Reply.CreateReply | lib/src/system/TransactionMessageHandler.cpp:7-33 | one in-place pass with a cursor computes the merge of the results into the request |
| Reply.ReplyAt | lib/src/system/TransactionMessageHandler.cpp:14-30 | for any result vector: a read gets the value of the first unused result if it is for its key, null if there is none or it is for another key; nothing else changes |
| Reply.CursorIsGreatest | lib/src/system/TransactionMessageHandler.cpp:13-23 | the cursor uses up the longest prefix of the results that can be matched in order to reads of the request |
| Reply.AppendsOfRequest | lib/include/transactions/Operations.h:29-42 | the transaction of a request appends the request's third components under its second ones, in order |
| Reply.NoMismatchIff | lib/src/system/TransactionMessageHandler.cpp:15-28 | every read finds its result exactly when the results begin with the request's read keys |
| Reply.LocalResultsFit | lib/src/system/TransactionMessageHandler.cpp:15-24 | for locally executed operations the mismatch branch is never taken and the cursor counts the reads so far |
| Reply.CommittedReply | lib/src/system/TransactionMessageHandler.cpp:49-57 | end to end, over every run: each read of a committed request is answered with the serial contents of its key, other operations are unchanged, no result is left over |
| Reply.AbortedReply | lib/src/system/TransactionMessageHandler.cpp:11-28 | with no results every read becomes null and nothing else changes |
| Reply.AbortIndistinguishableIff | lib/src/system/TransactionMessageHandler.cpp:49-57 | the replies to an abort and to a commit coincide exactly when every key read had no list and no earlier append of the request |
| Routing.SortedUnique | lib/src/transactions/impl/TwoPLScheduler.cpp:77-79 | strictly ascending, with the same ids |
| Routing.BuildNodeList | lib/src/transactions/impl/TwoPLScheduler.cpp:66-84 | throws exactly when a peer name has `n` and no number; otherwise the ascending duplicate-free list of the own id and the numbered peers |
| Routing.LowBits | lib/src/transactions/impl/TwoPLScheduler.cpp:73 | a parsed number becomes the node id it is congruent to modulo 65536 |
| Routing.ListsTheCluster | lib/src/transactions/impl/TwoPLScheduler.cpp:68-79 | a node told the numbers of all other nodes of a cluster, in any order, lists exactly the cluster |
| Routing.ClusterAgrees | lib/src/transactions/impl/TwoPLScheduler.cpp:68-79 | any two nodes of a cluster build the same list |
| Routing.ListIsCanonical | lib/src/transactions/impl/TwoPLScheduler.cpp:77-79 | one set of ids has one ascending duplicate-free list |
| Routing.DenseIdsGiveHomes | lib/src/transactions/DistributedCoordinator.cpp:13-23 | with ids 0 .. n-1 every key is local to a node, for every hash function |
| Routing.RoutingNeedsDenseIds | lib/src/transactions/DistributedCoordinator.cpp:13-23 | no key is local to two nodes; every key is local to one if and only if the remainders the hash reaches are ids; so with ids 0 .. n-1 always, and only then for a hash that reaches them all |
| Routing.DenseClusterRoutes | lib/src/transactions/DistributedCoordinator.cpp:13-23 | in a cluster of nodes 0 .. n-1 every node routes every key to the same node, the remainder of its hash |
| Routing.IsLocalIff | lib/src/transactions/DistributedCoordinator.cpp:13-23 | a key is local to exactly the node whose id is the remainder of its hash |
| Routing.SameHomeIff | lib/src/transactions/DistributedCoordinator.cpp:13-23 | two keys have the same primary exactly when their hashes are congruent |
| Routing.HomeServes | lib/src/transactions/impl/TwoPLScheduler.cpp:354 | in a cluster the home of a key is the one node that serves it, seen from any node; without a coordinator it is the node itself |
| Routing.GapLeavesKeysHomeless | lib/src/transactions/DistributedCoordinator.cpp:13-23 | with nodes 1 and 2, no node serves a key of even hash |
| Routing.GroupKeys | lib/src/transactions/impl/TwoPLScheduler.cpp:350-359 | `key_to_node` and `node_to_keys` file exactly the transaction's keys, each under the node that serves it |
| Routing.SplitLocal | lib/src/transactions/impl/TwoPLScheduler.cpp:407-419 | local group and remote groups, nothing lost |
| Routing.GroupingIsPartition | lib/src/transactions/impl/TwoPLScheduler.cpp:350-359 | groups are disjoint, cover the key set, the local group is exactly the local keys, and every group is exactly the keys its node serves |
| Routing.ReleaseReachesRemoteKeys | lib/src/transactions/impl/TwoPLScheduler.cpp:489-508 | the release phase addresses exactly the remote keys, each at the node that serves it |
| Framing.Send | lib/src/system/Peer.cpp:50-66 | writes four length bytes, the most significant first, and the payload; throws; or overruns its buffer, with the exact lengths for each |
| Framing.NetworkOrder | lib/src/system/Peer.cpp:59 | the weight of each length byte |
| Framing.LengthRoundTrip | lib/src/system/Peer.cpp:58-59 | the four length bytes give the length back |
| Framing.ReceiveFrame | lib/src/system/Peer.cpp:77-95 | the first frame of a stream is received whole and nothing behind it is touched |
| Framing.ReceiveAll | lib/src/system/Peer.cpp:77-95 | splits any stream into frames and an incomplete rest |
| Framing.ReceivedIsPrefixOfSent | lib/src/system/Peer.cpp:50-95 | what is decoded of a stream cut off anywhere is a prefix of what was sent, and all of it once the stream is complete |

## Left out

- Scheduler.TwoPLScheduler.ExecuteTransaction: requires all keys local, because with a remote key the locking phase can succeed without the lock (`RemoteLocks.MisleadingIff`).
- Scheduler.TwoPLScheduler.ExecuteWithDistributedSupport: the same restriction, and the path that rethrows an exception, because local store operations do not throw.
- Scheduler.TwoPLScheduler.AcquireAllLocks: the local half; the remote half is `RemoteLockTable.AcquireRemoteLocks`, and the release of local keys after its failure is not modelled.
- Scheduler.NaiveOpExecutor.Visit: the body of `NaiveOpExecutor` is not part of the repository; its meaning is taken from its header and the store interface.
- Reply.AppendsOfRequest: the body of `makeOperation` is not part of the repository; every kind but `r` is taken for an append, and a third component that is no number for 0.
- Scheduler.TwoPLScheduler.Start: the server and listener threads it starts.
- Serializability.Serializable: one node only; every node numbers its transactions from 1 while owners are kept by id alone.
- Progress.EveryRunEnds: says nothing about fairness or starvation; the code provides neither.
- The wrap-around of the 64-bit transaction counter; ids are natural numbers.
- Remote operation messages with their timeouts, the remote node's side of lock messages beyond its lock table, and the two-phase commit handlers, which do nothing. Nothing in the repository calls `handle_peer_message`; the model says what the handlers do when answers reach them.
- JSON parsing of requests, peer names and lock messages; a request is a list of typed operations, and a peer name a number, something the conversion throws on, or something skipped.
- The C++ memory model, in particular the unguarded `lock_table.at` lookup (`lib/src/transactions/LockManager.cpp:19`).
- Sleeps and wall-clock time, sockets, coroutines, logging, the echo handler and the build files.
