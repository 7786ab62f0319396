# RDMA-KV-Store: verified model

A Dafny 4.11 model of a key-value store served over RDMA: the chained hash table and its
SET/GET/DEL/RST handlers, the concurrent execution of SET and GET, the reliable-connection
(RC) request/response protocol, and the datagram (UD) receive ring shared by all workers.
`dafny verify dfyconfig.toml` checks everything.

## What is modelled

**The table.** `HashTable.dfy` and `KvStore.dfy` are the doubly linked bucket lists and the
handlers on the heap, written as the C code is and proved equal to the list specification
of `Buckets.dfy`, request by request and over whole runs. `StoreMeaning.dfy` says what
a run means, for any keys, from its requests alone. `search` compares with `strncmp(stored, key, key_len)`, which
`CStrings.dfy` shows to be a prefix test. `MapRefinement.dfy` proves when the result is
nevertheless a finite map, and `Hash.dfy` and `BenchmarkKeys.dfy` decide that condition for
the keys the benchmark uses, by arithmetic on the djb2 hash modulo 1024; `InstanceKeys.dfy` does
so for each instance number by itself.

**Concurrency.** `ConcurrentStore.dfy` runs any number of SETs and GETs one memory access at
a time: GET walks the list with no lock while SETs insert under the bucket
mutex, and values are copied byte by byte under try-locks. `StoreInvariant.dfy` and
`StoreSteps.dfy` are a rely-guarantee proof; `AtomicRegister.dfy` draws the conclusions for
whole runs, `ClientView.dfy` states them of the requests the clients made, `StoreLocks.dfy` accounts for every lock, and `RegisterLimits.dfy` shows that their hypothesis on keys cannot be weakened.

**The wire.** `RcProtocol.dfy` is a step machine of one client, its worker, both cards and
the wire, under every schedule; send and receive completions share one queue on each side
and are never told apart, so safety rests on counting. `SoleClient.dfy` composes it with the
store. `RequestRing.dfy` covers requests whose method is unknown. `UdRing.dfy` is the shared
datagram ring with any number of workers, `UdRouting.dfy` the reply routing tables, and
`UdService.dfy` both together while clients are still being accepted.
`Polling.dfy` is the completion polling loop and `Dispatcher.dfy` one loop iteration with
the dispatcher's own replies.

## What the proofs found in the code

- The prefix comparison is exact, and the store a map and a set of registers, for the
  benchmark's keys of every instance exactly as long as counts stay at or below 1078
  (`BenchmarkKeysPrefixFreeIff`, `BenchmarkActsAsMapIff`, `BenchmarkRegistersIff`). For one
  instance alone the first count that collides depends on the digits of its number and lies
  between 1000 and 7000 (`InstancePrefixFreeIff`); it is 1088 for instance 0, so that counts up
  to 1087 are safe in a default run, whose only client it is and which makes ten million
  operations (`src/benchmarking/benchmark.c:12`).
- A request with an unknown method is not followed by a ring advance. Every request so far was
  read from its own slot if and only if no request before the last had an unknown method
  (`OwnSlotsIff`). If request k is the only unknown one, the worker reads it again for up to
  four more requests, and some requests up to k + 9 are read from a slot they were not
  delivered to; from k + 10 on the ring is in step again (`OwnSlotIff`). Which ones depends on
  when requests arrive, as its double replies let the client run ahead
  (`RunningAheadMisaligns`); if each is served before the next arrives, they are k + 1 to k + 4
  and k + 6 to k + 9 (`InTurnOwnSlotIff`, `OneUnknownMisaligns`).
- A datagram worker reads its request after giving up the ring lock. If 1024 datagrams arrive
  in between, it answers the wrong one (`LateReaderAnswersWrongRequest`), or one nobody sent
  (`LateReaderMixesRequests`); `RingWindow` is the exact window.
- A datagram client is reached if and only if the client accepted at the place of its id has
  its queue pair number, since the address handle is stored by id and the number by order of
  acceptance; where all numbers differ, all are reached if and only if they are accepted in the
  order of their ids (`AllReachedIff`, `SwappedClientsAreNotReached`). Even then a reply is lost
  if and only if it is sent before its client's acceptance is complete. Any client but the first
  can bring that about by sending as soon as it is told about the server
  (`ReplyReachesSenderIff`, `FirstClientIsReached`, `EarlyReplyIsLost`).
- PING, SETOPT and UNK are answered twice, by the dispatcher and by the main loop (`PairedIff`,
  `AnsweredTwice`).
- A refused DEL changes the store if and only if it found an occupied item: it releases a lock
  it does not hold (`RefusedDelChangesIff`), and a SET then overwrites an item that is still
  being written (`RefusedDelLosesExclusion`).

## Model

| member | source | states |
|---|---|---|
| CStrings.StrncmpIsPrefixTest | src/server/hash.c:64 | the comparison of `search` is zero if and only if the stored key starts with the query, for signed chars and NUL-terminated strings |
| CStrings.ValueOfDecimal | src/benchmarking/instance.c:29 | what `%d` prints reads back as the number it printed |
| CStrings.FormatIntInjective | src/benchmarking/instance.c:53 | distinct integers, negative ones included, print differently |
| Hash.ComputeHash | src/server/hash.c:39-46 | the loop, truncating to 32 bits after each operation, returns the hash defined from the last character |
| Hash.HashClosedForm | src/server/hash.c:39-46 | that hash is 5381 times 33^n plus the characters weighted by powers of 33, reduced modulo 2^32 once |
| Hash.HashOfK | src/server/hash.c:39-46 | the hash of "K" is 177648 |
| Hash.OneDigitMoves | src/server/hash.c:39-54 | appending one decimal digit to any string changes its bucket |
| Hash.TwoDigitsMove | src/server/hash.c:39-54 | appending two decimal digits to any string changes its bucket |
| Hash.ThreeDigitsStayIff | src/server/hash.c:39-54 | three digits keep the bucket if and only if a residue of the digits and of the hash modulo 32 vanishes modulo 1024 |
| Hash.ThreeDigitsStayNeedSum16 | src/server/hash.c:39-54 | three digits can keep the bucket only if they add up to 16 |
| Hash.HashMod32 | src/server/hash.c:39-46 | modulo 32 the hash is 5 plus the sum of the characters, through every wrap-around at 2^32 |
| BenchmarkKeys.KeySpelled | src/benchmarking/instance.c:29 | the key is the text of the format with both numbers printed in their places |
| BenchmarkKeys.BenchKeyFits | src/benchmarking/instance.c:29-30 | every benchmark key of 32-bit numbers fits the 64-byte key field and contains no NUL |
| BenchmarkKeys.PrefixMeansPrefixOfCount | src/benchmarking/instance.c:52-54 | one benchmark key is a prefix of another only for the same instance and counts that are prefixes |
| BenchmarkKeys.CountsSeparate | src/benchmarking/instance.c:52-54 | counts up to 1078 that are prefixes of each other put their keys into different buckets |
| BenchmarkKeys.KeysUpTo1078ArePrefixFree | src/benchmarking/instance.c:28-31 | benchmark keys with counts from -1 to 1078 are prefix-free within each bucket, for every instance |
| BenchmarkKeys.Count6And6970Collide | src/server/hash.c:51-54 | instance 0: the key with count 6 is a prefix of the one with count 6970 and shares its bucket |
| BenchmarkKeys.Count1And1079Collide | src/server/hash.c:51-54 | instance 119: the key with count 1 is a prefix of the one with count 1079 and shares its bucket |
| BenchmarkKeys.BenchmarkKeysPrefixFreeIff | src/benchmarking/instance.c:151-178 | the benchmark's keys are prefix-free within buckets if and only if counts stay at or below 1078 |
| InstanceKeys.ThreeDigitsMean | src/server/hash.c:51-54 | three digits after a one-digit count keep the bucket if and only if they add up to 16 and a sum with the instance's digits vanishes modulo 32 |
| InstanceKeys.NoneBelow | src/benchmarking/instance.c:52-54 | no count below an instance's first collision collides |
| InstanceKeys.FirstIsAttained | src/benchmarking/instance.c:52-54 | the first collision is one, with a leading digit of at most 6 |
| InstanceKeys.InstancePrefixFreeIff | src/benchmarking/instance.c:151-178 | for every instance and number of operations: its keys are prefix-free if and only if no count reaches its first collision |
| InstanceKeys.InstanceStoreIff | src/benchmarking/instance.c:151-178 | then and only then the store is a map, and a set of registers, for that instance |
| InstanceKeys.InstanceZero | src/benchmarking/instance.c:52-54 | instance 0 collides first at count 1088 |
| Buckets.Find | src/server/hash.c:59-70 | `search` returns the entry nearest the head, so the newest, whose key extends the query, and only then |
| Buckets.WithEntryKeepsOk | src/server/hash.c:112-138 | inserting a missing key at the head keeps bucket order and bucket membership |
| Buckets.DelKeepsOk | src/server/hash.c:75-107 | removal, and the failed removal of an occupied entry, keep bucket order |
| Buckets.ProcessKeepsOk | src/server/kvstore.c:93-111 | every well-formed request keeps the bucket order, whatever keys are used |
| Buckets.ReachableTablesAreOk | src/server/kvstore.c:82-114 | over every sequence of requests no key nearer the head is a prefix of one further back in its bucket |
| Buckets.DistinctKeys | src/server/hash.c:112-138 | hence the keys of a bucket are distinct |
| Buckets.LookupExactIff | src/server/hash.c:59-70 | in such a bucket a lookup is exact if and only if no key properly extends the query |
| Buckets.OccupiedIsRefused | src/server/kvstore.c:26-53 | an entry being written is not read, one in any use neither written nor removed, and a free one is served |
| Buckets.RefusedDelChangesIff | src/server/hash.c:84-88 | a DEL answered KEY_ERROR changes the bucket if and only if its lookup found an occupied entry |
| StoreMeaning.RunTells | src/server/kvstore.c:82-114 | every sequential run, for any keys: each reply is the one its requests call for, a GET returning the message of the last SET that wrote to the newest stored key of its bucket that extends its own, a DEL removing that key; and the table holds exactly those keys, newest first, with those messages |
| StoreMeaning.ReadYourWrite | src/server/kvstore.c:18-59 | on any table, a GET right after an OK SET of the same key returns that SET's message |
| Buckets.RefusedDelLosesExclusion | src/server/hash.c:84-88 | an entry being written: SET refused, DEL refused, then the same SET answered OK |
| HashTables.Walk | src/server/hash.c:61-69 | the pointer walk of `search` terminates and returns the node of the first entry that extends the query, or null |
| HashTables.PushFront | src/server/hash.c:120-134 | the pointer writes of an insertion put a fresh node before the list, prev and next staying mutually inverse |
| HashTables.Unlink | src/server/hash.c:90-101 | the pointer writes of a removal leave the list without the node, prev and next mutually inverse, also at either end |
| HashTables.HashTable.constructor | src/server/hash.c:8-33 | all buckets empty and no mutex held |
| HashTables.HashTable.OneNodeOnePlace | src/server/hash.c:112-138 | no node is in two places: lists are acyclic and buckets disjoint |
| HashTables.HashTable.Search | src/server/hash.c:59-70 | the node of the specified entry in the bucket of the query's hash |
| HashTables.HashTable.FindOrInsert | src/server/hash.c:117-134 | under the bucket's mutex: finds the key's entry or puts a new one at the head |
| HashTables.HashTable.GetKeyEntry | src/server/hash.c:112-138 | the new table, other buckets unchanged; the returned node is the key's entry; the mutex is released on both paths |
| HashTables.HashTable.TryWriteLock | src/server/kvstore.c:26 | succeeds exactly on a free item and changes only its lock word |
| HashTables.HashTable.TryReadLock | src/server/kvstore.c:50 | succeeds exactly when nobody writes; one unlock restores the lock word |
| HashTables.HashTable.StoreValue | src/server/kvstore.c:30-34 | under the item's write lock: the new value and nothing else |
| HashTables.HashTable.ReadValue | src/server/kvstore.c:55-56 | under the item's read lock: its value |
| HashTables.HashTable.RemoveItem | src/server/hash.c:75-107 | the new table and return code for a missing, an occupied and a free item; the mutex is released on all three paths |
| HashTables.HashTable.Drop | src/server/hash.c:90-104 | under mutex and write lock, a removal takes out exactly the entry at that place and leaves every other bucket |
| KvStores.KvStore.SetRequest | src/server/kvstore.c:18-39 | new table and response are those of the specification, for new, free and occupied items |
| KvStores.KvStore.GetRequest | src/server/kvstore.c:44-59 | response of the specification, table and locks as before |
| KvStores.KvStore.DelRequest | src/server/kvstore.c:64-70 | new table and response code of the specification |
| KvStores.KvStore.ResetRequest | src/server/kvstore.c:106-109 | an empty table and an OK response |
| KvStores.KvStore.Handle | src/server/kvstore.c:91-111 | the switch on a cleared response does what the specification does, for every method |
| KvStores.KvStore.Serve | src/server/kvstore.c:82-114 | whole sequential runs on the linked buckets: table and replies are those of the lists; from an empty table the replies are those the requests call for, whatever the keys, and on prefix-free keys a finite map's |
| MapRefinement.LookupFindsOwn | src/server/hash.c:59-70 | on prefix-free keys a lookup finds the query's own entry or nothing |
| MapRefinement.SetRefines | src/server/kvstore.c:18-39 | SET is a map update, refused exactly if the key is occupied |
| MapRefinement.DelRefines | src/server/kvstore.c:64-70 | DEL is a map removal with the map's error code |
| MapRefinement.ProcessRefinesMap | src/server/kvstore.c:93-111 | each request changes the map the table represents, and answers, as a finite map does |
| MapRefinement.RunRefinesMap | src/server/kvstore.c:82-114 | every run on prefix-free keys answers as a finite map, from any table |
| MapRefinement.PrefixConfuses | src/server/hash.c:64 | SET of an extension, then GET of its prefix in the same bucket: OK where a map says no such key |
| MapRefinement.ActsAsMapIff | src/server/hash.c:59-138 | the store is a finite map on a set of keys if and only if the set is prefix-free within buckets |
| MapRefinement.BenchmarkActsAsMapIff | src/benchmarking/instance.c:153-178 | on the benchmark's keys, if and only if counts stay at or below 1078 |
| StoreInvariant.JobStable | src/server/hash.c:59-70 | whatever one worker's step does, within its guarantee, leaves every other worker's invariant true, the unlocked walk's included |
| StoreInvariant.WalkStable | src/server/hash.c:63-68 | a walk in progress keeps following the list it saw at the head while others insert |
| StoreInvariant.HeldStable | src/server/kvstore.c:26-36 | a value held under its lock is changed by nobody else |
| StoreSteps.StepGuarantee | src/server/hash.c:112-138 | a step links only its own unpublished item under the mutex, writes values only under the write lock, and lists grow only at the front |
| StoreSteps.PublishKeepsLists | src/server/hash.c:129-134 | publishing a fully linked item keeps the list linked and ordered |
| StoreSteps.ValueWritten | src/server/kvstore.c:26-36 | the writer's section: an item nobody writes holds exactly the last stored message |
| StoreSteps.RegistersKept | src/server/kvstore.c:50-58 | what a reader returns when it unlocks is the item's current value |
| StoreSteps.CreationKept | src/server/hash.c:115-135 | no key is created twice, even by SETs racing for the same fresh key |
| StoreSteps.WalkAdvances | src/server/hash.c:63-68 | one iteration of the walk ends, finds, or passes an item that does not extend the query |
| StoreSteps.GetWalkLook | src/server/kvstore.c:45-48 | a GET that reaches the end has passed every item present when it read the head |
| StoreSteps.SharedKept | src/server/kvstore.c:18-59 | every step of every worker keeps the shared invariant |
| StoreSteps.OwnKept | src/server/kvstore.c:18-59 | every step keeps the invariant of the worker that takes it |
| AtomicRegister.InvAlways | src/server/kvstore.c:18-59 | the whole invariant in every interleaving of any number of SETs and GETs |
| AtomicRegister.NoWildAccess | src/server/hash.c:61-68 | no worker ever dereferences unallocated memory or leaves a value's bounds, although GET walks without a lock |
| AtomicRegister.EachItemIsARegister | src/server/kvstore.c:18-59 | in every interleaving a fetch returns exactly the message last stored in the item, or the empty one, never a mix; an OK SET stored its own message, an OK GET returns the value at the moment it took the read lock, a GET that finds nothing had nothing to find when it read the head; each request has that one effect or none, and there are no others |
| AtomicRegister.BucketsStayOrdered | src/server/hash.c:112-138 | bucket order and one item per key, also under concurrent SETs of the same fresh key |
| AtomicRegister.OneItemPerKey | src/server/hash.c:112-138 | on prefix-free keys, two requests meet the same item exactly if they have the same key |
| AtomicRegister.EachKeyIsARegister | src/server/kvstore.c:18-59 | on prefix-free keys, in every run: an OK SET makes its message the key's value, an OK GET returns the message of the latest SET of its key stored before it took the read lock, and a GET told there is no such key read the head of its list before the key was created or stored |
| ClientView.RequestsHaveJobs | src/server/kvstore.c:82-105 | in every run each request made is served for just its operation, key and message |
| ClientView.JobIsRequested | src/server/kvstore.c:82-105 | and nothing else is served |
| ClientView.AnswersToRequests | src/server/kvstore.c:18-59 | in every run, for every request made: an OK SET stored the whole message it carried under its key; an OK GET returns the whole message of the SET that stored last in the item it met before it took the read lock, or nothing if there is none; a missing one had nothing to find |
| ClientView.GetReturnsLastSet | src/server/kvstore.c:44-59 | on prefix-free keys that SET is the last one of the GET's own key |
| ClientView.RealTimeOrder | src/server/kvstore.c:18-59 | a request that begins after another was answered OK takes effect after it |
| ClientView.NoStaleRead | src/server/kvstore.c:18-59 | on prefix-free keys a GET that begins after an OK SET of its key is not told the key is missing, and returns that SET's message or a later one |
| StoreLocks.LocksOwnedKept | src/server/kvstore.c:18-59 | every step keeps: a held mutex or item lock is held by a worker on its way to releasing it |
| StoreLocks.NothingStaysLocked | src/server/hash.c:112-138 | whenever all workers are done, no bucket and no item is locked, in every run |
| StoreLocks.StoreNoDeadlock | src/server/kvstore.c:18-59 | while any worker is inside a SET or GET some worker can move |
| StoreLocks.RefusedIffRival | src/server/kvstore.c:26-53 | in every run a SET is answered "occupied" if and only if another request is writing or reading that item at that moment, a GET if and only if another is writing it |
| RegisterLimits.PrefixReadsTheOther | src/server/hash.c:64 | a reachable run in which a GET returns what was stored under a longer key only |
| RegisterLimits.AlwaysRegistersIff | src/server/kvstore.c:18-59 | all runs over a set of keys make its keys atomic registers, fetches and answers alike, if and only if the set is prefix-free within buckets |
| RegisterLimits.BenchmarkRegistersIff | src/benchmarking/instance.c:153-178 | for the benchmark's keys, if and only if counts stay at or below 1078 |
| RcProtocol.ClientCountsKept | src/client/rc_client_utils.c:149-199 | every step keeps the client's count of posts, polls and completions |
| RcProtocol.WorkerCountsKept | src/server/rc_server_utils.c:226-256 | every step keeps the worker's count of posts, polls and completions |
| RcProtocol.ReplyBufferIsFree | src/server/kvstore.c:88-91 | the worker clears its response only when no earlier send of it is incomplete, though it never looks at which completion it polled |
| RcProtocol.PolledRequestIsHere | src/server/rc_server_utils.c:226-235 | after the worker's first poll of a round exactly one unanswered request has arrived |
| RcProtocol.RequestBufferIsFree | src/benchmarking/instance.c:153-178 | the client refills its request only when its send is complete and its reply has been delivered |
| RcProtocol.NoOverrun | src/rdma_common.h:38-43 | at most 6 receives posted by the worker, 2 by the client, 2 completions waiting; no message meets an empty receive queue |
| RcProtocol.HandledSlot | src/server/server_utils.c:250-269 | the slot the worker reads holds the request it is to handle |
| RcProtocol.InvKept | src/server/kvstore.c:82-114 | every step of programs, cards and wire keeps the invariant |
| RcProtocol.AskedIsMade | src/benchmarking/instance.c:153-178 | what the client posts is what its rounds made, in order, less the last while it is not posted yet |
| RcProtocol.FilledFromClear | src/server/kvstore.c:91-111 | into a cleared buffer, and as `ReplyBufferKept` shows it is cleared, a handler writes exactly the store's reply |
| RcProtocol.EndToEnd | src/server/kvstore.c:82-114 | for every schedule the k-th request handled is the k-th made, and after its k-th round the client holds the store's reply to exactly that request, on the table the store had then |
| RcProtocol.NeverReusedEarly | src/server/kvstore.c:83-91 | buffer safety and queue bounds in every reachable state |
| RcProtocol.RingStaysAligned | src/server/rc_server_utils.c:179-184 | posted slots are the counter's and its successors modulo five, and the slot dispatched is the one delivered to |
| RcProtocol.NoDeadlock | src/client/rc_client_utils.c:149-199 | in every run, inside a round some step other than a new request is possible |
| RcProtocol.EveryRoundEnds | src/benchmarking/instance.c:166-178 | a run with n requests made has at most 19 n + 1 steps, and when it cannot go on but by a new request all n replies have been read: every round ends, without fairness |
| SoleClient.SoleClientSeesMap | src/server/kvstore.c:82-114 | protocol and store composed: a client alone with the store reads back a finite map's answers to the requests it made, for every schedule |
| SoleClient.BenchmarkClientSeesMap | src/benchmarking/instance.c:153-178 | the same for benchmark keys with counts up to 1078 |
| RequestRing.Connection.constructor | src/server/rc_server_utils.c:179-184 | the pre-post loop leaves slots 0 to 4 posted in order and the counter at 0 |
| RequestRing.Connection.Receive | src/server/rc_server_utils.c:237-243 | an arrival puts its method into the oldest posted slot, as the ring machine does |
| RequestRing.Connection.Next | src/server/kvstore.c:83-89 | one iteration posts the counter's slot, reads the method that slot contains, and advances the counter unless it is unknown, as the ring machine does |
| RequestRing.RingInvKept | src/server/kvstore.c:83-89 | every arrival and iteration keeps: counter and posted slots follow from the methods read, slots hold the last request delivered to them, and an only unknown request is read exactly until its slot is overwritten |
| RequestRing.AlignedIff | src/server/kvstore.c:88-89 | filled and read slot agree if and only if none or all of the last five methods read were unknown |
| RequestRing.ReadsWhatWasDelivered | src/server/server_utils.c:250-257 | in every run the methods sent are those that arrived, and the method read in an iteration is that of the last request delivered to the slot read by then, or what calloc left |
| RequestRing.OwnSlotsIff | src/server/kvstore.c:83-89 | in every run: every request so far was read from its own slot if and only if none before the last was unknown |
| RequestRing.OwnSlotIff | src/server/kvstore.c:83-89 | in every run with one unknown request, for every timing of arrivals, which iterations read it and which requests are read from their own slots |
| RequestRing.InTurnOwnSlotIff | src/server/kvstore.c:83-89 | if each request is served before the next arrives, all but requests 1 to 4 and 6 to 9 after the unknown one are |
| RequestRing.OneUnknownMisaligns | src/server/kvstore.c:88-89 | a run of one unknown and six known requests in turn: request 5 meets its slot again, request 6 does not |
| RequestRing.RunningAheadMisaligns | src/server/kvstore.c:88-89 | a run of the same requests in which three arrive together: request 5 does not |
| UdRing.NextIsInSlot | src/server/server_utils.c:250-261 | by counting alone, the lock holder's slot contains the oldest unhandled datagram, whichever completion it polled |
| UdRing.UdInvKept | src/server/ud_server_utils.c:246-268 | every step of every worker and every arrival keeps the ring invariant |
| UdRing.ExactlyOnce | src/server/server_utils.c:217-229 | handled datagrams are a prefix of those that arrived; each is answered at most once, as whoever is about to reply is the first, exactly once when all are idle, and to its own sender |
| UdRing.RingWindow | src/server/server_utils.c:270-275 | what a worker finds each time it looks at its slot, before or after unlocking: its own datagram exactly while at most 1024 have arrived from it on; a reply all of whose looks were in time is wholly about its own; before reposting the slot is safe |
| UdRing.UdNoOverrun | src/server/ud_server_utils.c:36-40 | at most 1024 receives posted and at most 1024 completions waiting in a queue of 1025 |
| UdRing.UdNoDeadlock | src/server/ud_server_utils.c:246-259 | in every run, while a datagram waits and there is a worker, some worker can move |
| UdRing.LateReaderAnswersWrongRequest | src/server/kvstore.c:84-113 | a reachable run in which a delayed worker sends the answer of the 1024th later datagram to its own sender |
| UdRing.LateReaderMixesRequests | src/server/kvstore.c:84-113 | a reachable run in which it looks at its own datagram first and at the later one then |
| UdRouting.Registry.Accept | src/server/ud_server_utils.c:214-240 | attributes by order of acceptance, address handle by announced id |
| UdRouting.Registry.Destination | src/server/ud_server_utils.c:270-280 | the two lookups by the client id of the request give the specified route |
| UdRouting.HandleIsLast | src/server/ud_server_utils.c:227-237 | the handle under an id is that of the last client to announce it, or none |
| UdRouting.HandleIsOwn | src/server/ud_server_utils.c:227-239 | with distinct ids a client's handle is its own |
| UdRouting.ReachedIff | src/server/ud_server_utils.c:270-280 | a client's replies reach it if and only if the client accepted at the place of its id has its queue pair number |
| UdRouting.AllReachedIff | src/server/ud_server_utils.c:214-240 | all clients are reached if and only if each finds its queue pair number at the place of its id; where the numbers differ, if and only if they were accepted in id order |
| UdRouting.SwappedClientsAreNotReached | src/server/ud_server_utils.c:270-280 | two clients accepted in the wrong order: neither is reached |
| UdService.ServiceInvAlways | src/server/ud_server_utils.c:214-240 | while clients are accepted beside the workers, each reply went where the tables pointed when it was sent |
| UdService.ReplyReachesSenderIff | src/server/server_utils.c:223-226 | clients accepted in id order: for every schedule, whichever worker sends it, a reply goes to the sender of its datagram if and only if that client's acceptance was complete |
| UdService.FirstClientIsReached | src/server/kvstore.c:149-154 | replies to the first client always reach it, since workers are created only after an acceptance |
| UdService.EarlyReplyIsLost | src/server/ud_server_utils.c:221-237 | a reachable run with two clients in which the first one's worker answers the second through a handle that does not exist yet |
| Polling.CompletionQueue.Poll | src/rdma_common.c:92-94 | a poll moves exactly the least of what is asked, offered and queued, oldest first, and nothing else |
| Polling.ProcessCompletions | src/rdma_common.c:90-112 | for any batching: the number collected is exactly the least of max_wc and what the device made available; array and rest of the queue are the stream of completions in order; the loop ends at the first error, the first turn with enough available or, timed, the first late one, with the verdict of the status check |
| Polling.OffersArriveAt | src/rdma_common.c:91-97 | once enough has arrived, turns that offer one each make as many available: the loop ends |
| Polling.VerdictMeaning | src/rdma_common.c:100-107 | the result is the number of completions if and only if all succeeded, and otherwise minus the status of the first that failed |
| Polling.CheckStatuses | src/rdma_common.c:154-162 | the status loop returns that verdict |
| Dispatcher.Session.Dispatch | src/server/request_dispatcher.c:57-79 | the replies the dispatcher sends itself, by method, and the exit |
| Dispatcher.Session.Iterate | src/server/kvstore.c:82-114 | one iteration sends the dispatcher's replies, then the store's |
| Dispatcher.Session.Serve | src/server/kvstore.c:82-114 | a whole session, to its end or an EXIT, sends what is specified; if every method is answered once, exactly the store's replies in order |
| Dispatcher.PairedIff | src/server/request_dispatcher.c:57-79 | replies are one per request, in order and the store's, if and only if no request was a PING, a SETOPT or unknown |
| Dispatcher.AnsweredTwice | src/server/request_dispatcher.c:62-78 | the two replies to a PING, a SETOPT and an unknown request, in order, and the one to an EXIT, which ends the session |

## Left out

- Device, connection and socket setup, memory registration, queue pair state changes, teardown and every errno path: foreign calls; the cards are receive queues, completion queues and a reliable wire.
- Allocation failure: `malloc` and `calloc` always succeed here.
- Blocking mode (`ibv_get_cq_event`), whose meaning depends on device events: polling mode only.
- The TCP and UC transports, which repeat the RC server logic; UC's client resends without request ids.
- DEL and RST concurrent with GET or SET: they free items or replace the table under running walks, so the interleaving theorems cover SET and GET, the benchmark's operations.
- Weak memory: the concurrent model is sequentially consistent, one access per step.
- The `prev` pointers in the concurrent model: SET and GET never read them; the sequential heap model has them.
- Freed memory: the old value block of a SET and the items dropped by RST are never freed by the code, and DEL's `free` is not observed by the sequential model.
- The value block in the sequential heap model is the sequence of its first value_size characters; the block and its size are separate in the concurrent model.
- Requests whose key_len or msg_len do not match their strings: clients never build them.
- Which completion of the shared UD send queue a worker polls, and so UD response buffer reuse.
- UD datagram loss: a datagram that meets no posted slot is never an arrival.
- `is_connection_closed`, EXIT's process exit beyond ending the session, and the socket calls of SETOPT, whose outcome is a parameter.
- A UNK datagram, which leaves the UD lock held for ever: UD runs are over methods answered once.
- Other clients of an RC server: the table each request meets is arbitrary in `RcProtocol`, and undisturbed only in `SoleClient`.
- Timing, CSV output, option parsing, logging and the random choice of operations in the benchmark.
- UdRing.UdNoDeadlock: progress of one step only, no fairness; likewise `StoreLocks.StoreNoDeadlock`.
- POSIX leaves the release of a read-write lock one does not hold undefined: the model takes it to act on the lock word, as one release of whoever holds it.
- RequestRing.RingInvKept: the client's sends are bounded by the replies it has had, two completions a round; its own completion queue is modelled in `RcProtocol`, for methods answered once. An iteration's two looks at the method, by the dispatcher and by the main loop, are one.
- UdService.ReplyReachesSenderIff: for clients accepted in id order; for any other order `UdRouting.ReachedIff` says who is reached once all are accepted.
