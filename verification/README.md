# Verification of tdutils

A Dafny model of the hard parts of tdutils (the C++ utility library under `td/utils`) and proofs about it.
`dafny verify dfyconfig.toml` checks everything.

Each concurrent component is a sequentially consistent step system: a `State`, an `Event` per atomic load, store,
compare-and-swap, exchange or lock-protected block, a total function `Next`, and `IsRun` for any finite interleaving of
any number of threads. An inductive invariant is kept by every step, and the theorems speak of every state of every run.
What each call achieves is stated too: from any state that satisfies the invariant, for a call that nobody disturbs.
The sequential components are classes, arrays and loops where the code changes things in place, each method specified
by a function, and functions where the code is expressions; the theorems are about those functions.

| file | what it models |
|---|---|
| EpochReclamation.dfy, EpochReclamationRuns.dfy | epoch-based reclamation, three bags per thread |
| EpochReclamationAlone.dfy | how fast the epoch moves, what a retire clears, and what the end of retire_sync means |
| SleepyWaiter.dfy, SleepyWaiterRuns.dfy | the worker waiter that parks and wakes workers |
| SleepyWaiterWatch.dfy | who looks for pending work, and the undisturbed calls of the waiter |
| StealingQueue.dfy, StealingQueueRuns.dfy | the work-stealing ring |
| StealingQueueAlone.dfy | when push, pop and steal succeed, and with which elements |
| ConcurrentHashMap.dfy, ConcurrentHashMapRuns.dfy | the hash map with cooperative migration, and the hazard pointers it uses |
| ConcurrentHashMapFind.dfy | what `find` returns |
| ConcurrentHashMapCalls.dfy | undisturbed finds and inserts, and the end of a migration with the scan of hazard pointers |
| ConcurrentHashMapAlone.dfy, ConcurrentHashMapOverflow.dfy | the hash map with one thread, and which migrations can overflow |
| PollQueue.dfy, PollQueueRuns.dfy | the block queue, the chain queue and the queue with an event fd |
| PollQueueAnswers.dfy | the number that reader_wait_nonblock returns, and the undisturbed calls of both sides |
| ChainBuffer.dfy, ChainBufferRuns.dfy, ChainBufferCalls.dfy | the chained buffer as a step system; what append, prepare_read and confirm_read do |
| FindBoundary.dfy | its iterator and reader as classes; `find_boundary` |
| Utf8.dfy, Punycode.dfy | UTF-8 (section 4 of RFC 3629) and Punycode (section 6 of RFC 3492) |
| Json.dfy, JsonPrinter.dfy, JsonParser.dfy, JsonBuilder.dfy | JSON (RFC 8259): the format, round trips, the parser and the printer as they run |
| JsonGrammar.dfy, JsonAccepts.dfy, JsonAscii.dfy | a grammar of JSON texts, that json_decode accepts exactly those, and that json_encode prints ASCII |
| Tl.dfy, TlCode.dfy | TL storing and parsing: the format, and the storers and the parser as they run |
| TlAccepts.dfy | which bytes unserialize accepts |
| AesIge.dfy, AesCtr.dfy, Crc32c.dfy | IGE through CBC batches, CTR with a keystream cache, CRC-32C combination |
| Uint128.dfy, DecTree.dfy, FloodControl.dfy | emulated 128-bit integers, the treap, the strict rate limiter |
| Sorting.dfy, HintWords.dfy, HintIndex.dfy, Hints.dfy | the prefix index of Hints |
| Translit.dfy, TranslitText.dfy | the transliteration of words, on code points and on UTF-8 bytes |
| HintQueries.dfy | the query words that Hints drops, and what that does to a search |
| Modular.dfy | facts about division, remainders and powers of two |

What the proofs found in the code:

- `ConcurrentHashMap::find` keeps what it reads from a slot in the variable that holds the caller's default. A key for
  which no insert has been called gives the default (`ConcurrentHashMapFind.FindWithoutInsert`); once an insert has
  claimed a slot and not yet set its value, find can return the empty value, or the migration marker when the table was
  migrated meanwhile (`FindReturnsEmpty`, `FindReturnsMarker`: runs for every key and every default).
  `ConcurrentHashMapFind.FindResult` lists all a find can return.
- A migration out of a table of `m` slots can overflow, a failed LOG_CHECK, exactly when `m` is more than 300, that is
  512 or a greater power of two: `ConcurrentHashMapOverflow.OverflowExactly`, with a run of a single thread for each size.
- `MpmcSleepyWaiter` breaks a CHECK exactly when it has 1000 workers or more
  (`SleepyWaiterRuns.ChecksHoldExactlyBelow1000Workers`).
- `unserialize` accepts every string header and any padding bytes, so a value has more encodings than the one that is
  stored (`TlAccepts.UnserializesExactly`); it accepts nothing that is longer or shorter than one of them.
- `json_decode` takes some texts that RFC 8259 does not allow: control characters and bytes that are no UTF-8 inside
  strings, an escape of any other character for that character, single surrogates, and numbers of any of the bytes
  `0-9+-.eE` (`JsonAccepts.DecodesExactly` says exactly which).
- A `PollQueue::writer_flush` that signals although the reader has taken all there is spends the reader's announcement if
  the wait state that it loaded at its start, and stores after the signal, is the announced one; a flush that loaded an
  older state signals too and spends nothing (`PollQueueRuns.SpentExactly`). After one more wait in vain the next flush
  does not signal and the reader is asleep with a value to read (`SpentStrands`, from every such state). Nothing else
  strands the reader (`StrandedMeansSpent`), and every block size has such a run (`IdleFlushStrands`).
- `AesIgeStateImpl` takes the number of blocks from the output. With an output that has a whole block more than the input,
  which its CHECKs allow, it reads behind the input (`AesIge.ReadsInsideExactly`), and what is there decides the output
  (`AesIge.InputDecides`).
- `crc32c_extend` reads words behind its 32 matrices exactly when the size is 2^29 bytes or more and the register is not
  zero (`Crc32c.ReadsBehindExactly`); otherwise its result is right (`Crc32c.Extend`). For the register 1 and 2^29 bytes
  the result is the word that happens to be there, xored with the checksum of the data (`Crc32c.ReadsBehind`).
- An insert of a present key into the treap changes nothing if its random priority is not greater than the key's own, and
  otherwise leaves the key in the tree twice (`DecTrees.InsertPresent`).
- A limit added to `FloodControlStrict` between events is not in the reported wakeup before the next update, so the next
  event can break it (`FloodControl.NewLimitUnseen`; exactly when: `FloodControl.NewLimitExactly`).
- `Hints::search` looks up only the query words that are no prefix of another, although the hard sign and the soft sign
  are left out when a word is written in the English alphabet. Some name matches all words that are looked up and not all
  words of the query exactly when a query word of such signs alone is a prefix of other words, none of which is of signs
  alone (`HintQueries.LostExactly`). The query of the words 0x44a and 0x44a 0x430 finds the name "a"
  (`HintQueries.HardSignIsLost`). Every other query that has a word is answered with the names that match all of its
  words (`Hints.Hints.Search`).

## Model

| member | source | states |
|---|---|---|
| EpochReclamationRuns.InvStep | td/utils/EpochBasedMemoryReclamation.h:100-193 | every step of lock, unlock, step_check, set_epoch and both retires keeps the invariant: announced epochs pin the global one, scans have not passed a pinned thread, and a bag is old enough whenever no thread that could see its objects is still announced |
| EpochReclamationRuns.RunInvariant | td/utils/EpochBasedMemoryReclamation.h:88-193 | the invariant and conservation hold in every state of every run, for any number of threads |
| EpochReclamationRuns.EpochRisesByAtMostOne | td/utils/EpochBasedMemoryReclamation.h:133-167 | while a thread stays in the critical section it announced, the global epoch rises by at most one, even when the announced epoch was stale |
| EpochReclamationRuns.NothingFreedUnderAGuard | td/utils/EpochBasedMemoryReclamation.h:100-113 | no cleared object was retired during a critical section that is still open |
| EpochReclamationRuns.RetiredObjectsOutliveReaders | td/utils/EpochBasedMemoryReclamation.h:182-192 | an object retired while a thread is in a critical section is still in some bag as long as that thread has neither left nor announced again |
| EpochReclamationRuns.ConservedStep | td/utils/EpochBasedMemoryReclamation.h:100-103 | as multisets, retired objects are the objects in bags and the cleared ones: nothing is lost or destroyed twice |
| EpochReclamationRuns.RunForward | td/utils/EpochBasedMemoryReclamation.h:152-167 | the global epoch and the retired objects only grow, and an open critical section keeps its pin |
| EpochReclamation.FreedStep | td/utils/EpochBasedMemoryReclamation.h:100-113 | what a rotation clears was retired under no critical section that is still open: three rotations are enough |
| EpochReclamationAlone.LocksAdvance | td/utils/EpochBasedMemoryReclamation.h:133-167 | while no other thread is announced with an old epoch, a thread that locks and unlocks moves the epoch on with exactly the lock that is due: 31 locks for each thread that is still to be looked at; that lock clears its oldest bag, and the ones before change nothing |
| EpochReclamationAlone.LockCatchesUp | td/utils/EpochBasedMemoryReclamation.h:105-113 | the first lock of a thread whose epoch is old clears its oldest bag, once, and starts the scan of the threads anew |
| EpochReclamationAlone.LocksReclaim | td/utils/EpochBasedMemoryReclamation.h:133-167 | while nobody else is announced, locking and unlocking clears all that a thread has retired, with three rises of the epoch, after a number of locks that is given exactly |
| EpochReclamationAlone.RetireAlone | td/utils/EpochBasedMemoryReclamation.h:182-187 | while nobody else is announced, retire empties all bags of its thread, moves the epoch by three at most, and terminates |
| EpochReclamationAlone.SyncAlone | td/utils/EpochBasedMemoryReclamation.h:169-180 | so does retire_sync, which also leaves the thread idle |
| EpochReclamationAlone.RetireStops | td/utils/EpochBasedMemoryReclamation.h:152-187 | retire stops at the first thread, from where the scan goes on, that is announced with an old epoch; it has cleared nothing but what a change of epoch clears |
| EpochReclamationAlone.SyncWaits | td/utils/EpochBasedMemoryReclamation.h:169-180 | on every run, when retire_sync returns, what its thread has retired before is cleared and every critical section that was open then is over |
| SleepyWaiterRuns.InvStep | td/utils/MpmcWaiter.h:200-303 | every step of wait, stop_wait and notify keeps: the mutex has one holder, the packed word counts parked and searching workers exactly, the sleepers are the listed workers without duplicates, and no CHECK has failed |
| SleepyWaiterRuns.AttendedStep | td/utils/MpmcWaiter.h:187-190 | no step loses the last responsible agent: an awake worker, a worker with its flag raised, or an agent inside notify; that somebody searches is WorkIsWatched |
| SleepyWaiterRuns.NoLostWakeup | td/utils/MpmcWaiter.h:170-303 | on every run, when every worker is blocked in park without a flag and nobody is between adding work and finishing notify, no work is pending |
| SleepyWaiterRuns.ParkedCountIsListSize | td/utils/MpmcWaiter.h:209-303 | whenever the mutex is free the packed parked count is the length of the sleepers list |
| SleepyWaiterRuns.ChecksHoldExactlyBelow1000Workers | td/utils/MpmcWaiter.h:263-265 | some run breaks a CHECK if and only if there are 1000 workers or more |
| SleepyWaiterRuns.ManyWorkersFail | td/utils/MpmcWaiter.h:263-265 | with 1000 workers that all search, stop_wait breaks its CHECK |
| SleepyWaiter.ProducerHandsOver | td/utils/MpmcWaiter.h:275-303 | a notify that ends leaves an awake worker or a raised flag behind |
| SleepyWaiter.SearcherHandsOver | td/utils/MpmcWaiter.h:208-229 | a searching worker that goes to sleep is the last one and looks once more, or leaves another awake |
| SleepyWaiterWatch.WorkIsWatched | td/utils/MpmcWaiter.h:187-270 | on every run of fewer than 1000 workers, while work is pending somebody searches, or is inside notify, or a parked worker looks once more before it blocks, or nobody is parked: the last searcher that stops wakes another |
| SleepyWaiterWatch.WatchedStep | td/utils/MpmcWaiter.h:187-190 | every step keeps that |
| SleepyWaiterWatch.NotifyAlone | td/utils/MpmcWaiter.h:275-303 | an undisturbed notify wakes the worker that fell asleep last, exactly if some sleep and nobody searches, and changes nothing otherwise |
| SleepyWaiterWatch.StopAlone | td/utils/MpmcWaiter.h:236-273 | an undisturbed stop_wait takes the worker off the sleepers and the searchers; the last searcher wakes the last sleeper in its place |
| SleepyWaiterWatch.WaitAlone | td/utils/MpmcWaiter.h:200-234 | an undisturbed wait goes from work to search, from search to sleep, with one more look for the last searcher, and from sleep on to search only for a worker that has been woken up |
| StealingQueueRuns.InvStep | td/utils/StealingQueue.h:20-98 | every atomic step keeps the rings well formed and every thief's copy good while the victim's head has not moved |
| StealingQueue.OwnMoved | td/utils/StealingQueue.h:25-29 | an owner writes no slot that holds a live element |
| StealingQueueRuns.NothingLostOrDuplicated | td/utils/StealingQueue.h:20-98 | on every run and for every value, the number pushed is the number in rings, in hands, taken and overflowed; when a pop or a steal must succeed is PopAnswers and StealAnswers |
| StealingQueueRuns.ConservedStep | td/utils/StealingQueue.h:20-98 | that balance is kept by every event, of owners and thieves alike |
| StealingQueueRuns.SuccessfulThiefCopiedLiveSlots | td/utils/StealingQueue.h:84-95 | a thief whose compare-and-swap succeeds has copied exactly the live slots that its success takes, none overwritten since |
| StealingQueue.LootIsLive | td/utils/StealingQueue.h:89-95 | what a successful thief holds, counted per value, is what leaves the other ring |
| StealingQueue.SlotsDiffer | td/utils/StealingQueue.h:26-27 | positions less than a ring apart use different slots |
| StealingQueueAlone.PopAlone | td/utils/StealingQueue.h:51-61 | an undisturbed local_pop takes the oldest element, and comes back empty exactly if there is none |
| StealingQueueAlone.PushAlone | td/utils/StealingQueue.h:20-49 | an undisturbed local_push appends; on a full ring the oldest size / 2 + 1 elements and the value overflow instead |
| StealingQueueAlone.StealAlone | td/utils/StealingQueue.h:63-98 | an undisturbed steal takes n - n / 2 of the n elements of the other, cut to its own room: it hands out the last of them, keeps the rest in order, and fails exactly if that number is 0 |
| StealingQueueAlone.PopAnswers | td/utils/StealingQueue.h:51-61 | on every run, a local_pop comes back empty exactly if the ring was empty at its load or its head has been moved since; otherwise it takes the oldest element |
| StealingQueueAlone.StealAnswers | td/utils/StealingQueue.h:63-98 | in any interleaving, a steal fails only at its load of the other tail, exactly if that is the head it has loaded or its own ring was full |
| ConcurrentHashMapRuns.InvStep | td/utils/ConcurrentHashTable.h:52-310 | every step of insert, find, migration and retirement keeps the invariant of tables, values, migration progress, carried values and hazard pointers, unless a migration overflows |
| ConcurrentHashMap.OneSlotPerKey | td/utils/ConcurrentHashTable.h:52-84 | a table that obeys the probing rules has at most one slot for a key |
| ConcurrentHashMap.GoodClaim | td/utils/ConcurrentHashTable.h:65-73 | claiming the first empty slot on a key's path keeps the probing rules for all keys |
| ConcurrentHashMap.KnownIsFound | td/utils/ConcurrentHashTable.h:57-83 | a search that ends at an empty slot or at its limit has not missed a value |
| ConcurrentHashMap.LocatedStep | td/utils/ConcurrentHashTable.h:297-310 | at every moment of a migration a committed value is in the old table, in the new one, or carried by one thread |
| ConcurrentHashMap.MigrationComplete | td/utils/ConcurrentHashTable.h:250-266 | when the last migrating thread leaves, every old slot has been moved |
| ConcurrentHashMap.HazardsStep | td/utils/HazardPointers.h:59-127 | a pointer that protect has returned stays unretired or guarded through every step of any scan |
| ConcurrentHashMapRuns.RunInvariant | td/utils/ConcurrentHashTable.h:92-310 | the invariant holds in every state of every run, and only a migration overflow can end one |
| ConcurrentHashMapRuns.FirstInsertWins | td/utils/ConcurrentHashTable.h:123-174 | once an insert of a value returns x, every insert and find of that key that starts later returns x, across any number of migrations |
| ConcurrentHashMapRuns.InsertsAgree | td/utils/ConcurrentHashTable.h:123-156 | inserts of one key that overlap return the same value |
| ConcurrentHashMapRuns.ValuesAreAsked | td/utils/ConcurrentHashTable.h:136-150 | what a key is bound to was the argument of some insert of that key |
| ConcurrentHashMapRuns.KeysOwnOneSlot | td/utils/ConcurrentHashTable.h:52-84 | in no reachable table does a key own two slots |
| ConcurrentHashMapRuns.HeldTablesLive | td/utils/HazardPointers.h:59-127 | no table is deleted between the protect that returned it and the holder's next protect or clear |
| ConcurrentHashMapRuns.UsedTablesLive | td/utils/ConcurrentHashTable.h:258-281 | the current table, or both tables of a running migration, are not deleted |
| ConcurrentHashMapRuns.SmallTablesNeverFail | td/utils/ConcurrentHashTable.h:243-308 | while no table has more than 600 slots no CHECK fails and no migration overflows |
| ConcurrentHashMapRuns.FitsExactly | td/utils/ConcurrentHashTable.h:55-57 | the probing limit covers all keys of the old table if and only if that has at most 300 slots |
| ConcurrentHashMapRuns.MigrationFits | td/utils/ConcurrentHashTable.h:297-308 | a migration out of such a table never overflows |
| ConcurrentHashMapOverflow.OverflowExactly | td/utils/ConcurrentHashTable.h:52-84 | a migration out of a table with m slots overflows in some run if and only if m is a power of two above 300 |
| ConcurrentHashMapOverflow.OverflowIsLarge | td/utils/ConcurrentHashTable.h:297-308 | a migration that overflows, in any run of any number of threads, is out of such a table |
| ConcurrentHashMapOverflow.RunOverflows | td/utils/ConcurrentHashTable.h:297-308 | for every such size there is a run of one thread, of inserts only, whose migration overflows at the last slot |
| ConcurrentHashMapOverflow.SizesArePowers | td/utils/ConcurrentHashTable.h:97-100 | every table of every run has a power of two slots |
| ConcurrentHashMapAlone.Inserts | td/utils/ConcurrentHashTable.h:52-84 | an undisturbed insert puts its key into the first free slot of its path |
| ConcurrentHashMapAlone.Grows | td/utils/ConcurrentHashTable.h:222-308 | an insert that finds no free slot migrates every key to the slot it first asks for, if these differ, retires the old table and starts anew |
| ConcurrentHashMapCalls.FindAlone | td/utils/ConcurrentHashTable.h:158-174 | from any state without a migration, an undisturbed find returns the value of a key that has one, the empty value for a key that only owns a slot, and else the default |
| ConcurrentHashMapCalls.InsertAlone | td/utils/ConcurrentHashTable.h:123-156 | an undisturbed insert returns the value of a key that has one and changes nothing; else it stores its value in the slot of the key or in a free one, and nothing else changes |
| ConcurrentHashMapCalls.InsertGivesUp | td/utils/ConcurrentHashTable.h:52-84 | an insert of a new key goes on to a migration exactly if all slots it tries belong to others |
| ConcurrentHashMapCalls.Sweep | td/utils/HazardPointers.h:59-127 | retire deletes exactly those of its tables that no hazard pointer guards, and keeps the others in their order |
| ConcurrentHashMapCalls.FinishAlone | td/utils/ConcurrentHashTable.h:236-266 | the last thread that leaves a migration puts the new table to use, retires the old one, sweeps, and wakes the waiting threads by a new generation |
| ConcurrentHashMapFind.FindResult | td/utils/ConcurrentHashTable.h:158-174 | find returns the value the key had when it was called; else the default, or, only if an insert of the key has been called, a value it got meanwhile, the empty value or the marker |
| ConcurrentHashMapFind.FindWithoutInsert | td/utils/ConcurrentHashTable.h:158-174 | with no insert of the key called, find returns the default |
| ConcurrentHashMapFind.FindReturnsEmpty | td/utils/ConcurrentHashTable.h:158-174 | for every key and default a run in which find of a key without a value returns the empty value |
| ConcurrentHashMapFind.FindReturnsMarker | td/utils/ConcurrentHashTable.h:158-174 | for every key and default a run in which find of a key without a value returns the migration marker |
| ConcurrentHashMapFind.MarkerMeansAbsent | td/utils/ConcurrentHashTable.h:158-174 | a call that returns the migration marker is for a key that had no value when it started |
| ConcurrentHashMapFind.KeysAsked | td/utils/ConcurrentHashTable.h:65-73 | a key is in a table only after a call to insert it |
| PollQueueRuns.InvStep | td/utils/queue.h:103-383 | every step of writer and reader keeps the chain, both sides' cached indices, the stored data and the wait state in order |
| PollQueue.SlotIs | td/utils/queue.h:82-92 | the slot of a wrapped 32-bit index is the slot of the true position, because the block size is a power of two |
| PollQueue.ReaderSizeIs | td/utils/queue.h:125-131 | the wrapped difference of the indices is the number of elements that can be read |
| PollQueue.WriterSizeIs | td/utils/queue.h:103-109 | the wrapped room is the true room |
| PollQueueRuns.RunInvariant | td/utils/queue.h:147-383 | the invariant holds in every state of every run |
| PollQueueRuns.FirstInFirstOut | td/utils/queue.h:111-145 | what was read is a prefix of what was put, and a get takes the next element, also across nodes |
| PollQueueRuns.GetTakesNext | td/utils/queue.h:133-135 | a get takes the next element that was put |
| PollQueueRuns.NodesInUseLive | td/utils/queue.h:187-240 | the node of the writer and the node of the reader are never deleted |
| PollQueueRuns.StrandedMeansSpent | td/utils/queue.h:334-383 | in every run, when the last wait has returned 0 and flushed data is unread without a signal, the writer has signalled for the present wait state while there was nothing to read |
| PollQueueRuns.SpentExactly | td/utils/queue.h:343-347 | that comes about exactly when a flush that found nothing unread to publish has signalled and stores an old wait state equal to the present one |
| PollQueueRuns.SpentStrands | td/utils/queue.h:334-383 | from every reachable state of that kind in which all is taken, one more wait in vain and the next flushed value strand the reader |
| PollQueueRuns.IdleFlushStrands | td/utils/queue.h:334-348 | for every block size a run with one flush too many that strands the reader |
| PollQueueRuns.NeverStranded | td/utils/queue.h:334-383 | no run strands the reader while every flush has had something to publish |
| PollQueueRuns.AvailableExactly | td/utils/queue.h:218-240 | an undisturbed update finds something if and only if something published is unread |
| PollQueueAnswers.AnswerIsReady | td/utils/queue.h:356-383 | on every run, a reader_wait_nonblock that ends has returned the number of elements that are ready in its node: so many gets succeed and no more |
| PollQueueAnswers.CallAlone | td/utils/queue.h:356-383 | an undisturbed reader_wait_nonblock returns the number of published elements in its node, or in the next one if its own is closed and read |
| PollQueueAnswers.PutAlone | td/utils/queue.h:183-199 | an undisturbed put appends its value, and takes a new node exactly if no slot of the last one is given back |
| PollQueueAnswers.PutAfterFree | td/utils/queue.h:103-145 | after the reader has given back its slots, a put takes a new node exactly if the ring is full of unread values |
| PollQueueAnswers.FlushAlone | td/utils/queue.h:334-348 | an undisturbed writer_flush publishes all that was put, and signals exactly if the reader has announced a wait it was not signalled for |
| ChainBufferRuns.RunInvariant | td/utils/buffer.h:437-757 | the nodes hold consecutive stretches of the appended bytes and every iterator stands inside its node, in every state of every run |
| ChainBufferRuns.FaithfulStream | td/utils/buffer.h:475-519 | the bytes an iterator has confirmed are a prefix of the appended bytes, and its offset is their number |
| ChainBufferRuns.NoByteSkipped | td/utils/buffer.h:484-499 | an iterator that leaves a node has read all the node will ever hold |
| ChainBuffer.LeaveOk | td/utils/buffer.h:484-495 | has_writer is read before the end, so at the end of a node without a writer nothing can follow |
| ChainBufferRuns.NodesFinal | td/utils/buffer.h:707-746 | a node that its writer has left never grows again |
| ChainBufferRuns.PrepareFinds | td/utils/buffer.h:475-501 | the loop of prepare_read, from any look on, comes back empty only when every reachable byte has been read, and shows all the node has |
| ChainBufferCalls.WritesAll | td/utils/buffer.h:687-746 | on every run, the bytes handed to the writer, in that order, are those appended and those just being appended |
| ChainBufferCalls.AppendAlone | td/utils/buffer.h:724-732 | the loop of append adds exactly its bytes, with one new buffer exactly if they do not fit into the old one |
| ChainBufferCalls.AppendBufferAlone | td/utils/buffer.h:734-746 | the same of append for a buffer, which becomes a node of its own if it is long and does not fit |
| ChainBufferCalls.ConfirmTakes | td/utils/buffer.h:516-519 | confirm_read takes exactly the next n appended bytes |
| ChainBufferCalls.PrepareAlone | td/utils/buffer.h:475-501 | a prepare_read, with the writer standing still, keeps a slice that is not used up; else it shows all readable bytes of the node with the next unread byte, and is empty exactly if no unread byte can be reached |
| FindBoundary.ExtendsBytes | td/utils/buffer.h:475-501 | when the writer has gone on, an iterator can still read what it could before, with more behind it |
| FindBoundary.ChainBufferIterator.PrepareRead | td/utils/buffer.h:475-501 | on any chain that extends the one seen before, the loop returns the slice at hand, which is empty exactly when nothing is left, and moves past no byte |
| FindBoundary.ChainBufferIterator.AdvanceTillEnd | td/utils/buffer.h:521-529 | everything is consumed, also what comes meanwhile, and the offset grows by its length |
| FindBoundary.ChainBufferIterator.Advance | td/utils/buffer.h:531-554 | skips min(n, what comes into sight) bytes across nodes and copies those that fit |
| FindBoundary.ChainBufferReader.PrepareRead | td/utils/buffer.h:596-600 | a slice of the range that is empty only for an empty range |
| FindBoundary.ChainBufferReader.Advance | td/utils/buffer.h:607-610 | the range loses its first bytes, which are copied as far as they fit |
| FindBoundary.FindBoundary | td/utils/find_boundary.cpp:7-43 | for any division into chunks, and whatever the writer appends meanwhile, the result and the resumable offset are those of a search of the flat bytes of the range |
| FindBoundary.StopFindsFirst | td/utils/find_boundary.cpp:12-42 | the flat search finds a boundary if and only if there is one, and then the first |
| FindBoundary.SearchResumes | td/utils/find_boundary.cpp:8 | resuming from the offset after more bytes arrived finds what a search from the start finds |
| FindBoundary.ArrivalsDoNotMatter | td/utils/find_boundary.cpp:7-43 | any number of resumed searches stop where one search of all bytes stops |
| Utf8.DecodeEncode | td/utils/utf8.cpp:58-104 | next_utf8_unsafe reads back what append_utf8_character wrote, whatever follows |
| Utf8.AcceptsEncoded | td/utils/utf8.cpp:8-56 | check_utf8 accepts the encoding of every code point that is not a surrogate |
| Utf8.AcceptedDecodes | td/utils/utf8.cpp:8-56 | what check_utf8 accepts is the encoding of one, and the decoder gives it |
| Utf8.AcceptedExactly | td/utils/utf8.cpp:8-56 | the length check_utf8 steps over is not 0 exactly when a good character starts there |
| Utf8.CheckUtf8 | td/utils/utf8.cpp:8-56 | the loop answers true if and only if the text is a sequence of encoded scalar values |
| Utf8.CodesStep | td/utils/utf8.cpp:76-104 | a loop over next_utf8_unsafe reads the code points that the text encodes |
| Utf8.CodesEncode | td/utils/utf8.cpp:58-74 | a well-formed text is the encoding of the code points that are read from it |
| Punycode.Punycode | td/utils/port/IPAddress.cpp:41-120 | for labels under 1020 bytes the loops compute section 6.3 of RFC 3492, with the bias kept negated and n one behind; no delta leaves a signed 32-bit int |
| Punycode.Round | td/utils/port/IPAddress.cpp:65-119 | one round inserts all occurrences of the next code point |
| Punycode.EncodeDelta | td/utils/port/IPAddress.cpp:82-95 | the digits with the negated bias are the variable-length integer of the RFC |
| Punycode.UpdateBias | td/utils/port/IPAddress.cpp:98-113 | the new negated bias is that of section 6.1 |
| Punycode.Lowest | td/utils/port/IPAddress.cpp:66-72 | the lowest code point above n |
| Punycode.CopyBasic | td/utils/port/IPAddress.cpp:42-59 | the code points of the label, and the lower-cased basic ones with the delimiter |
| Punycode.DecodeEncode | td/utils/port/IPAddress.cpp:41-120 | the decoder of section 6.2 gives back the code points, with ASCII letters in lower case |
| Punycode.VarIntRoundTrip | td/utils/port/IPAddress.cpp:82-95 | a delta is read back from its digits, whatever follows |
| Punycode.InsertDeltas | td/utils/port/IPAddress.cpp:73-117 | decoding the deltas of a round inserts its code points at their places |
| Punycode.EmitsDigits | td/utils/port/IPAddress.cpp:75-115 | what a round writes are its deltas, each with the bias that the earlier ones lead to |
| Punycode.IdnToAscii | td/utils/port/IPAddress.cpp:123-168 | ASCII hosts are lower-cased; another host is accepted if and only if it is UTF-8 and short enough, and is translated label by label |
| Punycode.SplitWellFormed | td/utils/port/IPAddress.cpp:148 | splitting at dots cuts no character |
| Punycode.LabelRoundTrip | td/utils/port/IPAddress.cpp:156-163 | behind the prefix xn-- a label decodes to its code points in lower case |
| AesIge.AesIgeState.Encrypt | td/utils/crypto.cpp:476-514 | for all sizes the CHECKs allow, batches of 31 blocks compute IGE over as many blocks as the output has, which may include memory behind the input, and leave the state for the next call |
| AesIge.AesIgeState.EncryptBatch | td/utils/crypto.cpp:488-512 | one batch: xor, CBC and xor again in place is IGE on that stretch and touches nothing else |
| AesIge.AesIgeState.Decrypt | td/utils/crypto.cpp:516-539 | the block loop computes IGE backwards, over as many blocks as the output has |
| AesIge.ReadsInsideExactly | td/utils/crypto.cpp:477-479 | for sizes the CHECKs allow, every block read is inside the input if and only if the output has no whole block more |
| AesIge.InputDecides | td/utils/crypto.cpp:476-539 | in exactly that case the output depends on the input alone |
| AesIge.ReadsPastTheInput | td/utils/crypto.cpp:477-479 | one block in and room for two: the second block read lies behind the input |
| AesIge.BatchIsIge | td/utils/crypto.cpp:488-507 | CBC between the two xors satisfies c_i = E(p_i xor c_(i-1)) xor p_(i-1) |
| AesIge.EncryptedSplit | td/utils/crypto.cpp:506-507 | splitting the input between batches or calls changes nothing |
| AesIge.DecryptEncrypt | td/utils/crypto.cpp:476-539 | decryption undoes encryption for every block permutation |
| AesIge.EncryptDecrypt | td/utils/crypto.cpp:476-539 | encryption undoes decryption |
| AesCtr.IncAddsOne | td/utils/crypto.cpp:280-289 | inc adds one to the 128-bit counter, with wrap-around |
| AesCtr.CounterNext | td/utils/crypto.cpp:354-359 | counter block i + 1 is the increment of counter block i |
| AesCtr.XorBytes | td/utils/crypto.cpp:309-324 | blocks of 16 and the rest from the back xor every byte once, also in place |
| AesCtr.AesCtrState.Encrypt | td/utils/crypto.cpp:626-643 | the output is the input xored with the keystream from the position on, wherever in the cache it starts |
| AesCtr.AesCtrState.Fill | td/utils/crypto.cpp:652-657 | the cache holds the next 32 encrypted counters |
| AesCtr.XoredSplit | td/utils/crypto.cpp:626-643 | how the input is split into calls does not matter |
| AesCtr.XoredTwice | td/utils/crypto.cpp:626-643 | from the same position encryption undoes itself |
| Crc32c.MatrixTimes | td/utils/crypto.cpp:1042-1052 | the loop that ends when no bit is left is the product of matrix and vector |
| Crc32c.MatrixSquare | td/utils/crypto.cpp:1054-1058 | the new rows are the square of the old |
| Crc32c.PowerBuffer | td/utils/crypto.cpp:1063-1074 | the buffer holds the matrices of 2^0 to 2^31 one-bit steps |
| Crc32c.StepMatrixSteps | td/utils/crypto.cpp:1066-1069 | the first matrix is the step that shifts in a zero bit |
| Crc32c.SquareSum | td/utils/crypto.cpp:1054-1058 | the square acts as the matrix does twice |
| Crc32c.PowerSteps | td/utils/crypto.cpp:1070-1072 | power k makes 2^k steps |
| Crc32c.Extend | td/utils/crypto.cpp:1062-1089 | for any register and size: words behind the buffer are read if and only if the size is 2^29 or more and the register is not zero; if none is, the result is the old register after 8n zero bits, xored with the new one |
| Crc32c.ReadsBehindExactly | td/utils/crypto.cpp:1080-1087 | the same of the loop's reads, whatever is behind the buffer |
| Crc32c.StepsNonZero | td/utils/crypto.cpp:1066-1069 | a register that is not zero never becomes zero |
| Crc32c.OneBitReads | td/utils/crypto.cpp:1080-1087 | for a size of 2^e bytes one matrix is read, number e + 3 |
| Crc32c.ReadsBehind | td/utils/crypto.cpp:1080-1087 | for the register 1 and 2^29 bytes the loop gives the word behind the buffer |
| Crc32c.CombinesChecksums | td/utils/crypto.cpp:1062-1089 | the combination of two checksums is the checksum of the concatenation |
| Crc32c.CombinedAssociates | td/utils/crypto.cpp:1062-1089 | extend(extend(a, b, m), c, n) = extend(a, extend(b, c, n), m + n) |
| Json.SkipAgrees | td/utils/JsonBuilder.cpp:332-559 | for every input and depth the skipper succeeds exactly when the parser does, and stops at the same place |
| Json.StringAgrees | td/utils/JsonBuilder.cpp:132-330 | the same for the string skipper and the string decoder |
| Json.ItemsAgree | td/utils/JsonBuilder.cpp:358-386 | the same for the elements of an array |
| Json.FieldsAgree | td/utils/JsonBuilder.cpp:387-420 | the same for the members of an object |
| JsonPrinter.RoundTrip | td/utils/JsonBuilder.h:548-581 | printing, compact or pretty, then parsing gives the value and stops right behind it |
| JsonPrinter.EncodeDecode | td/utils/JsonBuilder.h:735-760 | json_decode undoes json_encode if and only if the value is no deeper than the parser allows |
| JsonPrinter.StringRoundTrip | td/utils/JsonBuilder.cpp:54-248 | a printed string is parsed back, with all escapes |
| JsonPrinter.UnescapeText | td/utils/JsonBuilder.cpp:54-130 | unescaping the printed text gives the bytes of the string |
| JsonPrinter.CloseText | td/utils/JsonBuilder.cpp:136-149 | the scan for the closing quote stops behind the printed text |
| JsonPrinter.PairRoundTrip | td/utils/JsonBuilder.h:105-127 | a surrogate pair is joined to the code point it was printed for |
| JsonPrinter.DecodedHeight | td/utils/JsonBuilder.cpp:332-336 | no parsed value is deeper than the depth limit |
| JsonAccepts.DecodesExactly | td/utils/JsonBuilder.h:735-746 | json_decode returns a value if and only if the text is one the grammar writes for it: any of the bytes 32, 9, 10 and 13 between tokens, two-byte escapes, hexadecimal digits in either case, joined surrogates, number tokens, at most 100 levels |
| JsonAccepts.Accepts | td/utils/JsonBuilder.cpp:332-450 | every text of the grammar is parsed to what it means, wherever white space stands in it |
| JsonAccepts.Accepted | td/utils/JsonBuilder.cpp:332-450 | every accepted text is one of the grammar |
| JsonAccepts.NumbersAccepted | td/utils/JsonBuilder.cpp:421-437 | every number of section 6 of RFC 8259 is taken whole, between any white space |
| JsonGrammar.StringReads | td/utils/JsonBuilder.cpp:132-248 | every string of plain bytes, escapes of section 7 of RFC 8259, escaped surrogate pairs and other escapes is read as what it means |
| JsonGrammar.CodeRead | td/utils/JsonBuilder.cpp:194-200 | four hexadecimal digits stand for their number, each in upper or lower case |
| JsonGrammar.SkipBlank | td/utils/Parser.h:144-154 | a run of the bytes 32, 9, 10 and 13 is skipped, whatever follows |
| JsonAscii.EncodeIsAscii | td/utils/JsonBuilder.cpp:54-130 | json_encode prints printable ASCII whatever the strings hold; only the pretty output has line feeds, and ends with one |
| JsonAscii.PlainText | td/utils/JsonBuilder.cpp:62-127 | printable ASCII other than the quote and the backslash is printed as it is |
| JsonParser.Parser.StringDecode | td/utils/JsonBuilder.cpp:132-248 | decodes in place: the result lies before the cursor, and everything before the string and behind it is untouched |
| JsonParser.Parser.DecodeInPlace | td/utils/JsonBuilder.cpp:151-246 | the loop over runs and escapes computes the unescaped text at the start of the string's own bytes |
| JsonParser.Parser.EscapeStep | td/utils/JsonBuilder.cpp:162-244 | an escape is replaced by no more bytes than it had: nothing from the read position on is written |
| JsonParser.Parser.UnicodeStep | td/utils/JsonBuilder.cpp:194-242 | four hexadecimal digits, or a surrogate pair, become their UTF-8 bytes |
| JsonParser.Parser.StringSkip | td/utils/JsonBuilder.cpp:250-330 | accepts what the decoder accepts and changes no byte |
| JsonParser.Parser.DoJsonDecode | td/utils/JsonBuilder.cpp:332-450 | the recursive descent over the cursor computes the parse, and terminates; the bytes before the cursor, where earlier strings are, stay as they are |
| JsonParser.Parser.DecodeArray | td/utils/JsonBuilder.cpp:358-386 | the loop over elements with its comma and bracket cases; what was decoded before stays as it is |
| JsonParser.Parser.DecodeObject | td/utils/JsonBuilder.cpp:387-420 | the loop over members; what was decoded before stays as it is |
| JsonParser.Parser.DoJsonSkip | td/utils/JsonBuilder.cpp:452-559 | the skipper computes its function, changes no byte and terminates |
| JsonParser.Parser.SkipWhitespaces | td/utils/Parser.h:144-154 | the cursor moves to the first byte that is not white space; which bytes these are is SkipBlank and DecodesExactly |
| JsonParser.Parser.TrySkip | td/utils/Parser.h:128-135 | skips the byte if it is next |
| JsonParser.ParseWhole | td/utils/JsonBuilder.h:735-746 | json_decode: one value and nothing behind it |
| JsonBuilder.Builder.PrintString | td/utils/JsonBuilder.cpp:54-130 | appends the printed text of a well-formed string |
| JsonBuilder.Builder.Store | td/utils/JsonBuilder.h:548-581 | appends the printed text of a value and restores the offset |
| JsonBuilder.Builder.StoreArray | td/utils/JsonBuilder.h:333-372 | the array scope with its separators and offsets |
| JsonBuilder.Builder.StoreObject | td/utils/JsonBuilder.h:374-418 | the object scope |
| JsonBuilder.ChecksHold | td/utils/JsonBuilder.cpp:91-124 | no CHECK of the string printer fails on well-formed UTF-8 |
| JsonBuilder.Encode | td/utils/JsonBuilder.h:748-760 | json_encode, with a new line after pretty output |
| Tl.LengthIs | td/utils/tl_storers.h:90-135 | the computed length of a value of any nesting is the number of bytes stored |
| Tl.RoundTrip | td/utils/tl_helpers.h:63-241 | parsing what was stored gives the value back, whatever follows |
| Tl.StringRoundTrip | td/utils/tl_storers.h:47-83 | all three header forms, up to 2^32 - 1 bytes, with the padding |
| Tl.IntRoundTrip | td/utils/tl_storers.h:30-32 | 32-bit integers in two's complement |
| Tl.LongRoundTrip | td/utils/tl_storers.h:34-36 | 64-bit integers |
| Tl.SerializeRoundTrip | td/utils/tl_helpers.h:243-287 | unserialize(serialize(x)) is x, with nothing left over |
| Tl.StoringIsInjective | td/utils/tl_helpers.h:63-241 | different values of a type are stored differently |
| TlAccepts.UnserializesExactly | td/utils/tl_helpers.h:281-287 | unserialize returns a value if and only if the bytes are one of its forms: the stored bytes up to the header of its strings and the bytes of their padding |
| TlAccepts.RefusesMore | td/utils/tl_parsers.h:179-183 | anything behind an accepted input is refused |
| TlAccepts.RefusesLess | td/utils/tl_parsers.h:59-65 | every proper beginning of an accepted input is refused |
| TlAccepts.StoredAlone | td/utils/tl_helpers.h:281-287 | the stored bytes of a value with more behind them, or cut anywhere, are refused |
| TlAccepts.RefusesVariant | td/utils/tl_helpers.h:229-241 | a variant index out of range is refused, whatever follows |
| TlAccepts.FormReads | td/utils/tl_parsers.h:129-165 | every form of a value is parsed to it, whatever follows |
| TlAccepts.ShortestForm | td/utils/tl_storers.h:47-83 | a string is stored in the shortest of its forms, with zeros as padding |
| TlAccepts.WordIs | td/utils/tl_storers.h:25-36 | integers are stored with their low byte first |
| TlCode.TlStorerCalcLength.Store | td/utils/tl_storers.h:90-135 | the first pass adds up the length |
| TlCode.TlStorerUnsafe.Store | td/utils/tl_storers.h:14-88 | the second pass writes exactly the bytes of the value, inside the buffer, and moves behind them |
| TlCode.TlStorerUnsafe.StoreString | td/utils/tl_storers.h:47-83 | header, text and padding byte by byte |
| TlCode.Serialize | td/utils/tl_helpers.h:243-264 | the two passes agree: the CHECK holds and the buffer is the stored value |
| TlCode.TlParser.SetError | td/utils/tl_parsers.cpp:27-41 | the first error moves the parser to the zeroed fallback block for good |
| TlCode.TlParser.CheckLen | td/utils/tl_parsers.h:59-65 | with too little left there is an error; otherwise the bytes that are about to be read are counted off |
| TlCode.TlParser.FetchInt | td/utils/tl_parsers.h:77-87 | reads four bytes of the rest, or of the fallback block after an error |
| TlCode.TlParser.FetchLong | td/utils/tl_parsers.h:89-99 | the same for eight bytes |
| TlCode.TlParser.FetchBinary | td/utils/tl_parsers.h:114-127 | the same for any type of at most 32 bytes |
| TlCode.TlParser.FetchString | td/utils/tl_parsers.h:129-165 | for arbitrary input, what the format says or an error; every read is inside the rest or the fallback block |
| TlCode.TlParser.FetchStringRaw | td/utils/tl_parsers.h:167-177 | the raw bytes or an error |
| TlCode.TlParser.FetchEnd | td/utils/tl_parsers.h:179-183 | an error exactly if something is left |
| TlCode.TlParser.Parse | td/utils/tl_helpers.h:63-241 | parse of any type, on any input, computes the format's parse, also after an error |
| TlCode.UnserializeBytes | td/utils/tl_helpers.h:281-287 | unserialize as it runs: the parse, then an error if anything is left; what that accepts is UnserializesExactly |
| Uint128.AddIs | td/utils/uint128.h:40-46 | add is addition modulo 2^128 |
| Uint128.SubIs | td/utils/uint128.h:92-98 | sub is subtraction modulo 2^128 |
| Uint128.ShlIs | td/utils/uint128.h:48-59 | shl multiplies by 2^cnt modulo 2^128, for every count |
| Uint128.ShrIs | td/utils/uint128.h:60-71 | shr divides by 2^cnt, for every count |
| Uint128.OrIsSum | td/utils/uint128.h:53 | the bitwise or of the two shifted words is their sum, because they share no bit |
| Uint128.MultIs | td/utils/uint128.h:73-82 | mult from 32-bit halves is multiplication modulo 2^128 |
| Uint128.LeadingZeroes | td/utils/uint128.h:168-173 | the leading-zero count places a value between two powers of two |
| Uint128.ShiftFits | td/utils/uint128.h:110-113 | no shifted divisor overflows |
| Uint128.DivMod128 | td/utils/uint128.h:99-123 | the shift-and-subtract loop gives the exact quotient and remainder for every divisor but zero |
| Uint128.NegateIs | td/utils/uint128.h:180-186 | negate is the negative modulo 2^128 |
| Uint128.MagnitudeIs | td/utils/uint128.h:137-146 | negating a negative number gives its magnitude, also for the smallest |
| Uint128.DivModSigned | td/utils/uint128.h:135-158 | the remainder is that of truncating division, and so is the quotient while its magnitude is below 2^63 |
| Uint128.TruncatesOnce | td/utils/uint128.h:135-158 | truncating division has one quotient and one remainder |
| DecTrees.RunRefines | td/utils/DecTree.h:40-166 | over any run of inserts of absent keys and removes the tree is a treap with exact sizes and answers as a map |
| DecTrees.InsertTreap | td/utils/DecTree.h:40-61 | insert of an absent key keeps key order, heap and sizes, adds its key and changes no other answer |
| DecTrees.InsertPresent | td/utils/DecTree.h:40-61 | an insert of a present key keeps the tree a treap if and only if its priority is not greater than the key's own; then nothing changes, otherwise the key is there twice |
| DecTrees.InsertStops | td/utils/DecTree.h:40-61 | the descent of such an insert stops at the key and gives back the same tree |
| DecTrees.RemoveTreap | td/utils/DecTree.h:63-79 | remove keeps them and takes out its key alone |
| DecTrees.SplitCuts | td/utils/DecTree.h:131-148 | split cuts the key order into the keys up to the given one and the greater ones |
| DecTrees.MergeOrder | td/utils/DecTree.h:150-166 | merge joins the two orders |
| DecTrees.MergeHeap | td/utils/DecTree.h:150-166 | merge keeps the heap |
| DecTrees.GetFinds | td/utils/DecTree.h:81-92 | a lookup finds what a scan of the order finds |
| DecTrees.GetByIdxIs | td/utils/DecTree.h:94-104 | the value at index i is that of the i-th smallest key |
| DecTrees.OneShape | td/utils/DecTree.h:40-166 | entries with distinct priorities have one treap only |
| DecTrees.InsertRemove | td/utils/DecTree.h:40-79 | with distinct priorities, insert then remove of a fresh key restores the identical tree |
| DecTrees.DecTree.Insert | td/utils/DecTree.h:176-178 | the map gains an absent key; for a present one the tree stays as it is, and goes on to stand for the map, if and only if the random number is not greater than the key's own, and otherwise holds the key twice |
| DecTrees.DecTree.Remove | td/utils/DecTree.h:179-181 | the map loses the key |
| DecTrees.DecTree.GetRandom | td/utils/DecTree.h:188-194 | the random index is in range: a value of the map comes back exactly if there is one |
| FloodControl.FloodControlStrict.AddEvent | td/utils/FloodControlStrict.h:14-21 | an event no earlier than the reported wakeup is within every limit that an update has seen, over the whole history since the limit was added: any count + 1 consecutive events span at least the duration |
| FloodControl.FloodControlStrict.DoUpdate | td/utils/FloodControlStrict.h:42-74 | after an update the wakeup is exact and the skipped updates it allows are safe |
| FloodControl.FloodControlStrict.AdvanceWindow | td/utils/FloodControlStrict.h:47-54 | the window of a limit drops just the events that are over its count or out of its duration |
| FloodControl.FloodControlStrict.Compact | td/utils/FloodControlStrict.h:67-72 | erasing old events changes no answer |
| FloodControl.FloodControlStrict.AddLimit | td/utils/FloodControlStrict.h:24-27 | at any time and for any count: the new limit counts the events not erased yet, and holds from the next update on |
| FloodControl.FloodControlStrict.ClearEvents | td/utils/FloodControlStrict.h:33-40 | the history is empty and the limits stay |
| FloodControl.WakeupExactly | td/utils/FloodControlStrict.h:42-74 | once an update has seen all limits, an event at time t keeps them if and only if t is not before the reported wakeup |
| FloodControl.NewLimitExactly | td/utils/FloodControlStrict.h:24-27 | the event after add_limit, with no update between, is within the new limit if and only if there is room or its time is late enough, whatever the reported wakeup |
| FloodControl.NewLimitUnseen | td/utils/FloodControlStrict.h:14-27 | an event that the reported wakeup allows and the new limit forbids |
| FloodControl.EventAdded | td/utils/FloodControlStrict.h:14-21 | one more event after the wakeup keeps a limit, whether the update is skipped or not |
| HintWords.FixWordsInPlace | td/utils/Hints.cpp:14-28 | the loop that moves kept words to the front computes the words that are no prefix of the next sorted one |
| HintWords.FixLosesNothing | td/utils/Hints.cpp:14-28 | a prefix matches some word if and only if it matches some kept word |
| HintWords.FixApart | td/utils/Hints.cpp:14-28 | no kept word is a prefix of another, so none is there twice |
| HintWords.PrefixesTogether | td/utils/Hints.cpp:136-140 | the words with a prefix lie together in the order, from the first word not below it |
| HintIndex.AddWord | td/utils/Hints.cpp:63-67 | the index gains one entry |
| HintIndex.DeleteWord | td/utils/Hints.cpp:69-80 | the index loses one entry, and a word without keys goes |
| HintIndex.SwapOut | td/utils/Hints.cpp:77-78 | overwriting with the last key and dropping the last removes just that key |
| Hints.DeleteNameWords | td/utils/Hints.cpp:89-98 | all words of the old name leave the index, with every CHECK true, and its other spellings are collected |
| Hints.AddNameWords | td/utils/Hints.cpp:111-120 | the words of the new name enter it |
| Hints.Hints.Add | td/utils/Hints.cpp:82-126 | after adding, renaming or removing, both indexes hold exactly the words of the current names; no CHECK fails |
| Hints.AddSearchResults | td/utils/Hints.cpp:133-141 | the walk over the ordered map finds the keys of all words with the prefix, and only them |
| Hints.Hints.SearchWord | td/utils/Hints.cpp:143-153 | the keys, ascending and without repetitions, whose names a direct scan matches |
| Hints.MatchesIs | td/utils/Hints.cpp:143-153 | what both indexes find together is what a scan of the key's own name finds |
| TranslitText.AddWordTransliterations | td/utils/translit.cpp:44-96 | both loops over the bytes append the letter-by-letter spelling and those of the greedy rules, with what begun groups at the end may become |
| TranslitText.GetWordTransliterations | td/utils/translit.cpp:98-107 | each spelling of the word in either alphabet once, and nothing else |
| Translit.SpelledExtends | td/utils/translit.cpp:44-96 | every spelling of a longer word starts with a spelling of its beginning, unless that is of signs alone and the alphabet the English one |
| TranslitText.SpellingExtends | td/utils/translit.cpp:44-96 | the same of get_word_transliterations: it fails for words of hard and soft signs alone only |
| TranslitText.SignsSpelling | td/utils/translit.cpp:28-36 | a word of such signs has itself as its one spelling |
| TranslitText.SpellingFromSigns | td/utils/translit.cpp:12-42 | a spelling that starts with signs belongs to a word that starts with them |
| TranslitText.SomeSpelling | td/utils/translit.cpp:12-42 | every word that does not start with given signs, or is more than signs, has a spelling that does not start with them |
| HintQueries.KeptSufficeExactly | td/utils/Hints.cpp:143-193 | however query words are transliterated: the words that fix_words keeps do for all words of a query, whatever the names, if and only if for every word some kept word starts with it and each spelling of the kept word with one of its spellings |
| HintQueries.UncoveredFails | td/utils/Hints.cpp:143-193 | otherwise, for every name, there is a way to split and transliterate names in which it matches all kept words and not that word |
| HintQueries.KeptSuffice | td/utils/Hints.cpp:143-193 | under that condition a name matches the kept words if and only if it matches all words |
| HintQueries.CoveredUnlessLost | td/utils/Hints.cpp:143-193 | with the code's transliteration the condition fails only for a word of signs alone that is a prefix of other words, none of which is of signs alone |
| HintQueries.LostExactly | td/utils/Hints.cpp:143-193 | some name matches all kept words and not all words of the query if and only if the query has such a word |
| HintQueries.SignsMatch | td/utils/Hints.cpp:143-153 | a query word of signs alone matches the names with a word that starts with it, and no other |
| HintQueries.HardSignIsLost | td/utils/Hints.cpp:155-205 | the query of 0x44a and 0x44a 0x430 looks up the second word alone, which the name "a" matches, while it does not match the first |
| Hints.Hints.WantedScansAll | td/utils/Hints.cpp:155-193 | where every query word is covered by a kept one, the wanted keys are those whose names match all words of the query |
| Hints.Hints.WantedUnlessLost | td/utils/Hints.cpp:155-193 | with the code's transliteration the same holds for every query that loses no word |
| HintIndex.Intersect | td/utils/Hints.cpp:178-193 | the two-pointer loop in the vector's own space gives the intersection |
| HintIndex.TopIs | td/utils/Hints.cpp:196-202 | sorting by rating and key and cutting gives the first `limit` keys in that order |
| Hints.Hints.Search | td/utils/Hints.cpp:155-205 | exactly the keys that match every query word that fix_words keeps, and, unless the query loses a word, exactly those that match all its words: in the order of rating and key, cut to the limit, with the true total |

## Left out

- Memory orders, fences and padding: every component is sequentially consistent.
- Spurious wakeups and fairness: that a call ends is stated only for calls that nobody disturbs.
- `MpmcQueue`, `MpmcQueueOld` and `MpmcEagerWaiter`; hazard pointers only as the hash map uses them.
- 64-bit wrap-around of epochs and of the ring positions of the work-stealing queue; 32-bit indices of the block queue do wrap.
- EpochReclamation: the pause between the rounds of retire_sync, and the destructor of Locker.
- SleepyWaiter: the dead branch with yield_cnt, and close.
- ConcurrentHashMap: for_each, which the code does not protect against migrations, and the destructor.
- ConcurrentHashMapRuns.FirstInsertWins: for runs in which no migration has overflowed; an overflow is a failed LOG_CHECK that ends the program.
- ChainBuffer: reference counts and allocation; a buffer is a sequence of bytes with a published end.
- ChainBuffer: append from a ChainBufferReader.
- EpochReclamationAlone.LockCatchesUp: for more threads than one; with one thread each rise of the epoch is its own, so the case does not come up.
- FindBoundary: cut_head, move_as_buffer_slice and the other users of ChainBufferReader.
- Punycode.IdnToAscii: follows the branch that is not for Windows; ASCII labels of a mixed host are copied without lower-casing, as the code does.
- Punycode.DecodeEncode: the decoder is that of the RFC; the repository has none.
- AesIge.AesIgeState.Encrypt: `from` is the memory from the start of the input on, at least as long as the output, because the code reads that far.
- AesIge.AesIgeState.Decrypt: the same; input and output are one array or two, and a partial overlap is not captured.
- AES itself, the cipher library, byte order and alignment; a block cipher is any permutation, or for CTR any function.
- Crc32c.Extend: the buffer is the start of a memory of words, long enough for the loop; what is behind the buffer is arbitrary.
- JsonPrinter.EncodeDecode: for strings of well-formed UTF-8 and number tokens of the bytes that the parser takes for numbers.
- JSON error texts, JsonFloat, JsonRaw and the field accessors.
- TL: a double is stored like a 64-bit integer and is not a type of its own here; bool, enum, unique_ptr and unordered_set; the alignment copy of the parser's constructor is a sequence.
- TlCode.TlParser.FetchBinary: for types of at most 32 bytes, the size of the fallback block.
- Uint128.DivModSigned: says nothing about a quotient of magnitude 2^63 or more, where the code converts and negates out of range.
- Uint128: the class has no method that changes an object, so a value is a datatype; rounded_hi and mult_signed.
- DecTrees: the nodes are values, because every link is owned and passed through the calls; updating them in place is not captured.
- FloodControl.FloodControlStrict.AddEvent: for limits that all allow an event; with a limit of count zero AdvanceWindow leaves no event, and update reads the one behind the last.
- FloodControl.FloodControlStrict.Update: the same.
- FloodControl: times are unbounded, so the sum of a time and a duration does not overflow.
- FindBoundary.FindBoundary: the writer moves between calls of prepare_read; its steps inside one are those of ChainBuffer.
- Hints: splitting a text into words is a fixed function, and transliteration one that HintQueries.Transliterates says to be that of TranslitText; a name's other spellings are those of the words that fix_words keeps.
- HintQueries.LostExactly: for query words and name words of well-formed UTF-8, as the splitting makes them; the name words are any such words.
- HintWords.FixWordsInPlace: std::sort and partial_sort are an insertion sort here, which gives the same order.
- Sockets, files, clocks, random numbers, logging and the other containers, parsers and encodings of the library.
