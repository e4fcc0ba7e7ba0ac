# Verification of bx

A Dafny model of the stateful core of the bx tools, with proofs of what that core is for. Code that
updates objects, arrays and lists in place is modelled by classes and methods with the same loops, each
proved against a pure specification; what the specification promises is proved in lemmas over every
input, every run or every interleaving. `dafny verify dfyconfig.toml` checks everything.

| files | what they model |
|---|---|
| `Descriptors`, `FdTransactionSpec`, `FdTransactionSteps`, `FdTransactions`, `FdTransactionRuns`, `FdTransactionSession` | nested descriptor transactions over a descriptor table the user keeps changing: the ideal machine, the step lemmas, the code, and whole runs of it |
| `ChildStdio`, `Children` | stdio redirection of a child; the table of running children |
| `InodeLedger` | the open-addressing table of inode identities |
| `OutputSink`, `OrderedPublication` | the two ordered output protocols, as atomic steps under every interleaving and as the locked regions that take them |
| `BlockHash`, `FipsSha256`, `FipsSha512`, `Sha256`, `Sha512` | streaming hashes against FIPS 180-4 |
| `Primes`, `FipsConstants` | the constants of the hashes against their definition from roots of primes |
| `RemoveTree` | recursive removal with an explicit stack |
| `ShellWords`, `OutputQuote`, `CommandParser` | the quoting printers, POSIX quote removal and the command parser |
| `Batches` | cutting argument lists into command lines |
| `DigestLine`, `Base64` | checksum lines and base64, both directions |
| `PathOps` | lexical path normal forms and relative paths |
| `FmtBreaks`, `FmtReader`, `FmtPrinter`, `FmtTable`, `FmtText`, `FmtSteps`, `FmtEngine` | the paragraph formatter: break table, input, output, word table, what the output of a text has to be, the steps towards it, and the code |
| `Bits`, `CTypes`, `CStrings`, `Memory`, `Sequences`, `Sets`, `Streams`, `Wrappers` | machine words, limits, C strings, memcpy, concatenations, set sizes, an output stream that takes so many bytes and no more, optional values |

Where the code does less than one might expect, the exact condition is proved:

- using each number once keeps an output sink in order exactly when it starts at 0 (`OnceIsEnoughIff`);
- after `release_slot` a drain can still return true exactly when the released numbers are the last ones
  reserved, and a reservation can succeed exactly when stranded packets leave a slot free
  (`DrainSucceedsIff`, `ReserveSucceedsIff`);
- the SHELL style is read back exactly unless it leaves an empty text or a leading tilde unquoted
  (`ShellStyleReadsBackWhen`);
- the command parser reads the reusable style back exactly for texts that print (`ReusableListParsesBackIff`);
- the removal of a tree refuses a directory exactly when it is the same file as one above it (`CheckFindsLoops`).

What the environment decides is left open: which free number a duplication picks and whether a system
call fails, in what order threads reach a lock, whether a vector path is taken or gives up, how much an
output stream takes, what getcwd returns. Calls and callbacks that fail are counted in ghost fields, so that
the contracts say when an operation has to succeed and not only what its success means.

## Model

| member | source | states |
|---|---|---|
| `FdTransactionSpec.RollbackRestoresFirstSave` | src/lib/fd_transaction.c:500-540 | In every run of the ideal machine, where begin, add_reference, save, commit, rollback, discard and user actions come in any order and may fail: the rollback that ends a transaction leaves a number, from its first save there on, as it was at that save if the rollback succeeds, and otherwise restored, untouched, or restored without its close-on-exec flag; every outer transaction keeps its saves |
| `FdTransactionRuns.RollbackRestoresTarget` | src/lib/fd_transaction.c:452-540 | The same of the descriptor table itself, in every run of sound states each of whose steps is a call as its method promises it or a user action that leaves the backups alone: after a successful rollback the number denotes what it did at the first save, open or closed, flag included; after a failing one it is at worst untouched or without its flag |
| `FdTransactionRuns.RollbackUndoesBlockInTable` | src/lib/fd_transaction.c:303-540 | In such a run, if only saved numbers change in between, a successful rollback gives back the table the user saw before begin; for an outermost transaction the whole table is the same, with no backup left in it |
| `FdTransactionRuns.ConcreteRunIsIdeal` | src/lib/fd_transaction.c:303-558 | What the user sees of such a run is a run of the ideal machine |
| `FdTransactionRuns.ExtendRun` | src/lib/fd_transaction.c:303-558 | A call or a user action keeps the invariant, so it extends a run by one step |
| `FdTransactionSession.Session` | src/lib/fd_transaction.c:253-558 | Any number of calls of the modelled methods, on the innermost transaction or a wrong one and with any arguments, among arbitrary user actions, make such a run |
| `FdTransactionSpec.RollbackUndoesBlock` | src/lib/fd_transaction.c:303-540 | If between begin and a successful rollback of the same transaction only numbers it has saved change, the rollback leaves the visible table exactly as it was before begin |
| `FdTransactionSpec.BlockIsCovered` | src/lib/fd_transaction.c:303-558 | Under that condition every save of the transaction holds the value from before begin, and every number it has not saved still has it |
| `FdTransactionSpec.SavesPersist` | src/lib/fd_transaction.c:452-558 | A save recorded at some depth stays, with the value it recorded, until that transaction ends |
| `FdTransactionSteps.InvIsTheStackCheck` | src/lib/fd_transaction.c:90-184 | The invariant is equivalent to the tests bx_fd_transaction_stack_invariants makes of the frames, references, entries and backups; its tests of pointers, capacity and the parent chain are not in it |
| `FdTransactionSteps.RelocateKeepsInv` | src/lib/fd_transaction.c:364-391 | Moving a backup to a fresh private number keeps the invariant |
| `FdTransactionSteps.RelocateStep` | src/lib/fd_transaction.c:364-391 | Moving a backup changes nothing the user can see and no saved value |
| `FdTransactionSteps.OpenStep` | src/lib/fd_transaction.c:303-393 | Opening a frame whose references name no backup keeps the invariant and is the abstract begin |
| `FdTransactionSteps.NameStep` | src/lib/fd_transaction.c:395-450 | Adding a reference that no backup uses keeps the invariant and is the abstract add_reference |
| `FdTransactionSteps.RecordStep` | src/lib/fd_transaction.c:452-498 | Recording a fresh backup of an unsaved reference keeps the invariant and is the abstract save |
| `FdTransactionSteps.FreshBackup` | src/lib/fd_transaction.c:186-226 | A close-on-exec duplicate of the target at a number that was free and that no frame names is a sound backup for the entry |
| `FdTransactionSteps.RollBackEntry` | src/lib/fd_transaction.c:509-533 | One turn of the rollback loop, whichever of its system calls fail, extends the part rolled back by one entry: its target is as the calls left it, its backup is gone, every other number is untouched, and an entry whose own calls succeeded is back at its saved value |
| `FdTransactionSteps.RollbackStep` | src/lib/fd_transaction.c:500-540 | After the whole loop the frame is gone, the invariant holds, and the result is the abstract rollback: complete when it returns 0, partly restored otherwise |
| `FdTransactionSteps.AllButFailed` | src/lib/fd_transaction.c:509-533 | After a rollback in which some entries failed every other entry's target is back at the value saved first |
| `FdTransactionSteps.CommitStep` | src/lib/fd_transaction.c:542-558 | Closing the innermost backups without restoring is the abstract commit: what the user sees stays |
| `FdTransactionSteps.DiscardStep` | src/lib/fd_transaction.c:270-289 | A table without the backups and otherwise unchanged is the result of the abstract discard, and sound with no transaction active |
| `FdTransactionSteps.UserKeepsInv` | src/lib/fd_transaction.c:90-129 | Whatever the user does to numbers that are no backups, the invariant stands and no recorded save changes |
| `FdTransactionSteps.NoBackupLeaks` | src/lib/fd_transaction.c:253-261 | When no transaction is active the table is exactly what the user sees: no backup is left in it |
| `FdTransactionSteps.OneBackupEach` | src/lib/fd_transaction.c:90-129 | Backups of different entries are different descriptors |
| `FdTransactions.FindRef` | src/lib/fd_transaction.c:32-55 | The binary search returns the index of the reference with that number, or -1 exactly when there is none |
| `FdTransactions.CopyReferences` | src/lib/fd_transaction.c:318-347 | The declared numbers are copied, sorted and merged into exactly one unsaved reference for each; a negative number is refused, and nothing else but a failed allocation |
| `FdTransactions.DupPrivate` | src/lib/fd_transaction.c:186-226 | The retry loop ends because the minimum rises, and the number it returns is open, close-on-exec, was free, and is named by no active frame or by the candidate; a failure leaves the table as it was, and without a failing call it needs a closed source or INT_MAX among the names |
| `FdTransactions.FdTransactionStack.CheckInvariants` | src/lib/fd_transaction.c:131-184 | Over a well-linked chain of transactions the runtime check answers true exactly when the invariant holds |
| `FdTransactions.FdTransactionStack.Begin` | src/lib/fd_transaction.c:303-393 | Success pushes one frame and is the abstract begin, failure changes nothing visible; an unsound stack, an active transaction or a negative number is refused, and without a failing call or allocation nothing else is, unless INT_MAX is named; the invariant holds on every exit |
| `FdTransactions.FdTransactionStack.HideBackups` | src/lib/fd_transaction.c:364-391 | On success no backup has a number the new transaction names; moves made before a failure cannot be seen; it fails only with a call that fails or INT_MAX named |
| `FdTransactions.FdTransactionStack.AddReference` | src/lib/fd_transaction.c:395-450 | The number is named afterwards, a backup in its way has moved; a number already named always succeeds, and so does every other one without a failing call unless INT_MAX is named; every failing exit keeps the invariant and the visible state |
| `FdTransactions.FdTransactionStack.Save` | src/lib/fd_transaction.c:452-498 | The first save of a reference records its present value; a second one always succeeds and changes nothing; without a failing call a named number fails to be saved only if INT_MAX is named; every failing exit changes nothing visible |
| `FdTransactions.FdTransactionStack.Rollback` | src/lib/fd_transaction.c:500-540 | The abstract rollback, complete when it returns 0 and partial otherwise; it returns 0 exactly when no entry failed, each failed entry costs a call that failed of its own, so without one it returns 0, and every entry that did not fail is back at its first-save value; the frame ends on both exits, a transaction that is not innermost is refused unchanged, and the invariant holds on every exit |
| `FdTransactions.FdTransactionStack.Commit` | src/lib/fd_transaction.c:542-558 | The visible table is unchanged, the frame is gone and its backups are closed |
| `FdTransactions.FdTransactionStack.Discard` | src/lib/fd_transaction.c:270-289 | All backups are closed and all transactions forgotten |
| `ChildStdio.Redirected` | src/lib/child_runner.c:481-527 | Snapshot, assign and close compose to a simultaneous assignment, through swaps, cycles and sharing |
| `ChildStdio.RedirectStdio` | src/lib/child_runner.c:481-527 | Success leaves each of 0 to 2 on the description its source had on entry without close-on-exec, through any swap, cycle or sharing, or unchanged if disabled, but for a reopened stdin; with the sources open and no failing or interrupted call there is no error; with the sources open no number is closed twice, among the numbers open on entry only sources above 2 are closed, and on success each of them exactly once |
| `ChildStdio.Spare` | src/lib/child_runner.c:496-504 | A number free when a snapshot is taken was free on entry, so snapshots above 2 collide with nothing that was open |
| `ChildStdio.AllClosedOnce` | src/lib/child_runner.c:481-527 | Over snapshot, reopening and closing together no number is closed twice, and of the numbers open on entry only sources above 2 are closed |
| `ChildStdio.CloseSources` | src/lib/child_runner.c:521-525 | The calls of close are for the distinct sources above 2, each once, whatever the sharing, and nothing else changes |
| `Children.SomeSlotIsFree` | src/lib/child_runner.c:30-43 | With fewer children than slots a free slot exists, so the fallback of the search is never taken |
| `Children.SwapRemovesOne` | src/lib/child_runner.c:809-812 | The swap-removal takes away exactly one child |
| `Children.SwapKeepsApart` | src/lib/child_runner.c:809-812 | After the swap-removal the remaining children still have slots of their own, and the slot of the one removed is free |
| `Children.ChildTable.PickSlot` | src/lib/child_runner.c:30-43 | The slot returned is the first one no running child has, and a valid one whenever there is room |
| `Children.ChildTable.Reaped` | src/lib/child_runner.c:792-825 | A known process is removed, no other child is lost or duplicated, and its slot is free again; an unknown one changes nothing |
| `InodeLedger.RunKeepsLastAccepted` | src/lib/inode_ledger.c:27-81 | After any run of records a key has its last accepted stamp, and none if no record for it was accepted |
| `InodeLedger.Decision` | src/lib/inode_ledger.c:40-57 | A record is invalid exactly for kind 0 or an origin after its sequence; a known key is never refused for space; with origin at the sequence, as tar calls it, and a limit the table can hold, a key is refused only if it is new and the limit is reached |
| `InodeLedger.RunStaysWithinLimit` | src/lib/inode_ledger.c:40-81 | However the capacity grows, a run decided so never holds more keys than the limit, and every stamp it holds has its origin at or before its sequence |
| `InodeLedger.SearchIsComplete` | src/lib/inode_ledger.c:20-25 | The slot where a probe ends holds the key exactly when the map does, and then its stamp |
| `InodeLedger.FreeSlotExists` | src/lib/inode_ledger.c:54-71 | A table with fewer keys than slots has a free slot, which bounds every probe |
| `InodeLedger.NextPosition` | src/lib/inode_ledger.c:20-25 | The masked increment steps to the next position with wrap-around |
| `InodeLedger.WriteKeepsTable` | src/lib/inode_ledger.c:72-80 | Writing at the end of a probe changes the map at that key alone and keeps every other key reachable |
| `InodeLedger.MovedAll` | src/lib/inode_ledger.c:59-70 | Rehashing into the larger table loses and invents nothing |
| `InodeLedger.InodeLedger.FindSlot` | src/lib/inode_ledger.c:20-25 | The probe loop ends and its result is the end of the key's probe sequence |
| `InodeLedger.InodeLedger.Lookup` | src/lib/inode_ledger.c:27-38 | True exactly for the keys of the map, with the stamp recorded last |
| `InodeLedger.InodeLedger.Grow` | src/lib/inode_ledger.c:54-71 | The capacity doubles or starts at its first value, the map stays, and at least half of the slots stay free |
| `InodeLedger.InodeLedger.Record` | src/lib/inode_ledger.c:40-81 | The outcome depends on the map, the capacity and the arguments alone: the limit refuses only new keys, an origin after its sequence is refused, and an accepted record updates the map at its key |
| `OutputSink.RunConserves` | src/lib/output_sink.c:22-230 | In every interleaving every accepted record is pending, being emitted or emitted, exactly once, and the byte count is that of the pending records |
| `OutputSink.FinishedEmitsAll` | src/lib/output_sink.c:76-106 | When the consumer has finished after close, the emitted records are exactly the accepted ones |
| `OutputSink.RunKeepsOrder` | src/lib/output_sink.c:22-247 | In ordered mode, when every call names a number at or above first_seq that no earlier call used: in every interleaving the emitted numbers ascend strictly, also when close drains across gaps, and every number from first_seq to below next_seq was skipped, emitted or is with the consumer |
| `OutputSink.LateNumberBreaksOrder` | src/lib/output_sink.c:139-181 | For every ordered sink with first_seq > 0 there is a run that names no number twice and emits out of order: a number below the first waits for close and comes last |
| `OutputSink.OnceIsEnoughIff` | src/lib/output_sink.c:22-247 | Using each number at most once keeps the emitted numbers ascending in every run exactly when first_seq is 0 |
| `OutputSink.OnceIsDisciplined` | src/lib/output_sink.c:139-230 | With first_seq 0, a run whose calls name no number twice satisfies the condition of the order theorem at every call |
| `OutputSink.ConsumeRestoresOrder` | src/lib/output_sink.c:37-46 | After next_seq has passed the leading run of skipped numbers everything in the sink is in order again, and the numbers passed are settled |
| `OutputSink.StepConserves` | src/lib/output_sink.c:22-247 | Every atomic step keeps the conservation invariant |
| `OutputSink.StepKeepsOrder` | src/lib/output_sink.c:22-247 | Every disciplined atomic step keeps the order invariant |
| `OutputSink.SubmitWithinBytes` | src/lib/output_sink.c:13-20 | After a submission that was let in, the pending bytes are within the limit, or are those of a single record |
| `OutputSink.CanAdd` | src/lib/output_sink.c:13-20 | Only an amount on top of another can be too much, and exactly when the sum passes the limit |
| `OutputSink.HasRoom` | src/lib/output_sink.c:139-165 | A producer waits exactly when the queue is full, or when the record would pass the byte limit with other bytes pending |
| `OutputSink.Sink.InsertNode` | src/lib/output_sink.c:22-35 | The list walk puts the record behind every one with no greater number; without ordering it goes to the head |
| `OutputSink.Sink.ConsumeSkippedLocked` | src/lib/output_sink.c:37-46 | Exactly the leading run of skipped numbers is consumed |
| `OutputSink.Sink.TakeReadyNode` | src/lib/output_sink.c:48-74 | Takes the head when it is the next number, or any head when unordered or closed, and is otherwise a no-op: the atomic take step |
| `OutputSink.Sink.Submit` | src/lib/output_sink.c:139-181 | One locked pass of submit is the atomic submit step, a refusal after close, or a wait that changes nothing |
| `OutputSink.Sink.SkipSeq` | src/lib/output_sink.c:183-230 | One locked pass of skip_seq is the atomic skip step; duplicates and passed numbers change nothing; it fails only when the list of skipped numbers is full and cannot grow |
| `OrderedPublication.PublishedInOrder` | src/lib/ordered_publication.c:16-56 | In every interleaving, releases included, the published sequence is 0, 1, 2, ... without gaps, no released number is ever published, and the packets queued, active or not yet published are inflight many, at most max_inflight |
| `OrderedPublication.RunKeepsInv` | src/lib/ordered_publication.c:5-177 | In every reachable state the window from next_publish to next_submit consists of the numbers pending, with a worker, or released, each in one place, the pending ones ascending, and inflight counts all but the released |
| `OrderedPublication.StepKeepsInv` | src/lib/ordered_publication.c:5-177 | Every atomic step keeps that invariant |
| `OrderedPublication.BlockedMeansWorkerOwes` | src/lib/ordered_publication.c:58-67 | The coordinator sleeps only while a worker holds the next packet, or behind a released number when nothing outstanding can be published any more |
| `OrderedPublication.NoDeadlock` | src/lib/ordered_publication.c:112-177 | In a reachable state with an operation under way some step is possible exactly when the coordinator is not asleep with every worker done; and it can be so only behind a released number |
| `OrderedPublication.OperationsEnd` | src/lib/ordered_publication.c:112-177 | Every step of a running operation, of a worker or of a release lowers a well-founded rank, so reserve and drain end or get stuck |
| `OrderedPublication.DrainIsComplete` | src/lib/ordered_publication.c:159-177 | When drain finds nothing in flight, nothing is pending or with a worker, all numbers before the window are published, and the released ones are the rest |
| `OrderedPublication.ReleaseStrandsDrain` | src/lib/ordered_publication.c:135-145 | For every window of two or more a reachable state in which drain can never go on: number 0 was released after 1 was reserved |
| `OrderedPublication.DrainSucceedsIff` | src/lib/ordered_publication.c:135-177 | In every reachable state between operations: drain can return true, once the workers hand everything back and the callbacks succeed, if and only if the released numbers are the last ones reserved |
| `OrderedPublication.DrainLeaves` | src/lib/ordered_publication.c:159-177 | What a drain that returned true leaves: everything before the first released number published, nothing outstanding, the released numbers as before |
| `OrderedPublication.ReserveSucceedsIff` | src/lib/ordered_publication.c:112-133 | In every such state reserve can succeed if and only if fewer packets are stranded behind a released number than the window has slots |
| `OrderedPublication.NothingLostIff` | src/lib/ordered_publication.c:135-145 | No outstanding packet is stranded exactly when the released numbers are a final segment of the window |
| `OrderedPublication.ReleaseStrandsLater` | src/lib/ordered_publication.c:135-145 | A release strands the packets reserved after its number and no others |
| `OrderedPublication.LostStaysLost` | src/lib/ordered_publication.c:16-177 | No other step, a new reservation apart, changes which packets are stranded |
| `OrderedPublication.Settle` | src/lib/ordered_publication.c:16-67 | From any state of a running operation the workers and the coordinator can reach the check of its goal with only stranded packets left |
| `OrderedPublication.PublicationState.InsertPending` | src/lib/ordered_publication.c:5-14 | The list walk links the new number in before the first one not smaller |
| `OrderedPublication.PublicationState.FlushReady` | src/lib/ordered_publication.c:16-56 | Keeps the invariant and what is stranded, whatever workers do in between; on success the head is not the next number; it fails exactly when a callback refused a number, which is then the last one published, and the operation is over |
| `OrderedPublication.PublicationState.ReserveSlot` | src/lib/ordered_publication.c:112-133 | Where it can succeed it returns, with the next number handed out; false only after the callback refused a number, which is then the last one published; published only grows |
| `OrderedPublication.PublicationState.Drain` | src/lib/ordered_publication.c:159-177 | Where it can succeed it returns; false only after the callback refused a number, which is then the last one published, so without a refusal it returns true; true only with everything before the first released number published and nothing outstanding |
| `OrderedPublication.PublicationState.ReleaseSlot` | src/lib/ordered_publication.c:135-145 | One locked region is the release step of whichever number the caller held, and strands exactly the later packets |
| `BlockHash.AnySplitIsOneUpdate` | src/crypto/sha256.c:124-167 | Feeding a message in any pieces ends in the state that one update with the whole message gives |
| `BlockHash.FinishIsPaddedHash` | src/crypto/sha256.c:169-183 | Buffering, padding and length together fold the block function over the message padded as in section 5.1 of FIPS 180-4 |
| `BlockHash.PaddedIsWhole` | src/crypto/sha512.c:181-196 | The padded message is a whole number of blocks |
| `BlockHash.BigEndianWraps` | src/crypto/sha512.c:190-195 | A big-endian field of k bytes depends only on the value modulo 256^k |
| `Sha512.StreamIsHash` | src/crypto/sha512.c:147-196 | For every list of pieces, update and finalize give the hash of section 6.4 of FIPS 180-4 of their concatenation, its length taken modulo 2^128 |
| `Sha512.BitsAreEightTimesBytes` | src/crypto/sha512.c:187-195 | The two length words are 8 times the byte count modulo 2^128 |
| `Sha512.LengthBytesAreRight` | src/crypto/sha512.c:187-195 | The sixteen length bytes are the big-endian bit length of the message |
| `Sha512.Carry` | src/crypto/sha512.c:139-145 | The carry out of the low word is exactly the overflow of the 64-bit addition |
| `Sha512.CodeBigSigma0` | src/crypto/sha512.c:35-37 | The rotations by shifts and or are the sigma function of section 4.1.3 of FIPS 180-4 |
| `Sha512.CodeSmallSigma1` | src/crypto/sha512.c:47-49 | The same for the message schedule, where one term is a plain shift |
| `Sha512.StoreNumberIsBigEndian` | src/crypto/sha512.c:16-25 | The eight stored bytes are the big-endian form of the word |
| `Sha512.Sha512Context.Transform` | src/crypto/sha512.c:51-109 | The schedule array and the eighty rounds in place compute the block function of the standard |
| `Sha512.Sha512Context.AddLen` | src/crypto/sha512.c:139-145 | The 128-bit count grows by the length modulo 2^128 |
| `Sha512.Sha512Context.Update` | src/crypto/sha512.c:147-179 | Topping up, whole blocks and the rest together absorb exactly the data |
| `Sha512.Sha512Context.Final` | src/crypto/sha512.c:181-212 | The digest is the leading words of the finished state, big-endian: six for SHA-384, eight for SHA-512 |
| `Sha256.StreamIsHash` | src/crypto/sha256.c:124-183 | For every list of pieces, update and finalize give the hash of section 6.2 of FIPS 180-4 of their concatenation, its length taken modulo 2^64; the constants in it are the standard's by the lemmas below |
| `Sha256.LengthBytesAreRight` | src/crypto/sha256.c:173-181 | The eight length bytes are the big-endian bit length modulo 2^64 |
| `Sha256.Sha256Context.Transform` | src/crypto/sha256.c:55-96 | The schedule array and the 64 rounds in place compute the block function of the standard |
| `Sha256.Sha256Context.Update` | src/crypto/sha256.c:124-167 | Absorbs exactly the data, whether or not the accelerated path takes the whole blocks |
| `Sha256.Sha256Context.Final` | src/crypto/sha256.c:169-199 | The digest is the leading words of the finished state: seven for SHA-224, eight for SHA-256 |
| `Primes.FirstPrimesAreTheFirst` | src/crypto/sha256.c:8-14 | The list the constants are defined from ascends and holds all primes up to its 80th entry and nothing else |
| `FipsConstants.RoundConstants32` | src/crypto/sha256.c:8-14 | Each of the 64 words is the first 32 bits of the fractional part of the cube root of its prime, section 4.2.2 of FIPS 180-4 |
| `FipsConstants.RoundConstants64` | src/crypto/sha512.c:52-67 | Each of the 80 words is the first 64 bits of the fractional part of the cube root of its prime, section 4.2.3 of FIPS 180-4 |
| `FipsConstants.InitialValue256` | src/crypto/sha256.c:111-122 | The first 32 bits of the fractional parts of the square roots of the first eight primes, section 5.3.3 |
| `FipsConstants.InitialValue224` | src/crypto/sha256.c:98-109 | The second 32 bits of those of the 9th to 16th primes, section 5.3.2 |
| `FipsConstants.InitialValue512` | src/crypto/sha512.c:125-137 | The first 64 bits of the fractional parts of the square roots of the first eight primes, section 5.3.5 |
| `FipsConstants.InitialValue384` | src/crypto/sha512.c:111-123 | The first 64 bits of those of the 9th to 16th primes, section 5.3.4 |
| `RemoveTree.RemoveRecursiveAt` | src/lib/remove_ops.c:345-442 | It ends; a name whose file is not the expected one is refused with nothing changed, a directory that is its own ancestor is refused, and without a failing call nothing else is; on success exactly the named subtree is gone, and on any outcome nothing outside it is touched |
| `RemoveTree.ScannedAreAncestors` | src/lib/remove_ops.c:356-436 | The scanned entries of the stack are exactly the proper ancestors of the top entry, and the top itself if it is scanned |
| `RemoveTree.ScannedTopIsChildless` | src/lib/remove_ops.c:371-378 | A directory is removed only when nothing is left inside |
| `RemoveTree.PopKeepsInv` | src/lib/remove_ops.c:371-378 | Removing the top and popping it keeps the stack invariant |
| `RemoveTree.PopKeepsCovered` | src/lib/remove_ops.c:371-378 | What is left of the subtree is still covered by an entry of the stack |
| `RemoveTree.MarkKeepsInv` | src/lib/remove_ops.c:397-399 | Marking the top as scanned keeps the stack invariant |
| `RemoveTree.PushKeepsInv` | src/lib/remove_ops.c:400-427 | Pushing a child of the scanned directory keeps the stack invariant |
| `RemoveTree.PushedAllCovers` | src/lib/remove_ops.c:400-427 | Once every child has been pushed the whole subtree is covered again |
| `RemoveTree.CheckFindsLoops` | src/lib/remove_ops.c:380-386 | The cycle check fires on the top entry exactly when it is the same file as a directory above it in the tree |
| `RemoveTree.ScanTop` | src/lib/remove_ops.c:379-433 | Scanning an unscanned top fails exactly when it is its own ancestor or a call fails, and otherwise leaves a larger stack that covers the same subtree |
| `RemoveTree.RemoveTop` | src/lib/remove_ops.c:371-378 | Removes the top entry alone |
| `OutputQuote.ShellReusable` | src/lib/output_quote.c:540-681 | What the specification prints, or a refusal exactly when a size it computes overflows; no append runs out of room |
| `OutputQuote.ReusableReadsBack` | src/lib/output_quote.c:540-681 | For every text the output is printable, and quote removal as in sections 2.2.1 to 2.2.4 of POSIX.1-2024 XCU gives back the text; if all bytes of the text print, the library's command parser reads it back too |
| `OutputQuote.MixedReadsBack` | src/lib/output_quote.c:587-681 | The mixed form, runs in single or dollar quotes between escaped single quotes, is read back as the text |
| `OutputQuote.PrintPieces` | src/lib/output_quote.c:587-681 | The loop with its three states prints exactly the mixed form, whose every character depends on its two neighbours alone |
| `OutputQuote.EscapedChar` | src/lib/output_quote.c:479-504 | A letter escape or three octal digits inside dollar quotes stand for exactly that byte |
| `OutputQuote.DoubleQuotedIsText` | src/lib/output_quote.c:433-457 | A text all of whose characters may stand in double quotes is read back from them |
| `OutputQuote.SafeIsItself` | src/lib/output_quote.c:399-427 | Text the safety test accepts is read back unquoted |
| `OutputQuote.SafeString` | src/lib/output_quote.c:399-427 | True exactly for a nonempty text all of whose characters are safe where they stand |
| `OutputQuote.CanUseDoubleQuotes` | src/lib/output_quote.c:433-457 | True exactly when every character may stand in double quotes and there is a single quote |
| `OutputQuote.Capacity` | src/lib/output_quote.c:36-42 | The size, or a refusal exactly when the product and sum pass SIZE_MAX |
| `OutputQuote.Buffer.AppendText` | src/lib/output_quote.c:459-468 | Appends all of the text or, exactly when it does not fit with its NUL, nothing |
| `OutputQuote.Buffer.AppendDollarEscape` | src/lib/output_quote.c:479-504 | Appends the escape of the byte, and never fails with four bytes of room |
| `OutputQuote.ShellAlwaysReadsBack` | src/lib/output_quote.c:269-336 | SHELL_ALWAYS output is read back as the text by a shell and by the command parser, for every text |
| `OutputQuote.ShellStyleReadsBackWhen` | src/lib/output_quote.c:298-336 | SHELL output is read back by a shell if and only if the text is not left unquoted while it is empty or starts with a tilde |
| `OutputQuote.ShellDup` | src/lib/output_quote.c:328-336 | The output of the two styles; no write leaves the buffer |
| `OutputQuote.AppendDoubleQuoted` | src/lib/output_quote.c:269-284 | The four special characters, and no others, get a backslash |
| `OutputQuote.SingleQuotedReadsBack` | src/lib/output_quote.c:15-30 | write_single output is read back as the text by a shell and by the command parser |
| `OutputQuote.WriteSingle` | src/lib/output_quote.c:15-30 | On success exactly that output was written to the stream; it fails only when the stream takes no more |
| `CommandParser.ParseCommand` | src/lib/argv_packer.c:162-238 | The words of the command automaton; a failure exactly for an open quote, a trailing backslash, no word, or more words than the array can hold |
| `CommandParser.PushOwned` | src/lib/argv_packer.c:115-142 | Doubling from 8 below INT_MAX the array takes exactly 2^30 - 1 words |
| `CommandParser.QuotedListParsesBack` | src/lib/argv_packer.c:162-238 | Quoting every string of a nonempty list with SHELL_ALWAYS or write_single and joining with blanks parses back to exactly that list, if it has at most 2^30 - 1 words |
| `CommandParser.ReusableListParsesBackIff` | src/lib/argv_packer.c:162-238 | A list quoted in the reusable style and joined with blanks parses back to itself exactly when it is nonempty, not too long, and all its bytes print |
| `CommandParser.QuoteAndParse` | src/lib/argv_packer.c:162-238 | The two pieces of code together: quoting with the reusable printer, joining and parsing return the list if and only if it is nonempty, not too long, all printing and of sizes that fit |
| `CommandParser.ReadAllCopies` | src/lib/argv_packer.c:162-238 | Only printing bytes come out of a line of printing bytes |
| `ShellWords.JoinedListReadsBack` | src/lib/argv_packer.c:162-238 | Joining words that are each read as one text gives the list of texts |
| `ShellWords.ReadKeepsWords` | src/lib/argv_packer.c:224-230 | Words already read do not depend on what follows |
| `Batches.GreedyUsesFewest` | src/lib/argv_packer.c:424-462 | Repeated selection uses no more batches than any partition of the items into consecutive admissible batches |
| `Batches.GreedyStaysAhead` | src/lib/argv_packer.c:424-462 | After k selections at least as many items are taken as by any admissible partition's first k batches |
| `Batches.PartIsAdmissible` | src/lib/argv_packer.c:86-113 | Any run of items inside an admissible batch is admissible: argument, line and byte limits only get easier |
| `Batches.LaterLines` | src/lib/argv_packer.c:444-456 | Dropping the first item takes away one line group when a new line begins at the second, and none when it does not |
| `Batches.BytesWithItems` | src/lib/argv_packer.c:86-113 | The exact size with its pointers, or the error value exactly when a count passes INT_MAX or a size SIZE_MAX |
| `Batches.SelectBatchCount` | src/lib/argv_packer.c:424-462 | The longest admissible batch from the start; -1 exactly for a bad start, no items, a first item that is too large, or a size that overflows after a fitting batch |
| `Batches.NeverStuck` | src/lib/argv_packer.c:424-462 | If the whole list has a representable size and can be cut at all, no selection fails |
| `Batches.PackAll` | src/applets/base/xargs/xargs_exec.c:598-672 | The caller's loop cuts the items in order into maximal admissible batches, as few as any admissible partition needs, and succeeds whenever there is one and the whole size is representable |
| `DigestLine.LineRoundTrip` | src/crypto/digestsum.c:336-341 | For every digest and every nonempty name, with backslashes, line breaks or separators in it, parsing the printed line, tagged or not, gives the digest and the name; untagged also the mode |
| `DigestLine.PrintedIsOneLine` | src/crypto/digestsum.c:384-395 | A printed line contains no raw line break, and reading drops exactly its newline |
| `DigestLine.UnescapeUndoesEscape` | src/crypto/digestsum.c:226-258 | Unescaping an escaped name gives the name |
| `DigestLine.EscapeUndoesUnescape` | src/crypto/digestsum.c:137-162 | A text without raw line breaks that unescapes is the escape of what it unescapes to |
| `DigestLine.HexRoundTrip` | src/crypto/digest_util.c:68-77 | Reading the printed hexadecimal digits gives the digest |
| `DigestLine.SeparatorBeforeDigest` | src/crypto/digestsum.c:260-272 | The last separator of a printed line is the one in front of the digest, whatever the name contains |
| `DigestLine.TagIsNoDigest` | src/crypto/digestsum.c:274-291 | A tagged line is never taken for an untagged one |
| `DigestLine.HexEncodeLower` | src/crypto/digest_util.c:68-77 | Fills the array with the two lower-case digits of each byte and a NUL |
| `DigestLine.WriteEscapedPath` | src/crypto/digestsum.c:137-162 | On success exactly the escaped name was written; it fails only when the stream takes no more |
| `DigestLine.PrintHashResult` | src/crypto/digestsum.c:518-561 | On success exactly the specified line and its terminator were written; it fails only when the stream takes no more |
| `DigestLine.UnescapePath` | src/crypto/digestsum.c:226-258 | The in-place unescape with two cursors computes the unescaped name, or fails exactly on a bad escape, and touches nothing in front of the name |
| `DigestLine.FindLastTaggedSeparator` | src/crypto/digestsum.c:260-272 | The repeated strstr finds the last occurrence |
| `DigestLine.ParseCheckLine` | src/crypto/digest_util.c:79-117 | The record of a well-formed line, a failure for every other |
| `DigestLine.ParseUntagged` | src/crypto/digestsum.c:274-291 | As specified; a failing attempt leaves the digest part of the line intact |
| `DigestLine.ParseTagged` | src/crypto/digestsum.c:293-334 | As specified, with the name cut out of the line in place |
| `DigestLine.ParseCheckRecord` | src/crypto/digestsum.c:336-341 | The second attempt is not spoilt by what the first one changed in the line |
| `Base64.RoundTrip` | src/lib/base64.c:38-157 | Decoding the encoding of any byte string gives it back |
| `Base64.AcceptsExactlyBase64` | src/lib/base64.c:116-157 | The strings accepted are exactly those of section 4 of RFC 4648, unused low bits left free |
| `Base64.EncodedLength` | src/lib/base64.c:10-19 | The encoding has the length encoded_size announces |
| `Base64.CharsAndValues` | src/lib/base64.c:61-78 | Characters and values correspond one to one and the pad is no value |
| `Base64.IndexesAreSextets` | src/lib/base64.c:21-36 | The shifted and or-ed table indexes are the four six-bit values of the group |
| `Base64.ShiftedIsTriple` | src/lib/base64.c:80-93 | The shifted and or-ed bytes are the three bytes of the group |
| `Base64.DecodedByQuads` | src/lib/base64.c:95-114 | Decoding splits after any number of leading quads |
| `Base64.Encode` | src/lib/base64.c:38-59 | Writes exactly the encoding, whether or not the vector path is taken |
| `Base64.DecodeBlocks` | src/lib/base64.c:95-114 | Consumes exactly the leading quads and writes their bytes, with or without the 64-byte path |
| `Base64.DecodeExact` | src/lib/base64.c:116-157 | True exactly for the accepted strings, with exactly their bytes written |
| `PathOps.NormalRelativeKeepsMeaning` | src/lib/path_ops.c:329-343 | From any base the normalised relative path and the original normalise to the same place |
| `PathOps.ReducedLeadsTheSameWay` | src/lib/path_ops.c:140-177 | Reducing part of a path in advance does not change where the path leads |
| `PathOps.AbsoluteIdempotent` | src/lib/path_ops.c:303-327 | Normalising an absolute path twice is normalising it once |
| `PathOps.RelativeIdempotent` | src/lib/path_ops.c:329-343 | The same for relative paths; the result is relative and never empty |
| `PathOps.WalkingIsNormal` | src/lib/path_ops.c:140-177 | What remains has ".." only at the front, none for absolute paths, and never "." |
| `PathOps.BetweenLeadsThere` | src/lib/path_ops.c:363-421 | Joining the relative path onto its start normalises to its end |
| `PathOps.BetweenIsShortest` | src/lib/path_ops.c:363-421 | No relative path that leads there has fewer components |
| `PathOps.WalkIsOneStep` | src/lib/path_ops.c:140-177 | One component changes the distance between two places by one at most |
| `PathOps.SplitOfJoin` | src/lib/path_ops.c:423-437 | The components of a joined path are those of its parts |
| `PathOps.SplitOfJoined` | src/lib/path_ops.c:203-256 | Joining components with slashes and splitting gives them back |
| `PathOps.Components.AppendNormalized` | src/lib/path_ops.c:140-177 | The cursor loop walks the components of the path from the stack it finds |
| `PathOps.Components.ToAbsolutePath` | src/lib/path_ops.c:203-229 | The path of the components; the computed size is exactly filled |
| `PathOps.Components.ToRelativePath` | src/lib/path_ops.c:231-256 | The same for a relative path |
| `PathOps.NormalizeAbsolute` | src/lib/path_ops.c:303-327 | The normal form of the path, or of the path joined to the working directory |
| `PathOps.NormalizeRelative` | src/lib/path_ops.c:329-343 | The relative normal form; absolute paths are refused |
| `PathOps.RelativePathBetween` | src/lib/path_ops.c:363-421 | The way up to the common ancestor and down again; refused unless both paths are absolute |
| `FmtBreaks.FmtParagraph` | src/lib/fmt_engine.c:327-365 | The table satisfies the recurrence: every entry is the first of the cheapest feasible breaks, with its cost, its line length and its successor |
| `FmtBreaks.BestBreak` | src/lib/fmt_engine.c:333-361 | The inner loop finds the first cheapest of all feasible breaks of one line |
| `FmtBreaks.OneSolution` | src/lib/fmt_engine.c:327-365 | The recurrence has exactly one solution |
| `FmtBreaks.EveryLineFits` | src/lib/fmt_engine.c:404-412 | Following the breaks advances strictly to the end, and every line has one word or fits in the width |
| `FmtBreaks.NoCostOverflows` | src/lib/fmt_engine.c:333-361 | For bounded indents all costs stay below 2^63 |
| `FmtBreaks.BaseCost` | src/lib/fmt_engine.c:277-304 | Starting a line costs something, and never more than 400000 |
| `FmtEngine.Engine.FormatParagraph` | src/lib/fmt_engine.c:327-412 | The lines printed are those of the cheapest layout of the words in the buffer; behind what was printed before, they stand in the columns and with the gaps their words ask for; the text printed is that of the buffer |
| `FmtEngine.Engine.ProcessStream` | src/lib/fmt_engine.c:590-614 | The whole stream, however often the buffer is flushed: the input falls into paragraphs and other lines, and the output is theirs in turn. A paragraph goes on exactly as long as the mode says. If none of its words is longer than the buffer, its output is its words in order, one prefix in front of every line, the lines in the columns of the input, and between two words of a line the gap the input asks for; if it fits into the buffer, its lines are the cheapest layout, with the other indent of its second line or, in a tagged paragraph of one line, of the paragraph before. Another line keeps its prefix and its text and their columns. All non-blank bytes are in the input lines, and without a prefix exactly they are printed |
| `FmtEngine.Engine.CopyRest` | src/lib/fmt_engine.c:221-256 | A line outside paragraphs is copied: the blanks and as much of the prefix as it has, then its bytes as they stand, up to the end of the line |
| `FmtEngine.Engine.SkipLines` | src/lib/fmt_engine.c:517-535 | Lines that are not text are copied until one is, or the stream is used up, with every byte accounted for |
| `FmtEngine.Engine.CollectParagraph` | src/lib/fmt_engine.c:537-587 | In each of the four modes the lines collected are all that belong to the paragraph and account for every byte read, their words are in the buffer with their gaps, and the indents are those of its first two lines |
| `FmtEngine.Engine.FlushParagraph` | src/lib/fmt_engine.c:414-464 | The lines printed are the first ones of the cheapest layout of the buffer, up to the preferred break; printed text and words together are unchanged, and words and bytes were freed |
| `FmtEngine.Engine.ChooseSplit` | src/lib/fmt_engine.c:430-444 | The split point is the first of the cheapest breaks, each later line giving a credit of 9; the end of the buffer only if the layout has one line; the credit never passes the range of costs |
| `FmtEngine.Engine.DropWords` | src/lib/fmt_engine.c:452-463 | The two memmoves keep the words behind the split point and the text from it on |
| `FmtEngine.Engine.PutParagraph` | src/lib/fmt_engine.c:404-412 | The lines printed hold the words in front of the split point, in order and once, each line with the words of the plan, in the columns and with the gaps of the form |
| `FmtEngine.Engine.PutLine` | src/lib/fmt_engine.c:367-402 | Prints one prefix in its column, exactly the words of the line with their gaps, and a line end; the characters printed reach the planned column, moved right only by a prefix that passes the indent |
| `FmtEngine.Engine.ReadWord` | src/lib/fmt_engine.c:466-491 | The bytes of one word go into the buffer once each, also across a flush in the middle of the word; one no longer than the buffer is whole in it |
| `FmtEngine.Engine.MeasureWord` | src/lib/fmt_engine.c:486-499 | The gap behind a word: at a line end, the end of the stream or with uniform spacing two blanks behind a sentence and else one, otherwise the columns of the blanks read |
| `FmtEngine.Engine.SetOtherIndent` | src/lib/fmt_engine.c:151-168 | The four modes: the first line's indent, or the column reached, or in a tagged paragraph without such a line the indent kept from before unless it is the first line's, and then 3 or 0 |
| `FmtEngine.Engine.CheckPunctuation` | src/lib/fmt_engine.c:258-269 | Whether a word begins with an opening parenthesis, ends in punctuation, and ends a sentence behind its closing punctuation |
| `FmtEngine.Engine.GetLine` | src/lib/fmt_engine.c:466-511 | The words of one line join those in the buffer with the gaps and marks the line asks for, across any flushes; neither array limit is passed |
| `FmtEngine.Engine.GetParagraph` | src/lib/fmt_engine.c:513-588 | Copied lines and paragraph lines together account for every byte read; false only at the end of the stream or after a write error |
| `FmtText.WordsStayApart` | src/lib/fmt_engine.c:466-511 | Two words in a row that a blank or a line end separates in the input of a paragraph: in its output the second begins the next line or follows in the same one behind exactly the gap the input asks for, which is not empty |
| `FmtText.TokenStands` | src/lib/fmt_engine.c:367-402 | Where a word stands in the lines: the next one follows it with its gap, or begins the next line |
| `FmtText.GapIsPositive` | src/lib/fmt_engine.c:490-499 | The gap behind a word is positive wherever a blank or a line end follows it |
| `FmtText.SentenceEnds` | src/lib/fmt_engine.c:258-269 | The recursive test for the end of a sentence, over all words |
| `FmtText.WellSetBoth` | src/lib/fmt_engine.c:414-464 | Two parts of a paragraph, each set as it should be, make one that is |
| `FmtText.DocTextIsPrinted` | src/lib/fmt_engine.c:590-614 | The text of the output is that of the blocks in order |
| `FmtText.DocHoldsInk` | src/lib/fmt_engine.c:590-614 | The blocks hold all non-blank bytes of the input, and without a prefix they are the text printed |
| `FmtReader.Reader.GetPrefix` | src/lib/fmt_engine.c:186-211 | Takes the indentation and as much of the prefix as the line has, and blanks behind a whole prefix, and nothing else; the columns are those of the characters taken, within the bound of indents |
| `FmtReader.Reader.GetSpace` | src/lib/fmt_engine.c:170-184 | Takes blanks and tabs only and counts the columns they reach |
| `FmtReader.Reader.MatchPrefix` | src/lib/fmt_engine.c:199-207 | Takes the longest beginning of the prefix that the line goes on with |
| `FmtPrinter.Printer.PutSpace` | src/lib/fmt_engine.c:125-149 | Prints blanks and tabs only, and the characters reach the column asked for |

## Left out

- System calls that only report (diagnostics, errno values beyond those the callers distinguish), and NULL arguments.
- Allocation failure, except in the descriptor transactions and the list of skipped numbers of the output sink.
- FdTransactions.FdTransactionStack.Save: with INT_MAX among the names it may fail without a failing call, as a duplication may pick any free number and none is left above that one; the same holds of Begin and AddReference.
- FdTransactionSteps.InvIsTheStackCheck: the tests of null pointers, capacity and stack identity and the guard against a cyclic parent chain are not in it; in the code's model they are what links the chain.
- FdTransactions.FdTransactionStack.CheckInvariants: takes a well-linked chain for granted, for the same reason.
- FdTransactions.DupPrivate: signals still to arrive are finite, so that retrying after EINTR ends.
- OutputSink.RunKeepsOrder: sequence numbers are unbounded; wrap-around at 2^64 is not modelled.
- OutputSink liveness: a queue full of later records can block the producer of the next number, so only safety is claimed.
- OrderedPublication.RunKeepsInv: sequence numbers are unbounded; cancellation and the choice of the thread woken are not modelled.
- OrderedPublication.PublicationState.ReserveSlot: called only where it can succeed, as methods here must end; elsewhere the code can wait for ever. The same holds of Drain. No worker gives a slot up while either runs.
- Init, cleanup, wake and join of the two output modules, which only set up or hand over memory and threads.
- Sha256.Sha256Context.Update: the SHA instructions are a choice that either refuses or computes the scalar fold; their semantics are not in the repository.
- Base64.Encode: the vector code is a choice that agrees with the scalar code or gives up; the alphabet table is given by its ranges.
- RemoveTree.RemoveRecursiveAt: the tree does not change underneath, so the identity of an entry is checked only where the caller names it; the recursive variant on paths and the one-file-system mode are not modelled.
- OutputQuote.ShellReusable: unquoted braces and commas count as literal, as in POSIX; brace expansion of other shells is not modelled.
- The ESCAPE, C, LOCALE and SHELL_ESCAPE quoting styles, which would repeat the same argument.
- CommandParser.ParseCommand: the buffer that holds one word has no size limit below memory itself.
- Batches: bx_argv_bytes_with_item_expansion and the environment size, which feed the same limits.
- DigestLine: hashing the files, the status output and its path quoting.
- DigestLine.LineRoundTrip: lines ended by NUL are printed by the model but not read back, as the reader splits at newlines.
- FmtEngine.Engine.ProcessStream: columns up to 2,000,000 where an indent may be taken from them (in front of the text of a line, and on the whole line in the crown and tagged modes) and within int elsewhere, so that no cost passes the range of long; prefixes that contain a newline are not modelled.
- Optimality of the formatter over all layouts: the ragged cost looks at the tail already chosen, so the recurrence is what holds; "cheapest layout" means its one solution.
- FmtText.WordsStayApart: speaks of paragraphs without a word of more than 5000 bytes, which the code prints in parts as the buffer fills.
- FmtEngine.Engine.ProcessStream: of a crown or tagged paragraph that overflows the buffer it does not give the other indent, which the code takes anew from the column it has reached at every flush; its words and gaps are as stated all the same.
- MD5, SHA-1, CRC and the Internet checksum, which repeat the buffering proof or are small.
- Locale tables: isprint, isspace and ispunct are those of the C locale.
- Option parsing, colour, JSON, profiling, copying of trees, file metadata, the file walker and the applets.
