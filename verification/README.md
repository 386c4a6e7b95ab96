# L_builtin: a verified model

L_builtin adds shared variables, barriers, an aligned allocator and other tools to bash. This Dafny
project models the parts in which several processes meet, or in which arithmetic decides whether data
survives, and proves what they guarantee. `dafny verify dfyconfig.toml` checks everything.

- **Shared-variable stores.** `Sections` is the machine of what processes do inside a file store's lock:
  stat, read, decode, resize, and write in chunks of any size, each a separate step; `RegionSections` is
  the same for the bounded region of `-M`. `FlockStore` puts processes, open file descriptions, `flock`,
  `fork`, death and reopening around it; `RwLockStore` puts the reader/writer lock of `-n` and `-M`
  around both, kept in the bytes in front of the blob. All are proved linearizable over every run, and
  nobody gets stuck: a lock is refused only while somebody conflicts with it.
  `FileStore` is the sequential code of the file stores and `RegionStore` that of the bounded region;
  each method is tied to the functions that the machines and the round trips use. `Codecs` states what
  is assumed of serialization and gives a codec that meets it.
- **Variables in bash.** `ShmVariables` has the getter that reconciles bash's table with the database,
  the write-through setters, `bind`, `unbind`, `drop` and `clear`; `ShellRuns` has any number of shells,
  forked with stale tables, that use them on shared stores in any order. `Databases` holds the entries
  and how they change. `DisjointWriters` is why processes that own different indices need no mutex.
- **Parallel quicksort.** `Partitioning` is the in-place code of one process. `SortPool` is the whole
  sort: a pool of workers that interleave between any two single-element reads and writes, so that
  every threshold and every schedule is one of its runs. `StoredSort` makes each of these reads and
  writes one of the shared store.
- **Barrier.** `Barriers` is the monitor, with sleeping and notified callers and their processes,
  timeouts, polls, resets and spurious wakeups.
- **Lookup table.** `PackOrder` has the arithmetic of keys packed into integers; `IntLookups` builds,
  sorts and searches the table, and proves its answers against a specification on strings. `Bits` has
  the bitwise operations.
- **Allocator.** `BashAlloc` has the alignment and control-byte arithmetic over an underlying allocator
  that is free to choose addresses, on a heap that bash uses at the same time; `BlockContents` is what
  Rust and bash may each rely on, computed from their calls alone.
- **Printers.** `IntStrs` prints integers into a fixed buffer; `ShellQuote` quotes words, and a tokenizer
  after sections 2.2.1, 2.2.2 and 2.3 of the POSIX Shell Command Language (XCU) reads them back.

Assumptions of the store results: a process forks only between operations and does not die in the
middle of a write; the backing was stamped by an earlier `bind` and stays linked; serialization is
faithful (`Codecs.Faithful`).

Where the code keeps less than its documentation says, the model follows the code. The lemma named
first says exactly when the promise holds; one named after it gives an input for which it does not:

- a process that dies while it holds the flock, between its writes, leaves it taken as long as a child
  that inherited the descriptor keeps it open (`FlockStore.LockEnabledIff`, `FlockStore.OrphanBlocks`);
- an allocation with an alignment above 256 can lose its raw pointer (`BashAlloc.ControlByteSuffices`);
- `realloc` keeps the contents only between raw addresses that agree modulo the alignment
  (`BashAlloc.ReallocKeepsDataIff`), so for every move only with alignments that divide all addresses
  (`BashAlloc.ReallocSafeIff`, `BashAlloc.AvxMoveLosesData`);
- a barrier counts calls, not distinct processes: the two agree exactly while nobody arrives twice
  (`Barriers.DistinctProcessesIff`, `Barriers.OneProcessTwice`);
- a reset can put a caller whose round was complete back to sleep (`Barriers.WakeSucceedsIff`,
  `Barriers.ResetStrandsWaiter`); until a reset a notified caller of a satisfied barrier can report
  failure exactly if it has a timeout (`Barriers.UntimedCallsSucceed` and `Barriers.SureUntilReset`,
  `Barriers.TimeoutCanLoseTheRace`);
- `unbind` keeps the value only when the store can be read and has an entry of the variable's own kind
  (`ShmVariables.UnbindKeepsValueIff`, `ShmVariables.UnwrittenVariableDisappears`), and with `-p` a
  variable reads as its old value while bound only if `-A` was given for associative arrays alone
  (`ShmVariables.PreservedReadsBackIff`, `ShmVariables.ScalarUnderDashAReadsEmpty`);
- after a write that did not fit, the local variable is ahead only until the next read, and no later
  write to a given index or key makes up for it (`ShmVariables.FailedElementIsForgotten`,
  `ShmVariables.FailedPairIsForgotten`); an append takes another index exactly if the failed one was
  beyond the last element (`ShmVariables.FailedElementMovesAppend`, `ShmVariables.AppendAfterFailure`);
- strings that differ in trailing NUL bytes have one key (`PackOrder.AliasesIff`), so a query that pads a
  name with NULs is answered (`IntLookups.AnswersIff`, `IntLookups.NulQueryIsAnswered`);
- with a threshold below two `psort` reports success exactly if it never comes to a range of two elements
  in increasing order (`Partitioning.SucceedsUnlessPair`), so it does on all arrays of any length of two
  or more exactly with a larger threshold (`Partitioning.SucceedsIff`, `Partitioning.FailingInput`); a
  failure ends the script before it prints what it has sorted.

## Model

| member | source | states |
|---|---|---|
| FlockStore.Linearizable | l_builtin/src/vardb.rs:616-634 | in every run, whenever no write is under way the file holds exactly the committed closures in lock order; each read returned the database current at its place; no operation failed or saw half a blob |
| FlockStore.MutualExclusion | l_builtin/src/vardb.rs:190-221 | two live processes inside sections hold different open file descriptions and both hold LOCK_SH |
| FlockStore.DistinctOfds | l_builtin/src/vardb.rs:449-459 | past `refresh`, no two processes use one open file description, whatever was inherited, closed, reopened or reused |
| FlockStore.GrantExcludes | l_builtin/src/vardb.rs:207-221 | what the kernel grants per description is exclusion per process |
| FlockStore.LockEnabledIff | l_builtin/src/vardb.rs:207-221 | the converse, over every run: a process that waits can take the lock exactly when nobody inside conflicts with it, so every unlock lets the next one in; except for an orphan in the way, a description whose holder died inside and which another process has kept open |
| FlockStore.LockedByWhom | l_builtin/src/vardb.rs:215-221 | in every run a description is locked only while a process inside holds the lock through it, or since its holder died inside; and it is open only while a live process refers to it |
| FlockStore.OrphanBlocks | l_builtin/src/vardb.rs:440-448 | a run in which that happens: the holder dies, an idle child keeps its descriptor, and a third process finds nobody inside and cannot lock |
| FlockStore.CloseReleases | l_builtin/src/vardb.rs:440-448 | closing the last descriptor of a description takes away the description, and the lock on it |
| FlockStore.NobodyIsStuck | l_builtin/src/vardb.rs:601-634 | in every run a process in the middle of an operation can take its next step, unless it waits for an orphan or for a process inside, and that one can take its next step |
| FlockStore.StepKeepsInv | l_builtin/src/vardb.rs:449-634 | fork, death, open, close, refresh, reopen, lock, every inner step and unlock keep the invariant; LockEnabledIff has what the unlock gives to others |
| FlockStore.RunKeepsInv | l_builtin/src/vardb.rs:589-634 | the invariant holds in every state of every run from a stamped store |
| FlockStore.HeaderAlwaysFine | l_builtin/src/vardb.rs:304-318 | the header is intact at every moment, in the middle of writes included |
| FlockStore.ReopenNeverStamps | l_builtin/src/vardb.rs:321-343 | so a concurrent unlocked reopen is never able to stamp or truncate |
| FlockStore.UntestedRunIsNotExclusive | l_builtin/src/vardb.rs:440-448 | a run from open through fork of the machine without the PID test, in which parent and child are both in LOCK_EX |
| FlockStore.InheritedDescriptorExcludesNobody | l_builtin/src/vardb.rs:440-448 | when both wait on the inherited description, the kernel grants LOCK_EX to both |
| RwLockStore.Linearizable | l_builtin/src/vardb.rs:691-788 | the memfd and the bounded store are linearizable; the word in front of the blob, which alone decides who is admitted, counts exactly the processes inside at every moment; an operation fails only if it is a write whose length and blob no region of that size could hold |
| RwLockStore.StepKeepsInv | l_builtin/src/vardb.rs:244-287 | every step keeps the word equal to the processes inside, and the store's invariant |
| RwLockStore.AcquireKeepsInv | l_builtin/src/vardb.rs:248-279 | taking the lock rewrites the word to count the newcomer, and nothing of the blob |
| RwLockStore.InsideKeepsInv | l_builtin/src/vardb.rs:679-705 | no step inside the lock, blob writes included, reaches the word |
| RwLockStore.RunKeepsInv | l_builtin/src/vardb.rs:645-705 | the invariant holds in every state of every run |
| RwLockStore.WordAdmits | l_builtin/src/vardb.rs:244-287 | when the word admits a caller, nobody that conflicts is inside |
| RwLockStore.GrantedIff | l_builtin/src/vardb.rs:244-287 | and exactly then, as long as the readers can be counted |
| RwLockStore.AcquireEnabledIff | l_builtin/src/vardb.rs:244-287 | in every run: a process that waits can take the lock exactly when nobody inside conflicts with it, and the readers can be counted |
| RwLockStore.HolderCanStep | l_builtin/src/vardb.rs:691-788 | in every run: a process that holds the lock can take its next step, up to the release |
| RwLockStore.IdleIsFree | l_builtin/src/vardb.rs:691-705 | forks, new operations and exits of processes without the lock are unrestricted, and touch neither the store nor other processes |
| RwLockStore.SoundLayoutExists | l_builtin/src/vardb.rs:84-88 | the hypothesis on how the lock is laid out can be met in 56 bytes |
| RegionSections.InnerKeepsInv | l_builtin/src/vardb.rs:771-788 | with length and blob read and written piece by piece, every step inside the lock of the bounded store keeps its invariant |
| RegionSections.ReadSucceeds | l_builtin/src/vardb.rs:393-413 | a reader that has read the length decodes the current database |
| RegionSections.ChunkExtends | l_builtin/src/vardb.rs:432-433 | each copied piece extends the written part of length and blob, and stays in the region |
| RegionSections.ImageLoads | l_builtin/src/vardb.rs:393-435 | once all pieces are in place the region holds the database |
| RegionSections.LeaveKeepsInv | l_builtin/src/vardb.rs:777-788 | releasing the lock commits one closure, returns the current database to one read, or reports a write that did not fit |
| RegionSections.SectionCompletes | l_builtin/src/vardb.rs:771-788 | from wherever it is inside the lock a process can get to its end in at most four moves of its own; a write is then committed exactly if some region of that size could hold its length and blob |
| Sections.StoreThenLoad | l_builtin/src/vardb.rs:350-387 | a blob written at an offset reads back whatever the file held, has the exact length, and moves no byte below the offset |
| Sections.LoadSucceeds | l_builtin/src/vardb.rs:350-376 | a reader inside the lock always decodes the current database, although stat and read are separate steps |
| Sections.InnerKeepsInv | l_builtin/src/vardb.rs:623-634 | every step inside the lock keeps the store's invariant |
| Sections.LeaveKeepsInv | l_builtin/src/vardb.rs:215-221 | releasing the lock appends exactly one event: the closure, applied to the current database, or a read of it |
| Sections.SectionCompletes | l_builtin/src/vardb.rs:616-634 | from wherever it is inside the lock a process can get to its end in at most four moves of its own, and leaves with exactly its operation in the history |
| Sections.ChunkExtends | l_builtin/src/vardb.rs:380-387 | each partial write extends the written prefix of the blob and keeps all below |
| Sections.FinishedWriteIsStoreBlob | l_builtin/src/vardb.rs:380-387 | however it was cut into chunks, a finished write leaves the file that the sequential code leaves |
| FileStore.Inode.WriteAllAt | l_builtin/src/vardb.rs:380-387 | writing until everything is out equals one write, however short each call is |
| FileStore.Inode.ReadBlobAt | l_builtin/src/vardb.rs:350-362 | all bytes from the offset on, or nothing when fewer than eight follow; it never fails on an unchanging file |
| FileStore.Inode.ReadBlobInto | l_builtin/src/vardb.rs:366-376 | the database in the file: empty without a blob, an error when it does not decode |
| FileStore.Inode.WriteBlobAt | l_builtin/src/vardb.rs:380-387 | the file is cut or extended to the blob's end and holds the blob |
| FileStore.Inode.InitOrCheckMagic | l_builtin/src/vardb.rs:321-343 | a matching header leaves the file alone; any other file becomes an empty stamped store |
| FileStore.FlockBackend.Open | l_builtin/src/vardb.rs:589-599 | a new handle records its opener, and its file is stamped |
| FileStore.FlockBackend.Refresh | l_builtin/src/vardb.rs:453-459 | the file is reopened exactly when the PID differs; then the handle is the caller's own |
| FileStore.FlockBackend.Read | l_builtin/src/vardb.rs:616-621 | the database as the refreshed file holds it, read between taking LOCK_SH and releasing it |
| FileStore.FlockBackend.WithWrite | l_builtin/src/vardb.rs:623-634 | the closure's result is stored, or the error reported and the file left alone; both blob accesses come between taking LOCK_EX and releasing it |
| FileStore.MemfdBackend.Read | l_builtin/src/vardb.rs:691-694 | the database in the file; the read lock is released |
| FileStore.MemfdBackend.WithWrite | l_builtin/src/vardb.rs:696-705 | the closure's result is stored behind the lock's bytes, or the error reported and the file left alone; the write lock is released |
| FileStore.WrittenStoreReadsBack | l_builtin/src/vardb.rs:623-634 | any process, reopening or not, reads exactly the updated database from a stamped file |
| FileStore.OpenedStoreReads | l_builtin/src/vardb.rs:304-376 | a file that starts with the magic is taken as it is, and is empty until it holds eight bytes more; any other becomes a store without any of its bytes, which reads as empty; opening again changes nothing |
| FileStore.StampingIsStamped | l_builtin/src/vardb.rs:314-319 | writing the magic and truncating, as separate steps, leave that store |
| RegionStore.StoreThenLoad | l_builtin/src/vardb.rs:393-435 | a blob that fits reads back whatever stale bytes follow it |
| RegionStore.ZeroedRegionIsEmpty | l_builtin/src/vardb.rs:389-404 | a region of zero bytes reads as the empty database |
| RegionStore.FitsIff | l_builtin/src/vardb.rs:418-435 | the bounds test refuses a blob exactly if no region of that size holds the eight bytes of its length and the whole blob, from the offset on |
| RegionStore.OpenableIff | l_builtin/src/vardb.rs:735-744 | and a region is opened exactly if it can hold a blob of eight bytes, the smallest that reads back |
| RegionStore.RunIsFold | l_builtin/src/vardb.rs:771-788 | any sequence of writes leaves the fold of those whose length and blob some region of that size can hold, and never a byte below the length |
| RegionStore.MmapBackend.Open | l_builtin/src/vardb.rs:735-758 | a region is refused exactly when it has no room for a length and eight bytes |
| RegionStore.MmapBackend.ReadBlob | l_builtin/src/vardb.rs:393-413 | the database in the region, with every slice in bounds |
| RegionStore.MmapBackend.Read | l_builtin/src/vardb.rs:771-775 | the same under the read lock, which is released |
| RegionStore.MmapBackend.WriteBlob | l_builtin/src/vardb.rs:418-435 | fails exactly if no region of that size holds the length and the whole blob from the offset on; after failure every byte is unchanged |
| RegionStore.MmapBackend.WithWrite | l_builtin/src/vardb.rs:777-788 | one step of the fold under the write lock, and exactly when it succeeds; the lock is released in either case |
| Codecs.FaithfulCodecExists | l_builtin/src/vardb.rs:99-109 | the hypothesis on serialization can be met |
| Codecs.MapRoundTrip | l_builtin/src/vardb.rs:105-109 | a map of any self-delimiting entries reads back with what follows it untouched |
| Codecs.VarRoundTrip | l_builtin/src/vardb.rs:105-109 | an entry of either kind reads back |
| Databases.VarSlot.InsertIndexInPlace | l_builtin/src/vardb.rs:120-127 | the element is set; an associative entry is discarded first |
| Databases.VarSlot.InsertKeyInPlace | l_builtin/src/vardb.rs:132-139 | the pair is set; an indexed entry is discarded first |
| DisjointWriters.EveryIndexHoldsItsLastValue | l_builtin/src/vardb.rs:120-127 | after any history of assignments to elements each index holds the last value assigned to it, or what it held; other variables are unchanged |
| DisjointWriters.OwnerDecides | scripts/parallelsort.sh:9-11 | the last value of an owned index depends on its owner's assignments only |
| DisjointWriters.InterleavingsAgree | scripts/parallelsort.sh:9-11 | all interleavings of the same per-process assignments to disjoint indices reach the same database |
| ShmVariables.Reconcile | l_builtin/src/cmd_shm.rs:197-225 | in any visiting order the table ends equal to the database's map, each wrong entry is touched once and no other |
| ShmVariables.Shell.ArrayGetter | l_builtin/src/cmd_shm.rs:191-228 | the variable reads as the database's indexed map, empty for another kind, unchanged if the store cannot be read; exactly the entries that differ are touched, once each |
| ShmVariables.Shell.AssocGetter | l_builtin/src/cmd_shm.rs:264-305 | the same for associative arrays |
| ShmVariables.Shell.ArraySetter | l_builtin/src/cmd_shm.rs:233-260 | local element and database element are set; a negative index appends after the local maximum; a failed write leaves the store alone |
| ShmVariables.Shell.AssocSetter | l_builtin/src/cmd_shm.rs:311-336 | local pair and database pair are set; null key or value is the empty string |
| ShmVariables.ElementSetterIsCoherent | l_builtin/src/cmd_shm.rs:233-260 | a getter right after a successful assignment has nothing to do |
| ShmVariables.PairSetterIsCoherent | l_builtin/src/cmd_shm.rs:311-336 | the same for associative arrays, also when the database entry was of the other kind |
| ShmVariables.ElementSetterIsLocal | l_builtin/src/cmd_shm.rs:233-260 | an assignment to an element sets it here, and in the store if that can be read and written; one to a variable that is bound to nothing does nothing; no other variable, binding, entry or store changes |
| ShmVariables.PairSetterIsLocal | l_builtin/src/cmd_shm.rs:311-336 | the same for associative arrays |
| ShmVariables.OthersSeeElement | l_builtin/src/cmd_shm.rs:191-260 | every other shell on the store reads the assignment on top of what the database showed, and nothing else changes |
| ShmVariables.FailedElementIsForgotten | l_builtin/src/vardb.rs:21-27 | an element whose write failed disappears at the next read; after any later write to a given index the stores are as if it had not been made, and hold its value only if they did before or that write put it there |
| ShmVariables.FailedElementMovesAppend | l_builtin/src/cmd_shm.rs:246-250 | a later append, whose index comes from the local table, goes where it would have gone exactly if the failed index was not beyond the last element |
| ShmVariables.AppendAfterFailure | l_builtin/src/cmd_shm.rs:246-250 | a case in which it does not |
| ShmVariables.FailedPairIsForgotten | l_builtin/src/vardb.rs:21-27 | the same for associative arrays |
| ShmVariables.Refill | l_builtin/src/cmd_shm.rs:715-738 | a restored plain array holds exactly the snapshot |
| ShmVariables.Shell.MaxIndex | l_builtin/src/cmd_shm.rs:246-250 | the largest index held, or -1 |
| ShmVariables.Shell.FindVariable | l_builtin/src/cmd_shm.rs:525-529 | looking a variable up refreshes it when it has callbacks, and finds it exactly when it exists |
| ShmVariables.Shell.AttachCallbacks | l_builtin/c/l_bash_api.c:224-259 | an existing variable is refreshed, converted if scalar, and linked; a missing one is created empty |
| ShmVariables.Shell.Bind | l_builtin/src/cmd_shm.rs:592-631 | capture, registration, callbacks and seeding, and when it fails: the step of which BindAlwaysLinks and BoundReadsTheStore speak |
| ShmVariables.BindAlwaysLinks | l_builtin/src/cmd_shm.rs:592-631 | every bind, with or without -p, of an existing or a missing variable, leaves it shared, of the kind asked for, and bound to that store, with all others as before; it fails exactly if there is a value to preserve that the store cannot take, and writes exactly that value's entry |
| ShmVariables.BoundReadsTheStore | l_builtin/c/l_bash_api.c:216-237 | and as soon as the store can be read, the variable reads as the store's entry of that kind |
| ShmVariables.UnreadBindKeepsValue | l_builtin/c/l_bash_api.c:223-237 | until then it holds what it held: an array of that kind as it is, a string as element 0 or "0", nothing if it had no value |
| ShmVariables.Shell.Unbind | l_builtin/src/cmd_shm.rs:747-775 | snapshot, removal and restoring |
| ShmVariables.PreserveRoundTrip | l_builtin/src/cmd_shm.rs:521-631 | bind -p then unbind gives back the array (a scalar as element 0); the database keeps the entry; all else is as before |
| ShmVariables.PreservedReadsBackIff | l_builtin/src/cmd_shm.rs:622-628 | the seeded value is what the variable reads as, exactly if -A was given for associative arrays only |
| ShmVariables.FailedPreserve | l_builtin/src/cmd_shm.rs:622-628 | a preserving bind that cannot write fails, leaves the stores alone, and the variable reads as the store's own entry |
| ShmVariables.Shell.Drop | l_builtin/src/cmd_shm.rs:783-803 | the entry, the registration and the variable go together, or nothing does |
| ShmVariables.DropRemoves | l_builtin/src/cmd_shm.rs:783-803 | drop succeeds exactly if the variable is bound to a store that can be read and written; then variable, binding and entry are gone and nothing else is, and every other shell reads the variable as empty; otherwise nothing has changed |
| ShmVariables.Shell.Clear | l_builtin/src/cmd_shm.rs:807-817 | the store is empty, or nothing has changed |
| ShmVariables.ClearEmpties | l_builtin/src/cmd_shm.rs:807-817 | clear succeeds exactly if the store can be read and written; then every shell reads every variable bound to it as empty; variables, bindings and other stores stay |
| ShellRuns.StoreIsReplay | l_builtin/src/cmd_shm.rs:255-258 | between any two moments of any run of any shells, a store changes by the replay of the successful writes, in its order |
| ShellRuns.ReadsAreReplays | l_builtin/src/cmd_shm.rs:186-228 | every read by any shell, however stale its table, returns the replay of all successful writes of all shells |
| ShellRuns.ReadsAreLastAssigned | l_builtin/src/cmd_shm.rs:186-228 | element by element, the value that anyone last assigned and that was not discarded since |
| ShellRuns.StepWrites | l_builtin/src/cmd_shm.rs:255-258 | each operation does to each store exactly the write that it stands for, and none when it fails |
| ShellRuns.PreserveAcrossWrites | l_builtin/src/cmd_shm.rs:740-775 | after bind -p, any writes by any shells and unbind, the variable holds what the writes made of the preserved value, or is gone if they removed it; the unbind changes no store |
| ShellRuns.PreserveAcrossQuiet | l_builtin/src/cmd_shm.rs:740-775 | with no write to it in between it holds the preserved value |
| ShellRuns.ValueSurvivesSharing | l_builtin/src/cmd_shm.rs:592-775 | a plain array that is assigned, bound with -p, used without writes to it and unbound is as assigned |
| ShellRuns.BoundStaysShared | l_builtin/src/cmd_shm.rs:592-617 | after any bind, with or without -p, and whatever all shells do, the variable stays shared with that store until its own shell binds it again, unbinds or drops it |
| ShellRuns.BoundReadsReplay | l_builtin/src/cmd_shm.rs:186-305 | so that each look at it reads what all successful writes have made of the store |
| ShellRuns.ChildReadsReplay | l_builtin/src/cmd_shm.rs:186-305 | and so does each look by a child that was forked in between |
| ShellRuns.BoundAssignmentArrives | l_builtin/src/cmd_shm.rs:233-336 | and each assignment to it that the backing can take is a write to that store |
| ShmVariables.UnbindKeepsValueIff | l_builtin/src/cmd_shm.rs:740-746 | the value the variable had while shared survives exactly when the store is readable with an entry of its kind |
| ShmVariables.UnwrittenVariableDisappears | l_builtin/src/cmd_shm.rs:740-746 | a bound variable that reads as empty and is gone after unbind |
| ShmVariables.ScalarUnderDashAReadsEmpty | l_builtin/src/cmd_shm.rs:557-564 | a scalar whose preserved value is not what the bound variable reads as |
| Partitioning.Partition | scripts/parallelsort.sh:105-126 | the pivot ends at its final position with smaller or equal elements left and greater or equal ones right, the rest of the array is untouched, the multiset kept; the right side is empty exactly for one element or an increasing pair; equal elements before a larger one stay as they are |
| Partitioning.Scan | scripts/parallelsort.sh:115-123 | the scans meet with everything outside them on its side of the pivot |
| Partitioning.MedianRestBelow | scripts/parallelsort.sh:109-114 | the median of three is strictly above all other elements only in a range of one, or an increasing pair |
| Partitioning.SwapItems | scripts/parallelsort.sh:99-99 | two elements change places |
| Partitioning.SwapKeepsScan | scripts/parallelsort.sh:119-122 | swapping the elements at which the scans stopped moves both scans on |
| Partitioning.FinalSwapSplits | scripts/parallelsort.sh:124-125 | swapping the pivot in when the scans have met splits the range |
| Partitioning.Psort | scripts/parallelsort.sh:128-144 | the array is sorted by the calls that RanSorts and SucceedsUnlessPair speak of, and the status is 0 exactly if both sides succeed and no forked range has an empty right side |
| Partitioning.RanSorts | scripts/parallelsort.sh:128-144 | such calls sort the range and leave everything else alone |
| Partitioning.SucceedsUnlessPair | scripts/parallelsort.sh:133-143 | the status on every array: 0 with a threshold of two or more; below that 0 exactly if no call comes to two elements in increasing order |
| Partitioning.OneAboveFails | scripts/parallelsort.sh:138-142 | in particular it is never 0 on equal elements with a larger one at the end |
| Partitioning.SucceedsIff | scripts/parallelsort.sh:133-143 | for every length of two or more, what `psort` does makes the status 0 on all arrays exactly if the threshold is at least two, and below that it fails on some array |
| Partitioning.FailingInput | scripts/parallelsort.sh:138-142 | the array 1 1 ... 1 2 of that length |
| Partitioning.SortedIsUnique | scripts/parallelsort.sh:89-97 | a multiset has one sorted arrangement |
| SortPool.StepStaysInside | scripts/parallelsort.sh:94-96 | a worker writes its own range only |
| SortPool.OwnRangeDecides | scripts/parallelsort.sh:94-96 | what a worker relies on cannot be disturbed by writes outside its range |
| SortPool.StepKeepsWorker | scripts/parallelsort.sh:105-144 | every single read or write keeps what its worker relies on, and the parts of a split stay inside the range |
| SortPool.EqualElementsSplitEvenly | scripts/parallelsort.sh:115-126 | the scans stop at elements equal to the pivot: a range of equal elements is split into halves that differ by at most one element |
| SortPool.NextKeepsInv | scripts/parallelsort.sh:128-144 | ranges stay disjoint, the multiset is kept once swaps under way are completed, and elements of different ranges are in order |
| SortPool.RunsEnd | scripts/parallelsort.sh:128-144 | no run has more than 12 n^2 + 1 steps, and one that has workers left can go on |
| SortPool.UnownedIsFinal | scripts/parallelsort.sh:101-104 | at every moment a position outside all pending ranges is final |
| SortPool.PoolSorts | scripts/parallelsort.sh:128-144 | under any schedule and threshold the end state is the sorted permutation of the input |
| SortPool.ScheduleIrrelevant | scripts/parallelsort.sh:133-143 | two complete runs end alike |
| SortPool.PoolAgreesWithPsort | scripts/parallelsort.sh:128-144 | and like the calls of one process sorting alone |
| StoredSort.StepIsOneAccess | scripts/parallelsort.sh:94-99 | a step of a worker depends on one element of ITEMS and changes at most one |
| StoredSort.LastReadIsCurrent | l_builtin/src/vardb.rs:616-634 | what a legal history of the store returned last is its current database |
| StoredSort.HistoryStep | scripts/parallelsort.sh:9-11 | a worker that assigns an element leaves the pool's next array in the database, and one that reads has read from the current one |
| StoredSort.RunIsPoolRun | scripts/parallelsort.sh:9-11 | every run of workers that take the numbers they act on out of what a linearizable store returns is a run of the pool, with the same workers and the pool's array in the database at every moment |
| StoredSort.PoolRunIsRun | scripts/parallelsort.sh:9-11 | and every schedule of the pool is such a run |
| StoredSort.StoreIsSorted | scripts/parallelsort.sh:1-8 | such a run has at most 12 n^2 + 1 steps, and when the last worker is done the shared database holds the sorted permutation of the input |
| Barriers.BarrierSafe | l_builtin/src/cmd_barrier.rs:94-152 | the counter is the arrivals since the last reset and fits, satisfaction means exactly that the target is reached, no success comes earlier, nobody sleeps un-notified while satisfied |
| Barriers.StepKeepsInv | l_builtin/src/cmd_barrier.rs:94-152 | every critical section, wakeup, timeout and reset keeps the invariant |
| Barriers.CallsAreAccounted | l_builtin/src/cmd_barrier.rs:103-152 | conservation, over every run with any resets: each call has reported exactly one outcome for each time that it entered, except that it may still wait for the last |
| Barriers.NoCallIsLost | l_builtin/src/cmd_barrier.rs:103-152 | a call that waits or enters at one moment waits at every later one or has reported success or failure since, through any resets |
| Barriers.BroadcastReachesAll | l_builtin/src/cmd_barrier.rs:94-101 | the last arrival and every reset notify everyone that waits |
| Barriers.SpuriousIsHarmless | l_builtin/src/cmd_barrier.rs:123-138 | a sleeper may be woken at any time, and goes back to sleep with nothing changed |
| Barriers.BarrierCompletes | l_builtin/src/cmd_barrier.rs:123-138 | from satisfaction to the next reset every outstanding call is notified, each one scheduled is one fewer, none is added |
| Barriers.NotifiedReturns | l_builtin/src/cmd_barrier.rs:131-138 | a notified call returns success within one check |
| Barriers.SatisfiedStep | l_builtin/src/cmd_barrier.rs:109-111 | a call on a satisfied barrier returns at once |
| Barriers.WakeSucceedsIff | l_builtin/src/cmd_barrier.rs:131-138 | a woken call succeeds exactly when the target was reached since the last reset |
| Barriers.ResetStrandsWaiter | l_builtin/src/cmd_barrier.rs:142-152 | a run in which a caller of a completed round is put back to sleep |
| Barriers.TimeoutCanLoseTheRace | l_builtin/src/cmd_barrier.rs:123-133 | a run in which a notified timed call fails although the barrier is satisfied |
| Barriers.SuccessIsSureIff | l_builtin/src/cmd_barrier.rs:123-138 | whichever step takes a notified call out of a satisfied barrier next, it returns success, exactly when the call has no timeout |
| Barriers.SureUntilReset | l_builtin/src/cmd_barrier.rs:123-138 | over every continuation without a reset such a call without a timeout never reports failure, and stays notified until it has reported success |
| Barriers.UntimedCallsSucceed | l_builtin/src/cmd_barrier.rs:123-138 | the next departure again, at every moment of every run, in terms of the -t that the caller gave |
| Barriers.OnlyBoundedCallsFail | l_builtin/src/cmd_barrier.rs:103-139 | a call that reports failure was given -n or -t |
| Barriers.DistinctProcessesIff | l_builtin/src/cmd_barrier.rs:4-9 | in every run, when the barrier is satisfied or a call succeeds, `target` distinct processes have arrived since the last reset exactly when none arrived twice |
| Barriers.OneProcessTwice | l_builtin/src/cmd_barrier.rs:4-9 | a run in which one process satisfies a barrier for two |
| Barriers.PollsCount | l_builtin/src/cmd_barrier.rs:94-119 | exactly `target` polls, by whatever processes, satisfy the barrier |
| Barriers.SectionsAreSteps | l_builtin/src/cmd_barrier.rs:103-122 | the first section of the code is the machine's Enter step |
| Barriers.WakeUpsAreSteps | l_builtin/src/cmd_barrier.rs:131-138 | each return from the condition variable is the machine's Wake or TimeOut step |
| Barriers.Barrier.Arrive | l_builtin/src/cmd_barrier.rs:94-101 | one arrival; only the last one broadcasts |
| Barriers.Barrier.Wait | l_builtin/src/cmd_barrier.rs:103-139 | the outcome in every case: satisfied before, last arrival, poll, first wakeup that finds satisfaction, first failing wait; and the fields as it leaves them at each wait, with the arrival recorded |
| Barriers.Barrier.Clear | l_builtin/src/cmd_barrier.rs:148-149 | count and satisfaction are cleared, the target stays |
| PackOrder.PackIsOrderIso | llib/src/intlookup.rs:116-132 | packing is an order isomorphism from strings that do not end in NUL, in lexicographic order, to integers |
| PackOrder.AliasesIff | llib/src/intlookup.rs:116-132 | two strings that fit have one key exactly when they differ in trailing NULs only |
| PackOrder.TrailingNulAliases | llib/src/intlookup.rs:116-132 | two such strings |
| PackOrder.OrPacksByte | llib/src/intlookup.rs:126-130 | each round of the packing loop puts the next byte on bits that are still zero |
| PackOrder.MaskIsBitwise | llib/src/intlookup.rs:259-261 | the bitwise mask is rounding down to a power of 256 |
| PackOrder.MaskIsMonotone | llib/src/intlookup.rs:258-272 | masking keeps the order of keys |
| PackOrder.MaskKeepsPrefix | llib/src/intlookup.rs:258-261 | a key masked to n bytes is the packed first n bytes |
| PackOrder.MaskTestsPrefix | llib/src/intlookup.rs:258-274 | equal masked integers are equal prefixes of the strings padded with NULs, for any bytes |
| PackOrder.NulFreePrefixes | llib/src/intlookup.rs:258-274 | without NULs those are prefixes, and one key is equality |
| PackOrder.UnpackInverts | llib/src/intlookup.rs:328-336 | the bytes of a packed string are the string |
| PackOrder.LengthRecovered | llib/src/intlookup.rs:135-147 | trailing zero bits give back the length of a packed string that does not end in NUL |
| IntLookups.PackLoop | llib/src/intlookup.rs:116-132 | the loop over the bytes, with bitwise or, computes the packed integer; the assertion fires exactly on the empty string |
| IntLookups.MaxLength | llib/src/intlookup.rs:57-69 | the longest key's length |
| IntLookups.Sort | llib/src/intlookup.rs:210-232 | the duplicate assertion fires exactly when two keys are equal; otherwise keys are strictly increasing, a permutation, each with its value |
| IntLookups.Descend | llib/src/intlookup.rs:215-227 | larger keys move up with their values until the place is found or an equal key is met |
| IntLookups.SortedIsLexicographic | llib/src/intlookup.rs:209-232 | sorted by packed key is sorted by string |
| IntLookups.IntLookup.Fill | llib/src/intlookup.rs:197-203 | both arrays hold the entries in order, unless a key is empty |
| IntLookups.IntLookup.New | llib/src/intlookup.rs:170-207 | a table is built exactly when it is not empty, no key is empty or too long, the width is not wasteful and no two keys are equal; it holds the given entries, whatever bytes the names are made of |
| IntLookups.NulFreeNamesDistinct | llib/src/intlookup.rs:218-221 | without NULs, keys are equal exactly when names are |
| IntLookups.InferredWidthFits | llib/src/intlookup.rs:72-195 | of the integer types a table can be built over the one that is inferred and no other, and with that one only empty keys and duplicates are refused |
| IntLookups.IntLookup.Lookup | llib/src/intlookup.rs:235-287 | for every query: a panic exactly if it is empty, None if it is too long, else the value of the name with its key, else that of the only name that it is a padded prefix of, else None |
| IntLookups.AnswersIff | llib/src/intlookup.rs:91-97 | on names without NULs that is the documented answer (exact name, else only name with the query as prefix) exactly if the query has no NUL, is too long, or pads no name |
| IntLookups.PaddedIsExact | llib/src/intlookup.rs:235-287 | in particular for every query without NULs |
| IntLookups.NulQueryIsAnswered | llib/src/intlookup.rs:235-287 | a table and a query for which it is not |
| IntLookups.AnswerIsUnique | llib/src/intlookup.rs:91-97 | the documentation determines the answer |
| IntLookups.OrderDoesNotMatter | llib/src/intlookup.rs:91-97 | and it depends on the entries only, not on their order in the table |
| IntLookups.MatchesFromLow | llib/src/intlookup.rs:262-285 | keys with the padded prefix are consecutive from the lower bound, and an exact match is the first |
| IntLookups.ExactIsFirst | llib/src/intlookup.rs:274-278 | an exact match is the least key with its prefix |
| IntLookups.DecideAnswers | llib/src/intlookup.rs:273-286 | the three tests after the search answer the query |
| IntLookups.IntLookup.LowerBoundOf | llib/src/intlookup.rs:262-272 | the masked binary search finds the lower bound |
| IntLookups.IntLookup.LookupBinarySearch | llib/src/intlookup.rs:298-312 | the halving search finds the key's value if and only if the key is there |
| IntLookups.IntLookup.Get | llib/src/intlookup.rs:322-339 | the idx-th original string in lexicographic order, without trailing NULs, with its value, None beyond |
| BashAlloc.RunSafe | l_builtin/src/bash_alloc.rs:72-88 | in every run of Rust's and bash's calls on one heap, for any raw addresses, each live block is aligned, inside its raw block, apart from all other blocks and all control bytes, and its control byte leads to its raw block; every raw block is bash's or that of one live block |
| BashAlloc.CallKeepsInv | l_builtin/src/bash_alloc.rs:72-88 | with alignments up to 256, alloc, realloc, dealloc and writes of Rust keep the heap's invariant |
| BashAlloc.NextKeepsInv | l_builtin/src/bash_alloc.rs:1-10 | so do bash's own allocations, frees and writes on the shared heap |
| BashAlloc.RunKeepsInv | l_builtin/src/bash_alloc.rs:72-88 | the invariant holds in every state of every run |
| BlockContents.RoomAsAsked | l_builtin/src/bash_alloc.rs:44-77 | from the calls alone: in every run Rust holds exactly the pointers that it was given and has not given back, and behind each there are as many bytes as the last alloc or realloc that returned it asked for, at the alignment asked for |
| BlockContents.ContentsKept | l_builtin/src/bash_alloc.rs:72-88 | and every byte that Rust stored there is still there, through all later calls of Rust and bash, and through reallocs between agreeing raw addresses |
| BlockContents.BashContentsKept | l_builtin/src/bash_alloc.rs:1-10 | the same for bash: its blocks are the ones that it asked for, of the size that it asked for, with the bytes that it stored, whatever Rust does |
| BashAlloc.RustLeavesBashAlone | l_builtin/src/bash_alloc.rs:1-10 | no call of Rust changes a byte or the size of a block of bash, or frees one |
| BashAlloc.DeallocFrees | l_builtin/src/bash_alloc.rs:79-82 | dealloc frees exactly that block's raw pointer |
| BashAlloc.UserBytesApart | l_builtin/src/bash_alloc.rs:50-56 | a byte that Rust may write is in one block only, and no control byte |
| BashAlloc.RecoveredIff | l_builtin/src/bash_alloc.rs:61-68 | the control byte leads back to the raw pointer exactly when the offset is below 256 |
| BashAlloc.ControlByteSuffices | l_builtin/src/bash_alloc.rs:16-22 | that is so at all addresses exactly for alignments up to 256 |
| BashAlloc.ReallocKeepsDataIff | l_builtin/src/bash_alloc.rs:84-87 | realloc keeps the common bytes, for all contents, exactly when old and new raw address agree modulo the alignment |
| BashAlloc.ReallocSafeIff | l_builtin/src/bash_alloc.rs:26-30 | over an allocator whose addresses are all multiples of a base, contents survive every move exactly for the alignments that divide the base |
| BashAlloc.LosingMove | l_builtin/src/bash_alloc.rs:84-87 | for every other alignment, an allowed move that loses a byte |
| BashAlloc.AvxMoveLosesData | l_builtin/src/bash_alloc.rs:26-30 | one with 32-byte alignment over addresses that are multiples of 16 |
| BashAlloc.AgreeingMoveKeepsData | l_builtin/src/bash_alloc.rs:84-87 | then every byte that both sizes cover is kept |
| BashAlloc.MaskFindsPointer | l_builtin/src/bash_alloc.rs:50-53 | the mask arithmetic on 64-bit words finds the one aligned address in reach |
| Bits.MaskClearsLowBits | l_builtin/src/bash_alloc.rs:52-52 | bitwise and with the complement of a power of two less one rounds down |
| BashAlloc.BashAllocator.AllocAligned | l_builtin/src/bash_alloc.rs:44-58 | the heap with the block moved and its control byte written, and the aligned pointer |
| BashAlloc.BashAllocator.Alloc | l_builtin/src/bash_alloc.rs:73-77 | the alloc step, for any power of two as alignment; from the pointer on there is room for the size asked for |
| BashAlloc.BashAllocator.Realloc | l_builtin/src/bash_alloc.rs:84-87 | the realloc step of the runs, from the raw pointer that the control byte gives; from the new pointer on there is room for the new size |
| BashAlloc.BashAllocator.Dealloc | l_builtin/src/bash_alloc.rs:79-82 | the dealloc step of the runs |
| IntStrs.SignedToIntStr | llib/src/intstr.rs:38-67 | every value of every signed width, minimum included, is printed in full as its decimal form, NUL-terminated |
| IntStrs.UnsignedToIntStr | llib/src/intstr.rs:69-91 | the same for unsigned widths |
| IntStrs.PrintMagnitude | llib/src/intstr.rs:47-58 | the loop ends because the value reached 0, with room left for a sign |
| IntStrs.RoomForDigits | llib/src/intstr.rs:3-6 | the log10 approximation leaves room for all digits, sign and terminator at 8, 16, 32 and 64 bits, and not a byte more |
| IntStrs.DecimalMeans | llib/src/intstr.rs:52-62 | the decimal form is canonical and parses back to the value |
| IntStrs.DecimalIsUnique | llib/src/intstr.rs:18-20 | it is the only canonical numeral of the value |
| ShellQuote.BuildEvalCommand | l_builtin/src/cmd_run.rs:7-26 | the words quoted and joined by single blanks, NUL-terminated |
| ShellQuote.QuotingRoundTrip | l_builtin/src/cmd_run.rs:34-38 | the shell reads back the same words in order, for all lists of NUL-free words, empty ones included |
| ShellQuote.BodyRead | l_builtin/src/cmd_run.rs:14-22 | inside the quotes every word is read verbatim, quotes included |

## Left out

- rkyv's own format: serialization is a parameter with the hypothesis `Codecs.Faithful`; serialization errors are not modelled.
- System calls, errno, EINTR retries, descriptor renumbering, permissions, creation of memfd and shared memory objects.
- First-time stamping of a header, which takes no lock, and `shm rm` while others use the store: the code does not protect against races there.
- Death of a process in the middle of a write or while it holds the rwlock, and I/O errors during a write.
- The 64-bit length of the bounded region is little-endian; the code uses the machine's own order.
- `sync`, `ls` and `info` of the shared variables: each is one closure or one read of the modelled store.
- Exclusiveness of the flags that select a store.
- What bash finds when it converts an array of one kind to the other, reading the table as a string, is an arbitrary string; that such a read may also crash is not modelled.
- An append after index 2^63 - 1 wraps around, as in a release build; a debug build panics there, and where `get` shifts a key of nothing but NULs by its whole width.
- Elements of the sort are unbounded integers in decimal; bash's reading of other numerals is not modelled.
- Printing the array and each range; forking, waiting and the threshold only restrict which worker of the pool runs when, and a worker's status is taken to be that of its `psort`.
- Variables live in one flat scope; readonly and invisible attributes are not modelled.
- DisjointWriters.InterleavingsAgree: the owner of an index is fixed during the run, as it is for workers that have been forked; ranges that pass from a worker to its children are covered by SortPool.
- Partitioning.SucceedsUnlessPair: which two elements a call comes to depends on where equal elements end up, which the contract of the partition leaves open.
- Timeouts are steps that may happen at any time; the time arithmetic is not modelled, and a failing mutex lock is not either.
- Addresses in BashAlloc's runs are unbounded; the in-place methods ask for addresses that fit 64 bits, as the code's arithmetic does.
- `lookup_linear`, which nothing calls, the iterators, and the fixed-size `unpack`.
- ShellQuote.QuotingRoundTrip: the tokenizer accepts plain words only; quoting with double quotes, expansions and operators, which the output never contains unquoted, are reported as not being plain words.
- Mutex, semaphore, poll, sockets, signals and the other thin wrappers, Lua, regular expressions, argument parsing and help texts.
