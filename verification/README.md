# A verified model of TecnicoFS, its message queue and its message broker

The repository holds a one-directory file system with hard and symbolic links (`fs/`), a bounded
producer-consumer queue (`producer-consumer/`) and a message broker (`mbroker/`) that keeps each message box
in a file of a second copy of the file system (`fs2/`). This project models the parts where the difficulty
lies and proves what they keep over every run or every interleaving. `dafny verify dfyconfig.toml` checks all
of it.

**The file system, sequentially.** `Directory` is the root directory as a vector of slots filled first-fit.
`Tfs` gives the tables of `fs/state.c` as one state, a global invariant, and each call of `fs/operations.c` as
a function from state to state. `FileSystem` is the program itself, a class over arrays whose methods scan and
update in place; every method is proved equal to its function in `Tfs`. `TfsInvariant` proves that every call
keeps the invariant. `AbstractFs` is what a client should see (names, byte sequences, cursors), and
`TfsRefinement` proves that every call on the tables is the call on that abstract file system. `LinkGraph` is
the theory of chains of symbolic links. `TfsRuns` holds the theorems over whole runs, `TfsWitnesses` the
runs that show its conditions to be needed, and `TfsOutcomes` says for each call exactly when it succeeds and what
the client then sees, in terms of path lengths, bytes and what is free. Table sizes and the block size are arbitrary throughout.

**The file system, concurrently.** `LockProtocol` models the lock acquisitions and the atomic accesses between
them for any number of threads; `LockOrder` is the general argument about locks taken in rising rank;
`LockProtocolProofs` has the invariant and the theorems over every interleaving. `RootOrder` keeps a journal of
the calls in the order in which they hold the root lock and says what each whole call does to the directory, the
inode vector and the link counts; `RootOrderProofs` proves that replaying the journal gives the tables of the
interleaved system, and `SerialCalls` that the calls of `Tfs` made one after another have just those effects.
`LockProtocolOutcomes` proves the absence of data races and what the calls do to the open-file table.

**The queue.** `PcQueue` is a transition system with one step per lock, unlock, test, update, park and
broadcast; waiting follows `pthread_cond_wait` of POSIX.1-2008, so a parked thread may also wake without a
broadcast. `PcQueueProofs` proves the FIFO law, linearizability and progress; `PcQueueProgress` proves exactly when a
call waits, and that a call which need not wait returns by its own steps.

**The broker.** `Framing` is the message log as bytes, with parsing as the independent reference. `BoxFile` is
the file under a box and its message loops, in place. `BoxLog` is the life of one box: any number of publisher
and subscriber sessions, each file call one step. `BoxLogProofs` proves prefix delivery; `BoxLogProgress` proves what
a session achieves by its own steps: admission, publication, delivery, the end of a session. `BoxTable`,
`BoxTableProofs` and `Broker` are the table of boxes over the fs2 directory, and its listing.

Two properties hold only under a condition, and the condition is proved exact:

- A cursor stays inside its file after `tfs_open` if and only if the open does not truncate a file on which
  another handle has a non-zero offset (`TfsInvariant.OpenKeeps`; `TfsWitnesses.TruncationWitness`
  is a run of a new file system where it fails). Past the end of a file `i_size - of_offset` would wrap.
- Creating a symbolic link keeps every chain of links finite if and only if the chain of its target does not
  end at the new path (`TfsRuns.SymLinkAcyclicIff`, and over runs `TfsRuns.AcyclicRunIff`;
  `TfsWitnesses.LoopWitness` is a run of a new file system where it fails). On a loop the recursion of `tfs_open`
  would never end. A caller that never links at a path some live link stores meets it (`TfsRuns.RunAcyclic`).

Where comments and code differ the model follows the code. `inode_delete` releases a block only when `i_size`
is positive, and a symbolic link has size 0, so each removed link keeps its block for good:
`TfsRuns.Conservation` counts exactly those. `write_message` accepts a message whose terminator did not fit.
`create_box` would report success without a slot; `BoxTableProofs.BoxSlotSufficiency` shows that it never
comes to that, whatever the block size, because the broker asks for as many inodes as it has slots.

## Model

| member | source | states |
|---|---|---|
| `Directory.SlotAgreement` | fs/state.c:381-388 | the clearing scan, which ignores inumbers and may meet arbitrary bytes in never-used slots, stops at the very slot the lookup found |
| `Directory.AddIff` | fs/state.c:409-434 | an entry can be added exactly for a name of 1 to 39 bytes while some slot is free |
| `Directory.AddEffect` | fs/state.c:408-435 | adding a new name keeps the directory invariant, extends the name map by exactly that name and adds one reference to exactly that inode |
| `Directory.ClearEffect` | fs/state.c:367-391 | clearing a name that a lookup finds never fails, keeps the invariant, removes exactly that name and one reference |
| `Directory.FindIffNamed` | fs/state.c:450-472 | a lookup succeeds exactly on the names of the directory, with the mapped inumber |
| `LinkGraph.BoundedHops` | fs/operations.c:116-137 | a chain of links that ends takes at most as many hops as there are links |
| `LinkGraph.AcyclicIff` | fs/operations.c:198-238 | one more link keeps all chains finite exactly when its target's chain does not end at its own path |
| `Tfs.LookupLive` | fs/operations.c:70-84 | a path that resolves names a live inode other than the root, has a proper name and fits a block |
| `TfsInvariant.InitInv` | fs/operations.c:26-45 | initialisation fails only without an inode or a block; otherwise the invariant holds, nothing is named or open, and only the root owns a block |
| `TfsInvariant.OpenFollowsChain` | fs/operations.c:116-137 | without creation, opening the head of a chain has the result and the effect of opening its last path, which is not a link |
| `TfsInvariant.OpenKeeps` | fs/operations.c:86-177 | an open keeps the core invariant, refuses to create through a link even on a loop, and keeps all cursors inside their files if and only if the truncation condition holds |
| `TfsInvariant.SymLinkKeeps` | fs/operations.c:184-246 | creating a symbolic link, or rolling it back at any point, keeps the invariant |
| `TfsInvariant.HardLinkKeeps` | fs/operations.c:248-301 | creating a hard link keeps the invariant |
| `TfsInvariant.UnlinkKeeps` | fs/operations.c:426-475 | unlinking keeps the invariant, so counts stay exact and no open file loses its inode |
| `TfsInvariant.WriteKeeps` | fs/operations.c:316-377 | writing keeps the invariant: owners hold pairwise distinct TAKEN blocks, sizes and cursors stay inside a block |
| `TfsRefinement.OpenRefines` | fs/operations.c:86-177 | an open is the abstract open: resolve the chain, truncate or create, put a cursor at the start or the end |
| `TfsRefinement.SymLinkRefines` | fs/operations.c:184-246 | a symbolic link adds one name for a node holding the path, or changes nothing a client can see |
| `TfsRefinement.HardLinkRefines` | fs/operations.c:248-301 | a hard link adds one more name for the same node, so every name shows the same bytes |
| `TfsRefinement.UnlinkRefines` | fs/operations.c:426-475 | an unlink removes the name, and the node with its last name; an open file is refused |
| `TfsRefinement.CloseRefines` | fs/operations.c:303-314 | a close removes exactly one cursor |
| `TfsRefinement.ReadRefines` | fs/operations.c:379-424 | a read returns exactly the slice of the file from the cursor and moves only that cursor |
| `TfsRefinement.WriteRefines` | fs/operations.c:316-377 | a write overwrites at the cursor what fits in a block; no other file and no other cursor changes |
| `TfsOutcomes.CreateOutcome` | fs/operations.c:153-177 | creating a new path yields an empty file exactly when 1 to 39 bytes follow the '/' and an inode and an entry are free, and a handle at its start exactly when a handle is free too; otherwise nothing changes |
| `TfsOutcomes.OpenOutcome` | fs/operations.c:139-152 | opening an existing file fails only for want of a handle; it is emptied if asked and the cursor is at its end or its start; other files and cursors are untouched |
| `TfsOutcomes.SymLinkOutcome` | fs/operations.c:184-246 | a symbolic link is made exactly when its target exists, its path is new and of proper length, and an inode, a block and an entry are free |
| `TfsOutcomes.HardLinkOutcome` | fs/operations.c:248-301 | a hard link is made exactly when its target is a file, its path is new and of proper length, and an entry is free |
| `TfsOutcomes.UnlinkOutcome` | fs/operations.c:426-450 | an unlink succeeds exactly when the path exists and no handle is on its file |
| `TfsOutcomes.WriteOutcome` | fs/operations.c:336-353 | a write takes as many bytes as fit and fails exactly when an empty file gets no block |
| `TfsOutcomes.ReadBack` | fs/operations.c:316-424 | what is written to an empty file is what a fresh open of any of its names reads |
| `TfsOutcomes.BadPath` | fs/operations.c:55-57 | a path that is not '/' and at least one byte is refused by every call, which changes nothing |
| `TfsRuns.StepKeeps` | fs/operations.c:86-475 | every call the code admits keeps the global invariant |
| `TfsRuns.StepRefines` | fs/operations.c:86-475 | every call returns what the abstract call returns and ends in its state |
| `TfsRuns.RunRefines` | fs/operations.c:316-424 | every run returns, call by call, what the abstract file system returns when it has exactly the free node, handle, slot and block that the tables have, and ends in its state |
| `TfsRuns.HandleLiveness` | fs/operations.c:444-450 | after every run an open handle is on a live, named, regular file, with its cursor inside |
| `TfsRuns.StepLeaks` | fs/state.c:318-320 | a call loses one block exactly when it removes a symbolic link or rolls one back at the directory step; a lost block stays lost |
| `TfsRuns.Conservation` | fs/state.c:281-285 | after every run the TAKEN blocks number one per owner, plus those lost before, plus exactly one per leaking call |
| `TfsRuns.LastNameDeletion` | fs/operations.c:452-470 | over any links and unlinks a file lives, with the same bytes, exactly while it has a name; afterwards its inode and its block are FREE |
| `TfsRuns.SymLinkAcyclicIff` | fs/operations.c:198-238 | a created symbolic link keeps the graph acyclic if and only if its target's chain does not end at the new path |
| `TfsRuns.UntargetedIsSafe` | fs/operations.c:198-238 | that condition holds whenever no live link stores the new path |
| `TfsRuns.AcyclicRunIff` | fs/operations.c:198-238 | chains are finite at every point of a run if and only if each symbolic link it creates meets the condition |
| `TfsRuns.CallerRunAllowed` | fs/operations.c:116-137 | if no link is created at a path that a live link stores, every open made during the run ends; nothing is assumed about chains |
| `TfsRuns.RunAcyclic` | fs/operations.c:116-137 | on such runs every open ends, the graph is acyclic at every point, and any path then resolves within the number of live links |
| `TfsWitnesses.LoopWitness` | fs/operations.c:198-238 | from a new file system: create a file, close it, link to it, unlink it and link its name back; every call succeeds and the graph then has a loop |
| `TfsWitnesses.TruncationWitness` | fs/operations.c:140-145 | from a new file system: create a file and write a byte; a truncating open then leaves the writer's cursor past the end |
| `FileSystem.FileSystem.InodeCreate` | fs/state.c:196-214 | the first-fit scan and the initialisation of a file or link, in place, equal the specification |
| `FileSystem.FileSystem.InodeCreateDirectory` | fs/state.c:249-275 | the directory case: takes inode and block and empties the slots, or gives the inode back when no block is free |
| `FileSystem.FileSystem.InodeDelete` | fs/state.c:301-327 | fails exactly on an invalid or FREE inumber; otherwise frees the inode, and its block only when the size is positive |
| `FileSystem.FileSystem.DataBlockAlloc` | fs/state.c:482-498 | takes the first FREE block or reports none |
| `FileSystem.FileSystem.DataBlockFree` | fs/state.c:506-522 | frees a block with a valid number and ignores any other |
| `FileSystem.FileSystem.AddToOpenFileTable` | fs/state.c:553-572 | registers the first FREE handle or reports none |
| `FileSystem.FileSystem.IsInOpenFileTable` | fs/state.c:635-654 | the scan finds a TAKEN handle on the inode if there is one |
| `FileSystem.FileSystem.FindInDir` | fs/state.c:450-472 | the scan returns what the directory specification finds |
| `FileSystem.FileSystem.AddDirEntry` | fs/state.c:408-435 | the scan fills the first free slot, refusing empty and over-long names |
| `FileSystem.FileSystem.ClearDirEntry` | fs/state.c:367-391 | the scan clears the first slot with the name, used or not |
| `FileSystem.FileSystem.CreateRoot` | fs/operations.c:38-44 | the root takes inode 0 and block 0, its slots are emptied, and the invariant holds |
| `FileSystem.FileSystem.Open` | fs/operations.c:86-182 | the recursive open in place equals the specification; the invariant survives if and only if the truncation condition holds |
| `FileSystem.FileSystem.SymLink` | fs/operations.c:184-246 | in place, with both rollbacks, equals the specification and keeps the invariant |
| `FileSystem.FileSystem.HardLink` | fs/operations.c:248-301 | in place equals the specification and keeps the invariant |
| `FileSystem.FileSystem.Close` | fs/operations.c:303-314 | in place equals the specification and keeps the invariant |
| `FileSystem.FileSystem.Write` | fs/operations.c:316-377 | in place equals the specification and keeps the invariant |
| `FileSystem.FileSystem.Read` | fs/operations.c:379-424 | in place equals the specification and keeps the invariant |
| `FileSystem.FileSystem.Unlink` | fs/operations.c:426-475 | in place equals the specification and keeps the invariant |
| `LockOrder.Progress` | fs/operations.c:86-475 | if every thread wants only locks above those it holds, following waits upwards reaches a thread that can go on |
| `LockOrder.NoWaitCycle` | fs/operations.c:86-475 | under the same condition no chain of waits closes |
| `LockProtocolProofs.ExecInOrder` | fs/operations.c:86-475 | after every access the rest of the call takes locks in rising rank and gives each one back before it returns |
| `LockProtocolProofs.ExecKeeps` | fs/operations.c:153-168 | every access keeps what the holder of the root lock relies on; accesses without the root lock leave directory, inode vector and counts alone |
| `LockProtocolProofs.ActKeeps` | fs/operations.c:86-475 | a call arriving, stepping or leaving keeps the whole invariant for all threads: compatible locks, scripts in rising rank, and exact counts up to what the holder of the root lock has under way |
| `LockProtocolProofs.LinkCountsExact` | fs/operations.c:288-295 | in every interleaving, whenever the root lock is free, names are distinct, entries name live inodes other than the root, and each live inode's count is its number of entries, at least one |
| `LockProtocolProofs.DeadlockFree` | fs/state.c:301-327 | in every interleaving no wait cycle arises, and while some call is under way some call can step |
| `LockProtocolProofs.ReturnsUnlocked` | fs/operations.c:462-474 | in every interleaving a call returns holding no lock, every access is made under exactly its locks, and the failing inode deletion inside unlink cannot happen |
| `LockProtocolOutcomes.WritersExclude` | fs/operations.c:86-475 | in every interleaving a lock held for writing is held by nobody else |
| `LockProtocolOutcomes.WaitsExactly` | fs/operations.c:86-475 | a thread can step unless the lock it wants is held by another, for writing or against its own wish to write |
| `LockProtocolOutcomes.RaceFree` | fs/operations.c:86-475 | in every interleaving two threads are never about to access the same part of the tables, one of them to write it |
| `LockProtocolOutcomes.OpenGoesOn` | fs/operations.c:101-152 | an open comes to the inode its name has, and then registers the file, follows the link or refuses to create through it |
| `LockProtocolOutcomes.RegisterOutcome` | fs/state.c:553-572 | registration takes a FREE handle and sets it to the file, or finds none, and the call returns |
| `LockProtocolOutcomes.UnlinkTestsHandles` | fs/state.c:635-654 | unlink goes on to clear the entry exactly when no TAKEN handle is set to the inode |
| `LockProtocolOutcomes.CreatedGoesOn` | fs/operations.c:163-177 | a file just named is registered, a link is not, and a name that cannot be added is rolled back |
| `LockProtocolOutcomes.IoOutcome` | fs/operations.c:316-424 | a read or write locks the inode its handle is set to, for reading or writing, and returns |
| `LockProtocolOutcomes.CloseOutcome` | fs/state.c:583-602 | a close frees its own handle and no other |
| `LockProtocolOutcomes.BeginsWithItself` | fs/operations.c:86-475 | every call begins with its own first access |
| `LockProtocolOutcomes.StepOutcome` | fs/operations.c:86-475 | a thread that can step takes its lock, gives back its top lock, makes its access, or leaves after its return |
| `LockProtocolOutcomes.InvokeOutcome` | fs/operations.c:86-475 | a call on C strings and on a handle that has been set is admitted, holding nothing |
| `RootOrderProofs.ExecCommits` | fs/operations.c:153-168 | each access under the root lock brings the call nearer to its whole sequential effect, reached when the lock is released |
| `RootOrderProofs.ActJournalKeeps` | fs/operations.c:86-475 | every action of every thread keeps the agreement of tables and journal |
| `RootOrderProofs.SerialOrder` | fs/operations.c:86-475 | in every interleaving, whenever the root lock is free, directory, inode vector and link counts are those left by the calls made one after another in root-lock order |
| `SerialCalls.StepTables` | fs/operations.c:86-475 | a call made alone has exactly the effect of its journal entry on directory, inode vector and link counts |
| `SerialCalls.RunReplays` | fs/operations.c:86-475 | a sequential run leaves the tables that replaying its entries leaves |
| `PcQueueProofs.ActKeeps` | producer-consumer/pcqueue.c:43-89 | every step of every call keeps mutual exclusion, the agreement of ring, size and indices with the log, and the history of returned calls |
| `PcQueueProgress.WaitsOnlyWhenBlocked` | producer-consumer/pcqueue.c:48-71 | in every interleaving a push gives way only on a full queue and a pop only on an empty one |
| `PcQueueProgress.TestOutcome` | producer-consumer/pcqueue.c:48-53 | at its test a call goes on exactly when there is room to put, or something to take, and otherwise to the wait |
| `PcQueueProgress.PushCompletes` | producer-consumer/pcqueue.c:53-65 | a push that finds room puts its element in last and returns by its own steps, whatever others hold, and every parked pop is then awake |
| `PcQueueProgress.PopCompletes` | producer-consumer/pcqueue.c:76-88 | a pop that finds something takes and returns the oldest element by its own steps, and every parked push is then awake |
| `PcQueueProgress.GivesWay` | producer-consumer/pcqueue.c:49-50 | a call that gives way releases the size and parks, changing nothing else |
| `PcQueueProgress.Enters` | producer-consumer/pcqueue.c:45-46 | with nobody inside, a call that begins or has been woken goes on to its test |
| `PcQueueProgress.Invoked` | producer-consumer/pcqueue.c:43-69 | a call that is invoked is at its first lock and changes nothing else |
| `PcQueueProgress.WakesSpuriously` | producer-consumer/pcqueue.c:48-52 | a parked call may wake without a broadcast, and then tests again |
| `PcQueueProofs.BoundedFifo` | producer-consumer/pcqueue.c:43-89 | in every interleaving the dequeued history followed by the ring from the tail is the enqueued history, and the size field is within 0 and the capacity; with the size lock free, size and head agree with the ring |
| `PcQueueProofs.Linearizable` | producer-consumer/pcqueue.c:43-89 | the log is a history of the sequential bounded FIFO; each returned call owns one event with its value, between its invocation and its return, in real-time order |
| `PcQueueProofs.MutexProgress` | producer-consumer/pcqueue.c:45-61 | while some call is not parked, some call that is not parked can step |
| `PcQueueProofs.NoMutexCycle` | producer-consumer/pcqueue.c:69-84 | a parked thread holds no mutex and no chain of mutex waits closes |
| `PcQueue.WrapIsMod` | producer-consumer/pcqueue.c:58 | the index wrap of the model is the remainder by the capacity |
| `Framing.ParseFrames` | mbroker/box.c:118-132 | parsing a log gives back the framed messages and the unfinished tail |
| `Framing.FramesParse` | mbroker/box.c:118-132 | every byte sequence is the frames of its messages followed by its tail |
| `Framing.AppendWrite` | fs2/operations.c:204-236 | a write at the end appends what fits, and what does not fit leaves the file full |
| `Framing.WriteMessageReturns` | mbroker/box.c:118-132 | write_message returns the length of the message, and -1 exactly when its bytes do not fit or an empty file gets no block |
| `Framing.WriteMessageAppends` | mbroker/box.c:118-132 | an accepted message is appended with its terminator, if that fits; a refused one leaves its beginning in a full block, or nothing |
| `Framing.RoundTrip` | mbroker/box.c:118-148 | messages that fit, empty ones included, are all accepted, the file becomes exactly their frames, and reading from the start returns exactly them and then fails |
| `Framing.ReadAllParses` | mbroker/box.c:137-148 | of any log a reader gets exactly the complete messages |
| `BoxFile.Handle.Write` | fs2/operations.c:186-243 | the copy into the block, cursor and size, in place, equal the write on the contents |
| `BoxFile.Handle.ReadByte` | fs2/operations.c:245-284 | a one-byte read returns the byte at the cursor and advances it, or nothing at the end of the file |
| `BoxFile.Handle.WriteMessage` | mbroker/box.c:118-132 | both writes and their error paths equal the specification |
| `BoxFile.Handle.ReadMessage` | mbroker/box.c:137-148 | the byte loop equals the specification and stops at the terminator or the end of the file |
| `BoxLogProofs.BodyWritten` | mbroker/box.c:119-124 | writing a message at the end of the log leaves it pending, or refused with the log intact up to a full block |
| `BoxLogProofs.EndWritten` | mbroker/box.c:126-131 | writing the terminator completes the message, or the block is full and the stored messages stay a prefix of the accepted ones |
| `BoxLogProofs.ActKeeps` | mbroker/mbroker.c:282-468 | every step of every session keeps the box invariant, and log and accepted list only grow |
| `BoxLogProgress.ParksIffCaughtUp` | mbroker/mbroker.c:420-424 | in every interleaving a subscriber at its test parks if and only if it has been sent every accepted message, and otherwise reads |
| `BoxLogProgress.Delivery` | mbroker/mbroker.c:424-443 | in every interleaving a subscriber that starts to read with an unsent complete message in the file sends exactly the next accepted message by its own steps |
| `BoxLogProgress.SessionEnds` | mbroker/mbroker.c:424-428 | one that starts to read with nothing complete left ends its session, and is counted out |
| `BoxLogProgress.ByteLoop` | mbroker/box.c:137-148 | the subscriber's byte steps are read_message |
| `BoxLogProgress.Publication` | mbroker/mbroker.c:348-361 | the steps of a publication leave contents, cursor, size and accepted messages as write_message and its return value say |
| `BoxLogProgress.PublisherAdmitted` | mbroker/mbroker.c:300-321 | once the mutex is free an idle box admits a publisher at the end of the file, and a busy one turns it away unchanged |
| `BoxLogProgress.MessagePublished` | mbroker/mbroker.c:330-361 | once the mutex is free the active publisher's next message, if it fits, is appended, accepted and counted by its own steps |
| `BoxLogProgress.Departure` | mbroker/mbroker.c:352-374 | after a refused message the publisher leaves and is counted out |
| `BoxLogProgress.Subscription` | mbroker/mbroker.c:398-416 | a subscriber is admitted at the start of the file and counted |
| `BoxLogProgress.EverythingDelivered` | mbroker/mbroker.c:417-458 | in every interleaving, once the mutex is free a subscriber between two messages sends by its own steps every complete message in the file, in order; if the block is not full it then parks, having been sent every accepted one |
| `BoxLogProgress.WokenReads` | mbroker/mbroker.c:422-424 | a subscriber that is woken takes the mutex back and starts to read |
| `BoxLogProgress.NoMoreRequests` | mbroker/mbroker.c:332-340 | without a further request the publisher leaves and is counted out |
| `BoxLogProgress.Arrives` | mbroker/mbroker.c:282-409 | a session that arrives is at its first step with nothing sent, and changes nothing else |
| `BoxLogProofs.PrefixDelivery` | mbroker/mbroker.c:417-458 | in every interleaving, with no limit on what is published, the messages sent to a subscriber are a prefix of those write_message accepted |
| `BoxLogProofs.SameOrder` | mbroker/mbroker.c:417-458 | of any two subscribers, one has been sent a prefix of what the other has |
| `BoxLogProofs.NothingMissed` | mbroker/mbroker.c:420-428 | a subscriber that finds nothing new, or meets the end of a file that is not full, has been sent every accepted message |
| `BoxLogProofs.SingleAppender` | mbroker/mbroker.c:300-321 | n_publishers is 0 or 1 and counts the registered sessions, n_subscribers counts the subscribed ones, and before each message the publisher's cursor is the file size |
| `BoxLogProofs.CursorBound` | fs2/operations.c:206-207 | on every run each cursor is at most the file size and the file size at most the block size |
| `BoxLogProofs.BoxSize` | mbroker/mbroker.c:357 | with the mutex free, box size is the accepted bytes with terminators, and equals the file size until the block is full |
| `BoxLogProofs.Run` | mbroker/mbroker.c:330-361 | over any interleaving the log and the accepted list only grow, and a full block stays as it is |
| `BoxTableProofs.CreateBoxKeeps` | mbroker/box.c:40-82 | a successful create fills the first free slot with a box of size 0 and no session, for a name that had none and has its file; a failed one changes no box; no file is lost |
| `BoxTableProofs.CreateBoxIff` | mbroker/box.c:40-82 | creating succeeds if and only if no USED box has the name, a handle is free, and the file exists or the name has 1 to 39 bytes and an inode and an entry are free; without a handle the file stays behind |
| `BoxTableProofs.DeleteBoxKeeps` | mbroker/box.c:92-113 | deleting succeeds exactly when the box exists, frees its slot and its file's inode, removes the name and nothing else, and never aborts |
| `BoxTableProofs.UnlinkFileKeeps` | fs2/operations.c:286-328 | unlinking a file that exists never fails, finds its inode TAKEN and leaves every other name alone |
| `BoxTableProofs.UsedInEntries` | fs2/state.c:349-359 | USED boxes are no more than directory entries, since they inject into them |
| `BoxTableProofs.SlotSuffices` | mbroker/box.c:67-77 | once the file of a new box has been opened, the slot search succeeds |
| `BoxTableProofs.BoxSlotSufficiency` | mbroker/mbroker.c:509-521 | over every run of serialized requests box_count is the number of USED boxes, at most the directory entries, and a create that got its file finds a slot |
| `BoxTableProofs.ListedInSlotOrder` | mbroker/mbroker.c:546-569 | each USED box is listed once, at the position given by the USED slots before it, with its name, size and session counts, and last_flag on the final record only |
| `BoxTableProofs.ListingRoundTrip` | manager/manager.c:92-111 | the receive loop collects exactly the records that were listed and leaves unread whatever follows |
| `BoxTable.GetBox` | mbroker/mbroker.c:581-591 | the first USED slot with the name, or none |
| `Broker.Broker.FindBox` | mbroker/mbroker.c:581-591 | the search loop equals its specification |
| `Broker.Broker.Create` | mbroker/box.c:40-82 | in place equals the specification and keeps the invariant |
| `Broker.Broker.Delete` | mbroker/box.c:92-113 | in place equals the specification and keeps the invariant |
| `Broker.Broker.List` | mbroker/mbroker.c:546-569 | the loop with its early exit sends exactly the listing |
| `Broker.Receive` | manager/manager.c:92-111 | the receive loop equals its specification |

## Left out

- Named pipes, signals, process exit, stdin and stdout, logging, and `tfs_copy_from_external_fs`: I/O. Pipes appear as sequences; a send that fails and a request that ends a session are free choices.
- `publisher/`, `subscriber/`, `utils/`, `protocol/` and the rest of `manager/`: thin clients and struct filling that would only add easy members.
- Fixed-size C buffers (the 40-byte buffer of `tfs_open`, the message and box-name buffers): names, targets and messages are NUL-free sequences; a NULL path behaves as the empty path, which the code rejects in the same way.
- Overflow of `size_t` when a write length is added to an offset: lengths are unbounded numbers.
- A root inode that is not a directory and a data block number out of range: the checks for them guard states the invariant excludes.
- The root directory's block as raw bytes: its slots are a typed vector with as many entries as fit the block.
- `insert_delay`, failure of `malloc`, creation and destruction of locks; `inode_create` re-initialises an inode's lock, which is taken to be unheld.
- Block ownership and handle liveness when calls overlap: `tfs_open` drops the root lock before it registers its handle, so both are stated for calls made one after another. In `LockProtocol` sizes and blocks are a free choice of branch; the journal of `RootOrder` records per call whether a block was free and whether the file was open.
- A client that passes a handle no open has returned is not admitted as a caller in `LockProtocol`; sequentially such handles are handled as the code does.
- Liveness: a parked producer, consumer or subscriber is not claimed to wake, since broadcasts are made without the waiter's mutex and the subscriber waits once instead of in a loop.
- Deletion of a box during a session: fs2 has no open-file check, so a run of `BoxLog` lasts from the creation of a box to its deletion without sessions.
- Concurrent creation and deletion of boxes: `get_box` and `box_count` are not synchronised, so `BoxTable` is about requests served one after another, with sessions at work between them.
- `Broker.Broker.Create`: the fs2 tables are values here, not arrays; the in-place directory scans are those of `FileSystem`, whose code fs2 shares. Other files' data blocks in fs2 are not modelled.
- Queue elements are numbers standing for pointers.
