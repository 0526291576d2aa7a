# Verified model of the mydocker runtime core

This project models the parts of mydocker whose correctness spans crashes, retries and
interleavings, and proves what they promise. Every module is named after what it models.

**The workload log** (`internal/logstore`). `FrameCodec` encodes and decodes frames;
`LogHistory` says what a sequence of frames looks like on disk and parses arbitrary bytes;
`LogFiles` is a file whose writes may be short, whose primitives may fail before or after
taking effect, and which knows what is on stable storage; `LogScan` is the one validating
pass; `LogStore` is the writer; `LogRecovery` holds the crash theorems; `LogPages` the
positions, pages and the daemon's checks on a page; `LogLifetime` whole lives of a log, with
failing closes and interrupted recoveries; `LogReader` interleaves one writer with any number
of readers, and the disk states of the store's appends and closes are steps of that writer. The crash model: synchronized bytes survive, any suffix of later
bytes may be lost, an unsynchronized run no longer than a commit marker may come back as
any bytes, and a truncation that was not synchronized may be undone.

**The lifecycle** (`internal/lifecycle`, `operation`, `domain`, `ownership`).
`ContainerAttempts` and `Sandboxes` are the aggregates with their mutators.
`LifecycleStore` keeps operations and whole aggregates, describes a transaction as one
operation write and one resource change and proves the invariants over every run of permitted
transactions; `LifecycleCoordinator` has the transactions themselves, each proved to be such a
step under exact conditions, those of the aggregates' mutators included; a coordinator carries
the run it has made, so every theorem about runs holds of it after any calls;
`LifecycleRuns` and `StartOrder` draw the consequences for host resources.

**The engine journals** (`internal/engine`). `Acquisition`, `RollbackCreate`,
`TeardownOrder` and `KillDeadline` are resumed from what is durable after a stop at any
point; providers are oracles that may fail with or without an effect. `IdentityProbe` is the
identity search of recovery and `KeyedLocks` the registry of keyed mutexes, as atomic steps
of any number of threads.

**The rest**. `NamespaceSession` is the join and restore stack over a kernel that may fail
after taking effect or report a success that did not happen. `LogBindings` is the registry of
log bindings with its revisions and epochs.

Objects that the source updates in place are classes, with methods proved against
specification functions; ghost traces record what happened so that the theorems can speak
of whole runs. A method that may stop at any point does so by returning early.

## Where the code does less than it says

- Removing an Attempt is described as preserving its terminal outcome
  (`internal/domain/model.go:821`). A valid Stopped pair takes any valid outcome that is not
  pending, an unknown one only with its condition, and keeps its outcome exactly when the same
  one is given (`RemovalKeepsOutcome`). Every such pair can be removed with another outcome
  (`RemovalMayChangeOutcome`); `ExitedBecomesKilled` is one with exit code 0 that becomes 137.
  No caller takes this edge: a delete drops the metadata of a Stopped pair, and the store
  refuses an Absent one (`internal/state/memory.go:265-267`).
- The completeness check of a delete compares length and membership. That is a one to one match
  exactly for an inventory that repeats no entry (`DistinctIffExact`). The store refuses records
  that repeat a provider and kind (`internal/state/memory.go:1246-1250`, `1317-1322`), so no
  stored inventory is affected.
- A kill whose intent recovery moved to `check_preconditions` can no longer be carried out: no
  call, watcher or restart signals or records the end of the process (`Run`). It stays active
  until a later restart finds a decided problem with its Container and fails it
  (`internal/engine/recovery.go:258-280`); a restart that finds none reports an error
  (`KillDeadline.Kill.Reconcile`). A call on a sound system ends a kill exactly from the intent, a signal or an
  observation (`KillContainer`); `StrandedKill` is the run that misses that.
- A writable open that finds a whole log does not synchronize it. `Open` says exactly when the
  log is durable afterwards, `DurableIffSynced` that a power failure can cost a readable log a
  frame exactly when some of it was not synchronized, and `ReadableFrameLost` is the case: a
  process killed between writing the last marker and synchronizing it. The frame becomes
  durable with the next append; the two-phase statement of `Append` assumes, and keeps, a log
  whose confirmed bytes are on stable storage (`Settled`).
- A deletion is meant to remove the log binding it captured. When an earlier deletion captured
  before that binding was made and unregisters first, it spares the newer binding but moves the
  epoch on, and the second deletion gives way to it (`OverlappingDeletionsKeepIt`).
  `CapturedIsRemoved` says exactly when the captured binding stays.

## Model

| member | source | states |
|---|---|---|
| `Bytes.EqualDigest` | internal/logstore/format.go:148-157 | the accumulating comparison is equality of two full-length digests, and refuses any other length |
| `Bytes.FromBigEndianInverts` | internal/logstore/format.go:32-46 | an integer within its field width is read back from its big-endian bytes |
| `Bytes.BigEndianInverts` | internal/logstore/format.go:71-112 | any bytes are the big-endian form of the integer read from them |
| `FrameCodec.EncodeFrame` | internal/logstore/format.go:24-61 | filling one buffer at offsets yields exactly length, complement, record digest, body and marker; a frame is refused with the first rule it breaks |
| `FrameCodec.Seal` | internal/logstore/format.go:55-59 | the record digest covers lengths and body and is repeated in the commit marker |
| `FrameCodec.Codec.EncodedLayout` | internal/logstore/format.go:24-61 | where each part of an encoding lies, that the record digest covers both lengths and the body, and that the marker repeats it |
| `FrameCodec.Codec.DecodeEncoded` | internal/logstore/format.go:64-121 | decoding an encoded body returns the frame |
| `FrameCodec.Codec.DecodedFields` | internal/logstore/format.go:64-121 | acceptance fixes every byte of a body: magic, schema, lengths, stream, reserved bytes, positions, digest and text |
| `FrameCodec.Codec.EncodeDecoded` | internal/logstore/format.go:64-121 | re-encoding any accepted body returns the same bytes |
| `FrameCodec.Codec.EncodingIsInjective` | internal/logstore/format.go:24-61 | two frames with one encoding are one frame |
| `LogHistory.HistoryOfAppend` | internal/logstore/store.go:366-381 | a confirmed history grows exactly by a valid frame with the next cursor and the next sequence of its stream |
| `LogHistory.FirstOfEncoded` | internal/logstore/store.go:310-365 | a complete encoding is read as its frame whatever follows it |
| `LogHistory.FirstOfPrepared` | internal/logstore/store.go:352-365 | after prepared data the marker alone decides: frame, torn tail at the end of the file, or corruption before it |
| `LogHistory.FirstOfCut` | internal/logstore/store.go:300-332 | bytes that stop inside an encoding are recognised as an unfinished append |
| `LogHistory.WholeIsEncoded` | internal/logstore/store.go:310-356 | whatever is read as a frame is exactly that frame's encoding, so no other bytes are accepted |
| `LogHistory.ParseOfImage` | internal/logstore/store.go:299-382 | scanning the concatenated encodings of a continuation adds exactly its frames |
| `LogHistory.ParsedIsImage` | internal/logstore/store.go:299-382 | for any bytes, what was read is a valid history and its encodings are exactly what was consumed |
| `LogFiles.WriteFull` | internal/logstore/store.go:262-277 | short writes are repeated until all is written; on refusal a front part was written and every disk state in between extends the old one by a front part |
| `LogFiles.ReadFullAt` | internal/logstore/store.go:412-431 | short reads are repeated; the answer is exactly the requested bytes or a failure |
| `LogScan.ReadHead` | internal/logstore/store.go:300-365 | prefix, body and marker are judged from what was read, in the order of the checks, and nothing beyond the accepted lengths is read |
| `LogScan.TruncateIncompleteTail` | internal/logstore/store.go:401-409 | success means the tail is gone and the shorter file is on stable storage |
| `LogScan.ScanFrames` | internal/logstore/store.go:299-382 | the loop keeps last cursor, last sequences and page equal to those of the history parsed so far, and stops with the error that parsing stops with |
| `LogScan.ScanFramePage` | internal/logstore/store.go:287-398 | the answer is the page, index and valid size of parsing the prefix; torn markers are accepted only on recovery, which leaves exactly the parsed frames; read-only scans change nothing |
| `LogScan.PageGrows` | internal/logstore/store.go:376-378 | the collecting condition of the loop builds exactly the requested page |
| `LogRecovery.FirstOfRemains` | internal/logstore/store.go:300-365 | how every possible remains of one interrupted append reads |
| `LogRecovery.RemainsRecover` | internal/logstore/store.go:287-409 | confirmed bytes followed by remains of one append are accepted and give the confirmed frames, plus the new one only when all of it is there |
| `LogRecovery.CrashRecovers` | internal/logstore/store.go:157-180 | a crash in any state of a two-phase append, with any suffix lost and any bytes in a torn marker, recovers exactly the confirmed history or that and the whole new frame |
| `LogRecovery.RemainsShrink` | internal/logstore/store.go:401-409 | recovery that is itself interrupted leaves remains of the same kind |
| `LogRecovery.CutKeepsWholeFrames` | internal/logstore/store.go:299-332 | any cut of the image of a history keeps every frame it wholly contains and is never refused |
| `LogStore.ParseOfHistory` | internal/logstore/store.go:299-382 | reading the encodings of a history returns it, clean and with nothing left over |
| `LogStore.CleanIffImage` | internal/logstore/store.go:299-382 | a log is read without leftover exactly when it is the concatenated encodings of a history |
| `LogStore.ScanAgreesWithIndex` | internal/logstore/store.go:198-202 | scanning the confirmed prefix always reproduces the writer's index, so the cross-check of a read never fires |
| `LogStore.WriteFrame` | internal/logstore/store.go:157-173 | data, synchronization, marker, synchronization, all of it under the commit lock: no marker byte is written before the data is on stable storage, in any failing run |
| `LogStore.Store.Append` | internal/logstore/store.go:125-182 | success confirms the one frame with the next positions; failure leaves history and index; a failure under the lock poisons; seen from outside, the commit lock is taken before the first byte, bytes only grow under it, and it is given back only with the whole frame synchronized, while a poisoned store keeps it; every disk state passed through is one of the two phases; on a sound system it fails only for the stated reasons |
| `LogStore.Store.Confirm` | internal/logstore/store.go:178-180 | cursor, sequence map and size advance together with the history and its image |
| `LogStore.Store.Read` | internal/logstore/store.go:185-204 | a read is the matching slice of the confirmed history or a cursor gap |
| `LogStore.Store.LastCursor` | internal/logstore/store.go:207-214 | the last cursor is the number of confirmed frames |
| `LogStore.Store.Close` | internal/logstore/store.go:217-238 | a poisoned store closes only after its file is the confirmed image again, on stable storage, and cut back under the commit lock it kept; otherwise closing leaves the file alone; closing lets both locks go |
| `LogStore.Open` | internal/logstore/store.go:36-114 | a writable open yields the parsed history and leaves exactly its image, cutting bytes only under the commit lock; a log that another store holds open is in use and untouched; on a sound system any other succeeds exactly when parsing met nothing but an unfinished tail; the store is settled exactly when a tail was cut, the log was empty, or what was found was already on stable storage |
| `LogStore.ReopenAfterCrash` | internal/logstore/store.go:92-113 | after a crash at any moment of an append, opening succeeds with exactly the confirmed frames, or those and the in-flight frame when its marker is intact |
| `LogLifetime.DurableIffSynced` | internal/logstore/store.go:92-113 | a power failure can cost a readable log no frame exactly when all of it has been synchronized |
| `LogLifetime.ReadableFrameLost` | internal/logstore/store.go:92-113 | the input on which an open reads a frame that a power failure then takes back |
| `LogLifetime.CrashedRecovers` | internal/logstore/store.go:92-113 | whatever a power failure leaves of a settled store, open or poisoned, recovers to one determined history, and so does every shorter image that keeps the confirmed bytes |
| `LogLifetime.PowerFailure` | internal/logstore/store.go:36-114 | after a power failure and any number of interrupted recoveries a new, settled store opens with exactly the confirmed frames, or those and the frame in flight when the first failure left all of it |
| `LogLifetime.CloseAndReopen` | internal/logstore/store.go:217-238 | a close that fails keeps a poisoned store open with its history; otherwise, after any number of failing openings, the reopened store has exactly the confirmed frames |
| `LogLifetime.Step` | internal/logstore/store.go:36-238 | each thing that can happen to a settled store, on a system that may fail, leaves a settled store whose history begins with the old one |
| `LogLifetime.Lifetime` | internal/logstore/store.go:36-238 | over any life of a log, with appends, closes and openings failing anywhere, power failures and interrupted recoveries, each history begins with every earlier one |
| `LogPages.CursorsCount` | internal/logstore/store.go:369-371 | cursors of a history are 1, 2, ..., n |
| `LogPages.StreamSequencesCount` | internal/logstore/store.go:372-375 | each stream carries the sequences 1, 2, ... without a gap |
| `LogPages.LastSequencesSum` | internal/logstore/store.go:379-380 | the last sequences of both streams sum to the last cursor |
| `LogPages.PageByCursor` | internal/logstore/store.go:376-378 | a page holds exactly the frames after the cursor up to the limit, in order |
| `LogPages.PagesRebuildHistory` | internal/logstore/store.go:184-204 | paging with any positive limit gives every frame once, in order |
| `LogPages.LogsAfter` | internal/daemon/logs.go:578-634 | accepted exactly when the limit is in range and every frame is valid, bound to the identity, increasing in cursor and contiguous per stream |
| `LogPages.OrderedPage` | internal/daemon/logs.go:600-634 | what the checks of single frames amount to for an accepted page: one identity, increasing cursors, and each stream counted on by one |
| `LogPages.PageIsInOrder` | internal/daemon/logs.go:613-632 | every page of a confirmed history passes those checks |
| `LogReader.AnswerIsScan` | internal/logstore/reader.go:95-99 | the snapshot's answer is the scan's answer when the file did not shrink |
| `LogReader.WriterInvKept` | internal/logstore/store.go:154-180 | in every writer step the file is the confirmed image plus what the lock holder has written |
| `LogReader.EarlierKept` | internal/logstore/store.go:217-238 | no writer step, truncating close or reopen moves bytes that were once confirmed |
| `LogReader.LockExcludes` | internal/logstore/reader.go:82-94 | the shared lock keeps the writer out while a reader looks at the size |
| `LogReader.InvKept` | internal/logstore/reader.go:59-100 | every step of the writer or any reader keeps the invariant |
| `LogReader.ReaderIsolation` | internal/logstore/reader.go:59-100 | in every interleaving a finished snapshot is the page of exactly the history confirmed when its size was captured |
| `LogReader.AppendRefines` | internal/logstore/store.go:154-180 | every disk state of an append of the store follows from the one before by a step of that writer: taking the lock, writing under it, publishing |
| `LogReader.CloseRefines` | internal/logstore/store.go:217-238 | so does every disk state of the close of a failed store |
| `LogReader.SnapshotGoesOn` | internal/logstore/reader.go:59-100 | a snapshot that has begun can always go on to its answer, whatever the writer is at |
| `LogReader.ReopensWithHistory` | internal/logstore/store.go:36-114 | a log whose writer is gone opens again with the same history once no reader looks at its size |
| `KeyedLocks.InvKept` | internal/engine/engine.go:261-281 | every interleaved step keeps counts, holders and registrations consistent |
| `KeyedLocks.DropIsSafe` | internal/engine/engine.go:275-278 | a count of zero under the registry mutex means no other thread has or waits for the entry |
| `KeyedLocks.MutualExclusion` | internal/engine/engine.go:261-281 | two threads never hold one key at once, for any number of threads |
| `KeyedLocks.OneEntryPerKey` | internal/daemon/service.go:128-147 | all threads at work on a key share the one registered entry |
| `KeyedLocks.RegisteredIffUsed` | internal/engine/engine.go:248-281 | with the registry mutex free, a key is registered exactly while it has waiters, holders or releasers, and its count is their number |
| `KeyedLocks.IdleLeavesNothing` | internal/daemon/service.go:55-67 | when all threads are idle no entry is left |
| `KeyedLocks.EntryNeverReplaced` | internal/engine/engine.go:276-278 | the comparison that guards deletion always finds the thread's own entry |
| `KeyedLocks.NeverStuck` | internal/engine/engine.go:248-281 | no deadlock: a thread that must wait waits for one that can move, the owner of the registry mutex or the holder of its own key |
| `LogBindings.LogRegistry.Register` | internal/daemon/logs.go:113-141 | publishes a source only where nothing is bound, with a fresh revision |
| `LogBindings.LogRegistry.RegisterAttempt` | internal/daemon/logs.go:144-183 | binds an owner once; the same owner again is accepted, another is refused |
| `LogBindings.LogRegistry.RegisterDiscoveredAttempt` | internal/daemon/logs.go:326-359 | publishes a scanned owner only under the epoch the scan began with |
| `LogBindings.LogRegistry.UnregisterAttempt` | internal/daemon/logs.go:188-216 | removes only the given owner's binding and advances the epoch, also when nothing is bound |
| `LogBindings.LogRegistry.Unregister` | internal/daemon/logs.go:219-236 | removes a binding and advances its epoch, or fails with nothing changed once the numbers are used up |
| `LogBindings.LogRegistry.CaptureRegistration` | internal/daemon/logs.go:239-261 | captures revision and epoch of one binding |
| `LogBindings.LogRegistry.UnregisterRegistration` | internal/daemon/logs.go:264-290 | removes the captured or a stale discovered binding, and nothing when the epoch moved on |
| `LogBindings.LogRegistry.AssignRevision` | internal/daemon/logs.go:293-303 | a binding takes the next revision, or the registry is exhausted and unchanged |
| `LogBindings.LogRegistry.AdvanceEpoch` | internal/daemon/logs.go:306-316 | an epoch moves to a number larger than any before |
| `LogBindings.InvKept` | internal/daemon/logs.go:113-359 | every operation keeps the registry invariant |
| `LogBindings.BoundAreRevised` | internal/daemon/logs.go:112-141 | bound identities are the disjoint union of sources and owners and equal the domain of revisions |
| `LogBindings.CaptureIsConsistent` | internal/daemon/logs.go:246-260 | the inconsistency a capture guards against never occurs |
| `LogBindings.UnregisterAdvances` | internal/daemon/logs.go:200-208 | exactly which operations advance an epoch |
| `LogBindings.StaleScanNeverPublishes` | internal/daemon/logs.go:388-396 | a scan begun before an epoch-advancing unregister never publishes, however late it ends |
| `LogBindings.OldOwnerRemovesNothingNewer` | internal/daemon/logs.go:200-207 | unregistering an old owner leaves any other binding |
| `LogBindings.DirectStaysDirect` | internal/daemon/logs.go:135-139 | a direct registration has a revision of its own and is never marked as discovered |
| `LogBindings.CapturedRemovesNothingNewer` | internal/daemon/logs.go:273-288 | a captured registration never removes a registration made directly after the capture |
| `LogBindings.AcceptedIsBound` | internal/daemon/logs.go:113-183 | an accepted registration leaves the identity bound to exactly the source or owner given; a refused one changes nothing |
| `LogBindings.FreshIsAccepted` | internal/daemon/logs.go:113-359 | of an unbound identity exactly the well-formed, safe and timely registrations are accepted |
| `LogBindings.WhatUnbinds` | internal/daemon/logs.go:188-290 | exactly which operations unbind an identity, its own deletions among them |
| `LogBindings.CapturedIsRemoved` | internal/daemon/logs.go:264-290 | over runs: a deletion leaves the binding it captured exactly when another one moved the epoch on without it; under the captured epoch it leaves the identity free unless a direct registration came since |
| `LogBindings.OverlappingDeletionsKeepIt` | internal/daemon/logs.go:273-288 | the run in which a deletion leaves what it captured |
| `NamespaceSession.Helper.Unshare` | internal/isolation/helper.go:133-142 | taints exactly on success |
| `NamespaceSession.Helper.Setns` | internal/isolation/helper.go:145-154 | taints exactly on reported success; only that kind of namespace may have moved; on a reliable kernel the thread is then where it was sent |
| `NamespaceSession.Helper.EnsurePrivateFS` | internal/isolation/helper.go:157-169 | success means the thread no longer shares its filesystem context, and moves no namespace |
| `NamespaceSession.Session.Capture` | internal/isolation/namespace.go:385-409 | keeps a descriptor of the namespace the thread is really in; on a reliable kernel exactly for a kind not captured yet |
| `NamespaceSession.Session.Join` | internal/isolation/namespace.go:414-465 | keeps: any captured kind off the stack is at its original, also after failed or lying joins; success means the target was read back; no mount namespace is joined with a shared filesystem context; on a reliable kernel it succeeds for every captured kind off the stack |
| `NamespaceSession.Session.Restore` | internal/isolation/namespace.go:468-499 | takes a kind off the stack only after its original was read back, and does so on a reliable kernel |
| `NamespaceSession.Session.CloseWithoutRestore` | internal/isolation/namespace.go:548-557 | closes each captured descriptor once |
| `NamespaceSession.Session.Close` | internal/isolation/namespace.go:502-534 | the closing call reports clean only with every captured kind back at its original, and does so on a reliable kernel; a later call changes nothing |
| `NamespaceSession.Begin` | internal/isolation/namespace.go:369-411 | captures every requested kind, or closes what it captured; on a reliable kernel different kinds are always captured |
| `NamespaceSession.JoinNamespaces` | internal/isolation/namespace.go:323-366 | joins in order and moves only captured kinds; success means the thread is in every target at once; on a reliable kernel any handles of different kinds are joined |
| `NamespaceSession.RunLockedHelper` | internal/isolation/helper.go:64-107 | whatever the action does, a thread goes back to the pool only in exactly the namespaces it came with, and on a reliable kernel it does whenever the action did not taint it; every descriptor opened meanwhile, also by a session that never began, was closed exactly once |
| `Domain.ValidateConditions` | internal/domain/model.go:948-960 | accepts exactly valid conditions of pairwise different kinds |
| `Domain.UpsertConditions` | internal/domain/model.go:973-982 | replaces a kind in place or appends it |
| `Domain.UpsertedMembers` | internal/domain/model.go:973-982 | exactly one condition of the kind results, all others stay |
| `Domain.WithoutMembers` | internal/domain/model.go:985-996 | exactly the conditions of other kinds stay |
| `Domain.PhasesGoRound` | internal/domain/phase.go:35-97 | both life cycles go round one phase at a time; a creating Sandbox may also vanish and an Attempt may stop from any active phase |
| `ContainerAttempts.Validate` | internal/domain/model.go:685-749 | accepts exactly the pairs that meet every identity, generation, phase, outcome and projection rule |
| `ContainerAttempts.ContainerAttempt.Transition` | internal/domain/model.go:752-775 | succeeds exactly when the edge, the outcome, the process and the evidence fit, and then moves phase and outcome, repeated in the Container; or changes nothing |
| `ContainerAttempts.ContainerAttempt.SetProcessIdentity` | internal/domain/model.go:778-797 | records an identity once; its closing check never fails |
| `ContainerAttempts.ContainerAttempt.SetStreams` | internal/domain/model.go:828-838 | exact success condition; its closing check never fails |
| `ContainerAttempts.ContainerAttempt.SetConditions` | internal/domain/model.go:842-857 | refused exactly when invalid or when an unknown outcome would lose its condition |
| `ContainerAttempts.ContainerAttempt.UpsertCondition` | internal/domain/model.go:860-868 | refuses only an invalid condition and touches no other kind |
| `ContainerAttempts.ContainerAttempt.ClearCondition` | internal/domain/model.go:871-880 | removes one kind; refuses exactly a bad kind or the evidence of an unknown outcome |
| `ContainerAttempts.ContainerAttempt.SetLastObservation` | internal/domain/model.go:883-896 | never goes back in event sequence; its closing check never fails |
| `ContainerAttempts.ChangesShow` | internal/domain/model.go:752-838 | each change of a pair shows in the fields it is for and in no other, on both sides |
| `ContainerAttempts.TransitionedIsValid` | internal/domain/model.go:752-775 | a pair that can move along an edge is valid there, so the closing check of a transition never fails |
| `ContainerAttempts.CanUpsert` | internal/domain/model.go:860-868 | to a valid pair any valid condition can be added, or put in the place of one of its kind |
| `ContainerAttempts.CanClear` | internal/domain/model.go:871-880 | a kind of condition can go exactly unless it is the evidence of an unknown outcome |
| `ContainerAttempts.RemovalKeepsOutcome` | internal/domain/model.go:800-826 | exactly which outcomes a valid Stopped pair accepts with its removal, that the removed pair is valid, and that the outcome survives only if the very same one is given |
| `ContainerAttempts.RemovalMayChangeOutcome` | internal/domain/model.go:819-823 | for every valid Stopped pair there is another outcome with which its removal is accepted and valid |
| `Sandboxes.Validate` | internal/domain/model.go:396-430 | accepts exactly the Sandboxes that meet every rule |
| `Sandboxes.Sandbox.Transition` | internal/domain/model.go:433-451 | succeeds exactly along an edge; its rollback is never taken |
| `Sandboxes.Sandbox.SetCurrentPair` | internal/domain/model.go:454-467 | exact success condition; its closing check never fails |
| `Sandboxes.Sandbox.ClearCurrentPair` | internal/domain/model.go:470-481 | clears exactly the pair it names; its closing check never fails |
| `Sandboxes.Sandbox.SetLastObservation` | internal/domain/model.go:484-496 | never goes back in event sequence; its closing check never fails |
| `Sandboxes.Sandbox.SetConditions` | internal/domain/model.go:499-513 | replaces all conditions or changes nothing |
| `Sandboxes.Sandbox.UpsertCondition` | internal/domain/model.go:516-524 | adds or replaces one kind and touches no other |
| `Sandboxes.Sandbox.ClearCondition` | internal/domain/model.go:527-536 | removes one kind and touches no other |
| `Sandboxes.ChangesAreValid` | internal/domain/model.go:433-536 | every edge, pair reference and list of valid conditions leaves a valid Sandbox valid |
| `Sandboxes.ChangesShow` | internal/domain/model.go:433-536 | each change of a Sandbox shows in the fields it is for and in no other |
| `LifecycleStore.InvKept` | internal/lifecycle/coordinator.go:255-294 | every permitted transaction keeps all lifecycle invariants |
| `LifecycleStore.OneActiveOperation` | internal/lifecycle/coordinator.go:127-135 | over every run no target has two active operations |
| `LifecycleStore.OutcomesAreImmutable` | internal/lifecycle/coordinator.go:275-294 | an operation is never forgotten or rebound, and once terminal never changes |
| `LifecycleStore.NewAtMostOnce` | internal/operation/resolve.go:112-129 | an ID resolves as new at most once over a run |
| `LifecycleStore.CreatingIffActiveCreate` | internal/lifecycle/failure.go:19-172 | a Sandbox or Attempt is Creating exactly while an active create targets it |
| `LifecycleStore.OneActiveAttempt` | internal/lifecycle/container.go:61-91 | at most one active Attempt per Sandbox, and its Sandbox exists and is Ready |
| `LifecycleStore.ReferencesHold` | internal/lifecycle/container.go:306-317 | no pair outlives its Sandbox, and a current reference names an existing pair of that Sandbox |
| `LifecycleStore.ActiveIsCurrent` | internal/lifecycle/container.go:61-91 | over every run the active Attempt of a Sandbox is the one the Sandbox names as current |
| `LifecycleStore.AfterShows` | internal/lifecycle/container.go:61-104 | what is stored after each kind of transaction, record by record, and that everything else stays |
| `LifecycleStore.AggregatesKept` | internal/lifecycle/container.go:61-91 | a transaction that stores valid aggregates keeps all stored ones valid, also a Sandbox it changes along with a pair |
| `LifecycleRuns.StagesAreHistory` | internal/lifecycle/checkpoint.go:90-101 | an active Linux start went through accepted checkpoints only |
| `LifecycleRuns.RunningOnlyInOrder` | internal/lifecycle/container.go:719-725 | a workload becomes Running only after attachment, gate release and observation were checkpointed, in that order |
| `LifecycleRuns.StartEndsOnlyInOrder` | internal/lifecycle/container.go:458-460 | recording the end of a start shows the same order |
| `LifecycleRuns.InventoriesAreAdopted` | internal/lifecycle/coordinator.go:298-310 | every inventory entry of every run was handed over by its create |
| `LifecycleRuns.PairForgottenOnlyWithProof` | internal/lifecycle/container.go:299-341 | a pair with an inventory disappears only through a delete whose durable releases cover all of it |
| `LifecycleRuns.SandboxForgottenOnlyWithProof` | internal/lifecycle/sandbox.go:300-336 | the same for Sandboxes |
| `LifecycleCoordinator.Coordinator.ResolveOperation` | internal/lifecycle/coordinator.go:111-184 | exactly when a request is new, resumed, replayed, mismatched, or rejected; a rejection by another active operation is stored, with the response it is answered with |
| `LifecycleCoordinator.Coordinator.BeginSandboxCreate` | internal/lifecycle/sandbox.go:14-99 | exact conditions and exact change, including the no-op on an equal Ready Sandbox |
| `LifecycleCoordinator.Coordinator.ConfirmSandboxTransition` | internal/lifecycle/sandbox.go:344-411 | phase, adopted inventory and terminal operation change together, exactly under the stated conditions |
| `LifecycleCoordinator.Coordinator.BeginSandboxStop` | internal/lifecycle/sandbox.go:114-175 | stops only a Ready Sandbox without an active Attempt |
| `LifecycleCoordinator.Coordinator.BeginSandboxRemove` | internal/lifecycle/sandbox.go:190-254 | intent only on a Stopped Sandbox without pairs, or without any Sandbox |
| `LifecycleCoordinator.Coordinator.ConfirmSandboxRemove` | internal/lifecycle/sandbox.go:257-341 | deletes metadata exactly when releases cover the inventory and no pair is left |
| `LifecycleCoordinator.Coordinator.BeginContainerCreate` | internal/lifecycle/container.go:14-104 | one new valid pair in a Ready Sandbox without an active Attempt, made current in the same transaction; the exact acceptance is that of identifiers and spec |
| `LifecycleCoordinator.Coordinator.ConfirmContainerTransition` | internal/lifecycle/container.go:705-787 | Created and Running are confirmed exactly under the stated stage, phase and verification and when the pair takes process, streams and phase; the pair stored has them |
| `LifecycleCoordinator.Coordinator.BeginContainerStart` | internal/lifecycle/container.go:119-164 | intent on Created, no-op on Running, refusal otherwise |
| `LifecycleCoordinator.Coordinator.BeginContainerDelete` | internal/lifecycle/container.go:182-249 | a Created Attempt is Stopped with the intent; absent metadata still gets an intent |
| `LifecycleCoordinator.Coordinator.ConfirmContainerDelete` | internal/lifecycle/container.go:252-346 | the pair goes and the Sandbox stops naming it exactly when releases cover the inventory |
| `LifecycleCoordinator.Coordinator.BeginRecordStopped` | internal/lifecycle/container.go:349-403 | terminal observation begins only on a Running Attempt |
| `LifecycleCoordinator.Coordinator.RecordStopped` | internal/lifecycle/container.go:790-895 | a Linux outcome needs its checkpointed observation, an abstract one may begin and end at once; accepted exactly when the pair takes conditions and outcome |
| `LifecycleCoordinator.Coordinator.RecordContainerStartTerminal` | internal/lifecycle/container.go:427-524 | exact conditions for ending a start, without Running for a workload that never ran and through Running for one that did |
| `LifecycleCoordinator.Coordinator.PlanKill` | internal/lifecycle/container.go:527-627 | a plan only for a verified Running Attempt, a no-op for a Stopped one |
| `LifecycleCoordinator.Coordinator.RecordKillStopped` | internal/lifecycle/container.go:630-702 | exact conditions for completing a kill, with those of the pair for conditions and outcome |
| `LifecycleCoordinator.Coordinator.FailSandboxCreateAfterRollback` | internal/lifecycle/failure.go:19-87 | the Creating Sandbox goes and its create fails in one step; an active create always finds it Creating |
| `LifecycleCoordinator.Coordinator.FailContainerCreateAfterRollback` | internal/lifecycle/failure.go:90-172 | the pair stays as Stopped history with the failure recorded, and its create fails in one step |
| `LifecycleCoordinator.Coordinator.ReconcileCondition` | internal/lifecycle/reconcile.go:59-157 | a condition is recorded or cleared by an operation of its own, over at once, exactly when the resource takes it and no operation is active |
| `LifecycleCoordinator.Coordinator.FailActiveOperation` | internal/lifecycle/reconcile.go:290-361 | ends exactly an active operation that is not a create, on a resource that takes the condition, which is stored with the failure |
| `LifecycleCoordinator.Coordinator.CheckpointOperation` | internal/lifecycle/checkpoint.go:58-130 | exactly which checkpoints are accepted: a well-formed request, never against the start order, on an existing resource that takes the condition; afterwards stage and progress are the given ones, and nothing of a finished operation changes |
| `LifecycleCoordinator.Coordinator.OneActive` | internal/lifecycle/coordinator.go:127-135 | whatever calls were made, no target has two active operations |
| `LifecycleCoordinator.Coordinator.CreatingIffCreate` | internal/lifecycle/failure.go:19-172 | whatever calls were made, a resource is Creating exactly while an active create targets it |
| `LifecycleCoordinator.Coordinator.TerminalStays` | internal/lifecycle/coordinator.go:275-294 | what was terminal at any earlier point of the run is still stored, unchanged |
| `LifecycleCoordinator.Coordinator.StoredIsValid` | internal/lifecycle/container.go:61-91 | whatever calls were made, every stored Sandbox and pair meets its whole invariant |
| `LifecycleCoordinator.EndedIsValid` | internal/lifecycle/container.go:468-482 | an accepted end of a start, through Running when the workload ran, leaves a valid Stopped pair with the given outcome and conditions and everything else as it was |
| `LifecycleCoordinator.NeverRanIsValid` | internal/lifecycle/container.go:222-224 | the move of a valid Created pair to Stopped with its delete is always accepted |
| `LifecycleCoordinator.FailedIsValid` | internal/lifecycle/failure.go:128-136 | every valid Creating pair takes the failure of its create and the move to Stopped, and then shows the failure among its other conditions |
| `LifecycleCoordinator.ConditionsFit` | internal/lifecycle/reconcile.go:88-117 | a change of conditions that the mutators accept keeps the resource valid, its phase, and every rule of the transaction |
| `LifecycleCoordinator.ConfirmsWhen` | internal/lifecycle/container.go:728-744 | exactly when a valid pair takes a confirmation: well-formed facts, a process recorded only once, and one there to run |
| `LifecycleCoordinator.ConfirmedIsValid` | internal/lifecycle/container.go:728-744 | the confirmed pair is valid and has the given process, streams and phase, and everything else as before |
| `LifecycleCoordinator.StopsWhen` | internal/lifecycle/container.go:849-854 | exactly when a valid pair takes a terminal record |
| `LifecycleCoordinator.EndsStartWhen` | internal/lifecycle/container.go:465-482 | exactly when a valid Created pair takes the end of its start |
| `LifecycleCoordinator.ConditionsShown` | internal/lifecycle/reconcile.go:88-117 | a change of conditions stores exactly that change, in a pair on both sides, and nothing else |
| `LifecycleCoordinator.FinishedAnswers` | internal/lifecycle/coordinator.go:111-184 | over every run the end that an operation stored, with its response, is what every later retry of the request finds |
| `LifecycleCoordinator.IntentResumes` | internal/lifecycle/coordinator.go:111-184 | a stored intent is resumed by the very same request and stays bound to it |
| `LifecycleCoordinator.JournalIsAccepted` | internal/lifecycle/checkpoint.go:58-130 | every journal of receipts and inverses that a create makes durable is one the checkpoint takes |
| `LifecycleCoordinator.HandedOverFromOne` | internal/lifecycle/coordinator.go:298-310 | receipts are handed over exactly when they all come from one owner |
| `StartOrder.OrderSoFar` | internal/lifecycle/checkpoint.go:133-151 | past the attachment a release right after one was recorded, past the release an observation |
| `StartOrder.StartOrdering` | internal/lifecycle/checkpoint.go:133-151 | reaching observation or later shows attach, release and observe in that order |
| `StartOrder.ConfirmedAfterOrder` | internal/lifecycle/coordinator.go:333-343 | so does every stage that confirmation accepts |
| `StartOrder.NoWayAround` | internal/lifecycle/checkpoint.go:142-149 | exactly which checkpoints a Linux start accepts |
| `Ownership.DescriptorRoundTrip` | internal/ownership/model.go:316-363 | a descriptor decodes exactly to the receipt and action it was built from, for any text format of receipts that reads back |
| `Ownership.DecodedIsInverse` | internal/ownership/model.go:340-363 | whatever decodes is the inverse descriptor of what it decodes to, up to how the receipt was written down |
| `Ownership.InverseIsTheAction` | internal/engine/checkpoint.go:182-197 | an action undoes a kind exactly when it is that kind's inverse, so nothing that can be undone is left without one |
| `Ownership.NameDecides` | internal/ownership/model.go:316-337 | a descriptor's name tells kind and local identifier apart |
| `Ownership.InverseApplies` | internal/engine/checkpoint.go:182-197 | a valid receipt has an inverse exactly when some action of its provider can undo it, and then gets its descriptor |
| `Ownership.ValidateJournal` | internal/ownership/model.go:385-427 | accepts exactly the one-owner prefix or the complete profile: valid receipts of the kinds in order, all of one owner |
| `Acquisition.InversesDecode` | internal/ownership/model.go:340-363 | the inverses of a journal decode to its actionable receipts, in order |
| `Acquisition.EveryReceiptIsUndone` | internal/engine/checkpoint.go:128-140 | every journaled resource that an action can undo has that inverse in the journal, decoding to it |
| `Acquisition.InversesOfKinds` | internal/engine/checkpoint.go:128-140 | each inverse is named after one of the receipts, starts unmarked, and no two share a name |
| `Acquisition.StagesAdvance` | internal/engine/container.go:577-618 | along a profile the recorded stages never go back |
| `Acquisition.JournalGrows` | internal/engine/checkpoint.go:128-140 | appending the next receipt with its inverse keeps the journal a one-owner prefix with matching inverses |
| `Acquisition.LastKindDiffers` | internal/engine/checkpoint.go:119-127 | the exact-retry test never mistakes the next acquisition for the last one |
| `Acquisition.Create.CheckpointReceipt` | internal/engine/checkpoint.go:100-145 | one durable write appends receipt and inverse together, or nothing; a reliable store takes every valid receipt |
| `Acquisition.Create.AcquireAll` | internal/engine/container.go:71-94 | from any durable journal an attempt only extends it and completes only with the whole profile, which on a system that works it always does; each acquisition is recorded under its own stage |
| `Acquisition.Create.Retry` | internal/engine/container.go:71-94 | any number of crashed attempts keep every journal that was ever durable a prefix with matching inverses, and one on a system that works completes |
| `Acquisition.Create.Adopt` | internal/lifecycle/coordinator.go:298-310 | confirmation hands over exactly the journaled receipts, adopted |
| `Acquisition.AdoptionCompletes` | internal/ownership/model.go:288-295 | what is handed over is a complete adopted profile of one owner |
| `RollbackCreate.RanKeepsMarks` | internal/engine/rollback.go:84-87 | an inverse runs only while it has no durable mark |
| `RollbackCreate.MarkMatches` | internal/engine/rollback.go:124-131 | a durable success and its mark go together |
| `RollbackCreate.Rollback.Checkpoint` | internal/engine/rollback.go:216-225 | progress is stored whole or not at all, and only a mark turns a record into a success |
| `RollbackCreate.Rollback.OneOwner` | internal/engine/rollback.go:241-255 | exactly when there are receipts and all share one valid owner |
| `RollbackCreate.Rollback.Undo` | internal/engine/rollback.go:88-131 | runs one unmarked inverse and records its success or one more failed attempt, changing no other record |
| `RollbackCreate.Rollback.UndoAll` | internal/engine/rollback.go:84-132 | one pass runs the rest in strictly decreasing order, every one of them on a reliable system, also after a failure |
| `RollbackCreate.Rollback.Finish` | internal/engine/rollback.go:133-181 | failure becomes durable only after every receipt was observed absent, each after the last inverse that ran; with working providers it does |
| `RollbackCreate.Rollback.Pass` | internal/engine/rollback.go:41-182 | succeeded inverses only grow, a marked one never runs again, and the primary cause is never replaced; on a reliable system every inverse left is tried, and with working ones the create is failed |
| `RollbackCreate.Rollback.Passes` | internal/engine/rollback.go:203-213 | the same over any number of crashed and resumed passes, each in decreasing order; a durable failure lasts and nothing runs after it |
| `TeardownOrder.ReceiptByKind` | internal/engine/engine.go:330-343 | finds a receipt exactly when there is only one of the kind |
| `TeardownOrder.ReleaseByKind` | internal/engine/cleanup.go:85-93 | exactly when a kind already has a release |
| `TeardownOrder.ValidateCompleteCleanupReleases` | internal/lifecycle/coordinator.go:313-330 | the loops decide exactly equal length and membership |
| `TeardownOrder.CoverIsBijection` | internal/lifecycle/coordinator.go:313-330 | equal length and membership are a bijection when the inventory has no duplicates |
| `TeardownOrder.CoversIffBijection` | internal/lifecycle/coordinator.go:313-330 | for a complete profile the check passes exactly on a bijection |
| `TeardownOrder.DistinctIffExact` | internal/lifecycle/coordinator.go:313-330 | the check by length and membership means one to one for every list of releases exactly when the inventory repeats no entry |
| `TeardownOrder.OrderCoversProfile` | internal/engine/container.go:181-192 | a complete profile has exactly one receipt of each kind in the order |
| `TeardownOrder.OrderUndoesProfile` | internal/engine/container.go:181-192 | what was acquired later is removed first, except that a process goes before the namespaces it holds |
| `TeardownOrder.Delete.CheckpointRelease` | internal/engine/checkpoint.go:210-246 | one proof is appended for the next kind of the order |
| `TeardownOrder.Delete.Attempt` | internal/engine/container.go:160-231 | releases stay the front part of the order, one per kind; an empty inventory stops at the first kind; on a reliable system what a create handed over is always deleted |
| `TeardownOrder.Delete.Retry` | internal/engine/sandbox.go:155-221 | over any crashed attempts metadata goes only with every removal proven, and on a reliable system it goes |
| `TeardownOrder.CompleteTeardownDeletes` | internal/lifecycle/checkpoint.go:259-272 | the check passes exactly when the last proof of the order is durable |
| `KillDeadline.SafeGrows` | internal/engine/container.go:262-336 | what each next event needs: no initial signal after its checkpoint, escalation only when due |
| `KillDeadline.DeadlineNeverChanges` | internal/engine/checkpoint.go:78-90 | the deadline is the first recorded delivery plus the grace period, for good |
| `KillDeadline.Kill.CheckpointKillSignal` | internal/engine/checkpoint.go:63-96 | delivery and deadline become durable together; an intent never finds another deadline |
| `KillDeadline.Kill.WaitForTerminalUntil` | internal/engine/container.go:526-556 | ends without a terminal fact only right after an observation and a clock reading at or past the deadline, and passes over no such moment |
| `KillDeadline.Kill.KillContainer` | internal/engine/container.go:234-353 | every call keeps the trace safe and a set deadline unchanged, and ends only on a terminal observation; on a reliable system it sends the initial signal of an intent, answers a deadline that passes in its wait with the stronger signal at once, and otherwise is done or still waiting; if the Attempt ends it ends the kill, exactly from intent, signal and observation; from check_preconditions it does nothing |
| `KillDeadline.Kill.Escalate` | internal/engine/container.go:317-336 | called only when due; on a reliable system the stronger signal is the next thing that happens |
| `KillDeadline.Kill.Pursue` | internal/engine/container.go:306-353 | after the delivery a call that did not end the kill escalated, or its wait stopped before the deadline |
| `KillDeadline.Kill.CheckpointInitialKill` | internal/engine/recovery.go:650-699 | looks again under the lock and signals only an intent without a delivery; on a reliable system the intent is then signalled and has its deadline |
| `KillDeadline.Kill.SynchronizeKillDeadlines` | internal/engine/watch.go:189-243 | deciding on an outdated listing is safe, and nothing happens to a kill that is over or at check_preconditions; on a reliable system an intent is signalled and a passed deadline pursued |
| `KillDeadline.Kill.CheckpointRecoveryIssue` | internal/engine/recovery.go:400-420 | only moves an intent to check_preconditions, and on a sound system it does |
| `KillDeadline.Kill.ReconcileActiveKill` | internal/engine/recovery.go:600-645 | startup recovery keeps the same safety, never revives an operation at check_preconditions, and on a reliable system signals an intent and pursues a passed deadline |
| `KillDeadline.Kill.FailActiveOperation` | internal/lifecycle/reconcile.go:290-361 | ends an active kill as failed, and sends nothing |
| `KillDeadline.Kill.Reconcile` | internal/engine/recovery.go:232-280 | a restart fails a kill only for a decided problem; from check_preconditions that is its only end |
| `KillDeadline.Kill.Run` | internal/engine/recovery.go:232-280 | any mixture of calls, watchers, restarts and recovery issues is safe and keeps the deadline; check_preconditions is never left by a signal or an end as a kill, and a kill is failed only by a restart with a decided problem |
| `KillDeadline.StrandedKill` | internal/engine/recovery.go:400-420 | a kill at intent reaches check_preconditions on a sound system, and a call then does nothing and leaves it active |
| `IdentityProbe.TooManyCandidates` | internal/engine/recovery.go:818-829 | a store within its limit cannot hold limit + 1 different candidates |
| `IdentityProbe.RecoveryOperationID` | internal/engine/recovery.go:778-831 | the last identity is used again exactly for this very request, otherwise the first candidate never used; probing fails only beyond the limit or with repeated candidates |
| `IdentityProbe.ProbedIdentityResolves` | internal/operation/resolve.go:112-129 | such an identity never meets a binding mismatch |

## Left out

- SHA-256, hexadecimal text and the character rules of identifiers are parameters; nothing proved depends on how they are computed.
- JSON encoding: stored responses are opaque text; how a rollback descriptor writes a receipt down is a parameter, assumed to read back what it wrote. Request fingerprints are opaque; equal create intent is compared field by field.
- Path, owner, link and mode checks of log files and of the runtime root; only the exclusive and shared commit lock is kept. The parent directory synchronization of an open is part of its nondeterministic failures.
- Events, observation timestamps and CAS revisions of lifecycle transactions: inside one transaction a revision just read always matches.
- The record checks a store makes on its own at commit; the invariants here hold without them. Retention and compaction of finished operations, so a stored identity is never forgotten.
- LogStore.Open: a commit lock that cannot be given back is assumed to stay held, and a waiting acquisition is not seen to wait for readers; LogReader has that.
- LogLifetime.Lifetime: a process that is killed while the system goes on, and reopens the unsynchronized file it left, is not a step of these lives; what that may cost is ReadableFrameLost.
- LogReader.ReaderIsolation: no process crash happens in these runs; crashes are treated in LogRecovery.
- KeyedLocks.NeverStuck: fairness is not claimed; a thread may wait for ever while others take turns.
- KillDeadline.Kill.KillContainer: that the workload ends is claimed only where every look finds it over; OOM attribution of the observed end is left out.
- NamespaceSession.RunLockedHelper: the mount and rootfs work of an action appears only through the taint it causes.
- RollbackCreate.Rollback.Finish: only journaled resources are inspected; an effect made just before a stop and never recorded is outside the journal.
- TeardownOrder.Delete.Attempt: removal of each resource by its provider is an oracle that returns a proof for the resource it was asked for.
- Acquisition.Create.AcquireAll: providers return receipts of the requested kind and owner; attachment, OOM baseline and preparation after the last receipt are left out.
- Host system calls, cgroup files, mounts, process handles, HTTP transport, command line, metrics and diagnostics text.
- Resource limit arithmetic, capability sets, signal names and other closed vocabularies.
