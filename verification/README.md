# NuraOS: verified core

A Dafny model of the parts of NuraOS whose correctness is hardest to see: the A/B rootfs update
protocol under power failure, the hash-chained provenance log, the service dependency resolver,
the seccomp filter compiler, the binary delta format, the per-client rate limiter, the agent's
streaming turn loop, the service supervisor, and a few smaller algorithms they lean on. Each
module follows one source component. Code that updates state in place is a class or a method
with loops, proved against a specification function or predicate; the laws are then lemmas about
that specification, quantified over every input or every run.

`dafny verify dfyconfig.toml` checks the whole project.

## Main results

- **Update protocol** (`Update`, `UpdateRuns`). Every disk write of every operation is recorded.
  A run is any sequence of updates, aborts, boot-time recoveries, rollbacks and record removals,
  each cut off after any of its writes. In every reachable state the active slot is readable and
  both slots hold a trusted complete image; while the record is kept the pre-update image is
  never altered, and rolling back a committed update restores it. A device driven through any
  such sequence is shown to produce exactly such a run.
- **Provenance log** (`SessionFiles`, `Provenance`, `ProvenanceWriter`). Every run of appends,
  rotations and reopenings leaves a log that the verifier accepts with the exact entry count if
  and only if there are at most 9999 session files; every number of files is reached by some run.
  When writes may fail, exactly which runs still leave an accepted log is decided, and the log
  says in any case exactly what was appended. The last hash fixes the whole log.
- **Resolver** (`StringOrder`, `Dependencies`, `CycleFinder`, `Resolver`). A plan is produced
  exactly when names are distinct, references closed and the graph acyclic. It is the unique
  least-name-first topological order, in the lexicographic order of names, whatever order the
  units came in. Every error comes with a
  genuine witness.
- **Seccomp** (`SeccompFilter`). The compiled program, run by a small classic-BPF interpreter,
  is given an exact meaning for allowlists of every length.
- **Delta** (`DeltaCodec`, `Delta`). The wire format round-trips in both directions. Applying a
  generated delta rebuilds the target exactly when the block size divides its length, the
  operation count fits in 32 bits and the copied blocks match; it fails otherwise, and never
  yields another image. A block is sent exactly if its digest does not occur in the source.
- **Rate limiter** (`RateLimiter`). Admissions in any window of any run are bounded by burst plus
  accrual, and the background cleanup is unobservable, each exactly when the burst admits a call
  and a stale bucket is always full. A client that keeps to the rate is never refused.
- **Turn loop** (`Stream`, `Turn`). Outcome, conversation, transcript and charged tool calls of a turn
  are functions of its inputs; about these it is proved that every tool request is answered once
  and in order with what its tool returned, that at most the budget of calls reaches a tool, and that usage is the sum over
  the provider's responses.
- **Supervisor** (`ServiceState`, `RestartLoop`, `ShellQuote`, `SeccompExec`). Transition logs are
  always valid paths; the trimmed crash window equals a window over all exits; quoting loses
  nothing, and argument passing exactly what is said below.

## Where the code and its description differ

The model follows the code. Each point below is proved, with its exact condition where there is one.

- An allowlist entry further than 255 places from the end of the list has its jump distance
  truncated to eight bits, so its call gets the default action unless it also occurs among the
  last 255 (`SeccompFilter.FilterMeaning`, `SeccompFilter.BoundIsTight`).
- Recovery assumes that an interrupted update never changed the active slot. Between the slot
  flip and the write of the committed record this is false (`UpdateRuns.FlipWindow`,
  `UpdateRuns.RecoveryAssumptionIff`).
- The refusal "abort it first" does not lead anywhere: an aborted record also refuses the next
  update (`UpdateRuns.OneUpdatePerRecord`). Aborting after a commit discards the means to roll back
  (`UpdateRuns.AbortForgetsCommit`). The state in a recovery result is always the aborted one.
- The applier speaks of trimming to the target length, but the padded last block of a target
  image is never trimmed (`Delta.ApplyGenerated`).
- From 10000 session files on, text order and numeric order of their names disagree
  (`ProvenanceWriter.AcceptedIffFourDigits`).
- The exit of a socket-activated unit is recorded only if the unit was being stopped; a unit that
  exits by itself goes on being reported as running (`ServiceState.SocketExitIff`).
- The trampoline's argument list carries the mode only together with a seccomp profile, so a unit
  confined by Landlock or dropped capabilities alone loses a configured mode; capability names
  with commas are split (`SeccompExec.ConfinementRecoveredIff`).
- A failed append has already taken its sequence number. The next append then breaks the log,
  unless the writer is reopened first; if the failed append had just rotated, reopening finds an
  empty file and does not help (`ProvenanceWriter.AcceptedIffNotLost`).
- A client limited to a burst below one is admitted once and then again after every cleanup
  (`RateLimiter.CleanupUnobservableIff`).
- The first restart delay ignores the maximum (`RestartLoop.BackoffCappedIff`).
- A negative maximum, and nothing else, makes the final slice of pruning panic (`History.Prune`);
  no caller passes one.
- The two date converters differ once the day count needs more than 32 bits (`Calendar.UnixToUtc`).

## Model

| member | source | states |
|---|---|---|
| `Update.Check` | services/internal/update/transaction.go:91-104 | with the digest of the staged image: passes exactly when every check the request asks for holds, a digest error exactly when the digest is wrong, a signature error exactly when only the signature is |
| `Update.EqualFoldIff` | services/internal/update/transaction.go:91-94 | digests are compared without regard to the case of letters, and to nothing else |
| `Update.SlotsMean` | services/internal/update/transaction.go:216-230 | without a slot file slot a is active, otherwise the named one; writing a slot changes that slot only |
| `Update.Device.SaveTx` | services/internal/update/transaction.go:194-205 | one atomic step to a disk that differs only in the record, or no step at all |
| `Update.Device.AbortTx` | services/internal/update/transaction.go:207-214 | the staged directory goes first, then the record becomes aborted; either may fail unnoticed; nothing else changes at any point |
| `Update.Device.Stage` | services/internal/update/transaction.go:79-85 | only staging changes, through a partial image, and at every write the slots and the active slot are as before the update; a failed staging is aborted |
| `Update.Device.Verify` | services/internal/update/transaction.go:87-112 | continues exactly when the request passes its checks; the health snapshot then names the slot active before the update; a rejected image is aborted; no write touches a slot |
| `Update.Device.Commit` | services/internal/update/transaction.go:114-133 | replaces the inactive image, flips, records, in that order; a failed replacement changes no slot and is aborted, a failed flip leaves the record as it was; every write is a safe crash point |
| `Update.Device.Proceed` | services/internal/update/transaction.go:79-136 | stage, verify and commit together: the answer exactly; every failure leaves the active slot alone and, before the commit, is aborted |
| `Update.Device.Apply` | services/internal/update/transaction.go:44-136 | the answer for every disk, request and set of faults; refusals write nothing; success means checked image, flipped slot and committed record; a failed update is left aborted with its staging removed; every write of every faulty or complete execution is a safe crash point; the fault-free steps exactly |
| `Update.Device.Abort` | services/internal/update/transaction.go:140-151 | succeeds unless the record is unreadable; the new disk for every record state and every failure |
| `Update.Device.CheckRecovery` | services/internal/update/recovery.go:29-60 | acts exactly on interrupted records, reports the aborted state, is an error exactly for unreadable or unknown records, and never touches a slot |
| `Update.Device.RollbackLastUpdate` | services/internal/update/recovery.go:65-89 | succeeds exactly for a committed record with a health snapshot whose slot can be written; only the active slot changes; which records there is nothing to roll back for |
| `UpdateRuns.RunsAreSafe` | services/internal/update/transaction.go:44-136 | in every state of every run: readable active slot, both slots trusted, record well formed |
| `UpdateRuns.Perform` | services/internal/update/transaction.go:44-151 | every write of every operation on a device is a step that runs allow |
| `UpdateRuns.Drive` | services/internal/update/transaction.go:44-151 | a device taken through any events, with any failures, each cut off after any of its writes, makes a run, and everything that was ever on its disk is safe |
| `UpdateRuns.PreUpdateSlotIsKept` | services/internal/update/transaction.go:44-136 | in every run that keeps the record, the pre-update image is unaltered and the device boots it or a checked new image |
| `UpdateRuns.RollbackRestores` | services/internal/update/recovery.go:65-89 | from any reachable committed state, rollback is possible and boots the pre-update slot with its pre-update image |
| `UpdateRuns.OneUpdatePerRecord` | services/internal/update/transaction.go:47-51 | once a record exists it exists in all later states, and every update is refused there |
| `UpdateRuns.RecoveryIsIdempotent` | services/internal/update/recovery.go:38-55 | a second recovery changes nothing; slots are untouched; an interrupted record becomes aborted and its staging is gone |
| `UpdateRuns.FlipWindow` | services/internal/update/transaction.go:121-129 | for each of the nine crash points of an update, what the next boot's recovery leaves: aborted with the new slot active at exactly one of them |
| `UpdateRuns.RecoveryAssumptionIff` | services/internal/update/recovery.go:43-55 | recovery leaves the pre-update slot active if and only if the active slot it finds is not the record's target |
| `UpdateRuns.AbortForgetsCommit` | services/internal/update/transaction.go:140-151 | aborting after a commit keeps the new slot active and makes rollback impossible |
| `SessionFiles.NamesSortNumerically` | agent/nura-core/src/provenance.rs:184-192 | session file names up to 9999 are ordered as text the way their numbers are |
| `SessionFiles.FiveDigitsSortEarly` | agent/nura-core/src/provenance.rs:237-239 | the name of file 10000 sorts before that of file 9999 |
| `SessionFiles.FirstName` | agent/nura-core/src/provenance.rs:155-164 | the first session file is session-0001.jsonl |
| `Provenance.SortedFiles` | agent/nura-core/src/provenance.rs:184-192 | the directory's names, each once, ascending |
| `Provenance.VerifyFiles` | agent/nura-core/src/provenance.rs:268-325 | the nested loop over files and lines gives the verdict of one check over all lines in listing order |
| `Provenance.VerifyChain` | agent/nura-core/src/provenance.rs:254-326 | the verdict depends only on the directory's contents: it is the check of its unique listing |
| `Provenance.CheckIff` | agent/nura-core/src/provenance.rs:268-325 | acceptance if and only if no line is garbage and the entries form a chain with consecutive numbers, linked and correctly hashed; the count is the number of entries |
| `Provenance.RejectedAtFirstBreak` | agent/nura-core/src/provenance.rs:268-325 | a rejection counts the entries accepted before the first line that breaks the chain, and that line breaks it for the reported reason |
| `Provenance.SameLastHashSameLog` | agent/nura-core/src/provenance.rs:65-78 | two non-empty chains with the same last hash are the same log, entry for entry, when the hash and the serialisation have no collision among them |
| `ProvenanceWriter.Scan` | agent/nura-core/src/provenance.rs:155-182 | finds the number and the hash of the last readable entry |
| `ProvenanceWriter.Writer.Open` | agent/nura-core/src/provenance.rs:137-152 | the writer's state after opening, for whatever the directory holds |
| `ProvenanceWriter.Writer.Append` | agent/nura-core/src/provenance.rs:195-235 | the writer's and the directory's new state, including rotation at the size limit and a failed write |
| `ProvenanceWriter.Writer.Rotate` | agent/nura-core/src/provenance.rs:237-247 | starts the next file and leaves number and hash alone |
| `ProvenanceWriter.ReopenKeeps` | agent/nura-core/src/provenance.rs:155-182 | reopening a sound log of at most 9999 files restores exactly the state the writer had |
| `ProvenanceWriter.RunsVerify` | agent/nura-core/src/provenance.rs:137-326 | in every state of every run that is not lost and has at most 9999 files, verification accepts and counts exactly the appends made |
| `ProvenanceWriter.LogSaysWhatWasAppended` | agent/nura-core/src/provenance.rs:195-235 | in every state of every run with at most 9999 files, whatever failed, the entries in listing order are the appended requests, one for one, field by field |
| `ProvenanceWriter.RotatedAtTheLimit` | agent/nura-core/src/provenance.rs:195-247 | every file but the latest has reached the size limit, and none had before its last line was written |
| `ProvenanceWriter.AcceptedIffNotLost` | agent/nura-core/src/provenance.rs:195-235 | with failing writes and at most 9999 files, the log is accepted if and only if no append followed a failed one without a reopening in between, and none at all one that had rotated |
| `ProvenanceWriter.FailedWriteBreaksLog` | agent/nura-core/src/provenance.rs:195-235 | one failed write and one more append leave a rejected log |
| `ProvenanceWriter.PastTheLimit` | agent/nura-core/src/provenance.rs:237-247 | once a run has 10000 files they are out of order in every later state |
| `ProvenanceWriter.AcceptedIffFourDigits` | agent/nura-core/src/provenance.rs:237-247 | in every state of every run without failed writes, the log is accepted if and only if it has at most 9999 files |
| `ProvenanceWriter.EveryCountIsReached` | agent/nura-core/src/provenance.rs:195-247 | every number of session files is reached by some run |
| `ProvenanceWriter.SomeRunIsRejected` | agent/nura-core/src/provenance.rs:237-247 | some run without failed writes leaves a rejected log |
| `StringOrder.InsertKey` | services/internal/resolver/resolver.go:144-154 | the inner loop of the insertion sort extends the sorted prefix by one and permutes |
| `StringOrder.SortStrings` | services/internal/resolver/resolver.go:144-154 | sorts in place: ascending in lexicographic order and a permutation |
| `StringOrder.LeIff` | services/internal/resolver/resolver.go:144-154 | the order is the lexicographic one: a string precedes those it is a prefix of and those that are larger where they first differ |
| `StringOrder.PrefixSortsFirst` | services/internal/resolver/resolver.go:144-154 | net precedes network |
| `StringOrder.SortedIsUnique` | services/internal/resolver/resolver.go:64-65 | two ascending lists with the same elements are equal, so the sort determines the queue |
| `Dependencies.AllDeps` | services/internal/resolver/resolver.go:96-106 | the unit's ordering and requirement dependencies, each once, in first-occurrence order |
| `Dependencies.DedupKeepsOrder` | services/internal/resolver/resolver.go:96-106 | dependencies are listed in the order of their first occurrences |
| `Dependencies.DepSetIff` | services/internal/resolver/resolver.go:96-106 | a unit depends on what it starts after and on what it needs |
| `CycleFinder.Search.Dfs` | services/internal/resolver/resolver.go:113-131 | the three-colour search: a find is a genuine path that closes on itself; otherwise the name is finished and path and invariant are restored |
| `CycleFinder.Search.VisitAll` | services/internal/resolver/resolver.go:117-127 | the same for a list of dependencies: all of them finished, or a genuine cycle |
| `CycleFinder.DetectCycle` | services/internal/resolver/resolver.go:109-141 | reports a cycle if and only if there is one; the report is genuine; otherwise a topological order exists |
| `Resolver.IndexUnits` | services/internal/resolver/resolver.go:26-32 | a duplicate is reported if and only if there is one, and names two different units |
| `Resolver.CheckReferences` | services/internal/resolver/resolver.go:35-41 | an unknown dependency is reported if and only if some reference leaves the set, and is such a reference |
| `Resolver.CountEdges` | services/internal/resolver/resolver.go:44-55 | every in-degree is the number of dependencies, and the dependants lists are the reversed edges |
| `Resolver.Seed` | services/internal/resolver/resolver.go:58-65 | the queue holds exactly the units without dependencies, each once, ascending |
| `Resolver.Tell` | services/internal/resolver/resolver.go:74-83 | after a unit is taken, in-degrees count the dependencies left and the queue is again exactly the ready units, ascending |
| `Resolver.TakeReady` | services/internal/resolver/resolver.go:67-84 | each position holds the least-named ready unit, and at the end nothing more is ready |
| `Resolver.Resolve` | services/internal/resolver/resolver.go:24-93 | a plan if and only if the units are resolvable; the plan is the least-name-first order; each error has its witness |
| `Resolver.PlanIsUnique` | services/internal/resolver/resolver.go:57-84 | permuting the input units never changes the plan |
| `Resolver.DependenciesComeFirst` | services/internal/resolver/resolver.go:67-84 | in every plan a unit comes after each of its dependencies |
| `Resolver.SmallestNameFirst` | services/internal/resolver/resolver.go:57-84 | of two units that could both be started, the plan starts the one with the smaller name |
| `Resolver.ShutdownPlan` | services/internal/lifecycle/manager.go:141-162 | stops the running units of the plan in reverse order |
| `Resolver.StopsTheRunning` | services/internal/lifecycle/manager.go:141-162 | exactly the running units of the plan are stopped |
| `Resolver.StopsInReverse` | services/internal/lifecycle/manager.go:141-162 | in the reverse of the order in which the plan lists them |
| `Resolver.ShutdownRespectsDependencies` | services/internal/lifecycle/manager.go:141-162 | each unit is stopped once, and never before a unit that depends on it |
| `SeccompFilter.BuildFilter` | services/internal/seccomp/bpf_linux.go:59-86 | the generated program, executed on any call, returns what its meaning says |
| `SeccompFilter.FilterMeaning` | services/internal/seccomp/bpf_linux.go:59-86 | for every length: foreign architecture killed, the last 255 entries allowed, everything else the default action |
| `SeccompFilter.FaithfulIff` | services/internal/seccomp/bpf_linux.go:59-86 | the filter implements the allowlist if and only if every entry occurs among the last 255; so always up to 255 entries |
| `SeccompFilter.BoundIsTight` | services/internal/seccomp/bpf_linux.go:71-78 | with 256 distinct entries the first one gets the default action |
| `SeccompFilter.ResolveNames` | services/internal/seccomp/bpf_linux.go:144-154 | the unknown names in order; if there are none, the number of every name in order |
| `SeccompFilter.UnknownConcat` | services/internal/seccomp/bpf_linux.go:144-154 | unknown names are reported in the order of the profile |
| `SeccompFilter.CompileProfile` | services/internal/seccomp/bpf_linux.go:93-117 | when each error happens (if and only if) and which names it lists; what the installed filter does with every call under every mode |
| `DeltaCodec.U16Inverse` | services/internal/delta/delta.go:117-145 | 16-bit big-endian writing and reading are inverse both ways |
| `DeltaCodec.U32OfBytes` | services/internal/delta/delta.go:117-145 | writing the 32-bit value read from four bytes gives those bytes |
| `DeltaCodec.U32ValueOf` | services/internal/delta/delta.go:117-145 | reading a written 32-bit value gives the value |
| `DeltaCodec.BigEndian` | services/internal/delta/delta.go:117-145 | numbers are ordered as their bytes are, first byte first |
| `DeltaCodec.ReadWrittenOp` | services/internal/delta/generate.go:87-105 | reading a written operation gives it back and consumes exactly its bytes if and only if its length fits in 32 bits |
| `DeltaCodec.WriteReadOp` | services/internal/delta/apply.go:124-161 | any bytes that read as an operation are its encoding followed by the rest |
| `DeltaCodec.OpLayout` | services/internal/delta/generate.go:87-105 | what stands at which offset of a written operation |
| `DeltaCodec.ReadOpErrors` | services/internal/delta/apply.go:124-161 | when reading an operation fails, and with which error |
| `DeltaCodec.ReadWrittenHeader` | services/internal/delta/generate.go:57-75 | reading a written header gives it back and consumes exactly its bytes |
| `DeltaCodec.WriteReadHeader` | services/internal/delta/apply.go:86-122 | any bytes that read as a header are its encoding followed by the rest |
| `DeltaCodec.HeaderLayout` | services/internal/delta/generate.go:57-75 | what stands at which offset of the 82-byte header |
| `DeltaCodec.ReadHeaderErrors` | services/internal/delta/apply.go:86-122 | when reading a header fails, and with which error |
| `Delta.SplitBlocks` | services/internal/delta/generate.go:109-125 | the loop computes the blocks of the image |
| `Delta.FullBlockMeans` | services/internal/delta/generate.go:107-125 | a block holds as much of the data as fits, then zeros |
| `Delta.FlattenBlocks` | services/internal/delta/generate.go:107-125 | the blocks joined are the image followed by the zeros that fill its last block |
| `Delta.NoPadding` | services/internal/delta/generate.go:107-125 | no zeros are added if and only if the block size divides the length |
| `Delta.BuildIndex` | services/internal/delta/generate.go:19-25 | the loop computes the index in which later blocks win |
| `Delta.IndexIsSound` | services/internal/delta/generate.go:19-25 | a digest found in the index is that of a source block, and the index holds the position of the last such block modulo 2^32 |
| `Delta.IndexIff` | services/internal/delta/generate.go:19-25 | the index holds the digest of every source block, and no other |
| `Delta.OpMeans` | services/internal/delta/generate.go:37-48 | the i-th operation is for target block i: a copy of the last source block with its digest exactly if there is one, and the block itself otherwise |
| `Delta.StatsMean` | services/internal/delta/generate.go:31-48 | copied is the number of target blocks whose digest occurs in the source, new are the others, each stored in full |
| `Delta.UnchangedIsCopied` | services/internal/delta/generate.go:37-48 | a delta between equal images stores no block |
| `Delta.BuildOps` | services/internal/delta/generate.go:37-48 | one operation per target block, with exact copy, data and byte counts |
| `Delta.WriteOps` | services/internal/delta/generate.go:77-82 | the loop writes the concatenated encodings |
| `Delta.Generate` | services/internal/delta/generate.go:13-85 | the delta file and its statistics for every block size, with the default one for non-positive sizes |
| `Delta.RunOps` | services/internal/delta/apply.go:48-69 | the operation loop computes the blocks of the stream in order, or the first error with its position |
| `Delta.FirstBadOperation` | services/internal/delta/apply.go:48-69 | an error is that of the first operation that cannot be read or names no source block, with its position |
| `Delta.Applied` | services/internal/delta/apply.go:29-84 | a rebuilt image always has the announced digest, and the source the announced source digest |
| `Delta.AppliedIff` | services/internal/delta/apply.go:29-84 | when each outcome of an application happens |
| `Delta.Apply` | services/internal/delta/apply.go:29-84 | the applier computes that result for all bytes, including every error |
| `Delta.OpReproducesBlock` | services/internal/delta/generate.go:37-48 | up to 2^32 source blocks, and without a collision among the blocks, every copied block is the target block it stands for |
| `Delta.ExecuteWritten` | services/internal/delta/apply.go:48-69 | executing any number of the written operations yields their blocks in order and counts them |
| `Delta.ApplyGenerated` | services/internal/delta/apply.go:29-84 | generate then apply rebuilds the target, with the generator's counts, if the block size divides its length, the operation count fits in 32 bits and the copied blocks match, and reports a failed application otherwise |
| `Delta.HugeBlocks` | services/internal/delta/generate.go:57-75 | with a block size of 2^32 or more, only a target as long as the truncated size can be rebuilt |
| `Delta.NeverAnotherImage` | services/internal/delta/apply.go:29-84 | whatever bytes arrive as a delta for a target, a rebuilt image is that target |
| `RateLimiter.Limiter.Allow` | services/cmd/gateway/ratelimit.go:43-62 | the bucket map afterwards and the answer: refill, cap, take; other clients untouched |
| `RateLimiter.Limiter.Cleanup` | services/cmd/gateway/ratelimit.go:64-77 | removes exactly the stale buckets |
| `RateLimiter.KeptIff` | services/cmd/gateway/ratelimit.go:64-77 | a bucket survives cleanup exactly if it was used within the stale span |
| `RateLimiter.LevelAfterStep` | services/cmd/gateway/ratelimit.go:43-77 | conservation: a step lowers a client's level by one if it admits that client, and otherwise not at all, if and only if it does not forget a bucket of that client which is not full |
| `RateLimiter.AllowedIffToken` | services/cmd/gateway/ratelimit.go:43-62 | a call is let through exactly when its client is unknown or has a token |
| `RateLimiter.RateBoundIff` | services/cmd/gateway/ratelimit.go:43-77 | in every window of every run a client's admissions are at most burst plus rate times the window, if and only if the burst is at least one and, with cleanup, the rate times the stale span reaches the burst |
| `RateLimiter.PacedIsNeverRefused` | services/cmd/gateway/ratelimit.go:43-77 | a client whose calls are far enough apart for a token to accrue is never refused, whatever others do and however often buckets are forgotten |
| `RateLimiter.CleanupUnobservableIff` | services/cmd/gateway/ratelimit.go:64-77 | cleanup changes no answer of any run if and only if the burst is at least one and the rate times the stale span reaches it |
| `Stream.Aggregator.Handle` | agent/nura-core/src/stream.rs:211-271 | after each event the collected text, calls and usage are those of all events so far |
| `Stream.MergeDelta` | agent/nura-core/src/stream.rs:226-247 | merging a fragment in place gives the calls of the extended event list |
| `Stream.MergeUsage` | agent/nura-core/src/stream.rs:248-261 | merging a report gives the usage of the extended event list |
| `Stream.TextConcat` | agent/nura-core/src/stream.rs:211-225 | the text of a stream is that of its token events, joined in order |
| `Stream.ArgumentsConcat` | agent/nura-core/src/stream.rs:226-247 | the arguments of a call are its chunks, joined in order |
| `Stream.NameIsLast` | agent/nura-core/src/stream.rs:226-247 | the name of a call is the last one announced for it |
| `Stream.UsageIsLast` | agent/nura-core/src/stream.rs:248-261 | each usage count is the last positive one reported |
| `Stream.CallsInOrder` | agent/nura-core/src/stream.rs:226-247 | calls appear in the order of their first events |
| `Stream.NamedConcat` | agent/nura-core/src/stream.rs:196-204 | dropping unnamed calls keeps the order of the others |
| `Stream.Collect` | agent/nura-core/src/stream.rs:196-204 | keeps exactly the calls with an identifier and a name, in order |
| `Stream.AggregateSync` | agent/nura-core/src/stream.rs:167-207 | the result for every stream: error, cancellation, early end and completion |
| `Stream.ResponseMeans` | agent/nura-core/src/stream.rs:167-207 | how a stream ends, and the stop reason or message taken from the item it ends at; everything before is handled |
| `Stream.ResponseCalls` | agent/nura-core/src/stream.rs:178-207 | the calls have distinct identifiers; each has all its argument fragments, and only its own, in arrival order; none is lost |
| `Turn.ToolBudget.Consume` | agent/nura-core/src/tool.rs:164-173 | charges one call exactly when one is left |
| `Turn.Call` | agent/nura-core/src/tool.rs:252-314 | a call is charged if and only if it is dispatched; the answer is the tool's, and a refusal names the first check that failed |
| `Turn.AssistantMessage` | agent/nura-core/src/turn.rs:240-259 | the text, if any, then one request per call in order with its parsed arguments |
| `Turn.AskedMeans` | agent/nura-core/src/turn.rs:240-259 | a text part first if there is text, then one request per call with its identifier, name and parsed arguments |
| `Turn.ExecuteTools` | agent/nura-core/src/turn.rs:262-320 | one result part per call, in order, each the answer under the calls charged before it; the transcript has each call followed by its result |
| `Turn.AnsweredMeans` | agent/nura-core/src/turn.rs:262-320 | a call that succeeds is answered with its output and no error, one that fails with its error and no output; a dispatched call with what its tool returned |
| `Turn.ToolRound` | agent/nura-core/src/turn.rs:221-230 | both messages and the transcript events exactly, and what is charged; requests and results pair up one for one |
| `Turn.RunTurn` | agent/nura-core/src/turn.rs:108-234 | the loop goes on exactly while passes continue and the first other pass decides; conversation, transcript, usage and charged calls are exactly those of the passes made |
| `Turn.VerdictIff` | agent/nura-core/src/turn.rs:124-219 | when each outcome happens, and the text, stop reason and message it carries |
| `Turn.ToolsReachTheModel` | agent/nura-core/src/turn.rs:221-230 | in every turn the i-th call of the k-th round is answered in that round's tool message, with what its tool returned |
| `Turn.TranscriptAt` | agent/nura-core/src/turn.rs:179-230 | in every turn the transcript has the k-th response and then each of its calls followed by the result the model was told |
| `Turn.ConversationIsPaired` | agent/nura-core/src/turn.rs:221-230 | in every turn each request is answered once, in order, by the message that follows |
| `Turn.SpentCountsDispatches` | agent/nura-core/src/tool.rs:164-173 | what a turn charges is the number of calls that reached their tool, which is at most the budget |
| `Turn.UsageIsReported` | agent/nura-core/src/turn.rs:174-177 | the usage of a turn is the sum of what the provider reported, whatever the tools did |
| `ServiceState.ServiceStatus.Move` | services/internal/lifecycle/state.go:90-107 | an allowed move is recorded and made, a refused one changes nothing |
| `ServiceState.AllowedByTarget` | services/internal/lifecycle/state.go:134-149 | from which states each state can be reached |
| `ServiceState.LogIsPath` | services/internal/lifecycle/state.go:90-149 | after every sequence of requests the log is an unbroken path of allowed moves to the current state |
| `ServiceState.HowItGotThere` | services/internal/lifecycle/state.go:134-149 | a service that left the inactive state was started, a running one was ready, and one that is inactive again was stopping |
| `ServiceState.SocketExitIff` | services/internal/lifecycle/manager.go:331-334 | the exit report is recorded if and only if the unit was being stopped, and ends in the inactive state if and only if it was stopping or inactive; otherwise nothing changes |
| `ServiceState.SocketExitWhileRunning` | services/internal/lifecycle/manager.go:263-334 | a socket-activated unit that starts and exits by itself is still reported as running |
| `RestartLoop.Run` | services/internal/lifecycle/manager.go:392-531 | goes on exactly while the policy restarts and nothing cancels it; every pause and delay; every report made, and from a startable state none refused; the state left behind |
| `RestartLoop.Supervise` | services/internal/lifecycle/manager.go:411-511 | one attempt, cancelled at any point or not: restart decision, crash-loop decision, reports and resulting state |
| `RestartLoop.PolicyMeans` | services/internal/lifecycle/manager.go:418-481 | which exits and failed starts each policy restarts |
| `RestartLoop.ActionsMean` | services/internal/lifecycle/manager.go:491-529 | every restart sleeps once, for some backoff, and every crash loop pauses once, for the configured time |
| `RestartLoop.SleepsFollowBackoff` | services/internal/lifecycle/manager.go:500-529 | each sleep is the backoff belonging to the number of sleeps since the last pause, so the initial one right after a pause |
| `RestartLoop.PausesAreApart` | services/internal/lifecycle/manager.go:491-510 | after a pause the next one takes at least as many further attempts as the limit says |
| `RestartLoop.TrimWindow` | services/internal/lifecycle/manager.go:491-498 | dropping leading times equals filtering by the window |
| `RestartLoop.InWindowConcat` | services/internal/lifecycle/manager.go:491-498 | the window is a filter that goes time by time |
| `RestartLoop.InWindowOfOne` | services/internal/lifecycle/manager.go:491-498 | it keeps a time exactly if it is at most a window old |
| `RestartLoop.TracksExit` | services/internal/lifecycle/manager.go:491-500 | the trimmed list counts the same as all exits since the last pause, none forgotten |
| `RestartLoop.BackoffStep` | services/internal/lifecycle/manager.go:522-529 | the double-and-cap step computes the next term of the closed form |
| `RestartLoop.BackoffCappedIff` | services/internal/lifecycle/manager.go:522-529 | every delay is the doubled initial one capped at the maximum if and only if the initial one does not exceed it |
| `ShellQuote.ShellJoin` | services/internal/lifecycle/manager.go:659-666 | the line splits, by shell rules, into exactly the executable and its arguments |
| `ShellQuote.WordsOfJoin` | services/internal/lifecycle/manager.go:659-666 | splitting inverts joining for all non-empty word lists, whatever characters they hold |
| `SeccompExec.WrapWithSeccomp` | services/internal/lifecycle/seccomp_linux.go:19-42 | an unconfined unit is left alone; otherwise the trampoline's parser gets back what was passed |
| `SeccompExec.ParseSeccompExecArgs` | services/cmd/nura-manager/subcmd/seccompexec.go:84-126 | the loop computes the parse of every argument list, with every error |
| `SeccompExec.ParseDocumented` | services/cmd/nura-manager/subcmd/seccompexec.go:15-17 | the documented form gives each setting from its own flag, and the command |
| `SeccompExec.ParsePrinted` | services/cmd/nura-manager/subcmd/seccompexec.go:84-126 | parsing what the wrapper prints gives the confinement and the command back, or the missing-command error |
| `SeccompExec.SplitJoinIff` | services/internal/lifecycle/seccomp_linux.go:37-39 | splitting at commas inverts joining if and only if no item contains one |
| `SeccompExec.ConfinementRecoveredIff` | services/cmd/nura-manager/subcmd/seccompexec.go:84-126 | profiles and command always survive; the capability list does if and only if no name contains a comma; the mode if and only if there is a seccomp profile or it is the default |
| `SeccompExec.ModeIsLost` | services/internal/lifecycle/seccomp_linux.go:27-33 | a unit confined by Landlock only, in log mode, is run in enforce mode |
| `Calendar.YearInEra` | agent/nura-agent/src/tools/time_now.rs:60-65 | the division formula finds the year whose days contain the given day of the 400-year era |
| `Calendar.CivilFromDays` | agent/nura-agent/src/tools/time_now.rs:60-69 | the result is a valid Gregorian date with the given day number, for every day a 64-bit second count reaches |
| `Calendar.TimeNowCorrect` | agent/nura-agent/src/tools/time_now.rs:53-72 | the result is a valid time with exactly the given number of seconds since 1970 |
| `Calendar.SubtractDays` | agent/nura-core/src/provenance.rs:85-107 | the year and month subtraction loops find the valid date with the given day number |
| `Calendar.UnixToUtc` | agent/nura-core/src/provenance.rs:81-117 | the time it prints, with the 32-bit day count; it prints what the other converter prints if and only if the day count fits in 32 bits |
| `Calendar.DateIsUnique` | agent/nura-core/src/provenance.rs:81-117 | a valid date is determined by its day number |
| `Calendar.TimeIsUnique` | agent/nura-core/src/provenance.rs:81-117 | a valid time is determined by its second number |
| `Calendar.FormatInjective` | agent/nura-agent/src/tools/time_now.rs:71 | different valid times print differently, also with years of more than four digits |
| `Calendar.FormatPositions` | agent/nura-agent/src/tools/time_now.rs:71 | which field and which separator stands at which position of the text |
| `Text.ValueOfPadded` | agent/nura-core/src/provenance.rs:108-116 | zero-padded decimal text reads back as its number, for every width |
| `History.Prune` | services/internal/history/history.go:230-255 | panics exactly for a negative maximum; otherwise the slice left in the array is the pruned list |
| `History.FilterInPlace` | services/internal/history/history.go:239-249 | compaction over the same array keeps what dropping the first ordinary entries keeps |
| `History.StableSorted` | services/internal/history/history.go:235-237 | the stable sort's result is chronological |
| `History.StablePermutes` | services/internal/history/history.go:235-237 | and a permutation |
| `History.StableIsStable` | services/internal/history/history.go:235-237 | and keeps the order of entries with equal timestamps |
| `History.PruneKeeps` | services/internal/history/history.go:230-255 | exactly the maximum is left: all known-good entries and the newest ordinary ones, or the newest known-good ones when those alone are too many |
| `History.PruneSorted` | services/internal/history/history.go:230-255 | what is left is chronological |
| `History.KnownGoodOutlivesOrdinary` | services/internal/history/history.go:230-255 | while an ordinary entry survives, no known-good entry is removed |
| `History.Add` | services/internal/history/history.go:69-86 | adds, then prunes to the effective maximum, which is never exceeded |
| `Breaker.CircuitBreaker.Allow` | services/internal/circuitbreaker/breaker.go:115-120 | the new state, and an answer that is no exactly in the open state |
| `Breaker.CircuitBreaker.Record` | services/internal/circuitbreaker/breaker.go:124-157 | the new state for every state and outcome |
| `Breaker.CountersMean` | services/internal/circuitbreaker/breaker.go:124-171 | after every history the counters are the trailing outcomes since the last state change |
| `Breaker.ChangesExactly` | services/internal/circuitbreaker/breaker.go:124-171 | each state change happens if and only if the outcomes since the last one call for it |
| `Breaker.RefusedWhileOpen` | services/internal/circuitbreaker/breaker.go:115-171 | whatever happens during the open period, the circuit stays open and requests are refused until it ends, and not after |
| `Breaker.CountersCount` | services/internal/circuitbreaker/breaker.go:159-162 | the cumulative counters are the number of successes and the number of failures recorded |
| `Breaker.Defaults` | services/internal/circuitbreaker/breaker.go:63-82 | settings that are not positive mean three failures, two successes and thirty seconds |
| `Context.NewestThatFit` | agent/nura-core/src/context.rs:107-118 | the longest run of newest messages that fits; overflow exactly at the largest budget with a larger total |
| `Context.AssembleContext` | agent/nura-core/src/context.rs:89-123 | all system messages, then the longest recent run that fits the rest; within the limit if and only if the system messages are; exactly when a 32-bit sum overflows |
| `Context.WithRoleConcat` | agent/nura-core/src/context.rs:90-96 | selecting by role keeps the order of the conversation |
| `Context.EstimateIsCeiling` | agent/nura-core/src/context.rs:13-30 | four bytes to a token, rounded up, and four tokens for the frame |
| `Context.SizeOfOne` | agent/nura-core/src/context.rs:13-27 | what each kind of part contributes |

## Left out

- Update.Device.AbortTx: removing the staged directory either succeeds or changes nothing; the audit log and the timestamps of records are not modelled.
- Delta.HugeBlocks: gives a necessary condition only; whether such a target is rebuilt also depends on where its block occurs in the source.
- Delta.OpReproducesBlock: beyond 2^32 source blocks index entries wrap, and copies match or not depending on the images; digests are assumed free of collisions among the blocks at hand.
- Provenance.SameLastHashSameLog: the hash is any 64-character function without collisions among the two logs; SHA-256 and JSON themselves are not modelled.
- ProvenanceWriter.AcceptedIffNotLost: a failed write leaves nothing in the file, so torn lines are not covered, and no digest is all zeros; past 9999 files only runs without failed writes are decided.
- ProvenanceWriter.Writer.Append: overflow of the 64-bit sequence number is not modelled.
- RateLimiter.Limiter.Allow: time and tokens are real numbers; floating-point rounding is not modelled.
- RateLimiter.RateBoundIff: rates and stale spans are not negative.
- Stream.MergeUsage: 32-bit overflow of token counts is not modelled; neither is the threaded form of the aggregator.
- Turn.Call: the tool thread and its timeout are one arbitrary outcome per call; schema validation and argument parsing are arbitrary functions.
- RestartLoop.Run: reports carry one arbitrary timestamp, and their texts are shortened; 64-bit overflow of durations and cgroups are not modelled.
- RestartLoop.BackoffCappedIff: negative initial delays are not covered.
- Context.AssembleContext: strings are sequences of bytes, and a JSON value is known by its compact text.
- History.Add: identifiers and timestamps filled in by the clock are inputs; listing and rolling back to an entry are not modelled. The library's stable sort is taken as its specification.
- Two update operations running at the same time on one device: runs here are sequences of operations.
- Ed25519, SHA-256, TOML and JSON encodings appear only as arbitrary functions.
- HTTP handlers, server-sent events, provider adapters, metrics, the command line and mDNS parsing: input and output with little state.
- Landlock, namespaces, cgroups, prctl, the clock chip and the watchdog: effects of the kernel.
- Model pool waiting, readiness gating of the start plan, journal, disk reclaim, redaction, routing and self-test: would add only easier members.
