# Verification of little-db

little-db is a Bitcask-style store. Every write is appended to the active segment file; an in-memory keydir says, for
each live key, in which segment and at which byte its value is; a manifest names the live segments and the active one;
a compactor copies the live values of sealed segments into one merged segment, while a single writer goroutine goes on
writing, and hands its result to that writer as a commit. This project models the engine, its recovery and the range
part of its network protocol in Dafny and proves what they promise.

`dafny verify dfyconfig.toml` checks everything.

## How it is built

1. **The machine.** `Engine` is a state machine whose labels are the steps between which another goroutine may run, the
   process may end or the host may stop: the writer's (write, sync, the steps of a rotation, the steps of a commit), the
   compactor's (choose the inputs, take an id, one lookup, sync of the merged file, abort), a host crash followed by Open
   and the end of the process followed by Open. A state holds the running engine (`View`: segments as lists of records,
   keydir, clock, and the plain map it stands for), every view that a crash could leave (one for each manifest that could
   be found and each prefix of the unsynced records), the files and what of them is durable, and what an Open has gone on
   over without settling it. `Refinement` and `Durability` prove what all runs keep, crashes and exits included: the
   running engine serves a plain map, manifests name only durable files, the clock is ahead of every record.
   `CrashSafety` proves, key by key, which records a crash cannot lose, `Reopen` and `Sessions` what a restart rebuilds,
   `Histories` that the plain map is that of the callers' own writes, and `Exits` when a restart without a crash is
   harmless. After a crash the history of the machine goes on from the writes that survived, followed by what recovery
   has changed (`Engine.Repair`), so that the engine refines the history's plain map for ever, even after a key has come
   back; `Histories.HistoryExactly` says exactly when recovery changes nothing, and `Histories.KeyRefinesWrites` that for
   a key that is spared nothing of it matters.
2. **The code.** The writer (`Writer`, `Burst`), the compactor (`Compactor`), Open (`Opening`, `Recovery`, `Hint`,
   `Manifest`) and the readers (`Reader`) are methods with the loops and branches of the source, on a `DB` object whose
   segments are byte sequences. The writer's methods are proved to take the machine along a run: a ghost field holds
   the machine's state, `Mirror` ties every field to it byte for byte, and the `ensures` clauses give the run. Open's
   result is the machine's state after the crash step, field for field; `Restart` joins it to what a crash leaves of
   the files and hints of a run. The compactor's method is given the keydirs that the scan steps of a run see, between
   which the writer does what it likes, and is proved to submit the commit of that run's pass. The readers are given a
   later state of a run for every value they read. What is proved of all runs therefore holds of these methods.
3. **The bytes.** `Record`, `Log`, `Scan`, `RecordCodec`, `RecordReader` and `Lists` relate records to bytes. Parsing is
   specified once (`Record.ParseAt`) and every reader and writer is proved against it; the layouts, limits and numbers of
   the formats are also stated byte by byte, without the functions the code shares with its specification.
4. **The wire.** `WireFields`, `WireFrame`, `WireRequest`, `WireResponse` and `RangeServer` do the same for requests,
   range pages and the range stream.
5. **Shutdown** is a second machine: submit, Close and the writer loop with any number of callers.

The checksum is CRC32C (polynomial as in section 12.1 of RFC 3720), written out in `Crc32c`.

## Three promises that do not hold as they stand

**Close then Open does not always rebuild the keydir.** A merged segment has a higher id than the active one
(internal/engine/compact.go:170-173) and recovery scans in ascending id order (internal/engine/recovery.go:53-58). A
tombstone written to the active segment after its key was copied is scanned before the copy, hides nothing, and the
deleted key is back. `Scenarios.DeletedKeyComesBack` gives such a run for every key and value, with every step going
well, and `Scenarios.DeletedKeyServed` the restart after which the key is served again. `Reopen.ReopenExact` and, over
runs with crashes and restarts in them, `Sessions.ReopenAfterRun` (and key by key `Sessions.ReopenKeyAfterRun`) give
the exact condition: the keydir is rebuilt, positions and timestamps included, if and only if every put of a deleted
key is scanned before some tombstone of that key that is not older (`NoneComesBack`). It can be read off the segment
files. It holds for every history without a compaction, however many crashes and restarts there are in it
(`Sessions.ReopenWithoutCompaction`), and whenever no tombstone lies in a segment with a lower id than an older put of
its key (`Reopen.NoTombstoneBelowReopens`). Keys whose last operation is a put are recovered in any case.

**A synced put can be lost to a crash around a compaction commit.** A pass that sees an old value overwritten does not
copy it, even when the overwrite has not been synced; the commit then retires the only durable copy.
`Scenarios.SyncedPutLost` is such a run. `CrashSafety.CommitSafeExactly` gives the exact condition at a commit, key by
key and whatever has become of other keys: the view that is being published keeps the key if and only if its record is
outside the inputs or has its rewrite. A run that spares a key at every commit, and brings it back at no crash,
recovers it from whatever a crash leaves (`CrashSafety.KeyRecovers`). A commit is called prudent when every record
written before the pass last looked at the keydir is synced by then; a prudent commit spares every key
(`CrashSafety.CrashRecovers`). With SyncOnPut all commits are prudent as long as no final sync of a burst fails
(`CrashSafety.GroupCommitIsPrudent`): each burst starts with everything synced (`Burst.ProcessBurst`), and a commit in
it was submitted before its first record was written. What is left are engines without SyncOnPut, whose rotations sync
some puts but not what overwrites them, and commits after a failed final sync. Manifests, clock and refinement need
none of this.

**A restart of the process alone settles nothing.** After an uncertain publish (internal/engine/compact.go:446-479,
internal/engine/engine.go:1284-1317) the comments count on the next Open to settle it. If the host stays up, Open finds
the manifest renamed last; where its active segment has room it goes on with it, writes no manifest and syncs no
directory (internal/engine/engine.go:443-455, 476-483), and sweeps away what that manifest does not name
(internal/engine/engine.go:492-496). The older manifest may still come back in a later host crash.
`Exits.UncertainCommitThenExit` is such a run over an uncertain compaction commit: that manifest names an input that is
gone, and the Open that finds it is refused. `Exits.UncertainRotationThenExit` is one over an uncertain rotation: the
Open that finds it goes ahead and lacks a put that was synced after the restart. A third, `Exits.UnsyncedSealThenExit`,
needs no uncertain publish: where the active segment is full, Open seals it without a sync
(internal/engine/engine.go:457-486), and a crash that cuts it makes the next Open fail, unless all of its last record
is gone, which later synced records then go without. `Exits.ExitExactly` gives the condition under which a restart
leaves nothing behind, if and only if: where the active segment has room, no other manifest may come back; where it has
not, it is synced. `Exits.StaleNamed`, `Exits.StaleReconciles` and `Exits.StaleLosesWrites` say for every manifest that
may come back what becomes of it: refused exactly when it lists a file that the one found does not, and otherwise
without the writes since. As long as the restarts of a run meet the condition, the survivors of the machine are all
that a crash may find (`Exits.SettledDurable`); that is so when no publish is uncertain and every process ends with a
Close whose sync succeeds (`Exits.ClosesSettle`), and host crashes settle everything by themselves. What is said of
whatever a crash may leave is said of the survivors, with the files whole that an Open has sealed without a sync.

Bounds of a range request that are present but empty come back as open bounds: `WireRequest.RoundTrips` states this as
an equivalence. Only a batch can be accepted by the decoder and yet be too long to encode; `WireRequest.Reencodes`
gives the condition.

## Model

| member | source | states |
|---|---|---|
| `Histories.KeyRefinesWrites` | internal/engine/engine.go:817-864 | after every run that spares a key, through any number of crashes and restarts and whatever it does to other keys, Get answers for that key as the plain map of the callers' own writes that survived |
| `Histories.WrittenStep` | internal/engine/engine.go:1070-1231 | those writes: one more with each write, after a crash a prefix of them that has every synced one, and no other step touches them |
| `Histories.PrudentRefinesWrites` | internal/engine/engine.go:817-864 | in runs with prudent commits and restarts that bring nothing back, for every key: Get answers as the plain map of the writes, each crash having cut them to the surviving prefix and nothing having been added |
| `Histories.HistoryExactly` | internal/engine/recovery.go:290-328 | a crash leaves the history exactly its surviving prefix if and only if no deleted key comes back |
| `Histories.RepairExactly` | internal/engine/recovery.go:290-328 | of one key, under that key's invariant only: what recovery adds to the history has to do with it if and only if it is brought back |
| `Durability.EngineRefinesMap` | internal/engine/engine.go:817-864 | after every run, crashes and restarts included, however writer and compactor interleave and whatever syncs and renames return, what Get reads for every key is the plain map of the machine's history, in which each restart has left the surviving writes followed by what recovery made of them: no entry dangles and none is served with another key's value |
| `Refinement.SessionRefinesMap` | internal/engine/engine.go:1070-1231 | between crashes that history grows by exactly the writes of the run, in order; no rotation, sync or compactor step is visible |
| `Refinement.MemStep` | internal/engine/compact.go:413-529 | every step of writer and compactor keeps the running engine's invariant: entries located, records dated, the pass consistent with a keydir that keeps changing |
| `View.WriteKeeps` | internal/engine/engine.go:1112-1154 | a put, a delete or a whole batch keeps a view recoverable: entries located and newest, deleted keys covered by tombstones, records dated |
| `View.WriteKeepsKey` | internal/engine/engine.go:1112-1154 | the same of each key alone |
| `View.RotateKeeps` | internal/engine/engine.go:1305-1329 | a rotation keeps it |
| `View.EntryReads` | internal/engine/engine.go:846-863 | reading at an entry's position and length gives the value the plain map holds |
| `Compaction.StartPass` | internal/engine/compact.go:150-166 | the choice of sealed segments starts a pass in which every entry in an input is still to be scanned |
| `Compaction.Renumber` | internal/engine/compact.go:150-173 | a pass that has copied nothing is as good under any free id, so a rotation between the choice of the inputs and the taking of the id does no harm |
| `Compaction.ScanKeeps` | internal/engine/compact.go:302-346 | one liveness lookup against the keydir of that moment keeps the pass: what it drops is dead, what it copies has its rewrite |
| `Compaction.WritePassKeeps` | internal/engine/engine.go:1144-1153 | a write between two lookups keeps the pass |
| `Compaction.RotatePassKeeps` | internal/engine/engine.go:1305-1329 | a rotation during a pass keeps it |
| `Compaction.CommitSound` | internal/engine/compact.go:466-508 | retiring the inputs and swapping the entries keeps the running view and its plain map: no entry is left in a retired segment |
| `Compaction.CommitKeepsKey` | internal/engine/compact.go:466-508 | in any view, a key whose record is outside the inputs or has its rewrite is as recoverable after the commit as before |
| `Keydirs.SwapAllAt` | internal/engine/compact.go:494-508 | with one rewrite a key, each swap stands or fails on the entry the key had before all of them |
| `Sessions.NoEntryDangles` | internal/engine/compact.go:484-508 | after every run each keydir entry names a present segment and in it a put of its key at that position, length and timestamp |
| `Sessions.OneCopyPerKey` | internal/engine/compact.go:328-346 | no key is copied twice, the merged segment is the copies one behind the other, and each new entry points at its value in it |
| `Sessions.ReopenAfterRun` | internal/engine/recovery.go:48-78 | after any run that spares every key, crashes and restarts included, and anything without a host crash behind it, Close and Open rebuild the keydir that was running if and only if no put of a deleted key is scanned after its tombstones |
| `Sessions.ReopenKeyAfterRun` | internal/engine/recovery.go:48-78 | of one key, after any run that spares it: a live one is rebuilt with its entry, a deleted one stays gone if and only if no put of it is scanned after its tombstones |
| `Sessions.ReopenWithoutCompaction` | internal/engine/recovery.go:48-78 | in every run that publishes no compaction, crashes and restarts included, Open rebuilds exactly the keydir of the running engine, and that of whatever survivor a crash leaves |
| `Sessions.RotationBound` | internal/engine/engine.go:1112-1116 | in every run, crashes and restarts included, a segment that is not a merged one exceeds the threshold only when it holds exactly one record, in the running engine and in every survivor |
| `Reopen.ReopenExact` | internal/engine/recovery.go:290-328 | the exact condition, for any view and any scan order |
| `Reopen.ReopenKeyExact` | internal/engine/recovery.go:290-328 | the same of one key, whatever becomes of the others |
| `Reopen.ReopenedLocated` | internal/engine/recovery.go:290-328 | whatever the segments hold and in whatever order they are scanned, no rebuilt entry dangles |
| `Reopen.NoTombstoneBelowReopens` | internal/engine/recovery.go:299-303 | no tombstone in a segment below an older put of its key is enough |
| `Reopen.PutsRecovered` | internal/engine/keydir.go:55-61 | a key whose newest record is a put is recovered with that put's entry in whatever order the segments are scanned |
| `Reopen.KeysRecovered` | internal/engine/recovery.go:290-305 | a scan leaves a key exactly when some put of it is not covered by a later scanned tombstone that is not older |
| `Scenarios.DeletedKeyComesBack` | internal/engine/compact.go:170-173 | a run after which a deleted key, for which Get finds nothing, is in the keydir that Open rebuilds |
| `Scenarios.DeletedKeyServed` | internal/engine/recovery.go:53-58 | that run and the restart after which Get finds the key |
| `Scenarios.SyncedPutLost` | internal/engine/compact.go:309-315 | a run after which a crash loses a put that was synced |
| `Exits.ExitExactly` | internal/engine/engine.go:443-496 | a restart without a host crash leaves behind no older manifest and no unsynced sealed file if and only if no other manifest may come back or, where Open seals a full active segment, that is synced |
| `Exits.SettledDurable` | internal/engine/engine.go:443-496 | after every run whose restarts are so, each manifest a crash may leave names durable files, all but its active one synced, and the condition on the next restart is exact |
| `Exits.ClosesSettle` | internal/engine/engine.go:559-625 | runs without uncertain publishes, whose processes end behind the sync of Close, have only such restarts, through any number of host crashes |
| `Exits.StaleNamed` | internal/engine/compact.go:547-586 | after a restart over a manifest that may come back, that manifest names files that are there for good if and only if it lists none that the manifest found does not |
| `Exits.StaleReconciles` | internal/engine/manifest.go:309-332 | on that condition, and no other, the Open behind a crash that leaves the durable entries accepts it |
| `Exits.StaleLosesWrites` | internal/engine/engine.go:1284-1317 | and where it does, a write made and synced after the restart is not in it |
| `Exits.SealedUnsynced` | internal/engine/engine.go:457-486 | a full active segment that was not synced is sealed as it is; cut by a crash, it reads as a whole file if and only if the cut is between two records, and it has lost records unless nothing is cut |
| `Exits.UncertainCommitThenExit` | internal/engine/compact.go:446-479 | a run over an uncertain commit, an exit and an Open, after which a manifest that may come back names a file that is gone |
| `Exits.UncertainRotationThenExit` | internal/engine/engine.go:1284-1317 | one over an uncertain rotation, after which a manifest that may come back lacks a put that was synced |
| `Exits.UnsyncedSealThenExit` | internal/engine/engine.go:457-486 | one in which an unsynced record is sealed and a later one synced: cut anywhere inside, the first makes Open fail |
| `Durability.ManifestsDurable` | internal/engine/engine.go:1248-1329 | at every step of every run, each survivor's manifest lists only files whose entries are durable and none that was unlinked, its own active segment among them, and lacks no synced record |
| `Durability.OpenedInv` | internal/engine/engine.go:349-486 | whatever a crash leaves, the engine that Open brings up satisfies all of that again, even where a key has come back or been lost |
| `Durability.ResumedInv` | internal/engine/engine.go:349-496 | so does the one that Open brings up behind the end of the process, from files synced or not, in the middle of a publish or behind an uncertain one |
| `CrashSafety.KeyRecovers` | internal/engine/compact.go:443-527 | in every run that spares a key, whatever it does to others, and from every survivor, recovery in any order finds the key's last surviving put and reads its value |
| `CrashSafety.CrashRecovers` | internal/engine/compact.go:443-527 | in runs with prudent commits that is every key |
| `CrashSafety.CrashExactly` | internal/engine/recovery.go:299-303 | a crash leaves a key's presence as the surviving history has it if and only if no put of it is scanned after its tombstones |
| `Durability.InvStep` | internal/engine/compact.go:443-527 | every step, crashes, exits and uncertain publishes included, keeps the invariant over the running engine and all survivors |
| `CrashSafety.GroupCommitIsPrudent` | internal/engine/engine.go:977-1060 | a run of bursts, each starting with everything synced and committing only passes submitted before it, has prudent commits only, whatever the compactor does in between |
| `CrashSafety.BurstPrudent` | internal/engine/engine.go:992-1008 | one such burst |
| `CrashSafety.CommitSafeExactly` | internal/engine/compact.go:443-466 | what a commit keeps of each view a crash may leave, key by key, if and only if, in every run that has spared the key so far |
| `CrashSafety.CommitLosesExactly` | internal/engine/compact.go:302-315 | the same for any view and pass: a live key is lost exactly when its record is in an input and was not copied |
| `Durability.ClockAhead` | internal/engine/engine.go:1101-1107 | in every run, a write is later than every record in every segment of the running engine and of every survivor, and than every copy in flight, through crashes and compactions |
| `Writer.RotateActive` | internal/engine/engine.go:1248-1329 | for each outcome of sync, create, directory sync and publish, the error and the exact steps the machine takes: a failed sync changes nothing and is told; an uncertain publish, and nothing else, disables writes; only a rotation in which all four go well succeeds, and leaves an empty active segment with the next id and everything before it synced; the manifest written is that of the view with the new segment |
| `Writer.AppendOne` | internal/engine/engine.go:1118-1154 | encode, append and publish are one write of exactly this record, at the offset the keydir is given |
| `Writer.AppendBatch` | internal/engine/engine.go:1183-1230 | the same for a batch, published as a whole |
| `Writer.BatchOps` | internal/engine/engine.go:1205-1228 | the value positions computed with a running offset are those of the log's operations, entry for entry |
| `Writer.WriteOne` | internal/engine/engine.go:1109-1154 | a put that succeeds sets its key in the plain map, a delete removes it, one that fails changes nothing; it rotates exactly when the 21 bytes of the header with key and value would cross the threshold, fails exactly when that rotation does, and takes no step that the disk has not allowed |
| `Writer.WriteBatch` | internal/engine/engine.go:1163-1231 | the same for a batch, whose operations are applied in order and which goes into an empty segment whatever its size |
| `Writer.OpsDecide` | internal/engine/engine.go:1205-1229 | of a batch, the last operation on a key decides what it holds |
| `Writer.OpsSilent` | internal/engine/engine.go:1205-1229 | and a key without one keeps what it held |
| `Writer.HandleCompactCommit` | internal/engine/compact.go:413-529 | a commit fails exactly when the directory sync it needs or the publish does, and then changes nothing a reader sees; otherwise segments and entries are swapped as the machine's commit does, and the inputs are unlinked exactly when the publish is certain; each step is one its disk outcome allows, and the manifest written is that of the view behind the commit |
| `Writer.SwapInMemory` | internal/engine/compact.go:484-508 | the segment table and the keydir after the swap |
| `Burst.CheckBatch` | internal/engine/engine.go:758-789 | a batch is accepted exactly when entry count, keys, values and encoded size are within the caps, given as numbers, and then recovery's caps accept it and it decodes entry for entry |
| `Burst.AcceptedBatch` | internal/engine/record.go:214-344 | encoding then decoding an accepted batch is the identity |
| `Burst.HandleOne` | internal/engine/engine.go:1070-1155 | nothing happens once writes are disabled; otherwise a put sets its key in the plain map, a delete removes it and a batch applies its operations, with a later timestamp, or else nothing changes; the error is determined by the outcomes of the disk, one by one |
| `Burst.ProcessBurst` | internal/engine/engine.go:1027-1060 | the plain map is the one before with the effects of the requests that appended, in order; with SyncOnPut a nil reply to one of them means everything written is synced; a failing final sync is told to exactly those that appended and never to a commit; no step counts as synced or published what the disk has not; after writes are disabled no reply is nil |
| `Burst.BurstDecides` | internal/engine/engine.go:1027-1060 | of a burst, the last request on a key that appended decides what is found there |
| `Reader.Get` | internal/engine/engine.go:817-864 | the bytes read from the segment are what the plain map held when the keydir was looked up, although the writer and the compactor go on between lookup and read |
| `Reader.EntryFound` | internal/engine/engine.go:839-862 | an entry looked up stays readable, with its value, through every step that does not take the segment lock |
| `Reader.ReadKeyRange` | internal/engine/engine.go:898-964 | exactly the pairs with start <= key < end of the plain map at the moment of the snapshot, keys strictly ascending, each value read at a later moment of its own; never an error |
| `Reader.RangeRead` | internal/engine/engine.go:917-948 | materialising the snapshot loses, adds and reorders nothing |
| `Order.LessMeans` | internal/engine/keydir.go:164-175 | the order of keys: a proper prefix, or the smaller byte where two keys first differ, comes first |
| `KeydirIndex.InRangeMeans` | internal/engine/keydir.go:164-175 | a range has its start in it and not its end, and a bound not given is none |
| `KeydirIndex.Index.PutIfNewer` | internal/engine/keydir.go:55-61 | the later timestamp wins, the later call when they are equal |
| `KeydirIndex.Index.CompareAndSwap` | internal/engine/keydir.go:81-90 | the entry is replaced exactly when it is the expected one |
| `KeydirIndex.Index.ApplyBatch` | internal/engine/keydir.go:119-133 | all changes in order |
| `KeydirIndex.BatchPublishes` | internal/engine/engine.go:1205-1229 | a batch's keydir changes are the publication of its operations |
| `KeydirIndex.Index.SnapshotRange` | internal/engine/keydir.go:159-178 | the entries in range, each once, strictly ascending |
| `Compactor.Merged.Consider` | internal/engine/compact.go:302-346 | one operation read from a file is one lookup of the pass |
| `Compactor.Merged.CompactSegmentInto` | internal/engine/compact.go:280-407 | on any bytes, the records recovery would find are looked at in order against a keydir that changes between any two lookups; it fails where recovery would refuse the segment, except for a header with nothing behind it |
| `Compactor.PassOfRun` | internal/engine/compact.go:192-200 | in any run, with any steps of the writer in between, the machine's pass is the one whose lookups see the keydirs of the run's scan steps |
| `Compactor.CompactOnce` | internal/engine/compact.go:126-261 | the commit submitted in a run is the one the writer expects, and its hint stands for the merged segment; fewer than two candidates are left alone |
| `Compactor.SealedStay` | internal/engine/compact.go:150-166 | while a pass is in flight its inputs stay as they were chosen |
| `RecordReader.ReadRecord` | internal/engine/record.go:132-196 | agrees with recovery on every record that one accepts; reports the end also for a header with no body behind it, which recovery takes for torn, and in no other case |
| `RecordCodec.Encode` | internal/engine/record.go:101-124 | succeeds exactly within the caps and room, and writes the record's bytes and nothing behind them |
| `RecordCodec.EncodeBatchRecord` | internal/engine/record.go:302-344 | the same for a batch |
| `RecordCodec.EncodedBatchBodySize` | internal/engine/record.go:287-296 | the size the encoder will need |
| `RecordCodec.DecodeBatchBody` | internal/engine/record.go:214-283 | accepts exactly the bodies that encode some entries within the caps, and gives those entries and their value positions in the file |
| `Record.ParseOfRecordBytes` | internal/engine/recovery.go:160-269 | an encoded record parses back to itself wherever it stands |
| `Record.RecordBytesOfParse` | internal/engine/recovery.go:160-269 | and a record is accepted only where its own encoding stands |
| `Record.ParseOfTornRecord` | internal/engine/recovery.go:171-204 | a proper cut of an encoded record reads as torn, or as the end when nothing is left |
| `Record.RecordLayout` | internal/engine/record.go:101-124 | where each field of a record stands, and that the checksum covers all behind it |
| `Record.OpLayout` | internal/engine/record.go:302-344 | where each field of a batch entry stands |
| `Record.KindNumbers` | internal/engine/record.go:13-60 | the numbers of the record kinds and batch tags |
| `Record.RecordLimits` | internal/engine/recovery.go:205-262 | the limits within which a record is accepted, as numbers |
| `Bytes.LEAt` | internal/engine/record.go:114-122 | each byte of a number laid out with its lowest byte first |
| `Bytes.BEAt` | internal/wire/frame.go:86-108 | and of one with its highest byte first |
| `Bytes.LE64At` | internal/engine/record.go:114-141 | a signed timestamp is laid out modulo two to the 64 |
| `Bytes.Digits4` | internal/engine/record.go:140-144 | four bytes read back in either order |
| `Crc32c.KnownSum` | internal/engine/record.go:82-84 | the checksum of the character a is 0xC1D04330 |
| `Crc32c.UpdateSplit` | internal/engine/recovery.go:235-238 | summing in two writes gives the sum of the whole |
| `Log.LogItemsShown` | internal/engine/engine.go:1144-1153 | the bytes at the position published for an operation are its value |
| `Log.LogItemsOrdered` | internal/engine/record.go:214-283 | no two operations of a segment share a position or overlap |
| `Scan.ScanOfCut` | internal/engine/recovery.go:160-285 | prefix-crash theorem: of a well-formed log cut at any byte, exactly the records wholly before the cut are found, a batch entirely or not at all, and the rest is torn, never corrupt |
| `Scan.ScanAgain` | internal/engine/recovery.go:275-283 | after truncation a second scan finds the same and cuts nothing |
| `Scan.SealedCut` | internal/engine/recovery.go:171-204 | a sealed cut is accepted if and only if it is at a record boundary |
| `Scan.ScanExact` | internal/engine/recovery.go:160-285 | whatever the bytes, what a scan accepts is what their encodings say |
| `Recovery.ReadAt` | internal/engine/recovery.go:165-250 | header, bounds, flag, length and checksum checks in the code's order decide as the parser does |
| `Recovery.RecoverSegment` | internal/engine/recovery.go:160-285 | on any bytes: keydir and clock take in exactly the records of the scan, the active segment is cut at the last good byte, and a bad tail is refused where it must be |
| `Recovery.ApplyRecord` | internal/engine/recovery.go:290-328 | one record's operations are applied in order, each by the later-wins rule |
| `Recovery.EntryPosition` | internal/engine/recovery.go:313-328 | decoder and log agree on each entry's operation and position |
| `Hint.WriteHintFile` | internal/engine/hint.go:109-188 | the file carries these entries, or is not written when one is outside the caps |
| `Hint.HeaderBytes` | internal/engine/hint.go:132-136 | it begins with the letters HINT and version 1 |
| `Hint.EntryLayout` | internal/engine/hint.go:138-147 | where each field of an entry stands |
| `Hint.ReadHintFile` | internal/engine/hint.go:200-275 | accepts exactly the files that carry some entries, and returns them |
| `Hint.HintRoundTrip` | internal/engine/hint.go:109-275 | a file carries one list of entries |
| `Hint.TryRecoverFromHint` | internal/engine/recovery.go:93-146 | a hint with an entry out of bounds changes neither keydir nor clock; another is replayed in order |
| `Hint.ReplayIsRecovery` | internal/engine/recovery.go:117-146 | replaying entries in bounds is recovering the operations they stand for, by the rule of a scan |
| `Hint.HintRefinesScan` | internal/engine/recovery.go:128-143 | from any keydir and clock, replaying the hint of a pass leads where scanning its merged segment leads |
| `Hint.HintOfPassFits` | internal/engine/compact.go:225-237 | that hint passes the bounds check and can be written |
| `Manifest.SortIds` | internal/engine/engine.go:1374-1378 | sorted and a permutation, in place |
| `Manifest.Dedup` | internal/engine/manifest.go:194-202 | writing the kept ids over the slice being read keeps each id once and the order |
| `Manifest.CanonicalUnique` | internal/engine/manifest.go:177-202 | two manifests of the same live set list the same ids |
| `Manifest.WriteManifest` | internal/engine/manifest.go:191-213 | refused exactly when the active id is not listed, otherwise readable and with the same set of ids |
| `Manifest.ReadManifest` | internal/engine/manifest.go:124-170 | accepts exactly version, strictly ascending ids and a listed active id |
| `Manifest.Reconcile` | internal/engine/manifest.go:309-332 | the manifest decides, and is refused exactly when malformed or a listed file is missing |
| `Manifest.SurvivorReconciles` | internal/engine/manifest.go:309-332 | at every step of every run, no survivor's manifest is refused by the next Open |
| `Opening.RecoverOne` | internal/engine/recovery.go:59-77 | hint or scan, the segment contributes its log |
| `Opening.RecoverAll` | internal/engine/recovery.go:48-78 | from any mix of hints and scans, with a torn tail in the active segment, comes the keydir and the clock of the logs in ascending id order |
| `Opening.Open` | internal/engine/engine.go:349-486 | Open fails exactly when it must write a manifest and cannot; otherwise every field is that of the machine after the crash step, with an id above every file on disk; the active segment is kept exactly when it is below the threshold, and the manifest, where one is written, is that of the running view |
| `Restart.CrashAndRestart` | internal/engine/engine.go:305-515 | crash and Open over every run: what a crash leaves of files and hints, with any survivor's manifest that names no segment sealed without a sync, is what Open asks for, and the engine it brings up is the run's next state, no synced record missing |
| `Restart.ExitAndRestart` | internal/engine/engine.go:305-515 | exit and Open over every run: with every file as it was written and the manifest renamed last, Open is given what it asks for, and the engine it brings up is that of the machine's next state, with nothing written lost |
| `Restart.CrashedDirectory` | internal/engine/recovery.go:48-78 | sealed files whole, the active one cut anywhere, hints the run has written: the directory Open asks for |
| `Restart.HintsRun` | internal/engine/compact.go:225-237 | at every step of every run, replaying a hint does what scanning its segment does |
| `Opening.OpenAfterCrash` | internal/engine/engine.go:305-515 | after any crash that state satisfies all invariants and its plain map is that of its history, which begins with the surviving prefix, every synced record in it, and is that prefix if and only if no deleted key has come back |
| `Opening.CutOnDisk` | internal/engine/recovery.go:160-204 | an active segment cut at any byte is a directory that Open accepts, with the records wholly before the cut |
| `Opening.PassHintFaithful` | internal/engine/compact.go:225-237 | the hint a pass writes may be used in place of its segment |
| `Shutdown.ServedOnce` | internal/engine/engine.go:668-686 | over all interleavings of submit, Close and the writer, requests are handled and answered in order, none twice; a caller turned away has queued nothing, and the switch it is told of is on; nothing is left once the writer has exited |
| `Shutdown.ToldTruly` | internal/engine/engine.go:685 | over every run a caller is told the outcome that the writer replied to its own request, or, turned away, what it saw when it looked: closed, or not closed and disabled |
| `Shutdown.AnsweredOnce` | internal/engine/engine.go:1027-1060 | and there is one such reply |
| `Shutdown.StepKeeps` | internal/engine/engine.go:977-1011 | every step keeps the protocol's invariant, in which every answer on its way or received is the one given to that request |
| `Shutdown.WriterNeverStuck` | internal/engine/engine.go:977-1011 | while a request is unanswered or Close waits, the writer has a step to take |
| `Shutdown.WriterEnds` | internal/engine/engine.go:1336-1350 | after Close has published, every writer step brings its exit nearer and nobody else's step puts it off |
| `Shutdown.CloseGetsLock` | internal/engine/engine.go:559-576 | Close cannot wait forever for the read locks: a holder can go on or the writer can make room |
| `WireFrame.EncodeFrame` | internal/wire/frame.go:103-112 | fails exactly above the payload cap |
| `WireFrame.FrameLayout` | internal/wire/frame.go:103-112 | the bytes of a frame: length, tag, body |
| `WireFields.FieldLayout` | internal/wire/request.go:312-320 | the bytes of a field: its length, the highest byte first, and its content |
| `WireFields.FieldAtMeans` | internal/wire/request.go:150-177 | and when one stands at a place |
| `WireFrame.ReadFrame` | internal/wire/frame.go:55-76 | reads the frame a stream begins with, and finds none exactly when there is none within the cap |
| `WireFrame.FrameUnique` | internal/wire/frame.go:55-112 | a stream begins with one frame only |
| `WireRequest.DecodeRequest` | internal/wire/request.go:83-116 | accepts exactly the bodies that encode a request within the limits, and returns that request: per opcode, which field stands where and what each is; arbitrary input stays in bounds |
| `WireRequest.StandsMeans` | internal/wire/request.go:83-292 | for every opcode, tag and limit as a number, a body is a request's encoding if and only if its fields stand one behind the other as the protocol says, in the order of a range's bounds too |
| `WireRequest.DecodeBatch` | internal/wire/request.go:180-255 | the same for batches; the guard before the allocation refuses no valid one |
| `WireRequest.DecodeRange` | internal/wire/request.go:257-292 | the same for ranges, inverted ones refused |
| `WireRequest.EncodeRequestBody` | internal/wire/request.go:305-336 | encodes exactly the requests within the limits, per opcode with each field in its place |
| `WireRequest.EncodableMeans` | internal/wire/request.go:305-422 | these limits, as numbers |
| `WireRequest.MeasureBatch` | internal/wire/request.go:362-388 | the running check refuses exactly the batches that are malformed or do not fit a frame, before anything is allocated |
| `WireRequest.RoundTrips` | internal/wire/request.go:83-422 | what a request's encoding decodes to; it is the request itself if and only if no bound is present but empty |
| `WireRequest.Reencodes` | internal/wire/request.go:180-403 | a request that the decoder accepts encodes again if and only if it is no batch or its body fits a frame |
| `WireRequest.StandsUnique` | internal/wire/request.go:83-292 | no body stands for two requests |
| `WireRequest.ReadRequest` | internal/wire/request.go:121-127 | an encoded request comes off the stream as sent, and a bad one leaves the stream in step |
| `WireResponse.EncodeRangePage` | internal/wire/response.go:107-141 | fails exactly when a pair is outside the limits or the page does not fit a frame, and otherwise lays out the count and, pair by pair, key and value |
| `WireResponse.PageMeans` | internal/wire/response.go:107-141 | the bytes of a page, if and only if |
| `WireResponse.DecodeRangeFrame` | internal/wire/response.go:156-211 | accepts exactly pages and the end mark, and tells them apart |
| `WireResponse.DecodeError` | internal/wire/response.go:32-44 | accepts exactly a length in two bytes and as many of message, up to 1024 |
| `WireResponse.StreamMeans` | internal/wire/response.go:221-246 | a stream, frame by frame: pages with status 0, then the end mark or one error with another status |
| `WireResponse.ReadRangeStream` | internal/wire/response.go:221-246 | of a whole stream the callback gets exactly its pages in order, the outcome is the end or the error with its status and message, and nothing behind it is consumed |
| `RangeServer.Stream.Flush` | internal/server/server.go:465-485 | never fails: every page it can be called with fits a frame |
| `RangeServer.Stream.Offer` | internal/server/server.go:487-512 | takes the pair with the cap kept, or stops exactly because there is no room for it |
| `RangeServer.HandleRange` | internal/server/server.go:447-542 | one well-formed stream: the whole range of the plain map when it ends OK, a strict prefix of it when it ends in an overload, page bodies within the cap, nothing withheld that had room |
| `RangeServer.RangeEndToEnd` | internal/wire/response.go:221-246 | handler and stream reader on one connection: the client gets the whole range of the plain map in order when the stream ends OK, on overload the pairs before the first for which there was no room, and nothing is left over |
| `RangeServer.StoredPairOk` | internal/server/server.go:487-503 | whatever the engine stores is within the limits of the wire |

## Left out

- Operating system behaviour: file handles, locks on the data directory, TCP and deadlines. A segment file is a byte sequence in a map, and what the writer does under one hold of a lock is one step.
- Partial writes and flush errors: an append is whole. Outcomes of sync, directory sync, file creation and manifest publish are parameters, and every combination is covered; unlink is taken to succeed, and a file truncated by recovery to stay truncated.
- A file create that fails after the directory entry exists, and a compactor whose merged file cannot be created or synced, are the abort step.
- Checksum collisions: only the direction is claimed that well-formed bytes pass, and that what passes carries its own checksum.
- The JSON text of the manifest: it is a version, a list of ids and an optional active id.
- Wrap-around of segment ids (32 bits) and of timestamps (64 bits): `Burst.HandleOne` and `Burst.ProcessBurst` ask for room in the clock, ids are unbounded.
- A host crash that finds a manifest an Open has gone on over, or a segment it has sealed without a sync: such a run of the machine ends there, and `Exits` says what the next Open makes of it.
- An Open that fails, and what it leaves of the directory: only the outcome is determined, and a run goes on from an Open that succeeds.
- Open's own manifest write before a directory sync: the crash analysis starts from a durable manifest after Open has returned.
- CrashSafety.CrashRecovers: asks for prudent commits and crashes that bring nothing back, because the engine does lose a synced put or bring back a deleted key without them; the exact conditions, key by key, are CrashSafety.CommitSafeExactly and CrashSafety.CrashExactly.
- Restart.CrashAndRestart: asks that the manifest found names no segment an Open has sealed without a sync, because such a file may have been cut; Exits.SealedUnsynced says what is then read of it.
- Compactor.CompactOnce: scans the inputs as the machine has them, well formed; on other bytes Compactor.Merged.CompactSegmentInto says what one file does.
- Opening.Open: asks for a directory that a crash can leave (Restart.CrashAndRestart shows that it is one); on other bytes Recovery.RecoverSegment says what recovery does with each file. The start of the goroutines is left out, and so is the sweep of orphan files, whose effect the machine's exit step has: no hint is taken to outlive its segment.
- Opening.RecoverAll: the walk over the segments stops at the first one that is refused; with such a directory none is.
- Reader.ReadKeyRange: the callback is taken to accept every pair, and the closed checks of the readers are left to the shutdown machine.
- Shutdown.ServedOnce: the queue has at least one place, and a request is an id; what handling it does is Burst.ProcessBurst.
- WireResponse.ReadRangeStream: the connection is the bytes it will deliver.
- RangeServer.HandleRange: writes to the connection succeed; the slot semaphore and the closed engine are inputs.
- Stats, the Read alias, option defaults, status names, GET and STATS response bodies, logging, the command line and the client: no property beyond their bodies.
