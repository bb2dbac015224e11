# A verified model of the BSOS storage engine

BSOS stores immutable objects under 64-bit fids on raw disks. The only durable
metadata of a disk is an index log of 16-byte entries in front of a grid of 4 KiB
slots; everything else a running server knows is rebuilt from that log. This project
models the engine and proves that nothing committed is lost, overwritten or half
visible, across concurrent writes, repacking (Trim), failing commits and restarts.

The model has four layers.

- **Formats and arithmetic** (`Layout`, `IndexEntry`, `PackedTable`, `IndexScan`,
  `StreamWriter`, `Chd`, `Sorting`): slot addressing with its 64-bit wrap, the entry and
  packed-table codecs byte by byte, the chunked scan of the index region, the two
  streaming writers, and the capacity search.
- **The log** (`IndexLog`, `LogOrder`, `Replay`, `ReplayRules`, `FindLatest`, `Compaction`,
  `IndexState`): the two scanners of the log (the replay that builds memory, the
  collection that compaction uses), the compacted log, and the methods that run them with
  maps, sequence numbers and sorting. `LogOrder` and `ReplayRules` say of any log, by
  positions in it, what the two scanners accept and give.
- **One disk** (`Store`, `StoreSteps`, `DiskState`, `DiskSteps`, `Trim`, `TrimSteps`,
  `TrimRun`, `Faults`, `CutScan`, `Device`, and for the whole of a Trim `TrimSpec`,
  `TrimSelection`, `TrimProgress`, `TrimOutcome`, `TrimResult`, `DeviceTrim`):
  `DiskState.Disk` is the abstract state of a disk and `DiskState.Inv(d, objs)` says that it stores exactly the objects `objs` (a map
  from fid to bytes): every reference in memory, and every reference a replay of the
  log gives, reads exactly the object's bytes, and the extents share no slot.
  `Device.DeviceState` is the open device as an object whose methods update its fields in
  place; each is proved to move the state as the abstract operation does. `TrimSpec.Trimmed`
  is a whole Trim as a function of any disk; `DeviceTrim.MaybeTrim` computes it, and
  `TrimOutcome` and `TrimResult` say what it comes to.
- **The pool and its users** (`Pool`, `PoolSteps`, `PoolRuns`, `PoolProgress`,
  `PoolCollisions`, `Server`, `Client`, `Cdc`): any number of Puts over several disks in small steps that interleave in any order with
  each other, with Trims on any disk and with restarts at any point; the gate, one
  whole Put and the messages of a Get; the client's jump retry; chunked files.

`Witness` builds the concrete disks that show a promise failing.

Reading guide: start at `PoolRuns.dfy` (`NextKeeps`, `Durable`, `UniqueAlways`,
`NothingLeaks`, `StepSpares`) and `PoolProgress.PutCompletes`, then `DeviceTrim.MaybeTrim`
with `TrimOutcome.TrimKeepsObjects` and `TrimResult.TrimResults`, `Replay.CompactionPreservesReplay`, `CutScan.CompactionServes`
and `Faults.dfy`.

## How the code is rendered

- Hashes are arbitrary functions, or arbitrary fids in the pool's steps. Trim's container
  and table fids bypass the gate in the code, so a pool step that writes one requires
  that no other disk stores it and that no Put in progress relies on this disk not
  storing it (`Pool.FreshFid`; `PoolCollisions` proves that exactly these fids keep the
  pool in order); on its own disk the code checks, and the model proves the check
  is enough.
- A Put's claim names the data of the declared length. A stream that ends early, runs
  long, stalls or is cancelled is the step `BreakStream`, possible after any prefix has
  been written. The gate's fan-out asks one disk and one fid per step; a timeout or
  an error is the step `Reject`. The choice of disk is free.
- How far the device gets with each write of a stream is an arbitrary function of offset
  and length (`StreamWriter.Pace`).
- Device errors are injected into `Commit`: any number of whole entries may have been
  written, and any number cleared again. Trim stops at its six fail points, after any
  step, or at a full index. A restart may come between any two steps at
  which no disk has a fault; reopening a faulty disk is the subject of
  `Faults.ReopenAfterTorn`.
- Integers are unbounded except where the width matters: fields are bounded where bytes
  are encoded or decoded, the entries of an open device fit their sixteen bytes
  (`IndexEntry.RawEntry`), and the sums the code lets wrap (slot rounding, table length,
  slice end) wrap in the model. Disks are smaller than 2^55 bytes.
- The error `Panics` stands for a runtime panic: a packed table whose entry count matches
  its length only because the product wraps makes the allocation in
  internal/daemon/packed_table.go:84 panic, and the slices in
  internal/blk/index_packed_scrub.go:391 run past the blob.
- The index region is a sequence of 16-byte entries, each on the disk as a whole or not
  at all. `IndexScan` goes down to bytes, because the scan of compaction does.

## Where the code does less than it should

Each of these is kept as the code has it, with the exact condition proved.

- A tombstone of fid 0 is sixteen zero bytes, the end marker: everything appended after
  it is lost at the next restart (`Faults.TombstoneReadable`, `Faults.ZeroTombstoneHides`).
  A Trim with fid 0 among its candidates still keeps every object at every stop: one
  that reaches its compaction leaves a disk in order, on which only the candidates
  before fid 0 have been freed; one that stops between burying fid 0 and the compaction
  serves everything, before and after a restart, but loses whatever is appended next
  (`TrimOutcome.TrimKeepsObjects`, `TrimOutcome.ShadowReads`, `TrimOutcome.ShadowHides`). The
  pool's Trim buries no fid 0.
- A packed table stored under fid 0 leaves a disk that does not open
  (`Faults.AnchorOpens`); a Trim that stops after its anchor leaves one that opens exactly
  if its table is not stored under fid 0 (`TrimOutcome.TableFidDecides`).
- A commit of an alias pair whose rollback clears only the first entry leaves the second
  behind the append position; the next plain commit resurrects it, or leaves a disk
  that does not open (`Faults.StaleTargetReturns`).
- The scan that compaction reads with stops after a 4 MiB chunk if sixteen zero bytes in a row
  were seen at any alignment; a tombstone of a small fid before an entry whose fid ends
  in zero bytes is enough, and so is a small object before one of fid 0 whose size ends
  in zero bytes (`IndexScan.ScanComplete`, `IndexScan.SeamExactly`, `IndexScan.SeamBeforeZero`).
  Compaction then drops every object that no record and no table before the cut answers
  for, and brings back each packed object recorded before the cut and buried behind it:
  such a fid reads whatever its old extent holds by now. `CutScan.CompactionServes` says
  for every disk in order and every fid what is left, `CutScan.CutLoses` shows a disk in
  order that loses an object. A log that is scanned whole, which includes every log of
  at most one chunk, loses nothing (`TrimSteps.CompactKeeps`).
- The packed-table check adds offset and size in 64 bits, so an entry far outside the
  container passes (`PackedTable.AcceptedEntryInside`).
- Trim's container and table bypass the gate: a hash that another disk already stores
  makes the next start refuse the pool, and so does one that a Put in progress has
  claimed and then commits on another disk (`PoolCollisions.ContainerCollision`,
  `PoolCollisions.TableCollision`, `PoolCollisions.InFlightCollision`, and a colliding pool in
  `PoolCollisions.TrimCollides`).
- A client jump for data that hashes to 0 stores no alias, because an alias of 0 means
  none: the upload reports success and fid 0 reads nothing
  (`Client.PutWithJumpRetry`).

The client documents `IsDuplicate` as telling that the object was already in storage
(pkg/client/client.go:297-298), but the server gives the same answer for a Put that is still in
progress (internal/daemon/gate.go:46-50), which may yet fail. The model follows the
server (`Client.Answer.InFlight`), and nothing is claimed to be stored in that case.

## Model

| member | source | states |
|---|---|---|
| Layout.Extent | internal/blk/addr.go:7-22 | an object fits exactly if it is not empty and no larger than the grid; its slots lie on the grid and are just enough for its size |
| Layout.ExtentPlaces | internal/blk/addr.go:7-22 | every place with room for the object is the one of some fid: fids up to the last such place start there, and from then on the places repeat |
| Layout.AddrForFIDIsExtent | internal/blk/addr.go:7-22 | for every 64-bit size the wrapping address arithmetic accepts exactly the objects that fit, gives their extent, and the extent ends inside the disk |
| Layout.OverlapShares | internal/daemon/interval.go:10-14 | two intervals overlap exactly if they share a slot |
| IndexEntry.LittleEndianRoundTrip | internal/blk/index_v2.go:20-44 | decoding after encoding gives the value back whenever it fits |
| IndexEntry.BuildParseRoundTrip | internal/blk/index_v2.go:46-84 | building refuses exactly sizes beyond 56 bits and jump codes without their sentinel, and what is built parses back to the same entry |
| IndexEntry.ParseEncodeRoundTrip | internal/blk/index_v2.go:33-53 | every 16 bytes are the encoding of what they parse to, so an entry is the end marker exactly if all its bytes are zero |
| PackedTable.DecodeAfterEncode | internal/daemon/packed_table.go:38-102 | an encoded table decodes to itself exactly if every entry passes the range check, and is refused otherwise |
| PackedTable.EncodeAfterDecode | internal/daemon/packed_table.go:58-102 | every accepted blob is the encoding of what it decodes to |
| PackedTable.AcceptedEntryInside | internal/daemon/packed_table.go:90-98 | an accepted entry lies inside its container exactly if the 64-bit sum of offset and size does not wrap |
| PackedTable.WrappedEntryIsAccepted | internal/daemon/packed_table.go:90-98 | a concrete entry far outside its container that the decoder accepts |
| PackedTable.DecodePackedTable | internal/daemon/packed_table.go:58-102 | the decoding loop computes the decoder of the specification, which panics on a count that matches only by wrapping |
| PackedTable.EncodePackedTable | internal/daemon/packed_table.go:38-56 | filling the buffer field by field gives the encoding of the specification |
| PackedTable.ScrubTable | internal/blk/index_packed_scrub.go:352-402 | the second validator accepts a stored table exactly if the decoder does and the container size is not zero; it panics exactly if the count matches only by wrapping and every whole entry passes |
| IndexLog.WrittenLogCollects | internal/blk/index_compact.go:142-289 | collecting a compacted log gives the records it was written from, so compacting twice changes nothing |
| IndexLog.WrittenLogValidates | internal/blk/index_compact.go:312-349 | the validation accepts every compacted log |
| IndexLog.CompactionNeverLonger | internal/blk/index_compact.go:142-289 | the compacted log is never longer than the log it comes from, for every log that can be collected |
| LogOrder.CollectExactly | internal/blk/index_compact.go:142-230 | on every log, whatever wrote it, collecting fails exactly if some entry carries a stray jump code; otherwise the records are exactly the last words of the log, one for each fid that was put and not dropped since, in the order of the entries that start them |
| LogOrder.WordsUnique | internal/blk/index_compact.go:142-230 | a log has only one such list |
| LogOrder.ValidatesExactly | internal/blk/index_compact.go:312-349 | on every log, validation accepts exactly if every record is put whole, none is a tombstone, and no fid comes twice |
| LogOrder.CompactionKeepsWords | internal/blk/index_compact.go:232-289 | the compacted form of an engine log has the same last words in the same order, puts each once and holds nothing else |
| Compaction.CollectLatestIndexRecords | internal/blk/index_compact.go:142-230 | for every log the map with sequence numbers and the sort give exactly the ordered list of latest records, and fail exactly if the log is bad or the list too long for the region |
| Compaction.WriteLatestIndexRecords | internal/blk/index_compact.go:232-289 | the buffer's front holds the compacted log of the records, the rest is untouched, the count is its length |
| Compaction.ValidateCompacted | internal/blk/index_compact.go:312-349 | the checking loop accepts exactly the logs the specification validates |
| Sorting.SortedUnique | internal/blk/index_compact.go:217 | two lists in ascending order of a key with the same members are equal, so the sort of the records by sequence number, and of the descriptors by offset, determines the result whatever order it starts from |
| Replay.EngineReplays | internal/daemon/index_state.go:85-160 | on every log the engine writes the replay succeeds and agrees with the collected records on references, extents, tables and pending indicators |
| ReplayRules.ReplayFollows | internal/daemon/index_state.go:85-160 | on every log, whatever wrote it, the replay accepts exactly if every entry may stand where it stands; references and extents are then those of the newest entries of every fid |
| ReplayRules.OpensExactly | internal/daemon/index_state.go:22-165 | a log opens exactly if the replay accepts it, no indicator waits at its end, its tables can be expanded and no two fids are stored on extents that share a slot |
| Replay.CompactionPreservesReplay | internal/blk/index_compact.go:142-289 | on any grid, the compacted form of an engine log replays to the same references, packed records and extents; it is an engine log, validates, collects to the same records and is not longer |
| IndexState.ReplayIndex | internal/daemon/index_state.go:22-165 | the replay loop with its maps and pending pointers succeeds exactly when the specification does, with the same references, packed records, extents and log end |
| IndexState.ExpandAll | internal/daemon/index_state.go:42-75 | the loops over tables and entries give the expansion of the specification, later tables winning |
| IndexState.NoneOverlap | internal/daemon/index_state.go:77-83 | comparing neighbours in start order finds an overlap exactly if any two extents overlap |
| FindLatest.FindLatestInRegion | internal/blk/index.go:54-140 | the scanning loop computes the last-wins lookup of the specification over the entries before the end marker |
| FindLatest.LastEntryWins | internal/blk/index.go:54-140 | on every log, anchors included, the scan fails exactly if an indicator is not followed by a target, and otherwise answers with the last entry that decides about the fid, as its own record or as the target of its alias |
| FindLatest.FindAgreesWithReplay | internal/blk/index.go:54-140 | on every log without anchors that both accept, the scan finds a fid exactly if the replayed map has it, with the same target, stored size, logical size and alias flag |
| FindLatest.FindAccepts | internal/blk/index.go:93-108 | of the logs the replay accepts, the scan refuses exactly those in which a tombstone directly follows an indicator |
| IndexScan.ScanIndexStream | internal/blk/index_compact.go:351-397 | the chunk, entry and zero-run loops deliver exactly the entries before the first all-zero one or before the first chunk boundary by which sixteen zero bytes in a row were seen |
| IndexScan.ScannedRegion | internal/blk/index_compact.go:351-397 | run over the bytes of a region, the loops deliver exactly the front of the region that the scan of the specification names |
| IndexScan.ScanComplete | internal/blk/index_compact.go:384-393 | the whole log is delivered exactly if no sixteen zero bytes in a row lie before the last chunk boundary inside it |
| IndexScan.RunIsSeam | internal/blk/index_compact.go:384-393 | among nonzero entries such a run exists exactly if it lies across the seam of two neighbours |
| IndexScan.SeamExactly | internal/blk/index_compact.go:384-393 | in front of a nonzero fid only a tombstone makes a seam, exactly if its fid fits the low bytes by which the next fid is divisible |
| IndexScan.SeamBeforeZero | internal/blk/index_compact.go:384-393 | in front of fid 0 a plain entry makes a seam exactly if its size fits the low bytes by which the next size is divisible |
| IndexScan.CleanScan | internal/blk/index_compact.go:351-397 | a log of nonzero fids and sizes, such as a compacted one, is read to its end however long it is |
| IndexScan.ShortScan | internal/blk/index_compact.go:351-397 | a log of at most one chunk is read to its end |
| IndexScan.ScanSame | internal/blk/index_compact.go:351-397 | what the scan delivers depends only on the entries before the first all-zero one |
| IndexScan.TombstoneCutsScan | internal/blk/index_compact.go:384-393 | a tombstone of a fid below 256 before a fid divisible by 256 cuts every longer log short |
| StreamWriter.WriteStreamDirect | internal/daemon/directio.go:51-101 | for every device, the aligned writer succeeds exactly if the extent is aligned, the stream has the declared length and every chunk is written in the end; then the extent holds the data and zeros and every other byte is as before; otherwise a prefix of that is written, and nothing outside the extent |
| StreamWriter.WritePlainly | internal/daemon/state.go:379-435 | the plain writer succeeds exactly if the stream has the declared length and every chunk is written at the first attempt, and leaves the same bytes |
| StreamWriter.WriteAllAt | internal/daemon/directio.go:123-136 | writes on through partial writes and stops exactly where the device makes no progress; it succeeds exactly if that is the end |
| StreamWriter.TakesDirectExactly | internal/daemon/directio.go:51-136 | the device takes an aligned write exactly if from the start of every 1 MiB chunk there is a way to its end on which every write gets somewhere |
| StreamWriter.TakesPlainExactly | internal/daemon/state.go:379-435 | the device takes a plain write exactly if it writes every 4 MiB chunk at once |
| StreamWriter.FullTakes | internal/daemon/state.go:202-231 | a device that never writes short takes every object, by either writer |
| Chd.ComputeCHD | internal/daemon/chd.go:21-54 | the binary-search loop computes the recursive search over the required share of samples, and 0 for a disk without a grid |
| Chd.RequiredExactly | internal/daemon/chd.go:30-36 | the required number of samples is the least that is not below the target share, a target outside (0, 1] counting as a fifth |
| Chd.ChdSuccessRate | internal/daemon/chd.go:65-85 | the counting loop with its early exit answers whether at least the required number of samples place |
| Chd.CountIs | internal/daemon/chd.go:65-85 | what is counted are the samples whose extent shares no slot with an occupied one |
| Chd.SearchBisects | internal/daemon/chd.go:39-53 | in every range it comes to, the search ends in the upper half exactly if enough samples place the middle size |
| Chd.CHDAntitone | internal/daemon/chd.go:21-54 | adding extents never raises the estimate |
| Chd.CHDAchievable | internal/daemon/chd.go:21-54 | a nonzero estimate is a size within the disk whose extents, for the required number of samples, share no slot with an occupied one |
| Chd.CHDLocallyBest | internal/daemon/chd.go:21-54 | the next larger size is beyond the disk or placed by too few samples |
| Chd.CHDEmpty | internal/daemon/chd.go:21-54 | an empty grid has its full capacity |
| Chd.CHDFull | internal/daemon/chd.go:21-54 | a grid without a free slot has capacity 0 |
| Chd.PlacementNotMonotone | internal/daemon/chd.go:65-85 | placing is not monotone in the size: a sample that fails with two slots succeeds with three |
| Store.HoldsFrame | internal/daemon/state.go:333-352 | bytes written outside the occupied extents change nothing that is stored, in memory or in the log |
| DiskSteps.ReadsObjects | internal/daemon/state.go:324-352 | on a disk without fault every read of a stored fid returns exactly its bytes and every other fid is not found |
| DiskSteps.PrepareKeeps | internal/daemon/interval.go:16-37 | a reservation keeps all objects, is granted only for an extent that shares no slot with any confirmed or reserved one, and a refusal changes nothing |
| DiskSteps.PrepareExactly | internal/daemon/state.go:177-190 | a reservation is granted exactly if the object is not empty, fits the disk, there is no fault and its extent overlaps no confirmed or reserved one; each refusal has its own error and changes nothing |
| DiskSteps.GridWriteKeeps | internal/daemon/state.go:202-231 | a write anywhere inside an extent that overlaps no confirmed one disturbs no object |
| DiskSteps.CommitKeeps | internal/daemon/state.go:236-309 | success stores the data under the fid and the data without its last byte under the alias; a failure with a successful rollback leaves the disk exactly as it was; a failed rollback raises the fault and changes no object |
| DiskSteps.CommitExactly | internal/daemon/state.go:236-309 | a commit succeeds exactly if every write and sync of the device goes well, there is no fault, fid and alias are unconfirmed, the alias is valid, the size fits 56 bits and the log has room; the new log, memory and extents are given |
| DiskSteps.CommitFails | internal/daemon/state.go:241-298 | a refused commit or a failed payload sync changes nothing; a failed append leaves exactly the entries written and not cleared again, and raises the fault exactly if clearing failed |
| TrimSteps.WriteObjectKeeps | internal/daemon/trim.go:170-260 | a written container or table is one new object with its own new extent; any other outcome stores nothing, and a conflict changes nothing |
| TrimSteps.WriteExactly | internal/daemon/trim.go:170-260 | the write succeeds exactly if the extent is free, there is no fault, the fid is new, the size fits 56 bits and the log has room; it answers with a conflict exactly if the fid is stored or the extent meets another; the grid then holds the data and zeros, the log one more entry, and a refusal has changed nothing |
| TrimSteps.AnchorKeeps | internal/daemon/trim.go:364-388 | anchoring a table keeps every object and replaces its record by an anchored one |
| TrimSteps.LoadKeeps | internal/daemon/trim.go:390-427 | loading an anchored table always succeeds and keeps every object, now read through the container |
| TrimSteps.TombstoneKeeps | internal/daemon/trim.go:457-470 | burying an object that memory reads through a table keeps every object and removes exactly its record |
| TrimSteps.ReplayAgrees | internal/daemon/index_state.go:22-165 | the log of a disk without fault always replays, to references for exactly the stored fids, each reading exactly the object's bytes, with extents among the confirmed ones |
| TrimSteps.OpenKeeps | internal/daemon/state.go:85-143 | opening a disk without fault always succeeds and serves the same objects |
| TrimSteps.CompactKeeps | internal/daemon/trim.go:472-532 | compaction of a log that is scanned whole always succeeds, keeps every object and record, never lengthens the log, and confirms exactly the extents of the records; the new log is those records written once and nothing else |
| Trim.BuiltSlices | internal/daemon/trim.go:146-168 | building the container succeeds and the recorded slices hold the candidates' bytes one after the other without gap |
| Trim.SlicesExtend | internal/daemon/trim.go:262-284 | appending to the container, as every failed nonce does, keeps every recorded slice |
| Trim.NewFid | internal/daemon/trim.go:58-86 | a fid that is not stored is no table's container and on no table's list |
| TrimRun.WriteContainerKeeps | internal/daemon/trim.go:262-284 | writing the container with any appended nonces keeps all objects and Trim's bookkeeping |
| TrimRun.WriteTableKeeps | internal/daemon/trim.go:349-362 | writing the table keeps all objects, and the table decodes to the recorded slices |
| TrimRun.AnchorStepKeeps | internal/daemon/trim.go:364-388 | the anchor step of a running Trim keeps all objects and its bookkeeping |
| TrimRun.LoadStepKeeps | internal/daemon/trim.go:390-427 | the load step always succeeds and memory then reads every candidate through the table |
| TrimRun.VerifyPasses | internal/daemon/trim.go:429-455 | the checks before anything is buried, the mapping, the reference, the extent, the device read and the size, always pass |
| TrimRun.BuryKeeps | internal/daemon/trim.go:457-470 | each tombstone of a running Trim, of any fid but 0, keeps all objects |
| TrimRun.CompactStepKeeps | internal/daemon/trim.go:472-532 | the compaction that ends Trim succeeds, keeps all objects and confirms no new extent |
| Faults.ReopenAfterTorn | internal/daemon/state.go:276-297 | after a commit whose append and rollback both failed, a restart serves the old objects, or the new ones, or is refused, exactly as the number of entries written and cleared says, and never half a pair |
| Faults.StaleTargetReturns | internal/daemon/state.go:282-297 | memory and log of the reopened disk agree for good exactly if no cleared indicator hides a target entry; otherwise the next plain commit brings the failed object back or leaves a disk that does not open |
| Faults.TombstoneReadable | internal/daemon/trim.go:457-470 | the log end after a tombstone is the append position exactly if the fid is not 0 |
| Faults.ZeroTombstoneHides | internal/daemon/trim.go:457-470 | whatever is appended after a tombstone of fid 0 is not replayed |
| Faults.CommitAfterZeroTombstone | internal/daemon/trim.go:457-470 | an object committed after it is in memory and gone after the next restart |
| Faults.AnchorOpens | internal/daemon/index_state.go:118-124 | a disk with a newly anchored table opens exactly if the table's fid is not 0 |
| Faults.CompactedScansWhole | internal/blk/index_compact.go:351-397 | a compacted log of nonzero fids is read to its end by the next scan |
| CutScan.CompactionIs | internal/daemon/trim.go:472-532 | compaction of any disk in order, however much of its log is scanned, succeeds exactly if the extents of the records before the cut are disjoint, and memory is then exactly those records with their tables expanded |
| CutScan.CompactionServes | internal/daemon/trim.go:472-532 | for every fid what a compaction leaves: listed by a table before the cut, its bytes; recorded there and still in force, its bytes; recorded there and buried behind the cut, whatever its old extent holds; anything else, not found |
| CutScan.SurvivesExactly | internal/daemon/trim.go:472-532 | a stored object keeps its bytes exactly in the first two cases or if its old extent still holds them, and is gone exactly if no record and no table before the cut answers for it |
| CutScan.CutLoses | internal/daemon/trim.go:472-532 | a concrete disk in order whose compaction succeeds and no longer finds a stored object |
| CutScan.TablePersists | internal/blk/index_compact.go:142-289 | a table anchored in a prefix of an engine log is still anchored at its end |
| Device.RemoveInterval | internal/daemon/interval.go:56-64 | the filtered list is the list without every occurrence of the target, in order |
| Device.DroppedSet | internal/daemon/interval.go:56-64 | filtering removes exactly the target from the set of extents |
| Device.DeviceState.constructor | internal/daemon/state.go:127-142 | a new device object has the file's contents and nothing in memory |
| Device.DeviceState.Open | internal/daemon/state.go:85-143 | memory becomes what the replay gives, or the device is refused and unchanged; a device in order always opens with the same objects |
| Device.DeviceState.ReserveExtent | internal/daemon/interval.go:16-37 | the extent is reserved exactly if there is no fault and it overlaps no confirmed or reserved extent; the three outcomes and their order |
| Device.DeviceState.PrepareWrite | internal/daemon/state.go:177-190 | granted exactly if the object is not empty and fits, there is no fault and its extent overlaps no confirmed or reserved one; moves the state as the model's reservation, with the same errors, and returns a matching prepared write |
| Device.DeviceState.WriteFrom | internal/daemon/state.go:202-231 | accepted exactly if the stream has the declared length and the device takes it by the writer in use; then the extent reads as the stream's bytes and holds zeros behind them; no other extent changes in any case |
| Device.DeviceState.Commit | internal/daemon/state.go:236-309 | succeeds exactly if every write and sync goes well and nothing about the disk stands in the way; a failed payload sync leaves log and memory as they were; state and answer are those of the model's commit; on success the objects grow by what the reservation holds, on failure they do not change |
| Device.DeviceState.Abort | internal/daemon/state.go:316-318 | the reservation is dropped and nothing else changes |
| Device.DeviceState.Get | internal/daemon/state.go:324-331 | reads through memory; on a device in order exactly the stored bytes, not found, or the fault |
| Device.DeviceState.ReadRange | internal/daemon/state.go:333-352 | the requested slice of what a reference denotes |
| DeviceTrim.CollectEligible | internal/daemon/trim.go:58-106 | on any device the loops over the scanned bytes, the tables and the records give the eligible list of the specification, or fail exactly with it; on a device in order whose scan is whole they give exactly the eligible objects, from the oldest on |
| TrimSelection.EligibleExact | internal/daemon/trim.go:58-106 | on a disk in order whose scan is whole the eligible objects are exactly the plainly recorded ones that are no table's container, each once, in the order in which they were recorded |
| TrimSelection.BeforeInLog | internal/daemon/trim.go:88-101 | the order of the records is that of their entries in the log |
| TrimSelection.CandidatesWait | internal/daemon/trim.go:107-143 | the candidates are the oldest of the small eligible objects, in the order of the records, with their stored sizes, and fit the limit or are a single one; whatever is left out was recorded after all of them, and with the oldest left out they would not fit |
| DeviceTrim.PickBatch | internal/daemon/trim.go:125-142 | the batch is the longest front of the small eligible objects within the limit, or a single one that exceeds it |
| TrimSelection.BatchUnique | internal/daemon/trim.go:125-142 | there is only one such batch |
| DeviceTrim.BuildContainerFile | internal/daemon/trim.go:146-168 | the loop builds the container of the specification |
| TrimSelection.BuiltIs | internal/daemon/trim.go:146-168 | on a disk in order the container is the candidates' bytes end to end, and its rows are their fids and sizes, each starting where the ones before end |
| TrimSpec.NonceTailIs | internal/daemon/trim.go:262-284 | what n failed attempts have appended are the numbers 1 to n in eight bytes each, low byte first |
| DeviceTrim.WriteContainerObject | internal/daemon/trim.go:262-284 | up to 256 attempts, each after a conflict, on the container with the nonces of the failed ones appended; disk and answer are those of the specification |
| DeviceTrim.WritePackedTableObject | internal/daemon/trim.go:349-362 | the same for the table, whose nonce is a header field |
| TrimSpec.ContainerAttempt | internal/daemon/trim.go:262-284 | the attempts at the container end at the first that does not clash or at the 256th, and only the last has any effect |
| TrimSpec.TableAttempt | internal/daemon/trim.go:349-362 | the same for the attempts at the table |
| DeviceTrim.CompactIndexLocked | internal/daemon/trim.go:472-532 | collecting, writing, validating, copying and replaying move the state as the model's compaction |
| TrimProgress.FreesExactlyPacked | internal/daemon/trim.go:517-530 | the records of a finished Trim have exactly the old extents without the candidates' and with the container's and the table's |
| TrimProgress.StagesAgree | internal/daemon/trim.go:534-657 | by its steps Trim comes to the records before it without those of the candidates, in their order, then the container and the anchored table |
| DeviceTrim.MaybeTrim | internal/daemon/trim.go:534-657 | on a device in any state, moves exactly as the specification of a whole Trim; on a device in order whose scans are whole and whose table is not stored under fid 0, wherever Trim stops every object is stored as before and read so now and after a restart, reservations and fault are as before, and the device is in order unless Trim stopped behind a tombstone of fid 0; it moves the oldest small objects in the order of the log, the container it stores is their bytes in that order and then its nonces, the table lists them so, and nothing else is stored; it finishes exactly if it is not stopped, container and table get written and the log has room, and has then freed exactly the extents of what it packed; the records are given for every stop |
| TrimOutcome.TrimKeepsObjects | internal/daemon/trim.go:534-657 | the same of the specification, for every stop point and every hash: what is kept, which disk is in order afterwards, the records at every stop, when Trim finishes and what it has freed |
| TrimResult.TrimStores | internal/daemon/trim.go:262-362 | stored afterwards are the objects before with the container, the candidates' bytes and the nonces, under the hash of the first attempt that does not clash, and with the table in the same way, each only if the disk takes it and Trim comes so far |
| TrimResult.MadeIs | internal/daemon/trim.go:262-362 | container and table get written exactly if the first attempt that does not clash is one the disk takes, which the disk before Trim decides |
| TrimResult.TrimResults | internal/daemon/trim.go:534-657 | what a Trim of a disk in order chooses, stores and comes to, all in one |
| TrimOutcome.ShortLogClear | internal/daemon/trim.go:534-657 | if the log and what Trim appends fit one scan chunk, the scans are whole, so only the table's hash matters |
| TrimOutcome.TrimEndsInCompaction | internal/daemon/trim.go:646-657 | whatever its last scan delivers, a Trim that comes to its end leaves the compaction of a disk in order that still has every object |
| TrimOutcome.TableFidDecides | internal/daemon/trim.go:364-388 | a Trim that stops after its anchor leaves a disk that opens exactly if the table is not stored under fid 0 |
| TrimOutcome.ShadowReads | internal/daemon/trim.go:457-470 | stopped behind a tombstone of fid 0, memory and a restart serve every object |
| TrimOutcome.ShadowHides | internal/daemon/trim.go:457-470 | but whatever is appended next is not replayed |
| TrimOutcome.CompactSame | internal/daemon/trim.go:472-532 | compaction leaves the same disk whether or not tombstones lie behind one of fid 0 |
| PoolRuns.StartPool | internal/daemon/server.go:48-129 | a pool of formatted disks satisfies the invariant |
| PoolSteps.GrantKeeps | internal/daemon/gate.go:37-65 | a Put passes the gate only when no disk stores any of its fids, although the disks were asked one after the other |
| PoolSteps.PrepareStepKeeps | internal/daemon/server.go:212-224 | reserving on a disk of any choice, or failing to, keeps the invariant |
| PoolSteps.StreamStepKeeps | internal/daemon/server.go:226-232 | a streamed piece stays in its own extent and disturbs no other Put, object or Trim |
| PoolSteps.CommitStepKeeps | internal/daemon/server.go:234-247 | a commit stores exactly the claimed data or nothing, and keeps the invariant |
| PoolSteps.AbortStepKeeps | internal/daemon/server.go:228-245 | an abort returns exactly its own reservation |
| PoolSteps.ReleaseKeeps | internal/daemon/gate.go:69-76 | releasing returns exactly the Put's own fids to the gate |
| PoolSteps.LandedReads | internal/daemon/state.go:202-231 | once all pieces have landed, in whatever interleaving, the extent reads as the declared data |
| PoolRuns.TrimKeeps | internal/daemon/trim.go:534-657 | every step of a Trim on any disk, interleaved with anything, keeps the invariant and only adds objects under fresh fids |
| PoolRuns.ReopenKeeps | internal/daemon/state.go:85-143 | a restart between any two steps opens every disk with the same objects |
| PoolRuns.NextKeeps | internal/daemon/server.go:188-248 | every step of any Put, Trim or restart keeps the invariant and every object |
| PoolRuns.RunKeeps | docs/DESIGN.md:130-172 | so does every run |
| PoolRuns.GetReturns | internal/daemon/server.go:250-281 | whichever disk answers first, a Get of a stored fid returns exactly its bytes, or fails because its disk has a fault |
| PoolRuns.GetFindsNothing | internal/daemon/server.go:250-281 | a fid stored nowhere is never found |
| PoolRuns.Durable | internal/daemon/server.go:234-247 | once a Put commits, after any further run every Get of its fid returns exactly its data and every Get of its alias the data without the last byte, unless its disk has a fault |
| PoolRuns.UniqueAlways | internal/daemon/gate.go:37-76 | after any run no two Puts past the gate share a fid, the fids of uncommitted ones are stored nowhere, and no fid is stored on two disks |
| PoolRuns.UncommittedInvisible | docs/DESIGN.md:165-172 | a Put that has not committed is never found under any of its fids |
| PoolRuns.ConservedHere | internal/daemon/server.go:205-247 | the gate's set is exactly the fids of the Puts past it and each disk's reservations are exactly the extents of the Puts that hold them, each held once |
| PoolRuns.NothingLeaks | docs/DESIGN.md:165-172 | after any run, when no Put is in progress nothing is claimed and nothing is reserved |
| PoolRuns.StepSpares | internal/daemon/state.go:202-231 | no step of anything changes a byte inside any confirmed extent |
| PoolRuns.ExtentsApart | internal/daemon/interval.go:16-64 | after any run the confirmed and reserved extents of each disk lie on its grid and share no slot |
| PoolRuns.RestartAccepted | internal/daemon/server.go:91-107 | a restart never finds a fid on two disks |
| PoolCollisions.ContainerFresh | internal/daemon/trim.go:185-202 | a container leaves the pool in order exactly if no other disk stores its fid and no Put in progress relies on this disk not storing it |
| PoolCollisions.TableFresh | internal/daemon/trim.go:286-347 | so does a table |
| PoolCollisions.ContainerCollision | internal/daemon/server.go:91-107 | after a container is written the next start accepts the pool exactly if no other disk stores its fid |
| PoolCollisions.TableCollision | internal/daemon/server.go:91-107 | the same after a table |
| PoolCollisions.InFlightCollision | internal/daemon/server.go:234-247 | a Put that had claimed the fid and commits on another disk makes the next start refuse the pool |
| PoolCollisions.TrimCollides | internal/daemon/trim.go:185-202 | a concrete pool in order whose Trim writes a container that another disk's object collides with |
| PoolProgress.PutGoesThrough | internal/daemon/server.go:212-247 | a granted Put commits in three steps if no Trim holds the disk, the disk has no fault, the object's extent overlaps no other and the log has room, so nothing else blocks it |
| PoolProgress.PutCompletes | internal/daemon/server.go:188-248 | a Put whose fids are neither claimed nor stored, on a pool without fault where no other Put is asking, has a run of steps from its header to the commit if its way is free on some disk; that disk then stores exactly its objects more, every other disk what it stored |
| PoolRuns.FaultForGood | internal/daemon/state.go:291-295 | over any run a faulty disk keeps its fault, stores nothing more and answers no read |
| Server.PoolGate.Reserve | internal/daemon/gate.go:37-65 | both fids are claimed together exactly if neither is claimed and neither is reported as confirmed, otherwise nothing is; a conflict is answered exactly if one of them is claimed, or reported before the pool answers with an error |
| Server.PoolGate.Release | internal/daemon/gate.go:69-76 | exactly the two fids are given back |
| Server.ConfirmedAnywhere | internal/daemon/multidisk.go:112-137 | whatever the order of the answers, found if any disk says so, not found exactly if all say so |
| Server.Put | internal/daemon/server.go:188-248 | succeeds exactly if the header is in order, the gate lets its fids in, a disk is available, its extent overlaps no other, the stream has the declared length and the device takes it, every write and sync of the commit goes well and nothing stands in the way of the entries, and nothing is cancelled; answers "registered" exactly if the gate knows one of its fids and "extent reserved" exactly if the extent meets another; on every way out the gate and the reservations are as before; success stores exactly the streamed data and its alias, failure stores nothing |
| Server.Get | internal/daemon/server.go:282-310 | without a range the messages join to the whole object, with one to the bytes from its start to its end, an end of 0 or beyond the size meaning the size; they are consecutive, all but the last of 1 MiB, none empty unless the range is; a range that starts past its end is refused, a fault and an unknown fid have their own answers |
| Client.PutWithJumpRetry | pkg/client/client.go:315-378 | for an arbitrary hash and any answers of the server: a duplicate is reported exactly if the first Put was answered as registered, k jumps exactly if the extent was taken, jumps 1 to k - 1 were conflicts and jump k was accepted, exhaustion exactly if all jumps were conflicts, any other error exactly if the last attempt answered it; what is not a new object stores nothing; otherwise the logical fid reads as exactly the data if and only if no jump was taken or the hash is not 0 |
| Cdc.CollectDescriptors | pkg/client/cdc.go:205-245 | for any order of completion the sorted descriptors are the chunks in file order and the total is the file's size; the two counts are the numbers of results that are duplicates and that are not |
| Cdc.GetCDC | pkg/client/cdc.go:290-346 | a range read writes exactly that slice of the file, an end of 0 or past the file meaning its end, and fetches exactly the overlapping chunks; it fails exactly if one of those is not stored |

## Left out

- The gRPC transport, contexts, timers and goroutines: replaced by free choices of the pool's steps.
- Operating-system calls (opening with direct I/O, page alignment in memory, device size, fsync internals): a sync is a step of `Commit` that may fail.
- A crash in the middle of the in-place copy of a compaction, tearing inside one 16-byte entry, and device errors in Trim's own appends: the code promises no recovery there.
- A Get that holds a reference across a finished Trim: a read is a lookup and a read in one step.
- The fragmentation threshold, the trigger ratio and the best-fit choice of a disk: arbitrary inputs here, so what is proved holds for all of them.
- The clamping of the threshold and of the batch limit in candidate selection: the two values are inputs of `DeviceTrim.MaybeTrim`.
- The backup file and the status fields of Trim, the zram tier, configuration, the command line and the pan file: plumbing around the engine.
- xxh3, FastCDC and the manifest encoding: the hash is any function, the chunks any consecutive nonempty pieces.
- Short writes of the device inside `Commit`: an append that fails has written some whole entries.
- Concurrent clients between the attempts of one jump retry: `Client` runs one upload against any store; `PoolRuns` covers concurrent Puts.
- MaybeTrim: what it promises of the stored objects asks that the scan which selects the candidates reaches the end of the log; with a cut selection scan it only moves as the specification.
- TrimKeepsObjects: asks for the same; for the final scan `TrimOutcome.TrimEndsInCompaction` with `CutScan.CompactionServes` says what happens otherwise, for a table of fid 0 `TrimOutcome.TableFidDecides`.
- CompactKeeps: requires a log that is scanned whole; `CutScan.CompactionServes` covers every other one.
- Durable: allows reads to fail while the object's disk has a fault; a disk with a fault is reopened only in `Faults.ReopenAfterTorn`.
- TrimKeeps: requires the container and table fids to be fresh in the whole pool, which the code does not check on other disks, and no candidate of fid 0; `PoolCollisions.ContainerFresh` and `TableFresh` show that the first is needed exactly.
