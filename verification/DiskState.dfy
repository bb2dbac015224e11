/** One disk: its index region, its data grid and its in-memory index, and what
    each operation of the engine does to them. */
module DiskState {
  import opened Layout
  import opened IndexEntry
  import opened IndexLog
  import opened PackedTable
  import opened Replay
  import opened IndexScan
  import opened Store
  import opened StoreSteps

  /** `end` counts the entries before the append position; `fault` is the sticky
      index error. */
  datatype Disk = Disk(
    slots: nat,
    diskID: nat,
    grid: seq<byte>,
    region: seq<Entry>,
    end: nat,
    confirmed: map<nat, Ref>,
    packed: map<nat, PackedRecord>,
    intervals: set<Interval>,
    pending: set<Interval>,
    fault: bool)

  function Splice<T>(s: seq<T>, at: nat, part: seq<T>): (r: seq<T>)
    requires at + |part| <= |s|
    ensures |r| == |s|
    ensures forall i :: 0 <= i < |s| ==> r[i] == if at <= i < at + |part| then part[i - at] else s[i]
  {
    s[..at] + part + s[at + |part|..]
  }

  function Zeros(n: nat): (s: seq<byte>)
    ensures |s| == n && forall i :: 0 <= i < n ==> s[i] == 0
  {
    seq(n, i => 0)
  }

  function ZeroEntries(n: nat): (s: seq<Entry>)
    ensures |s| == n && forall i :: 0 <= i < n ==> s[i] == ZERO
  {
    seq(n, i => ZERO)
  }

  /** What has changed is the bytes from `at` on: the data, then zeros up to the total. */
  ghost predicate Filled(before: seq<byte>, after: seq<byte>, at: nat, data: seq<byte>, total: nat) {
    && |after| == |before|
    && forall i :: 0 <= i < |before| ==>
         after[i] == if at <= i < at + |data| then data[i - at] else if at <= i < at + total then 0 else before[i]
  }

  predicate AnyOverlap(ivs: set<Interval>, iv: Interval) {
    exists e :: e in ivs && Overlaps(e, iv)
  }

  // ----- operations -----

  function Lookup(d: Disk, fid: nat): Result<Ref> {
    if d.fault then Err(Fault) else if fid !in d.confirmed then Err(NotFound) else Ok(d.confirmed[fid])
  }

  /** Looking a fid up and reading its bytes. */
  function Read(d: Disk, fid: nat): Result<seq<byte>> {
    var ref := Lookup(d, fid);
    if ref.Err? then Err(ref.error) else ReadRef(d.slots, d.grid, ref.value)
  }

  function PrepareWrite(d: Disk, fid: nat, size: nat): (Disk, Result<Interval>) {
    var iv := Extent(d.slots, fid, size);
    if size == 0 then (d, Err(EmptyObject))
    else if iv.None? then (d, Err(OutOfRange))
    else if d.fault then (d, Err(Fault))
    else if AnyOverlap(d.intervals, iv.value) || AnyOverlap(d.pending, iv.value) then (d, Err(Conflict))
    else (d.(pending := d.pending + {iv.value}), Ok(iv.value))
  }

  /** Bytes reach the grid without any lock held. */
  function StreamWrite(d: Disk, at: nat, bytes: seq<byte>): Disk
    requires at + |bytes| <= |d.grid|
  {
    d.(grid := Splice(d.grid, at, bytes))
  }

  function Abort(d: Disk, iv: Interval): Disk { d.(pending := d.pending - {iv}) }

  /** How the input and output of one commit goes. A failing append has written
      some whole entries; a failing rollback has cleared some. */
  datatype CommitIO = AllWell | PayloadSyncFails | AppendFails(written: nat, rollback: Rollback)
  datatype Rollback = RolledBack | RollbackFails(cleared: nat)

  function CommitRec(fid: nat, size: nat, alias: nat): Rec {
    if alias == 0 then Plain(fid, size) else Jump(alias, fid, size, ALIAS_JUMP_CODE)
  }

  /** The region after a failed append of es and its rollback. */
  function TornRegion(region: seq<Entry>, at: nat, es: seq<Entry>, written: nat, rollback: Rollback): seq<Entry>
    requires at + |es| <= |region| && written <= |es|
    requires rollback.RollbackFails? ==> rollback.cleared <= |es|
  {
    var torn := Splice(region, at, es[..written]);
    Splice(torn, at, ZeroEntries(if rollback.RolledBack? then |es| else rollback.cleared))
  }

  predicate IOFits(io: CommitIO, n: nat) {
    io.AppendFails? ==> io.written <= n && (io.rollback.RollbackFails? ==> io.rollback.cleared <= n)
  }

  function Commit(d: Disk, fid: nat, size: nat, iv: Interval, alias: nat, io: CommitIO): (Disk, Result<()>)
    requires |d.region| == MAX_ENTRIES
    requires IOFits(io, if alias == 0 then 1 else 2)
  {
    var es := RecEntries(CommitRec(fid, size, alias));
    if alias != 0 && (alias == fid || size < 2) then (d, Err(InvalidAlias))
    else if d.fault then (d, Err(Fault))
    else if fid in d.confirmed || (alias != 0 && alias in d.confirmed) then (d, Err(Conflict))
    else if size > JUMP_SENTINEL then (d, Err(BadEntry("size exceeds 56-bit limit")))
    else if d.end + |es| > MAX_ENTRIES then (d, Err(IndexFull))
    else
      match io
      case PayloadSyncFails => (d, Err(SyncFailed))
      case AppendFails(written, rollback) =>
        (d.(region := TornRegion(d.region, d.end, es, written, rollback), fault := rollback.RollbackFails?),
         Err(CommitFailed))
      case AllWell =>
        (Appended(d, CommitRec(fid, size, alias), iv), Ok(()))
  }

  /** The new record is in the log and in memory, its extent confirmed. */
  function Appended(d: Disk, r: Rec, iv: Interval): Disk
    requires d.end + |RecEntries(r)| <= |d.region|
  {
    d.(region := Splice(d.region, d.end, RecEntries(r)), end := d.end + |RecEntries(r)|,
       confirmed := d.confirmed + RecRefs(r),
       pending := d.pending - {iv}, intervals := d.intervals + {iv})
  }

  /** Trim's own write of a container or a table: no gate, no alias, one entry. */
  function WriteObject(d: Disk, fid: nat, data: seq<byte>): (Disk, Result<()>)
    requires |d.region| == MAX_ENTRIES && |d.grid| == d.slots * SLOT_SIZE
  {
    var iv := Extent(d.slots, fid, |data|);
    if data == [] then (d, Err(EmptyObject))
    else if d.fault then (d, Err(Fault))
    else if fid in d.confirmed then (d, Err(Conflict))
    else if iv.None? then (d, Err(OutOfRange))
    else if AnyOverlap(d.intervals, iv.value) || AnyOverlap(d.pending, iv.value) then (d, Err(Conflict))
    else
      var padded := data + Zeros((iv.value.end - iv.value.start + 1) * SLOT_SIZE - |data|);
      var written := d.(grid := Splice(d.grid, iv.value.start * SLOT_SIZE, padded));
      if |data| > JUMP_SENTINEL then (written, Err(BadEntry("size exceeds 56-bit limit")))
      else if d.end + 1 > MAX_ENTRIES then (written, Err(IndexFull))
      else (Appended(written, Plain(fid, |data|), iv.value), Ok(()))
  }

  function AppendAnchor(d: Disk, fid: nat, size: nat): (Disk, Result<()>)
    requires |d.region| == MAX_ENTRIES
  {
    var es := RecEntries(Table(fid, fid, size));
    if d.end + 2 > MAX_ENTRIES then (d, Err(IndexFull))
    else (d.(region := Splice(d.region, d.end, es), end := d.end + 2), Ok(()))
  }

  function LoadPackedTable(d: Disk, fid: nat): (Disk, Result<()>) {
    var blob := Read(d, fid);
    if blob.Err? then (d, Err(blob.error))
    else
      var t := DecodeTable(blob.value);
      if t.Err? then (d, Err(t.error))
      else if t.value.header.diskID != d.diskID then (d, Err(BadTable("disk_id mismatch")))
      else if t.value.header.containerSize == 0 then (d, Err(BadTable("zero container size")))
      else
        (d.(confirmed := d.confirmed + TableRefs(t.value),
            packed := d.packed + EntriesPacked(t.value.header, t.value.entries, fid, |blob.value|)),
         Ok(()))
  }

  function AppendTombstone(d: Disk, fid: nat): (Disk, Result<()>)
    requires |d.region| == MAX_ENTRIES
  {
    if d.end + 1 > MAX_ENTRIES then (d, Err(IndexFull))
    else (d.(region := Splice(d.region, d.end, [Entry(fid, 0, 0)]), end := d.end + 1), Ok(()))
  }

  /** The region rewritten from the latest records the scan delivers, then replayed
      into memory. */
  function CompactIndex(d: Disk): (Disk, Result<()>)
    requires |d.region| == MAX_ENTRIES
  {
    var cs := Collect(d.region[..ScanEnd(d.region)]);
    if cs.Err? then (d, Err(cs.error))
    else if |WriteLog(cs.value.recs)| > MAX_ENTRIES then (d, Err(IndexFull))
    else
      var log := WriteLog(cs.value.recs);
      if Validate(log).Err? then (d, Err(BadLog("validate compacted")))
      else
        var written := d.(region := log + ZeroEntries(MAX_ENTRIES - |log|));
        var rp := ReplayRegion(d.slots, d.grid, written.region);
        if rp.Err? then (written.(fault := true), Err(rp.error))
        else (Rebuilt(written, rp.value), Ok(()))
  }

  /** The byte-level scan reaches the end of the log. */
  predicate ScansWhole(region: seq<Entry>) { ScanEnd(region) == EndOf(region) }

  function Rebuilt(d: Disk, rp: Replayed): Disk {
    d.(confirmed := rp.refs, packed := rp.packed, intervals := rp.extents.Values,
       end := EndOf(d.region), fault := false)
  }

  /** Opening a disk: everything in memory comes from the replay. */
  function Open(d: Disk): Result<Disk> {
    var rp := ReplayRegion(d.slots, d.grid, d.region);
    if rp.Err? then Err(rp.error) else Ok(Rebuilt(d.(pending := {}), rp.value))
  }

  // ----- the invariant -----

  function Log(d: Disk): seq<Entry> {
    if d.end <= |d.region| then d.region[..d.end] else []
  }

  function Latest(log: seq<Entry>): seq<Rec> {
    if Collect(log).Ok? then Collect(log).value.recs else []
  }

  function Recs(d: Disk): seq<Rec> { Latest(Log(d)) }

  predicate Shape(d: Disk) {
    && 0 < d.slots < SLOT_LIMIT
    && |d.grid| == d.slots * SLOT_SIZE
    && |d.region| == MAX_ENTRIES
    && d.end <= MAX_ENTRIES
  }

  /** Confirmed and reserved extents lie on the grid and share no slot. */
  ghost predicate Space(d: Disk) {
    d.intervals !! d.pending && Packing(d.slots, d.intervals + d.pending)
  }

  predicate LogIs(slots: nat, log: seq<Entry>, recs: seq<Rec>) {
    Engine(slots, log) && Collect(log) == Ok(CollectState(recs, None))
  }

  /** Nothing is written past the append position. */
  ghost predicate TailClean(region: seq<Entry>, end: nat) {
    forall i :: end <= i < |region| ==> region[i] == ZERO
  }

  ghost predicate PackedOk(confirmed: map<nat, Ref>, packed: map<nat, PackedRecord>) {
    forall k :: k in confirmed && confirmed[k].packed ==> k in packed && SliceRef(packed[k]) == confirmed[k]
  }

  /** The disk stores exactly the objects objs: memory and log agree on them. */
  ghost predicate Inv(d: Disk, objs: Objects) {
    && Shape(d)
    && Space(d)
    && LogIs(d.slots, Log(d), Recs(d))
    && Holds(d.slots, d.grid, Recs(d), d.confirmed, d.intervals, objs)
    && PackedOk(d.confirmed, d.packed)
    && (d.fault || TailClean(d.region, d.end))
  }
}
