/** One open device as an object: the fields the engine updates in place, and its
    operations, each proved to move the state exactly as the model of the disk says
    and to keep every stored object. */
module Device {
  import opened Layout
  import opened IndexEntry
  import opened IndexLog
  import opened Replay
  import opened Store
  import opened StoreSteps
  import D = DiskState
  import opened DiskSteps
  import opened TrimSteps
  import opened IndexState
  import opened StreamWriter

  datatype PreparedWrite = PreparedWrite(fid: uint64, size: uint64, addr: nat, iv: Interval)

  /** The list without every occurrence of target, in order. */
  function Dropped(list: seq<Interval>, target: Interval): seq<Interval> {
    if list == [] then []
    else
      var front, last := Dropped(list[..|list| - 1], target), list[|list| - 1];
      if last == target then front else front + [last]
  }

  lemma SetOfAppend<T>(s: seq<T>, x: T)
    ensures SetOf(s + [x]) == SetOf(s) + {x}
  {}

  lemma {:induction false} DroppedSet(list: seq<Interval>, target: Interval)
    ensures SetOf(Dropped(list, target)) == SetOf(list) - {target}
  {
    if list != [] {
      var front, last := list[..|list| - 1], list[|list| - 1];
      DroppedSet(front, target);
      SetOfAppend(front, last);
      SetOfAppend(Dropped(front, target), last);
      assert list == front + [last];
    }
  }

  method RemoveInterval(list: seq<Interval>, target: Interval) returns (out: seq<Interval>)
    ensures out == Dropped(list, target)
  {
    out := [];
    for i := 0 to |list|
      invariant out == Dropped(list[..i], target)
    {
      assert list[..i + 1][..i] == list[..i];
      if list[i] != target { out := out + [list[i]]; }
    }
    assert list[..|list|] == list;
  }

  method AnyOverlapIn(list: seq<Interval>, test: Interval) returns (r: bool)
    ensures r <==> D.AnyOverlap(SetOf(list), test)
  {
    for i := 0 to |list|
      invariant forall k :: 0 <= k < i ==> !Overlaps(list[k], test)
    {
      if Overlaps(list[i], test) {
        assert list[i] in SetOf(list);
        return true;
      }
    }
    return false;
  }

  class DeviceState {
    const diskBytes: nat
    const diskID: uint64
    /** The data grid: the file's bytes from GRID_START on. */
    const grid: array<byte>
    /** The index region as entries. */
    const region: array<RawEntry>

    var intervals: seq<Interval>
    var pendingIntervals: seq<Interval>
    var confirmed: map<nat, Ref>
    var packed: map<nat, PackedRecord>
    var indexEnd: nat
    var indexErr: bool
    /** What is stored: fid to logical bytes. */
    ghost var objs: Objects

    function Slots(): nat {
      if GRID_START <= diskBytes then (diskBytes - GRID_START) / SLOT_SIZE else 0
    }

    ghost predicate Formed()
      reads this
    {
      && GRID_START < diskBytes < GRID_START + SLOT_LIMIT * SLOT_SIZE
      && grid.Length == Slots() * SLOT_SIZE && region.Length == MAX_ENTRIES
      && INDEX_START <= indexEnd && (indexEnd - INDEX_START) % INDEX_ENTRY_SIZE == 0
    }

    /** The abstract disk this object represents. */
    ghost function Model(): D.Disk
      reads this, grid, region
      requires Formed()
    {
      D.Disk(Slots(), diskID, grid[..], region[..], (indexEnd - INDEX_START) / INDEX_ENTRY_SIZE,
             confirmed, packed, SetOf(intervals), SetOf(pendingIntervals), indexErr)
    }

    ghost predicate Valid()
      reads this, grid, region
    {
      Formed() && D.Inv(Model(), objs)
    }

    constructor (diskBytes: nat, diskID: uint64, grid: array<byte>, region: array<RawEntry>)
      requires GRID_START < diskBytes < GRID_START + SLOT_LIMIT * SLOT_SIZE
      requires grid.Length == (diskBytes - GRID_START) / SLOT_SIZE * SLOT_SIZE && region.Length == MAX_ENTRIES
      ensures Formed() && this.grid == grid && this.region == region && this.diskID == diskID
      ensures Model() == D.Disk(Slots(), diskID, grid[..], region[..], 0, map[], map[], {}, {}, false)
    {
      this.diskBytes, this.diskID, this.grid, this.region := diskBytes, diskID, grid, region;
      intervals, pendingIntervals, confirmed, packed := [], [], map[], map[];
      indexEnd, indexErr, objs := INDEX_START, false, map[];
    }

    /** Opening: memory is rebuilt from the log, or the device is refused. */
    method Open() returns (r: Result<()>)
      requires Formed()
      modifies this
      ensures Formed() && objs == old(objs)
      ensures r.Ok? <==> D.Open(old(Model())).Ok?
      ensures r.Ok? ==> Model() == D.Open(old(Model())).value
      ensures r.Err? ==> Model() == old(Model())
      ensures old(Valid()) && !old(indexErr) ==> r.Ok? && Valid() && !indexErr
    {
      hide D.Inv, ReplayRegion, EndOf, D.TailClean;
      ghost var m := Model();
      if D.Inv(m, objs) && !indexErr {
        TailOf(m, objs);
        OpenKeeps(m, objs);
      }
      var replayed, ivs, end := ReplayIndex(Slots(), grid[..], region[..]);
      if replayed.Err? { return Err(replayed.error); }
      confirmed, packed, intervals := replayed.value.refs, replayed.value.packed, ivs;
      pendingIntervals, indexErr := [], false;
      indexEnd := INDEX_START + end * INDEX_ENTRY_SIZE;
      assert SetOf(pendingIntervals) == {};
      return Ok(());
    }

    // ----- extents -----

    method ReserveExtent(iv: Interval) returns (r: Result<()>)
      requires Formed()
      modifies this`pendingIntervals
      ensures r == if indexErr then Err(Fault)
                   else if D.AnyOverlap(SetOf(intervals), iv)
                           || D.AnyOverlap(SetOf(old(pendingIntervals)), iv) then Err(Conflict)
                   else Ok(())
      ensures pendingIntervals == if r.Ok? then old(pendingIntervals) + [iv] else old(pendingIntervals)
    {
      if indexErr { return Err(Fault); }
      var taken := AnyOverlapIn(intervals, iv);
      if taken { return Err(Conflict); }
      taken := AnyOverlapIn(pendingIntervals, iv);
      if taken { return Err(Conflict); }
      pendingIntervals := pendingIntervals + [iv];
      return Ok(());
    }

    method ReleaseExtent(iv: Interval)
      requires Formed()
      modifies this`pendingIntervals
      ensures SetOf(pendingIntervals) == SetOf(old(pendingIntervals)) - {iv}
    {
      DroppedSet(pendingIntervals, iv);
      pendingIntervals := RemoveInterval(pendingIntervals, iv);
    }

    // ----- writing -----

    /** The write holds a reservation on this device that fits its size. */
    ghost predicate Prepared(pw: PreparedWrite)
      reads this
      requires Formed()
    {
      && pw.iv in pendingIntervals && Extent(Slots(), pw.fid, pw.size) == Some(pw.iv)
      && pw.addr == GRID_START + pw.iv.start * SLOT_SIZE
    }

    method PrepareWrite(fid: uint64, size: uint64) returns (r: Result<PreparedWrite>)
      requires Valid()
      modifies this`pendingIntervals
      ensures Valid()
      ensures var (d, q) := D.PrepareWrite(old(Model()), fid, size);
              && Model() == d
              && (if q.Ok?
                  then r.Ok? && r.value.fid == fid && r.value.size == size && r.value.iv == q.value && Prepared(r.value)
                  else r == Err(q.error))
      ensures r.Ok? <==> Reservable(old(Model()), fid, size)
    {
      hide D.Inv, D.AnyOverlap, Extent, AddrForFID;
      ghost var m := Model();
      AddrForFIDIsExtent(diskBytes, fid, size);
      PrepareKeeps(m, objs, fid, size);
      PrepareExactly(m, fid, size);
      SizeZero(Slots(), fid, size);
      if size == 0 { return Err(EmptyObject); }
      var place := AddrForFID(diskBytes, fid, size);
      if place.Err? { return Err(place.error); }
      var iv := Interval(place.value.slot, place.value.slot + place.value.count - 1);
      var reserved := ReserveExtent(iv);
      if reserved.Err? { return Err(reserved.error); }
      assert SetOf(pendingIntervals) == SetOf(old(pendingIntervals)) + {iv};
      return Ok(PreparedWrite(fid, size, place.value.addr, iv));
    }

    /** Streams an object into its reservation. The stream is accepted exactly if it
        has the declared length and the device takes it; nothing outside the
        reservation changes, whatever comes of it. */
    method WriteFrom(pw: PreparedWrite, s: Stream, direct: bool, pace: Pace) returns (r: Result<()>)
      requires Valid() && Prepared(pw)
      modifies grid
      ensures Valid()
      ensures pw.size <= Capacity(pw.iv)
      ensures r.Ok? <==>
        Exact(s, pw.size) && Takes(pace, direct, pw.iv.start * SLOT_SIZE, pw.size, Capacity(pw.iv))
      ensures r.Ok? ==>
        && ReadRef(Slots(), grid[..], PlainRef(pw.fid, pw.size)) == Ok(s.bytes)
        && D.Filled(old(grid[..]), grid[..], pw.iv.start * SLOT_SIZE, s.bytes, Capacity(pw.iv))
      ensures forall iv :: iv in SetOf(intervals) + SetOf(pendingIntervals) - {pw.iv} ==>
        SameIn(old(grid[..]), grid[..], iv)
    {
      hide D.Inv, Extent, D.Splice, Laid, SameIn, Overlaps, ReadRef, TakesDirect, TakesPlain, D.Filled;
      ghost var m := Model();
      PreparedFits(m, objs, pw.fid, pw.size, pw.iv);
      var at, total := pw.addr - GRID_START, Capacity(pw.iv);
      ghost var written: nat;
      if direct {
        r, written := WriteStreamDirect(grid, at, pw.size, total, s, pace);
      } else {
        r, written := WritePlainly(grid, at, pw.size, total, s, pace);
      }
      ghost var part := Laid(s, pw.size, total)[..written];
      GridWriteKeeps(m, objs, at, part, pw.iv);
      assert Model() == D.StreamWrite(m, at, part);
      forall iv | iv in m.intervals + m.pending - {pw.iv} ensures SameIn(m.grid, grid[..], iv) {
        OtherApart(m, objs, pw.iv, iv);
        WriteInside(m.grid, at, part, pw.iv, iv);
      }
      if r.Ok? { LaidReads(m.slots, m.grid, pw.fid, pw.size, pw.iv, total, s); }
    }

    method Abort(pw: PreparedWrite)
      requires Valid()
      modifies this`pendingIntervals
      ensures Valid() && Model() == D.Abort(old(Model()), pw.iv)
    {
      hide D.Inv;
      AbortKeeps(Model(), objs, pw.iv);
      ReleaseExtent(pw.iv);
    }

    /** Commit: the index entries, then memory, or nothing. `io` tells how the device
        behaves. What becomes stored is what the reservation holds. */
    method Commit(pw: PreparedWrite, aliasFor: uint64, io: D.CommitIO) returns (r: Result<()>)
      requires Valid() && Prepared(pw) && D.IOFits(io, if aliasFor == 0 then 1 else 2)
      modifies this, region
      ensures Valid()
      ensures (Model(), r) == D.Commit(old(Model()), pw.fid, pw.size, pw.iv, aliasFor, io)
      ensures r.Ok? <==> io.AllWell? && Committable(old(Model()), pw.fid, pw.size, aliasFor)
      ensures io.PayloadSyncFails? ==> r.Err? && region[..] == old(region[..]) && confirmed == old(confirmed)
      ensures objs == if r.Err? then old(objs)
                      else old(objs) + RecObjects(D.CommitRec(pw.fid, pw.size, aliasFor), HeldBytes(pw))
    {
      hide D.Inv, Extent, RecObjects, ReadRef, D.Commit, Committable;
      CommitExactly(Model(), pw.fid, pw.size, pw.iv, aliasFor, io);
      CommitFails(Model(), pw.fid, pw.size, pw.iv, aliasFor, io);
      HeldReads(Model(), objs, pw.fid, pw.size, pw.iv);
      CommitKeeps(Model(), objs, pw.fid, pw.size, pw.iv, aliasFor, io, HeldBytes(pw));
      r := CommitIndex(pw, aliasFor, io);
      if r.Ok? {
        objs := objs + RecObjects(D.CommitRec(pw.fid, pw.size, aliasFor), HeldBytes(pw));
      }
    }

    /** The body of the commit: checks, the append with its rollback, publication. */
    method CommitIndex(pw: PreparedWrite, aliasFor: uint64, io: D.CommitIO) returns (r: Result<()>)
      requires Formed() && D.IOFits(io, if aliasFor == 0 then 1 else 2)
      modifies this, region
      ensures Formed() && objs == old(objs)
      ensures (Model(), r) == D.Commit(old(Model()), pw.fid, pw.size, pw.iv, aliasFor, io)
    {
      hide D.TornRegion, D.Appended;
      ghost var m := Model();
      if aliasFor != 0 && (aliasFor == pw.fid || pw.size < 2) { return Err(InvalidAlias); }
      if indexErr { return Err(Fault); }
      if pw.fid in confirmed || (aliasFor != 0 && aliasFor in confirmed) { return Err(Conflict); }
      if pw.size > JUMP_SENTINEL { return Err(BadEntry("size exceeds 56-bit limit")); }
      var es := if aliasFor == 0 then [Entry(pw.fid, pw.size, 0)]
                else [Entry(aliasFor, JUMP_SENTINEL, ALIAS_JUMP_CODE), Entry(pw.fid, pw.size, 0)];
      assert es == RecEntries(D.CommitRec(pw.fid, pw.size, aliasFor));
      if indexEnd + |es| * INDEX_ENTRY_SIZE > GRID_START { return Err(IndexFull); }
      match io {
      case PayloadSyncFails => return Err(SyncFailed);
      case AppendFails(written, rollback) =>
        RollBack(es, written, rollback);
        return Err(CommitFailed);
      case AllWell =>
        Publish(pw, aliasFor, es);
        return Ok(());
      }
    }

    /** A failed append of es, its tail cleared again as far as the device allows. */
    method RollBack(es: seq<Entry>, written: nat, rollback: D.Rollback)
      requires Formed() && (indexEnd - INDEX_START) / INDEX_ENTRY_SIZE + |es| <= MAX_ENTRIES && written <= |es|
      requires rollback.RollbackFails? ==> rollback.cleared <= |es|
      requires forall e :: e in es ==> Fits(e)
      modifies this`indexErr, region
      ensures region[..]
              == D.TornRegion(old(region[..]), (indexEnd - INDEX_START) / INDEX_ENTRY_SIZE, es, written, rollback)
      ensures indexErr == (old(indexErr) || rollback.RollbackFails?)
    {
      hide D.Splice;
      var at := (indexEnd - INDEX_START) / INDEX_ENTRY_SIZE;
      WriteEntries(at, es[..written]);
      WriteEntries(at, D.ZeroEntries(if rollback.RolledBack? then |es| else rollback.cleared));
      if rollback.RollbackFails? { indexErr := true; }
    }

    /** The entries are on the disk: memory follows. */
    method Publish(pw: PreparedWrite, aliasFor: uint64, es: seq<Entry>)
      requires Formed() && (indexEnd - INDEX_START) / INDEX_ENTRY_SIZE + |es| <= MAX_ENTRIES
      requires es == RecEntries(D.CommitRec(pw.fid, pw.size, aliasFor)) && forall e :: e in es ==> Fits(e)
      requires aliasFor != 0 ==> pw.size >= 2 && aliasFor != pw.fid
      modifies this, region
      ensures Formed() && objs == old(objs)
      ensures Model() == D.Appended(old(Model()), D.CommitRec(pw.fid, pw.size, aliasFor), pw.iv)
    {
      hide D.Splice, RecEntries, RecRefs, D.CommitRec;
      CommitRefs(confirmed, pw.fid, pw.size, aliasFor);
      WriteEntries((indexEnd - INDEX_START) / INDEX_ENTRY_SIZE, es);
      confirmed := confirmed[pw.fid := PlainRef(pw.fid, pw.size)];
      if aliasFor != 0 { confirmed := confirmed[aliasFor := Ref(pw.fid, pw.size, pw.size - 1, 0, false)]; }
      indexEnd := indexEnd + |es| * INDEX_ENTRY_SIZE;
      DroppedSet(pendingIntervals, pw.iv);
      pendingIntervals := RemoveInterval(pendingIntervals, pw.iv);
      SetOfAppend(intervals, pw.iv);
      intervals := intervals + [pw.iv];
    }

    /** The bytes the reservation holds for the object. */
    ghost function HeldBytes(pw: PreparedWrite): seq<byte>
      reads grid
    {
      var at := pw.iv.start * SLOT_SIZE;
      if at + pw.size <= grid.Length then grid[at..at + pw.size] else []
    }

    method WriteEntries(at: nat, es: seq<Entry>)
      requires at + |es| <= region.Length && forall e :: e in es ==> Fits(e)
      modifies region
      ensures region[..] == D.Splice(old(region[..]), at, es)
    {
      for i := 0 to |es|
        invariant forall k :: 0 <= k < region.Length ==>
                    region[k] == if at <= k < at + i then es[k - at] else old(region[k])
      {
        region[at + i] := es[i];
      }
    }

    // ----- reading -----

    method Lookup(fid: nat) returns (r: Result<Ref>)
      requires Formed()
      ensures r == D.Lookup(Model(), fid)
    {
      if indexErr { return Err(Fault); }
      if fid !in confirmed { return Err(NotFound); }
      return Ok(confirmed[fid]);
    }

    /** The bytes from start to end of the object a reference denotes. */
    method ReadRange(ref: Ref, start: nat, end: nat) returns (r: Result<seq<byte>>)
      requires Formed() && start <= end <= ref.size
      ensures var whole := ReadRef(Slots(), grid[..], ref);
              whole.Ok? ==> r == Ok(whole.value[start..end])
      ensures start == 0 && end == ref.size ==> r == ReadRef(Slots(), grid[..], ref)
    {
      hide Extent;
      var place := Extent(Slots(), ref.fid, ref.stored);
      if place.None? { return Err(OutOfRange); }
      var at := place.value.start * SLOT_SIZE + ref.offset;
      if at + end > grid.Length { return Err(ReadFailed); }
      ghost var whole := ReadRef(Slots(), grid[..], ref);
      if whole.Ok? { SliceOfSlice(grid[..], at, at + ref.size, start, end); }
      return Ok(grid[at + start..at + end]);
    }

    /** Get reads through memory; on a device in order that is exactly the stored bytes. */
    method Get(fid: nat) returns (r: Result<seq<byte>>)
      requires Formed()
      ensures r == D.Read(Model(), fid)
      ensures Valid() ==> r == if indexErr then Err(Fault) else if fid in objs then Ok(objs[fid]) else Err(NotFound)
    {
      hide D.Inv, ReadRef;
      if Valid() && !indexErr { ReadsObjects(Model(), objs, fid); }
      var ref := Lookup(fid);
      if ref.Err? { return Err(ref.error); }
      r := ReadRange(ref.value, 0, ref.value.size);
    }
  }

  // ----- lemmas about the model -----

  lemma CommitRefs(confirmed: map<nat, Ref>, fid: nat, size: nat, alias: nat)
    requires alias != 0 ==> size >= 2 && alias != fid
    ensures confirmed + RecRefs(D.CommitRec(fid, size, alias))
            == if alias == 0 then confirmed[fid := PlainRef(fid, size)]
               else confirmed[fid := PlainRef(fid, size)][alias := Ref(fid, size, size - 1, 0, false)]
  {}

  lemma SizeZero(slots: nat, fid: nat, size: nat)
    ensures size == 0 ==> Extent(slots, fid, size).None?
  {}

  lemma PreparedFits(d: D.Disk, objs: Objects, fid: nat, size: nat, iv: Interval)
    requires D.Inv(d, objs) && iv in d.pending && Extent(d.slots, fid, size) == Some(iv)
    ensures iv.start <= iv.end < d.slots && 0 < size <= (iv.end - iv.start + 1) * SLOT_SIZE
    ensures |d.grid| == d.slots * SLOT_SIZE
    ensures forall a :: a in d.intervals ==> !Overlaps(a, iv)
  {
    assert iv in d.intervals + d.pending;
    forall a | a in d.intervals ensures !Overlaps(a, iv) { assert a in d.intervals + d.pending; }
  }

  lemma OtherApart(d: D.Disk, objs: Objects, iv: Interval, other: Interval)
    requires D.Inv(d, objs) && iv in d.pending && other in d.intervals + d.pending && other != iv
    ensures !Overlaps(iv, other)
  {
    assert iv in d.intervals + d.pending;
  }

  lemma LaidReads(slots: nat, grid: seq<byte>, fid: nat, size: nat, iv: Interval, total: nat, s: Stream)
    requires Extent(slots, fid, size) == Some(iv) && size <= total && Exact(s, size)
    requires iv.start * SLOT_SIZE + total <= |grid|
    ensures var grid' := D.Splice(grid, iv.start * SLOT_SIZE, Laid(s, size, total)[..total]);
            ReadRef(slots, grid', PlainRef(fid, size)) == Ok(s.bytes)
  {
    hide Extent;
    var at := iv.start * SLOT_SIZE;
    var grid' := D.Splice(grid, at, Laid(s, size, total)[..total]);
    assert grid'[at..at + size] == s.bytes;
  }

  lemma HeldReads(d: D.Disk, objs: Objects, fid: nat, size: nat, iv: Interval)
    requires D.Inv(d, objs) && iv in d.pending && Extent(d.slots, fid, size) == Some(iv)
    ensures var at := iv.start * SLOT_SIZE;
            at + size <= |d.grid| && ReadRef(d.slots, d.grid, PlainRef(fid, size)) == Ok(d.grid[at..at + size])
  {
    hide D.Inv, Extent, Overlaps;
    PreparedFits(d, objs, fid, size, iv);
  }
}
