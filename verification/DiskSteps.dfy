/** Every operation on one disk keeps the invariant: what was stored stays stored,
    with the same bytes, in memory and in a replay of the log. */
module DiskSteps {
  import opened Layout
  import opened IndexEntry
  import opened IndexLog
  import opened Replay
  import opened Store
  import opened StoreSteps
  import opened DiskState

  // ----- reading -----

  /** On a disk without fault every read of a stored fid returns exactly its
      bytes, and every other fid is not found. */
  lemma ReadsObjects(d: Disk, objs: Objects, fid: nat)
    requires Inv(d, objs) && !d.fault
    ensures Read(d, fid) == if fid in objs then Ok(objs[fid]) else Err(NotFound)
  {
    hide ReadRef, RecsOk, ExtentsIn, TablesOk, Collect, Engine, Recs;
    if fid in objs {
      assert Backed(d.slots, d.grid, Recs(d), fid, d.confirmed[fid]);
    }
  }

  /** The parts of the invariant, with the records named. */
  ghost predicate Parts(d: Disk, recs: seq<Rec>, objs: Objects) {
    && Shape(d) && Space(d) && d.end <= |d.region| && LogIs(d.slots, d.region[..d.end], recs)
    && Holds(d.slots, d.grid, recs, d.confirmed, d.intervals, objs)
    && PackedOk(d.confirmed, d.packed)
    && (d.fault || TailClean(d.region, d.end))
  }

  lemma PartsOf(d: Disk, objs: Objects) returns (recs: seq<Rec>)
    requires Inv(d, objs)
    ensures Parts(d, recs, objs) && recs == Recs(d)
  {
    recs := Recs(d);
  }

  lemma FromParts(d: Disk, recs: seq<Rec>, objs: Objects)
    requires Parts(d, recs, objs)
    ensures Inv(d, objs) && Recs(d) == recs
  {}

  // ----- the log -----

  lemma {:induction false} EngineNoZero(slots: nat, log: seq<Entry>)
    requires Engine(slots, log)
    ensures ZERO !in log
  {
    if log != [] {
      hide Extent, Collect;
      var front, last := log[..|log| - 1], log[|log| - 1];
      EngineNoZero(slots, front);
      assert log == front + [last];
    }
  }

  lemma EndOfIs(region: seq<Entry>, n: nat)
    requires n <= |region| && ZERO !in region[..n] && (n < |region| ==> region[n] == ZERO)
    ensures EndOf(region) == n
  {
    forall i | 0 <= i < n ensures region[i] != ZERO { assert region[i] in region[..n]; }
  }

  lemma TailOf(d: Disk, objs: Objects)
    requires Inv(d, objs) && !d.fault
    ensures TailClean(d.region, d.end) && d.end <= |d.region| == MAX_ENTRIES
  {}

  lemma EndOfLog(d: Disk)
    requires Shape(d) && TailClean(d.region, d.end) && Engine(d.slots, Log(d))
    ensures EndOf(d.region) == d.end
  {
    hide Engine, Collect, EndOf;
    EngineNoZero(d.slots, Log(d));
    EndOfIs(d.region, d.end);
  }

  lemma LogAfterAppend(region: seq<Entry>, end: nat, es: seq<Entry>)
    requires end + |es| <= |region|
    ensures Splice(region, end, es)[..end + |es|] == region[..end] + es
    ensures Splice(region, end, es)[end + |es|..] == region[end + |es|..]
  {}

  lemma AppendLog(slots: nat, log: seq<Entry>, recs: seq<Rec>, r: Rec)
    requires slots < SLOT_LIMIT && LogIs(slots, log, recs) && RecOk(slots, r) && RecKeys(r) !! KeysOf(recs)
    ensures LogIs(slots, log + RecEntries(r), recs + [r])
  {
    WrittenRecord(slots, log, recs, r);
  }

  // ----- a new record -----

  lemma RefsUnpacked(r: Rec)
    ensures forall k :: k in RecRefs(r) ==> !RecRefs(r)[k].packed
  {}

  /** Confirming a reserved or fresh extent keeps the grid partitioned. */
  lemma ConfirmSpace(slots: nat, ivs: set<Interval>, pending: set<Interval>, iv: Interval)
    requires ivs !! pending && Packing(slots, ivs + pending) && iv !in ivs && iv.start <= iv.end < slots
    requires forall a :: a in ivs + pending && a != iv ==> !Overlaps(a, iv)
    ensures (ivs + {iv}) !! (pending - {iv}) && Packing(slots, (ivs + {iv}) + (pending - {iv}))
  {}

  lemma PackedKept(confirmed: map<nat, Ref>, packed: map<nat, PackedRecord>, refs: map<nat, Ref>)
    requires PackedOk(confirmed, packed) && forall k :: k in refs ==> !refs[k].packed
    ensures PackedOk(confirmed + refs, packed)
  {}

  lemma TailKept(region: seq<Entry>, end: nat, es: seq<Entry>)
    requires TailClean(region, end) && end + |es| <= |region|
    ensures TailClean(Splice(region, end, es), end + |es|)
  {}

  /** The extent iv is free for an object of record r, whose bytes are in place. */
  ghost predicate Placed(d: Disk, r: Rec, iv: Interval, data: seq<byte>) {
    && !r.Table? && RecOk(d.slots, r) && |data| == r.size
    && Extent(d.slots, StorageFid(r), r.size) == Some(iv) && iv.start <= iv.end < d.slots
    && iv !in d.intervals && (forall a :: a in d.intervals + d.pending && a != iv ==> !Overlaps(a, iv))
    && ReadRef(d.slots, d.grid, PlainRef(StorageFid(r), r.size)) == Ok(data)
  }

  lemma AppendedKeeps(d: Disk, objs: Objects, r: Rec, iv: Interval, data: seq<byte>)
    requires Inv(d, objs) && !d.fault && d.end + |RecEntries(r)| <= MAX_ENTRIES
    requires Placed(d, r, iv, data) && RecKeys(r) !! objs.Keys
    ensures Inv(Appended(d, r, iv), objs + RecObjects(r, data))
  {
    hide Inv, Extent, RecOk, ReadRef, LogIs, Holds, RecEntries, RecRefs, RecObjects, RecKeys, KeysOf,
         StorageFid, Splice, TailClean, PackedOk, Packing, Recs, Overlaps;
    var recs := PartsOf(d, objs);
    var d', es := Appended(d, r, iv), RecEntries(r);
    HoldsAdd(d.slots, d.grid, recs, d.confirmed, d.intervals, objs, r, data, iv);
    AppendLog(d.slots, d.region[..d.end], recs, r);
    TailKept(d.region, d.end, es);
    LogAfterAppend(d.region, d.end, es);
    RefsUnpacked(r);
    PackedKept(d.confirmed, d.packed, RecRefs(r));
    ConfirmSpace(d.slots, d.intervals, d.pending, iv);
    FromParts(d', recs + [r], objs + RecObjects(r, data));
  }

  // ----- reserving, streaming, aborting -----

  lemma PrepareKeeps(d: Disk, objs: Objects, fid: nat, size: nat)
    requires Inv(d, objs)
    ensures var (d', r) := PrepareWrite(d, fid, size);
            && Inv(d', objs)
            && (r.Err? ==> d' == d)
            && (r.Ok? ==> && Extent(d.slots, fid, size) == Some(r.value) && !d.fault
                          && r.value !in d.intervals + d.pending && d'.pending == d.pending + {r.value}
                          && d' == d.(pending := d'.pending)
                          && (forall a :: a in d.intervals + d.pending ==> !Overlaps(a, r.value)))
  {
    var (d', r) := PrepareWrite(d, fid, size);
    if r.Ok? {
      var iv := r.value;
      assert iv.start <= iv.end < d.slots;
      hide Inv, Extent, LogIs, Holds, Recs, TailClean, PackedOk;
      var recs := PartsOf(d, objs);
      assert forall a :: a in d.intervals + d.pending ==> !Overlaps(a, iv);
      assert Overlaps(iv, iv);
      ReserveSpace(d.slots, d.intervals, d.pending, iv);
      FromParts(d', recs, objs);
    }
  }

  /** The object fits the disk, the disk is in order, and the extent shares no slot with
      any confirmed or reserved one. */
  ghost predicate Reservable(d: Disk, fid: nat, size: nat) {
    && 0 < size <= d.slots * SLOT_SIZE && !d.fault
    && var iv := Extent(d.slots, fid, size).value;
    forall a :: a in d.intervals + d.pending ==> !Overlaps(a, iv)
  }

  /** When a reservation is granted, what each refusal answers, and what it changes. */
  lemma PrepareExactly(d: Disk, fid: nat, size: nat)
    ensures var (d', r) := PrepareWrite(d, fid, size);
            && (r.Ok? <==> Reservable(d, fid, size))
            && (r.Ok? ==> Extent(d.slots, fid, size) == Some(r.value) && d' == d.(pending := d.pending + {r.value}))
            && (r.Err? ==> d' == d)
            && (size == 0 ==> r == Err(EmptyObject))
            && (size > d.slots * SLOT_SIZE ==> size == 0 || r == Err(OutOfRange))
            && (0 < size <= d.slots * SLOT_SIZE && d.fault ==> r == Err(Fault))
            && (0 < size <= d.slots * SLOT_SIZE && !d.fault && r.Err? ==> r == Err(Conflict))
  {
    var iv := Extent(d.slots, fid, size);
    hide Extent, Overlaps;
    if iv.Some? {
      assert iv.value.start <= iv.value.end;
      if AnyOverlap(d.intervals, iv.value) || AnyOverlap(d.pending, iv.value) {
        var a :| a in d.intervals + d.pending && Overlaps(a, iv.value);
      }
    }
  }

  lemma ReserveSpace(slots: nat, ivs: set<Interval>, pending: set<Interval>, iv: Interval)
    requires ivs !! pending && Packing(slots, ivs + pending) && iv.start <= iv.end < slots
    requires forall a :: a in ivs + pending ==> !Overlaps(a, iv)
    ensures iv !in ivs + pending
    ensures ivs !! (pending + {iv}) && Packing(slots, ivs + (pending + {iv}))
  {
    assert Overlaps(iv, iv);
  }

  lemma AbortKeeps(d: Disk, objs: Objects, iv: Interval)
    requires Inv(d, objs)
    ensures Inv(Abort(d, iv), objs)
  {
    hide Inv, LogIs, Holds, Recs, TailClean, PackedOk, Overlaps;
    var recs := PartsOf(d, objs);
    FromParts(Abort(d, iv), recs, objs);
  }

  /** A write inside an extent leaves the bytes of every other extent alone. */
  lemma WriteInside(grid: seq<byte>, at: nat, bytes: seq<byte>, iv: Interval, other: Interval)
    requires iv.start * SLOT_SIZE <= at && at + |bytes| <= (iv.end + 1) * SLOT_SIZE <= |grid|
    requires !Overlaps(iv, other)
    ensures SameIn(grid, Splice(grid, at, bytes), other)
  {}

  lemma WriteOutside(slots: nat, grid: seq<byte>, at: nat, bytes: seq<byte>, iv: Interval, ivs: set<Interval>)
    requires |grid| == slots * SLOT_SIZE && iv.start <= iv.end < slots
    requires forall a :: a in ivs ==> !Overlaps(a, iv)
    requires iv.start * SLOT_SIZE <= at && at + |bytes| <= (iv.end + 1) * SLOT_SIZE
    ensures at + |bytes| <= |grid|
    ensures SameOn(grid, Splice(grid, at, bytes), ivs)
  {
    hide Splice, SameIn;
    forall other | other in ivs ensures SameIn(grid, Splice(grid, at, bytes), other) {
      WriteInside(grid, at, bytes, iv, other);
    }
  }

  /** Writing anywhere inside an extent that overlaps no confirmed one disturbs
      nothing that is stored. */
  lemma GridWriteKeeps(d: Disk, objs: Objects, at: nat, bytes: seq<byte>, iv: Interval)
    requires Inv(d, objs) && iv.start <= iv.end < d.slots
    requires forall a :: a in d.intervals ==> !Overlaps(a, iv)
    requires iv.start * SLOT_SIZE <= at && at + |bytes| <= (iv.end + 1) * SLOT_SIZE
    ensures at + |bytes| <= |d.grid| && Inv(StreamWrite(d, at, bytes), objs)
    ensures Recs(StreamWrite(d, at, bytes)) == Recs(d)
  {
    hide Inv, LogIs, Holds, Recs, TailClean, PackedOk, Overlaps, Splice, SameOn, Packing;
    var recs := PartsOf(d, objs);
    WriteOutside(d.slots, d.grid, at, bytes, iv, d.intervals);
    HoldsFrame(d.slots, d.grid, Splice(d.grid, at, bytes), recs, d.confirmed, d.intervals, objs);
    FromParts(StreamWrite(d, at, bytes), recs, objs);
  }

  // ----- commit -----

  lemma {:induction false} TornTail(region: seq<Entry>, at: nat, es: seq<Entry>, written: nat, rollback: Rollback)
    requires at + |es| <= |region| && written <= |es|
    requires rollback.RollbackFails? ==> rollback.cleared <= |es|
    ensures |TornRegion(region, at, es, written, rollback)| == |region|
    ensures TornRegion(region, at, es, written, rollback)[..at] == region[..at]
    ensures rollback.RolledBack? && TailClean(region, at) ==> TornRegion(region, at, es, written, rollback) == region
  {}

  /** Commit is atomic: success stores the data, and under an alias the data
      without its last byte; failure with a successful rollback changes nothing at
      all; a failed rollback raises the fault and still changes no object. */
  lemma CommitKeeps(d: Disk, objs: Objects, fid: nat, size: nat, iv: Interval, alias: nat, io: CommitIO,
                    data: seq<byte>)
    requires Inv(d, objs) && iv in d.pending && Extent(d.slots, fid, size) == Some(iv)
    requires IOFits(io, if alias == 0 then 1 else 2)
    requires |data| == size && ReadRef(d.slots, d.grid, PlainRef(fid, size)) == Ok(data)
    ensures var (d', r) := Commit(d, fid, size, iv, alias, io);
            && (r.Ok? ==> && !d.fault && !d'.fault && fid !in objs && (alias != 0 ==> alias !in objs && alias != fid)
                          && Inv(d', objs + RecObjects(CommitRec(fid, size, alias), data))
                          && d'.intervals == d.intervals + {iv})
            && (r.Err? ==> Inv(d', objs) && d' == d.(region := d'.region, fault := d'.fault))
            && (r.Err? && !d'.fault ==> d' == d)
  {
    var (d', r) := Commit(d, fid, size, iv, alias, io);
    var rec := CommitRec(fid, size, alias);
    if r.Ok? {
      CommitOkKeeps(d, objs, fid, size, iv, alias, data);
    } else if d' != d {
      hide Inv, LogIs, Holds, Recs, TailClean, PackedOk, Space, Extent, TornRegion, RecEntries;
      var recs := PartsOf(d, objs);
      TornTail(d.region, d.end, RecEntries(rec), io.written, io.rollback);
      FromParts(d', recs, objs);
    }
  }

  /** Nothing about the disk stands in the way of committing the object and its alias. */
  predicate Committable(d: Disk, fid: nat, size: nat, alias: nat) {
    && !d.fault && fid !in d.confirmed
    && (alias != 0 ==> alias !in d.confirmed && alias != fid && size >= 2)
    && size < TWO_56 && d.end + (if alias == 0 then 1 else 2) <= MAX_ENTRIES
  }

  /** The entries of an object and its alias, as they are written. */
  function CommitEntries(fid: nat, size: nat, alias: nat): seq<Entry> {
    if alias == 0 then [Entry(fid, size, 0)]
    else [Entry(alias, JUMP_SENTINEL, ALIAS_JUMP_CODE), Entry(fid, size, 0)]
  }

  /** When a commit succeeds: exactly if every write and sync of the device goes well and
      nothing about the disk stands in the way. Success appends the entries, confirms the
      object under its fid and without its last byte under the alias, and turns the
      reservation into a confirmed extent. */
  lemma CommitExactly(d: Disk, fid: nat, size: nat, iv: Interval, alias: nat, io: CommitIO)
    requires |d.region| == MAX_ENTRIES && IOFits(io, if alias == 0 then 1 else 2)
    ensures var (d', r) := Commit(d, fid, size, iv, alias, io);
            r.Ok? <==> io.AllWell? && Committable(d, fid, size, alias)
    ensures var (d', r) := Commit(d, fid, size, iv, alias, io);
            var es := CommitEntries(fid, size, alias);
            r.Ok? ==>
              && d.end + |es| <= MAX_ENTRIES && d'.end == d.end + |es| && d'.region == Splice(d.region, d.end, es)
              && d'.confirmed
                 == (if alias == 0 then d.confirmed[fid := Ref(fid, size, size, 0, false)]
                     else d.confirmed[fid := Ref(fid, size, size, 0, false)]
                                    [alias := Ref(fid, size, size - 1, 0, false)])
              && d'.intervals == d.intervals + {iv} && d'.pending == d.pending - {iv}
              && d'.grid == d.grid && d'.packed == d.packed && !d'.fault
  {
    hide Splice;
    var rec := CommitRec(fid, size, alias);
    assert RecEntries(rec) == CommitEntries(fid, size, alias);
    if Committable(d, fid, size, alias) {
      assert d.confirmed + RecRefs(rec)
          == if alias == 0 then d.confirmed[fid := Ref(fid, size, size, 0, false)]
             else d.confirmed[fid := Ref(fid, size, size, 0, false)][alias := Ref(fid, size, size - 1, 0, false)];
    }
  }

  /** What a refused or failed commit answers and leaves: a refusal or a failed payload
      sync changes nothing; a failed append leaves the entries that were written and not
      cleared again, and raises the fault exactly if the clearing failed. */
  lemma CommitFails(d: Disk, fid: nat, size: nat, iv: Interval, alias: nat, io: CommitIO)
    requires |d.region| == MAX_ENTRIES && IOFits(io, if alias == 0 then 1 else 2)
    ensures var (d', r) := Commit(d, fid, size, iv, alias, io);
            && (!Committable(d, fid, size, alias) ==> d' == d)
            && (Committable(d, fid, size, alias) && io.PayloadSyncFails? ==> d' == d && r == Err(SyncFailed))
            && (Committable(d, fid, size, alias) && io.AppendFails? ==>
                  && r == Err(CommitFailed) && d' == d.(region := d'.region, fault := io.rollback.RollbackFails?)
                  && Leftover(d, d'.region, CommitEntries(fid, size, alias), io))
    ensures var r := Commit(d, fid, size, iv, alias, io).1;
            && (alias != 0 && (alias == fid || size < 2) ==> r == Err(InvalidAlias))
            && (alias == 0 || (alias != fid && size >= 2) ==>
                  && (d.fault ==> r == Err(Fault))
                  && (!d.fault && (fid in d.confirmed || (alias != 0 && alias in d.confirmed)) ==> r == Err(Conflict)))
  {
    hide Splice;
    assert RecEntries(CommitRec(fid, size, alias)) == CommitEntries(fid, size, alias);
    if Committable(d, fid, size, alias) && io.AppendFails? {
      LeftByAppend(d, CommitEntries(fid, size, alias), io);
    }
  }

  /** The region after a failed append of es: its cleared entries are zero, the others it
      wrote are there, everything else is as before. */
  ghost predicate Leftover(d: Disk, region: seq<Entry>, es: seq<Entry>, io: CommitIO)
    requires io.AppendFails? && |d.region| == MAX_ENTRIES
  {
    var cleared := if io.rollback.RolledBack? then |es| else io.rollback.cleared;
    && |region| == |d.region|
    && forall i :: 0 <= i < |region| ==>
         region[i] == if d.end <= i < d.end + cleared then ZERO
                      else if d.end <= i < d.end + io.written && i < d.end + |es| then es[i - d.end] else d.region[i]
  }

  lemma LeftByAppend(d: Disk, es: seq<Entry>, io: CommitIO)
    requires |d.region| == MAX_ENTRIES && io.AppendFails? && IOFits(io, |es|) && d.end + |es| <= MAX_ENTRIES
    ensures Leftover(d, TornRegion(d.region, d.end, es, io.written, io.rollback), es, io)
  {}

  lemma CommitOkKeeps(d: Disk, objs: Objects, fid: nat, size: nat, iv: Interval, alias: nat, data: seq<byte>)
    requires Inv(d, objs) && iv in d.pending && Extent(d.slots, fid, size) == Some(iv) && !d.fault
    requires |data| == size && ReadRef(d.slots, d.grid, PlainRef(fid, size)) == Ok(data)
    requires fid !in d.confirmed && (alias != 0 ==> alias !in d.confirmed && alias != fid && size >= 2)
    requires d.end + |RecEntries(CommitRec(fid, size, alias))| <= MAX_ENTRIES
    ensures Inv(Appended(d, CommitRec(fid, size, alias), iv), objs + RecObjects(CommitRec(fid, size, alias), data))
  {
    hide LogIs, Recs, TailClean, PackedOk, Extent, ReadRef, RecObjects, RecsOk, ExtentsIn, TablesOk, Contents;
    var r := CommitRec(fid, size, alias);
    assert Placed(d, r, iv, data) by { PlacedPending(d, r, iv, data); }
    AppendedKeeps(d, objs, r, iv, data);
  }

  lemma PlacedPending(d: Disk, r: Rec, iv: Interval, data: seq<byte>)
    requires Shape(d) && Space(d) && iv in d.pending
    requires !r.Table? && RecOk(d.slots, r) && |data| == r.size
    requires Extent(d.slots, StorageFid(r), r.size) == Some(iv)
    requires ReadRef(d.slots, d.grid, PlainRef(StorageFid(r), r.size)) == Ok(data)
    ensures Placed(d, r, iv, data)
  {
    hide Extent, RecOk, ReadRef;
  }
}
