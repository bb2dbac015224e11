/** The steps of Trim on one disk: each keeps every stored object, in memory and in
    the log, so Trim may stop after any of them. */
module TrimSteps {
  import opened Layout
  import opened IndexEntry
  import opened IndexLog
  import opened PackedTable
  import opened Replay
  import opened IndexScan
  import opened Store
  import opened StoreSteps
  import opened DiskState
  import opened DiskSteps

  // ----- writing the container or the table -----

  lemma SpliceRead(slots: nat, grid: seq<byte>, fid: nat, data: seq<byte>, pad: seq<byte>)
    requires Extent(slots, fid, |data|).Some?
    requires var iv := Extent(slots, fid, |data|).value;
             iv.start * SLOT_SIZE + |data| + |pad| <= |grid|
    ensures var iv := Extent(slots, fid, |data|).value;
            ReadRef(slots, Splice(grid, iv.start * SLOT_SIZE, data + pad), PlainRef(fid, |data|)) == Ok(data)
  {
    var at := Extent(slots, fid, |data|).value.start * SLOT_SIZE;
    hide Extent;
    var grid' := Splice(grid, at, data + pad);
    assert grid'[at..at + |data|] == data;
  }

  /** The padded payload that a write of data into iv puts on the grid. */
  function Padded(data: seq<byte>, iv: Interval): seq<byte>
    requires iv.start <= iv.end && |data| <= (iv.end - iv.start + 1) * SLOT_SIZE
  {
    data + Zeros((iv.end - iv.start + 1) * SLOT_SIZE - |data|)
  }

  ghost predicate FreeFor(d: Disk, fid: nat, data: seq<byte>, iv: Interval) {
    && !d.fault && fid !in d.confirmed && Extent(d.slots, fid, |data|) == Some(iv)
    && iv.start <= iv.end < d.slots && |data| <= (iv.end - iv.start + 1) * SLOT_SIZE
    && (forall a :: a in d.intervals + d.pending ==> !Overlaps(a, iv))
  }

  lemma WriteObjectCases(d: Disk, fid: nat, data: seq<byte>) returns (iv: Interval)
    requires |d.region| == MAX_ENTRIES && |d.grid| == d.slots * SLOT_SIZE
    ensures var (d', r) := WriteObject(d, fid, data);
            || (r.Err? && d' == d)
            || (&& FreeFor(d, fid, data, iv)
                && iv.start * SLOT_SIZE + |Padded(data, iv)| <= |d.grid|
                && var d1 := StreamWrite(d, iv.start * SLOT_SIZE, Padded(data, iv));
                if r.Ok? then d.end + 1 <= MAX_ENTRIES && d' == Appended(d1, Plain(fid, |data|), iv)
                else d' == d1 && r != Err(Conflict))
  {
    var ext := Extent(d.slots, fid, |data|);
    iv := if ext.Some? then ext.value else Interval(0, 0);
    hide Extent, Appended, Splice, Overlaps;
  }

  /** Whether Trim's write of an object succeeds, by what the disk says about its fid and
      size alone. */
  ghost predicate Writable(d: Disk, fid: nat, size: nat) {
    Reservable(d, fid, size) && fid !in d.confirmed && size < TWO_56 && d.end < MAX_ENTRIES
  }

  /** The fid is stored already, or its extent meets another. */
  ghost predicate Clashing(d: Disk, fid: nat, size: nat) {
    size > 0 && !d.fault && (fid in d.confirmed || (size <= d.slots * SLOT_SIZE && !Reservable(d, fid, size)))
  }

  /** When Trim's own write of an object succeeds, what it answers otherwise, and what it
      changes: a refusal nothing, a full log the bytes of a free extent only. */
  lemma WriteExactly(d: Disk, fid: nat, data: seq<byte>)
    requires |d.region| == MAX_ENTRIES && |d.grid| == d.slots * SLOT_SIZE
    ensures var (d', r) := WriteObject(d, fid, data);
            && (r.Ok? <==> Writable(d, fid, |data|))
            && (data == [] ==> r == Err(EmptyObject))
            && (data != [] && d.fault ==> r == Err(Fault))
            && (r == Err(Conflict) <==> Clashing(d, fid, |data|))
            && (!d.fault && fid !in d.confirmed && |data| > d.slots * SLOT_SIZE ==> r == Err(OutOfRange))
            && (r.Err? && (r.error == Conflict || !Reservable(d, fid, |data|)) ==> d' == d)
    ensures Reservable(d, fid, |data|) && fid !in d.confirmed ==>
              var (d', r), iv := WriteObject(d, fid, data), Extent(d.slots, fid, |data|).value;
              && Filled(d.grid, d'.grid, iv.start * SLOT_SIZE, data, Capacity(iv))
              && d' == if r.Ok?
                       then d.(grid := d'.grid, region := Splice(d.region, d.end, [Entry(fid, |data|, 0)]),
                               end := d.end + 1, confirmed := d.confirmed[fid := Ref(fid, |data|, |data|, 0, false)],
                               intervals := d.intervals + {iv})
                       else d.(grid := d'.grid)
  {
    hide Extent, Reservable, Overlaps, Splice, Filled, WriteObject, Writable, Clashing;
    WriteAnswers(d, fid, data);
    if Reservable(d, fid, |data|) && fid !in d.confirmed { WriteLays(d, fid, data); }
  }

  lemma WriteAnswers(d: Disk, fid: nat, data: seq<byte>)
    requires |d.region| == MAX_ENTRIES && |d.grid| == d.slots * SLOT_SIZE
    ensures var (d', r) := WriteObject(d, fid, data);
            && (r.Ok? <==> Writable(d, fid, |data|))
            && (data == [] ==> r == Err(EmptyObject))
            && (data != [] && d.fault ==> r == Err(Fault))
            && (r == Err(Conflict) <==> Clashing(d, fid, |data|))
            && (!d.fault && fid !in d.confirmed && |data| > d.slots * SLOT_SIZE ==> r == Err(OutOfRange))
            && (r.Err? && (r.error == Conflict || !Reservable(d, fid, |data|)) ==> d' == d)
  {
    PrepareExactly(d, fid, |data|);
    hide Extent, Reservable, AnyOverlap, Splice, Appended;
  }

  lemma WriteLays(d: Disk, fid: nat, data: seq<byte>)
    requires |d.region| == MAX_ENTRIES && |d.grid| == d.slots * SLOT_SIZE
    requires Reservable(d, fid, |data|) && fid !in d.confirmed
    ensures var (d', r), iv := WriteObject(d, fid, data), Extent(d.slots, fid, |data|).value;
            && Filled(d.grid, d'.grid, iv.start * SLOT_SIZE, data, Capacity(iv))
            && d' == if r.Ok?
                     then d.(grid := d'.grid, region := Splice(d.region, d.end, [Entry(fid, |data|, 0)]),
                             end := d.end + 1, confirmed := d.confirmed[fid := Ref(fid, |data|, |data|, 0, false)],
                             intervals := d.intervals + {iv})
                     else d.(grid := d'.grid)
  {
    PrepareExactly(d, fid, |data|);
    var iv := Extent(d.slots, fid, |data|).value;
    ExtentFree(d, fid, |data|, iv);
    hide Extent, Reservable, AnyOverlap, Splice, Filled, Zeros;
    FilledPadded(d.grid, iv, data);
    assert d.confirmed + RecRefs(Plain(fid, |data|)) == d.confirmed[fid := Ref(fid, |data|, |data|, 0, false)];
    assert d.pending - {iv} == d.pending;
  }

  lemma ExtentFree(d: Disk, fid: nat, size: nat, iv: Interval)
    requires Reservable(d, fid, size) && Extent(d.slots, fid, size) == Some(iv)
    ensures iv !in d.pending && iv.start <= iv.end < d.slots
  {
    assert Overlaps(iv, iv);
  }

  lemma FilledPadded(grid: seq<byte>, iv: Interval, data: seq<byte>)
    requires iv.start <= iv.end && |data| <= (iv.end - iv.start + 1) * SLOT_SIZE
    requires iv.start * SLOT_SIZE + |Padded(data, iv)| <= |grid|
    ensures Filled(grid, Splice(grid, iv.start * SLOT_SIZE, Padded(data, iv)), iv.start * SLOT_SIZE, data, Capacity(iv))
  {}

  /** A successful write stores one new object with exactly the given bytes; any
      other outcome stores nothing new. */
  lemma WriteObjectKeeps(d: Disk, objs: Objects, fid: nat, data: seq<byte>)
    requires Inv(d, objs)
    ensures var (d', r) := WriteObject(d, fid, data);
            && (r.Ok? ==> Wrote(d, objs, d', fid, data))
            && (r.Err? ==> Inv(d', objs) && d' == d.(grid := d'.grid))
            && (r == Err(Conflict) ==> d' == d)
            && d'.pending == d.pending && d'.slots == d.slots && d'.diskID == d.diskID && d'.fault == d.fault
            && SameOn(d.grid, d'.grid, d.intervals + d.pending)
  {
    SameItself(d.grid, d.intervals + d.pending);
    hide Inv, WriteObject, Extent, Padded, Appended, Overlaps, Splice, SameOn;
    ConfirmedKeys(d, objs);
    var iv := WriteObjectCases(d, fid, data);
    var (d', r) := WriteObject(d, fid, data);
    if d' != d || r.Ok? {
      PayloadKeeps(d, objs, fid, data, iv);
    }
  }

  /** The object is new, its bytes are stored, its record ends the log, and its
      extent is confirmed. */
  ghost predicate Wrote(d: Disk, objs: Objects, d': Disk, fid: nat, data: seq<byte>) {
    && fid !in objs && Inv(d', objs[fid := data]) && !d.fault && !d'.fault
    && Recs(d') == Recs(d) + [Plain(fid, |data|)]
    && d'.confirmed == d.confirmed[fid := PlainRef(fid, |data|)]
    && Extent(d.slots, fid, |data|).Some?
    && d'.intervals == d.intervals + {Extent(d.slots, fid, |data|).value}
    && d'.pending == d.pending && d'.slots == d.slots && d'.diskID == d.diskID
    && SameOn(d.grid, d'.grid, d.intervals + d.pending)
  }

  lemma SameItself(grid: seq<byte>, ivs: set<Interval>)
    ensures SameOn(grid, grid, ivs)
  {}

  lemma PayloadKeeps(d: Disk, objs: Objects, fid: nat, data: seq<byte>, iv: Interval)
    requires Inv(d, objs) && FreeFor(d, fid, data, iv)
    ensures |d.region| == MAX_ENTRIES && iv.start * SLOT_SIZE + |Padded(data, iv)| <= |d.grid|
    ensures var d1 := StreamWrite(d, iv.start * SLOT_SIZE, Padded(data, iv));
            && Inv(d1, objs) && SameOn(d.grid, d1.grid, d.intervals + d.pending)
            && (d.end + 1 <= MAX_ENTRIES ==> Wrote(d, objs, Appended(d1, Plain(fid, |data|), iv), fid, data))
  {
    var pad := Zeros((iv.end - iv.start + 1) * SLOT_SIZE - |data|);
    var at := iv.start * SLOT_SIZE;
    assert Padded(data, iv) == data + pad;
    hide Inv, Extent, Recs, Overlaps, ReadRef, Splice, Zeros, SameOn, Appended, Padded;
    ConfirmedKeys(d, objs);
    WriteOutside(d.slots, d.grid, at, data + pad, iv, d.intervals + d.pending);
    GridWriteKeeps(d, objs, at, data + pad, iv);
    SpliceRead(d.slots, d.grid, fid, data, pad);
    if d.end + 1 <= MAX_ENTRIES {
      WrittenAppended(StreamWrite(d, at, data + pad), objs, fid, data, iv);
    }
  }

  lemma ConfirmedKeys(d: Disk, objs: Objects)
    requires Inv(d, objs)
    ensures d.confirmed.Keys == objs.Keys && Shape(d)
  {}

  lemma PlainFacts(d: Disk, fid: nat, data: seq<byte>, iv: Interval)
    requires FreeFor(d, fid, data, iv) && ReadRef(d.slots, d.grid, PlainRef(fid, |data|)) == Ok(data)
    ensures var r := Plain(fid, |data|);
            && fid !in d.confirmed && !d.fault && iv !in d.pending
            && Placed(d, r, iv, data) && RecOk(d.slots, r)
            && RecKeys(r) == {fid} && |RecEntries(r)| == 1
            && RecRefs(r) == map[fid := PlainRef(fid, |data|)] && RecObjects(r, data) == map[fid := data]
  {
    assert Overlaps(iv, iv);
    hide Extent, ReadRef, Overlaps;
  }

  lemma AppendedFields(d: Disk, r: Rec, iv: Interval)
    requires d.end + |RecEntries(r)| <= |d.region| && iv !in d.pending
    ensures var d' := Appended(d, r, iv);
            && d'.confirmed == d.confirmed + RecRefs(r) && d'.intervals == d.intervals + {iv}
            && d' == d.(region := d'.region, end := d'.end, confirmed := d'.confirmed, intervals := d'.intervals)
  {
    hide Splice, RecRefs, RecEntries;
    assert d.pending - {iv} == d.pending;
  }

  lemma WrittenAppended(d: Disk, objs: Objects, fid: nat, data: seq<byte>, iv: Interval)
    requires Inv(d, objs) && FreeFor(d, fid, data, iv) && d.end + 1 <= MAX_ENTRIES
    requires ReadRef(d.slots, d.grid, PlainRef(fid, |data|)) == Ok(data)
    ensures |d.region| == MAX_ENTRIES
    ensures var d' := Appended(d, Plain(fid, |data|), iv);
            && fid !in objs && Inv(d', objs[fid := data])
            && Recs(d') == Recs(d) + [Plain(fid, |data|)]
            && d'.confirmed == d.confirmed[fid := PlainRef(fid, |data|)] && d'.intervals == d.intervals + {iv}
            && d' == d.(region := d'.region, end := d'.end, confirmed := d'.confirmed, intervals := d'.intervals)
  {
    hide Inv, Extent, FreeFor, ReadRef, RecOk, RecKeys, RecRefs, RecObjects, RecEntries, Recs, Appended, Overlaps,
         Placed;
    var r := Plain(fid, |data|);
    PlainFacts(d, fid, data, iv);
    ConfirmedKeys(d, objs);
    AppendedKeeps(d, objs, r, iv, data);
    assert objs + map[fid := data] == objs[fid := data];
    assert d.confirmed + map[fid := PlainRef(fid, |data|)] == d.confirmed[fid := PlainRef(fid, |data|)];
    AppendedFields(d, r, iv);
    AppendedRecs(d, objs, r, iv);
  }

  lemma LatestOf(slots: nat, log: seq<Entry>, recs: seq<Rec>)
    requires LogIs(slots, log, recs)
    ensures Latest(log) == recs
  {}

  lemma AppendedRecs(d: Disk, objs: Objects, r: Rec, iv: Interval)
    requires Inv(d, objs) && d.end + |RecEntries(r)| <= MAX_ENTRIES && !r.Table?
    requires RecOk(d.slots, r) && RecKeys(r) !! objs.Keys
    ensures Recs(Appended(d, r, iv)) == Recs(d) + [r]
  {
    hide Inv, LogIs, Holds, TailClean, PackedOk, RecOk, RecEntries, Splice, KeysOf, RecKeys, Latest;
    var recs := PartsOf(d, objs);
    KeysStored(d.slots, d.grid, recs, d.confirmed, d.intervals, objs);
    AppendLog(d.slots, d.region[..d.end], recs, r);
    LogAfterAppend(d.region, d.end, RecEntries(r));
    LatestOf(d.slots, d.region[..d.end] + RecEntries(r), recs + [r]);
  }

  // ----- the anchor -----

  lemma WrittenAnchor(slots: nat, log: seq<Entry>, recs: seq<Rec>, fid: nat, size: nat)
    requires slots < SLOT_LIMIT && LogIs(slots, log, recs) && RecsOk(slots, recs)
    requires Plain(fid, size) in recs && fid != 0
    ensures LogIs(slots, log + RecEntries(Table(fid, fid, size)), Remove(recs, fid) + [Table(fid, fid, size)])
  {
    hide Engine, Collect, Remove, RecsOk, Extent;
    RecsOkMember(slots, recs, Plain(fid, size));
    var es := RecEntries(Table(fid, fid, size));
    EngineAppend(slots, log, es[0]);
    CollectAppend(log, es[0]);
    EngineAppend(slots, log + [es[0]], es[1]);
    CollectAppend(log + [es[0]], es[1]);
    assert log + es == log + [es[0]] + [es[1]];
  }

  /** A table just written describes a container just written. */
  ghost predicate Anchorable(d: Disk, objs: Objects, recs: seq<Rec>, fid: nat, size: nat, t: Table) {
    && Plain(fid, size) in recs && fid != 0
    && TableOf(d.slots, d.grid, Table(fid, fid, size)) == Ok(t) && Packs(recs, objs, t)
    && t.header.containerFid != fid && (forall e :: e in t.entries ==> e.fid != fid)
    && NotContainer(d.slots, d.grid, recs, fid) && Unlisted(d.slots, d.grid, recs, fid)
  }

  lemma AnchorKeeps(d: Disk, objs: Objects, recs: seq<Rec>, fid: nat, size: nat, t: Table)
    requires Inv(d, objs) && !d.fault && recs == Recs(d) && Anchorable(d, objs, recs, fid, size, t)
    ensures var (d', r) := AppendAnchor(d, fid, size);
            && Inv(d', objs)
            && (if r.Ok? then && Recs(d') == Remove(recs, fid) + [Table(fid, fid, size)]
                              && d' == d.(region := d'.region, end := d.end + 2)
                else d' == d)
  {
    var (d', r) := AppendAnchor(d, fid, size);
    if r.Ok? {
      hide Inv, LogIs, TailClean, PackedOk, RecEntries, Splice, Recs, TableOf, Packs, NotContainer, Unlisted,
           Remove, Holds, Space, Shape, Extent, TableRefs;
      PartsOfIs(d, objs, recs);
      assert RecsOk(d.slots, recs) by { RecsOkOf(d, recs, objs); }
      var r' := Table(fid, fid, size);
      var es := RecEntries(r');
      assert |es| == 2 by { TableEntries(fid, size); }
      HoldsAnchor(d.slots, d.grid, recs, d.confirmed, d.intervals, objs, fid, size, t);
      WrittenAnchor(d.slots, d.region[..d.end], recs, fid, size);
      TailKept(d.region, d.end, es);
      LogAfterAppend(d.region, d.end, es);
      FromParts(d', Remove(recs, fid) + [r'], objs);
    }
  }

  lemma TableEntries(fid: nat, size: nat)
    ensures |RecEntries(Table(fid, fid, size))| == 2
  {}

  lemma PartsOfIs(d: Disk, objs: Objects, recs: seq<Rec>)
    requires Inv(d, objs) && recs == Recs(d)
    ensures Parts(d, recs, objs)
  {}

  // ----- loading the table -----

  /** An anchored table's own reference is plain: no table lists it. */
  lemma TableRefPlain(d: Disk, objs: Objects, fid: nat, size: nat)
    requires Inv(d, objs) && Table(fid, fid, size) in Recs(d)
    ensures fid in d.confirmed && d.confirmed[fid] == PlainRef(fid, size)
    ensures CoreBacked(d.slots, Recs(d), fid, PlainRef(fid, size))
  {
    hide LogIs, TailClean, PackedOk, ReadRef, Space, RecsOk, ExtentsIn, MeaningOf, TableOf, TableRefs, Recs, Shape;
    var recs, r := Recs(d), Table(fid, fid, size);
    RecCore(d.slots, recs, r, fid);
    assert Backed(d.slots, d.grid, recs, fid, PlainRef(fid, size));
    assert Backed(d.slots, d.grid, recs, fid, d.confirmed[fid]);
    if TableBacked(d.slots, d.grid, recs, fid, d.confirmed[fid]) {
      var q :| q in recs && InTable(d.slots, d.grid, q, fid, d.confirmed[fid]);
      assert TableOk(d.slots, d.grid, recs, q);
      TableEntryMember(TableOf(d.slots, d.grid, q).value, fid);
      assert false;
    }
  }

  lemma TableEntryMember(t: Table, k: nat)
    requires k in TableRefs(t)
    ensures exists e :: e in t.entries && e.fid == k && TableRefs(t)[k] == EntryRef(t.header, e)
  {
    var e := EntriesRefsMember(t.header, t.entries, k);
  }

  /** Loading an anchored table succeeds exactly when it names this disk and a
      nonempty container, and then memory reads every listed object through it. */
  lemma LoadKeeps(d: Disk, objs: Objects, fid: nat, size: nat)
    requires Inv(d, objs) && !d.fault && Table(fid, fid, size) in Recs(d)
    ensures TableOf(d.slots, d.grid, Table(fid, fid, size)).Ok?
    ensures var t := TableOf(d.slots, d.grid, Table(fid, fid, size)).value;
            var (d', r) := LoadPackedTable(d, fid);
            && Inv(d', objs) && (r.Err? ==> d' == d)
            && (r.Ok? <==> t.header.diskID == d.diskID && t.header.containerSize != 0)
            && (r.Ok? ==> d' == d.(confirmed := d.confirmed + TableRefs(t), packed := d'.packed) && Recs(d') == Recs(d))
  {
    var r0, recs := Table(fid, fid, size), Recs(d);
    hide Inv, TableRefs, EntriesPacked, Holds, PackedOk, LogIs, Packing, TailClean, TableOf, Recs, LoadPackedTable;
    TableRefPlain(d, objs, fid, size);
    AnchoredLoads(d, objs, r0);
    PartsOfIs(d, objs, recs);
    var t := TableOf(d.slots, d.grid, r0).value;
    LoadCases(d, fid, size, t);
    var (d', r) := LoadPackedTable(d, fid);
    if r.Ok? {
      LoadedPacked(d, fid, size, t);
      HoldsLoad(d.slots, d.grid, recs, d.confirmed, d.intervals, objs, r0);
      FromParts(d', recs, objs);
    }
  }

  lemma AnchoredLoads(d: Disk, objs: Objects, r: Rec)
    requires Inv(d, objs) && r in Recs(d) && r.Table?
    ensures TableOf(d.slots, d.grid, r).Ok?
  {
    assert TableOk(d.slots, d.grid, Recs(d), r);
  }

  lemma LoadCases(d: Disk, fid: nat, size: nat, t: Table)
    requires !d.fault && fid in d.confirmed && d.confirmed[fid] == PlainRef(fid, size)
    requires TableOf(d.slots, d.grid, Table(fid, fid, size)) == Ok(t)
    ensures var (d', r) := LoadPackedTable(d, fid);
            && (r.Ok? <==> t.header.diskID == d.diskID && t.header.containerSize != 0)
            && (if r.Ok? then
                  d' == d.(confirmed := d.confirmed + TableRefs(t),
                           packed := d.packed + EntriesPacked(t.header, t.entries, fid, size))
                else d' == d)
  {
    hide DecodeTable, TableRefs, EntriesPacked, ReadRef;
    assert Read(d, fid) == ReadRef(d.slots, d.grid, PlainRef(fid, size));
    BlobSize(d, fid, size);
  }

  lemma LoadedPacked(d: Disk, fid: nat, size: nat, t: Table)
    requires PackedOk(d.confirmed, d.packed)
    ensures PackedOk(d.confirmed + TableRefs(t), d.packed + EntriesPacked(t.header, t.entries, fid, size))
  {
    hide TableRefs, EntriesPacked, PackedOk, PackedMatches;
    TableMatches(t, fid, size);
    PackedLoaded(d.confirmed, d.packed, TableRefs(t), EntriesPacked(t.header, t.entries, fid, size));
  }

  lemma BlobSize(d: Disk, fid: nat, size: nat)
    requires ReadRef(d.slots, d.grid, PlainRef(fid, size)).Ok?
    ensures |ReadRef(d.slots, d.grid, PlainRef(fid, size)).value| == size
  {
    hide Extent;
  }

  lemma TableMatches(t: Table, fid: nat, size: nat)
    ensures PackedMatches(TableRefs(t), EntriesPacked(t.header, t.entries, fid, size))
  {
    EntriesMatch(t.header, t.entries, fid, size);
  }

  lemma PackedLoaded(confirmed: map<nat, Ref>, packed: map<nat, PackedRecord>, refs: map<nat, Ref>,
                     recs: map<nat, PackedRecord>)
    requires PackedOk(confirmed, packed) && PackedMatches(refs, recs)
    ensures PackedOk(confirmed + refs, packed + recs)
  {}

  // ----- tombstones -----

  lemma WrittenTombstone(slots: nat, log: seq<Entry>, recs: seq<Rec>, fid: nat)
    requires LogIs(slots, log, recs) && HasPlain(recs, fid) && fid != 0
    ensures LogIs(slots, log + [Entry(fid, 0, 0)], Remove(recs, fid))
  {
    hide Engine, Collect, Remove, HasPlain;
    EngineAppend(slots, log, Entry(fid, 0, 0));
    CollectAppend(log, Entry(fid, 0, 0));
  }

  lemma TombstoneKeeps(d: Disk, objs: Objects, recs: seq<Rec>, fid: nat)
    requires Inv(d, objs) && !d.fault && recs == Recs(d) && HasPlain(recs, fid) && fid != 0
    requires NotContainer(d.slots, d.grid, recs, fid)
    requires fid in d.confirmed && TableBacked(d.slots, d.grid, recs, fid, d.confirmed[fid])
    ensures |d.region| == MAX_ENTRIES
    ensures var (d', r) := AppendTombstone(d, fid);
            && Inv(d', objs)
            && (if r.Ok? then Recs(d') == Remove(recs, fid) && d' == d.(region := d'.region, end := d.end + 1)
                else d' == d)
  {
    hide Inv, LogIs, TailClean, PackedOk, Splice, Recs, TableBacked, NotContainer, Remove, Holds, HasPlain, Packing;
    ConfirmedKeys(d, objs);
    if d.end + 1 <= MAX_ENTRIES {
      PartsOfIs(d, objs, recs);
      HoldsTombstone(d.slots, d.grid, recs, d.confirmed, d.intervals, objs, fid);
      TombstoneLog(d, recs, fid);
      FromParts(AppendTombstone(d, fid).0, Remove(recs, fid), objs);
    }
  }

  lemma TombstoneLog(d: Disk, recs: seq<Rec>, fid: nat)
    requires Shape(d) && d.end + 1 <= MAX_ENTRIES && LogIs(d.slots, d.region[..d.end], recs)
    requires HasPlain(recs, fid) && fid != 0
    ensures var d' := AppendTombstone(d, fid).0;
            && Shape(d') && LogIs(d.slots, d'.region[..d'.end], Remove(recs, fid))
            && (TailClean(d.region, d.end) ==> TailClean(d'.region, d'.end))
  {
    hide LogIs, TailClean, Splice, Remove, HasPlain;
    var es := [Entry(fid, 0, 0)];
    SpliceLength(d.region, d.end, es);
    WrittenTombstone(d.slots, d.region[..d.end], recs, fid);
    LogAfterAppend(d.region, d.end, es);
    if TailClean(d.region, d.end) { TailKept(d.region, d.end, es); }
  }

  lemma SpliceLength<T>(s: seq<T>, at: nat, part: seq<T>)
    requires at + |part| <= |s|
    ensures |Splice(s, at, part)| == |s|
  {}

  // ----- replay and compaction -----

  lemma FinalRefs(slots: nat, grid: seq<byte>, recs: seq<Rec>, confirmed: map<nat, Ref>, ivs: set<Interval>,
                  objs: Objects)
    requires Holds(slots, grid, recs, confirmed, ivs, objs)
    ensures var final := MeaningOf(slots, recs).refs + TablesRefs(slots, grid, recs);
            final.Keys == objs.Keys && forall k :: k in final ==> Backed(slots, grid, recs, k, final[k])
  {
    hide MeaningOf, RecsOk, ExtentsIn, TablesOk, TablesRefs, TableOf, TableRefs, ReadRef;
    var core, over := MeaningOf(slots, recs).refs, TablesRefs(slots, grid, recs);
    forall k | k in core + over ensures Backed(slots, grid, recs, k, (core + over)[k]) {
      if k in over { TablesRefsMember(slots, grid, recs, k); }
    }
    forall k | k in objs ensures k in core + over {
      var ref := confirmed[k];
      assert Backed(slots, grid, recs, k, ref);
      if TableBacked(slots, grid, recs, k, ref) {
        var r :| r in recs && InTable(slots, grid, r, k, ref);
        TablesRefsCover(slots, grid, recs, r, k, ref);
      }
    }
  }

  lemma TablesExpand(slots: nat, grid: seq<byte>, recs: seq<Rec>)
    requires RecsOk(slots, recs) && TablesOk(slots, grid, recs)
    ensures var core := MeaningOf(slots, recs).refs;
            var idx := ExpandTables(slots, grid, Index(core, map[]), MeaningOf(slots, recs).tables);
            idx.Ok? && idx.value.refs == core + TablesRefs(slots, grid, recs)
            && PackedMatches(TablesRefs(slots, grid, recs), idx.value.packed)
  {
    hide MeaningOf, RecsOk, TablesRefs, TableOf, TableRefs, ReadRef, ExpandTables, PackedMatches, Extent;
    var core := MeaningOf(slots, recs).refs;
    forall r | r in recs && r.Table?
      ensures TableOf(slots, grid, r).Ok? && r.fid in core && core[r.fid] == PlainRef(r.fid, r.size)
      ensures r.fid !in TablesRefs(slots, grid, recs)
    {
      assert TableOk(slots, grid, recs, r);
      RecsOkMember(slots, recs, r);
      RecCore(slots, recs, r, r.fid);
      if r.fid in TablesRefs(slots, grid, recs) {
        TablesRefsMember(slots, grid, recs, r.fid);
        var q :| q in recs && InTable(slots, grid, q, r.fid, TablesRefs(slots, grid, recs)[r.fid]);
        assert TableOk(slots, grid, recs, q);
        TableEntryMember(TableOf(slots, grid, q).value, r.fid);
        assert false;
      }
    }
    ExpandIsUnion(slots, grid, recs, core);
  }

  /** The log of a disk without fault always replays, to references for exactly the
      stored objects, each reading exactly the object's bytes. */
  lemma ReplayAgrees(d: Disk, objs: Objects)
    requires Inv(d, objs) && TailClean(d.region, d.end)
    ensures EndOf(d.region) == d.end
    ensures ReplayRegion(d.slots, d.grid, d.region).Ok?
    ensures var rp := ReplayRegion(d.slots, d.grid, d.region).value;
            && rp.refs.Keys == objs.Keys == d.confirmed.Keys
            && (forall k :: k in objs ==> ReadRef(d.slots, d.grid, rp.refs[k]) == Ok(objs[k]))
            && rp.extents == MeaningOf(d.slots, Recs(d)).extents
            && rp.extents.Values <= d.intervals
            && rp.refs == MeaningOf(d.slots, Recs(d)).refs + TablesRefs(d.slots, d.grid, Recs(d))
            && PackedMatches(TablesRefs(d.slots, d.grid, Recs(d)), rp.packed)
  {
    var recs := PartsOf(d, objs);
    hide Inv, Collect, Engine, PackedOk, Recs, MeaningOf, ReplayLog, EndOf, TablesRefs, ExpandTables, ReadRef,
         RecsOk, TablesOk, Backed, Space, PackedMatches;
    EndOfLog(d);
    EngineReplays(d.slots, d.region[..d.end]);
    TablesExpand(d.slots, d.grid, recs);
    FinalRefs(d.slots, d.grid, recs, d.confirmed, d.intervals, objs);
  }

  /** Rebuilding memory from the log gives the same objects, and confirms exactly
      the extents of the records. */
  lemma RebuiltKeeps(d: Disk, objs: Objects)
    requires Inv(d, objs) && TailClean(d.region, d.end)
    ensures ReplayRegion(d.slots, d.grid, d.region).Ok?
    ensures var d' := Rebuilt(d, ReplayRegion(d.slots, d.grid, d.region).value);
            && Inv(d', objs) && Recs(d') == Recs(d) && !d'.fault && d'.end == d.end
            && d'.intervals == MeaningOf(d.slots, Recs(d)).extents.Values <= d.intervals
  {
    hide Inv, ReplayRegion, LogIs, TailClean, EndOf, MeaningOf, TablesRefs, ReadRef, Holds, PackedOk, PackedMatches,
         Packing, Recs;
    ReplayAgrees(d, objs);
    var rp := ReplayRegion(d.slots, d.grid, d.region).value;
    var d' := Rebuilt(d, rp);
    var recs := PartsOf(d, objs);
    HoldsRebuilt(d.slots, d.grid, recs, d.confirmed, d.intervals, objs);
    CoreUnpacked(d.slots, recs);
    ReplayedPacked(MeaningOf(d.slots, recs).refs, TablesRefs(d.slots, d.grid, recs), rp.packed);
    FewerExtents(d.slots, d.intervals, d.pending, d'.intervals);
    FromParts(d', recs, objs);
  }

  lemma HoldsRebuilt(slots: nat, grid: seq<byte>, recs: seq<Rec>, confirmed: map<nat, Ref>, ivs: set<Interval>,
                     objs: Objects)
    requires Holds(slots, grid, recs, confirmed, ivs, objs)
    ensures Holds(slots, grid, recs, MeaningOf(slots, recs).refs + TablesRefs(slots, grid, recs),
                  MeaningOf(slots, recs).extents.Values, objs)
  {
    hide MeaningOf, TablesRefs, TablesOk, Contents, RecsOk, Backed;
    FinalRefs(slots, grid, recs, confirmed, ivs, objs);
  }

  lemma ReplayedPacked(core: map<nat, Ref>, over: map<nat, Ref>, packed: map<nat, PackedRecord>)
    requires PackedMatches(over, packed) && forall k :: k in core ==> !core[k].packed
    ensures PackedOk(core + over, packed)
  {}

  lemma FewerExtents(slots: nat, ivs: set<Interval>, pending: set<Interval>, fewer: set<Interval>)
    requires ivs !! pending && Packing(slots, ivs + pending) && fewer <= ivs
    ensures fewer !! pending && Packing(slots, fewer + pending)
  {}

  lemma {:induction false} CoreUnpacked(slots: nat, recs: seq<Rec>)
    ensures forall k :: k in MeaningOf(slots, recs).refs ==> !MeaningOf(slots, recs).refs[k].packed
  {
    if recs != [] {
      hide Extent;
      CoreUnpacked(slots, recs[..|recs| - 1]);
    }
  }

  /** Opening a disk always succeeds and serves the same objects. */
  lemma OpenKeeps(d: Disk, objs: Objects)
    requires Inv(d, objs) && TailClean(d.region, d.end)
    ensures Open(d).Ok? && Inv(Open(d).value, objs) && !Open(d).value.fault
    ensures Open(d).value.pending == {} && Open(d).value.intervals <= d.intervals
  {
    var d0 := d.(pending := {});
    assert Inv(d0, objs) by {
      hide LogIs, Holds, Recs, TailClean, PackedOk, Overlaps, Inv;
      var recs := PartsOf(d, objs);
      FromParts(d0, recs, objs);
    }
    RebuiltKeeps(d0, objs);
  }

  lemma CompactedLog(slots: nat, log: seq<Entry>, recs: seq<Rec>)
    requires slots < SLOT_LIMIT && LogIs(slots, log, recs) && RecsOk(slots, recs)
    ensures LogIs(slots, WriteLog(recs), recs) && Validate(WriteLog(recs)).Ok? && |WriteLog(recs)| <= |log|
  {
    hide Engine, Collect, Validate, WriteLog, RecsOk;
    WrittenLogCollects(slots, recs);
    WrittenLogValidates(slots, recs);
    CompactionNeverLonger(log);
  }

  lemma FilledRegion(log: seq<Entry>)
    requires |log| <= MAX_ENTRIES
    ensures var region := log + ZeroEntries(MAX_ENTRIES - |log|);
            |region| == MAX_ENTRIES && region[..|log|] == log && TailClean(region, |log|)
  {}

  /** The compacted region holds the same records and the same objects. */
  lemma CompactedRegion(d: Disk, objs: Objects, recs: seq<Rec>)
    requires Inv(d, objs) && TailClean(d.region, d.end) && recs == Recs(d) && ScansWhole(d.region)
    ensures ScanEnd(d.region) == d.end <= MAX_ENTRIES && Collect(d.region[..d.end]) == Ok(CollectState(recs, None))
    ensures var log := WriteLog(recs);
            && |log| <= d.end && Validate(log).Ok?
            && var d' := d.(region := log + ZeroEntries(MAX_ENTRIES - |log|), end := |log|);
            Inv(d', objs) && Recs(d') == recs && TailClean(d'.region, d'.end)
  {
    hide Inv, PackedOk, Recs, EndOf, ScanEnd, Validate, WriteLog, Holds, Packing, RecsOk, TailClean, ZeroEntries,
         Engine;
    PartsOfIs(d, objs, recs);
    EndOfLog(d);
    RecsOkOf(d, recs, objs);
    CompactedLog(d.slots, d.region[..d.end], recs);
    var log := WriteLog(recs);
    FilledRegion(log);
    FromParts(d.(region := log + ZeroEntries(MAX_ENTRIES - |log|), end := |log|), recs, objs);
  }

  /** Compaction of a log that is scanned whole always succeeds: it keeps every object and
      every record, never lengthens the log, and confirms exactly the extents of the
      records; the new log is these records and nothing else. */
  lemma CompactKeeps(d: Disk, objs: Objects)
    requires Inv(d, objs) && TailClean(d.region, d.end) && ScansWhole(d.region)
    ensures |d.region| == MAX_ENTRIES
    ensures var (d', r) := CompactIndex(d);
            && r.Ok? && Inv(d', objs) && !d'.fault && Recs(d') == Recs(d) && d'.end <= d.end
            && d'.pending == d.pending && d'.grid == d.grid && d'.slots == d.slots && d'.diskID == d.diskID
            && d'.intervals == MeaningOf(d.slots, Recs(d)).extents.Values <= d.intervals
            && Log(d') == WriteLog(Recs(d))
  {
    hide Inv, Collect, Recs, MeaningOf, EndOf, ScanEnd, ScansWhole, Validate, WriteLog, ReplayRegion, TablesRefs,
         Rebuilt, TailClean, ZeroEntries;
    ConfirmedKeys(d, objs);
    var recs := Recs(d);
    CompactedRegion(d, objs, recs);
    var log := WriteLog(recs);
    ZeroEntriesLength(MAX_ENTRIES - |log|);
    var region' := log + ZeroEntries(MAX_ENTRIES - |log|);
    RebuiltKeeps(d.(region := region', end := |log|), objs);
    RebuiltSame(d, region', |log|);
    LogOfRegion(CompactIndex(d).0, log);
  }

  lemma LogOfRegion(d: Disk, log: seq<Entry>)
    requires d.end == |log| <= MAX_ENTRIES && d.region == log + ZeroEntries(MAX_ENTRIES - |log|)
    ensures Log(d) == log
  {
    assert d.region[..|log|] == log;
  }

  lemma ZeroEntriesLength(n: nat)
    ensures |ZeroEntries(n)| == n
  {}

  lemma RecsAreOk(d: Disk, objs: Objects)
    requires Inv(d, objs)
    ensures RecsOk(d.slots, Recs(d))
  {}

  lemma RecsOkOf(d: Disk, recs: seq<Rec>, objs: Objects)
    requires Parts(d, recs, objs)
    ensures RecsOk(d.slots, recs)
  {}

  lemma RebuiltSame(d: Disk, region': seq<Entry>, end: nat)
    requires ReplayRegion(d.slots, d.grid, region').Ok?
    ensures var rp := ReplayRegion(d.slots, d.grid, region').value;
            && Rebuilt(d.(region := region'), rp) == Rebuilt(d.(region := region', end := end), rp)
            && Rebuilt(d.(region := region'), rp)
               == d.(region := region', confirmed := rp.refs, packed := rp.packed, intervals := rp.extents.Values,
                     end := EndOf(region'), fault := false)
  {
    hide ReplayRegion, EndOf;
  }
}
