/** Compaction of a log whose scan is cut short: exactly which objects survive it, and
    with which bytes, for every disk in order; and a disk in order that loses objects. */
module CutScan {
  import opened Layout
  import opened IndexEntry
  import opened IndexLog
  import opened Replay
  import opened IndexScan
  import opened Store
  import opened StoreSteps
  import opened DiskState
  import opened DiskSteps
  import opened TrimSteps
  import opened Faults
  import opened Witness

  // ----- the records before the cut -----

  /** The records of the entries that the scan delivers. */
  function Front(d: Disk): seq<Rec> {
    if ScanEnd(d.region) <= |d.region| then Latest(d.region[..ScanEnd(d.region)]) else []
  }

  /** An anchored table stays anchored whatever the engine appends. */
  lemma {:induction false} TablePersists(slots: nat, log: seq<Entry>, n: nat, r: Rec)
    requires slots < SLOT_LIMIT && Engine(slots, log) && n <= |log| && r.Table?
    requires Collect(log[..n]).Ok? && r in Collect(log[..n]).value.recs
    ensures Collect(log).Ok? && r in Collect(log).value.recs
    decreases |log|
  {
    hide StepOk, CollectStep;
    if n == |log| {
      assert log[..n] == log;
    } else {
      var front := log[..|log| - 1];
      assert front[..n] == log[..n];
      TablePersists(slots, front, n, r);
      EngineCollects(slots, front);
      TableStays(slots, Collect(front).value, log[|log| - 1], r);
    }
  }

  lemma TableStays(slots: nat, cs: CollectState, e: Entry, r: Rec)
    requires slots < SLOT_LIMIT && CollectOk(slots, cs) && StepOk(slots, cs, e) && r in cs.recs && r.Table?
    ensures CollectStep(cs, e).Ok? && r in CollectStep(cs, e).value.recs
  {
    hide RecsOk, Remove, KeysOf, Extent;
    CollectStepOk(slots, cs, e);
    KeysContain(cs.recs, r);
    var fid := if cs.pending.Some? then cs.pending.value.fid else e.fid;
    RemoveMembers(cs.recs, fid, r);
    if HasPlain(cs.recs, r.fid) {
      var p :| p in cs.recs && p.Plain? && p.fid == r.fid;
      RecsUnique(slots, cs.recs, r, p, r.fid);
    }
    assert forall size :: Plain(r.fid, size) in cs.recs ==> HasPlain(cs.recs, r.fid);
  }

  /** What the scan delivers of a disk in order is the log of an engine, at most as long. */
  lemma FrontIs(d: Disk, objs: Objects)
    requires Inv(d, objs) && !d.fault
    ensures Shape(d) && ScanEnd(d.region) <= d.end && RecsOk(d.slots, Front(d))
    ensures Engine(d.slots, d.region[..ScanEnd(d.region)]) && Collect(d.region[..ScanEnd(d.region)]).Ok?
    ensures Collect(d.region[..ScanEnd(d.region)]).value.recs == Front(d)
    ensures forall r :: r in Front(d) && r.Table? ==> r in Recs(d)
  {
    hide Inv, Collect, EndOf, ScanEnd, TailClean, RecsOk, Engine;
    TailOf(d, objs);
    EngineOf(d, objs);
    EndOfLog(d);
    ScanEndInside(d.region);
    var log, n := d.region[..d.end], ScanEnd(d.region);
    assert log[..n] == d.region[..n];
    EnginePrefix(d.slots, log, n);
    EngineCollects(d.slots, log[..n]);
    forall r | r in Front(d) && r.Table? ensures r in Recs(d) { TablePersists(d.slots, log, n, r); }
  }

  // ----- what the compacted log replays to -----

  /** The slices that the tables before the cut list. */
  function FrontRefs(d: Disk): map<nat, Ref> { TablesRefs(d.slots, d.grid, Front(d)) }

  lemma TablesAreOk(d: Disk, objs: Objects)
    requires Inv(d, objs)
    ensures TablesOk(d.slots, d.grid, Recs(d)) && Contents(d.slots, d.grid, Recs(d), objs)
  {}

  /** A table before the cut lists what a table of the whole log lists. */
  lemma ListedBacked(d: Disk, objs: Objects, k: nat)
    requires Inv(d, objs) && !d.fault && k in FrontRefs(d)
    ensures TableBacked(d.slots, d.grid, Recs(d), k, FrontRefs(d)[k])
    ensures k in objs && ReadRef(d.slots, d.grid, FrontRefs(d)[k]) == Ok(objs[k])
    ensures NotATable(Recs(d), k)
  {
    hide Inv, TablesRefs, InTable, Front, Recs, ReadRef, TableOk;
    FrontIs(d, objs);
    TablesAreOk(d, objs);
    TablesRefsMember(d.slots, d.grid, Front(d), k);
    var ref := FrontRefs(d)[k];
    var r :| r in Front(d) && InTable(d.slots, d.grid, r, k, ref);
    assert r.Table? by { IsTable(d.slots, d.grid, r, k, ref); }
    assert Backed(d.slots, d.grid, Recs(d), k, ref);
    ListedNoTable(d.slots, d.grid, Recs(d), r, k, ref);
  }

  lemma IsTable(slots: nat, grid: seq<byte>, r: Rec, k: nat, ref: Ref)
    requires InTable(slots, grid, r, k, ref)
    ensures r.Table?
  {}

  lemma ListedNoTable(slots: nat, grid: seq<byte>, recs: seq<Rec>, r: Rec, k: nat, ref: Ref)
    requires TablesOk(slots, grid, recs) && r in recs && InTable(slots, grid, r, k, ref)
    ensures NotATable(recs, k)
  {
    hide TableOf, EntriesRefs;
    assert TableOk(slots, grid, recs, r);
    TableEntryMember(TableOf(slots, grid, r).value, k);
  }

  lemma FrontExpands(d: Disk, objs: Objects)
    requires Inv(d, objs) && !d.fault
    ensures var m := MeaningOf(d.slots, Front(d));
            var idx := ExpandTables(d.slots, d.grid, Index(m.refs, map[]), m.tables);
            idx.Ok? && idx.value.refs == m.refs + FrontRefs(d)
  {
    hide Inv, TablesRefs, Front, Recs, RecsOk, MeaningOf, TableOf, ExpandTables, PackedMatches, Extent;
    FrontIs(d, objs);
    TablesAreOk(d, objs);
    var core := MeaningOf(d.slots, Front(d)).refs;
    forall r | r in Front(d) && r.Table?
      ensures TableOf(d.slots, d.grid, r).Ok? && r.fid in core && core[r.fid] == PlainRef(r.fid, r.size)
      ensures r.fid !in FrontRefs(d)
    {
      assert TableOk(d.slots, d.grid, Recs(d), r);
      RecsOkMember(d.slots, Front(d), r);
      RecCore(d.slots, Front(d), r, r.fid);
      if r.fid in FrontRefs(d) { ListedBacked(d, objs, r.fid); }
    }
    ExpandIsUnion(d.slots, d.grid, Front(d), core);
  }

  lemma FilledReplays(slots: nat, grid: seq<byte>, recs: seq<Rec>)
    requires slots < SLOT_LIMIT && RecsOk(slots, recs) && |WriteLog(recs)| <= MAX_ENTRIES
    ensures var m := MeaningOf(slots, recs);
            ReplayRegion(slots, grid, WriteLog(recs) + ZeroEntries(MAX_ENTRIES - |WriteLog(recs)|))
            == Finish(slots, grid, ReplayState(m.refs, m.extents, None, None, m.tables))
  {
    hide WriteLog, RecsOk, Engine, Collect, EndOf, ReplayLog, Finish, MeaningOf, ZeroEntries;
    WrittenLogCollects(slots, recs);
    EngineNoZero(slots, WriteLog(recs));
    FilledEnd(WriteLog(recs));
    FilledRegion(WriteLog(recs));
    EngineReplays(slots, WriteLog(recs));
  }

  /** Compaction of any disk in order, however much of its log the scan delivers: it
      succeeds exactly if the extents of the records before the cut are disjoint, and
      memory is then what those records and their tables say. */
  lemma CompactionIs(d: Disk, objs: Objects)
    requires Inv(d, objs) && !d.fault
    ensures |d.region| == MAX_ENTRIES
    ensures var (d', r) := CompactIndex(d);
            && (r.Ok? <==> DisjointExtents(MeaningOf(d.slots, Front(d)).extents))
            && (r.Ok? ==> d'.confirmed == MeaningOf(d.slots, Front(d)).refs + FrontRefs(d))
            && d'.fault == r.Err? && d'.grid == d.grid && d'.slots == d.slots
  {
    hide Inv, Front, Collect, WriteLog, Validate, ReplayRegion, ScanEnd, EndOf, ZeroEntries, RecsOk, MeaningOf, Engine,
         TablesRefs, ExpandTables, DisjointExtents;
    FrontIs(d, objs);
    var log := d.region[..ScanEnd(d.region)];
    CompactionNeverLonger(log);
    WrittenLogValidates(d.slots, Front(d));
    FilledReplays(d.slots, d.grid, Front(d));
    FrontExpands(d, objs);
  }

  // ----- which objects survive -----

  /** The record before the cut that answers for k is still in force behind it. */
  predicate StillRecorded(d: Disk, k: nat) {
    var refs := MeaningOf(d.slots, Front(d)).refs;
    k in refs && CoreBacked(d.slots, Recs(d), k, refs[k])
  }

  /** Where the records before the cut put k. */
  function OldRef(d: Disk, k: nat): Ref {
    var refs := MeaningOf(d.slots, Front(d)).refs;
    if k in refs then refs[k] else Ref(0, 0, 0, 0, false)
  }

  /** What a compaction leaves of each fid. An object listed by a table before the cut
      stays; so does one whose record before the cut is still in force. One recorded
      before the cut and buried behind it comes back and reads whatever its old extent
      holds by now. Every other object is gone. */
  lemma CompactionServes(d: Disk, objs: Objects, k: nat)
    requires Inv(d, objs) && !d.fault
    ensures |d.region| == MAX_ENTRIES && (k in FrontRefs(d) || StillRecorded(d, k) ==> k in objs)
    ensures CompactIndex(d).1.Ok? ==>
              Read(CompactIndex(d).0, k)
              == if k in FrontRefs(d) then Ok(objs[k])
                 else if k in KeysOf(Front(d)) then ReadRef(d.slots, d.grid, OldRef(d, k))
                 else Err(NotFound)
    ensures k !in FrontRefs(d) && StillRecorded(d, k) ==> ReadRef(d.slots, d.grid, OldRef(d, k)) == Ok(objs[k])
    ensures k in KeysOf(Front(d)) ==> ReadRef(d.slots, d.grid, OldRef(d, k)).Ok?
  {
    hide Inv, Front, CompactIndex, MeaningOf, RecsOk, Recs, TablesRefs, ReadRef, DisjointExtents, KeysOf;
    ConfirmedKeys(d, objs);
    FrontIs(d, objs);
    CompactionIs(d, objs);
    MeaningKeys(d.slots, Front(d));
    TablesAreOk(d, objs);
    if k in FrontRefs(d) { ListedBacked(d, objs, k); }
    if StillRecorded(d, k) { assert Backed(d.slots, d.grid, Recs(d), k, OldRef(d, k)); }
    if k in KeysOf(Front(d)) {
      CoreStored(d.slots, Front(d), k);
      StoredReads(d.slots, d.grid, Front(d), OldRef(d, k));
    }
  }

  lemma StoredReads(slots: nat, grid: seq<byte>, recs: seq<Rec>, ref: Ref)
    requires Stored(slots, recs, ref) && |grid| == slots * SLOT_SIZE
    ensures ReadRef(slots, grid, ref).Ok?
  {
    hide MeaningOf;
  }

  /** A stored object is gone after a compaction exactly if neither a record nor a table
      before the cut answers for it; it survives with its bytes exactly if a table
      before the cut lists it, or a record before the cut answers for it that is still in
      force or whose old extent holds the same bytes. */
  lemma SurvivesExactly(d: Disk, objs: Objects, k: nat)
    requires Inv(d, objs) && !d.fault && k in objs
    ensures |d.region| == MAX_ENTRIES
    ensures CompactIndex(d).1.Ok? ==>
              (Read(CompactIndex(d).0, k) == Ok(objs[k])
               <==> k in FrontRefs(d)
                    || (k in KeysOf(Front(d))
                        && (StillRecorded(d, k) || ReadRef(d.slots, d.grid, OldRef(d, k)) == Ok(objs[k]))))
              && (Read(CompactIndex(d).0, k) == Err(NotFound) <==> k !in FrontRefs(d) && k !in KeysOf(Front(d)))
  {
    hide Inv, CompactIndex, Read, FrontRefs, ReadRef, StillRecorded, KeysOf, Front;
    CompactionServes(d, objs, k);
  }

  // ----- a disk that loses objects -----

  /** Fids 1, 0, 2, 3 and so on. */
  function FidAt(i: nat): nat { if i == 0 then 1 else if i == 1 then 0 else i }

  /** The second object, of fid 0, has 256 bytes, every other one has one. */
  function SizeAt(i: nat): nat { if i == 1 then 256 else 1 }

  function EntryOf(i: nat): Entry { Entry(FidAt(i), SizeAt(i), 0) }

  /** The disk holds the first n objects. */
  ghost predicate Holding(d: Disk, objs: Objects, n: nat) {
    && ZeroDisk(d, objs) && d.end == n
    && (forall i :: 0 <= i < n ==> d.region[i] == EntryOf(i))
    && (forall k :: k in objs <==> exists i :: 0 <= i < n && FidAt(i) == k)
  }

  lemma {:induction false} Filled(n: nat) returns (d: Disk, objs: Objects)
    requires n <= WITNESS_SLOTS
    ensures Holding(d, objs, n)
  {
    hide ZeroDisk, Zeros, Splice;
    if n == 0 {
      BlankIsZero();
      d, objs := BlankDisk(), map[];
    } else {
      var d0, objs0 := Filled(n - 1);
      forall i | 0 <= i < n - 1 ensures FidAt(i) != FidAt(n - 1) {}
      d, objs := StoreZeros(d0, objs0, FidAt(n - 1), SizeAt(n - 1));
      FilledNext(d0, objs0, d, objs, n - 1);
    }
  }

  lemma FilledNext(d: Disk, objs: Objects, d': Disk, objs': Objects, n: nat)
    requires Holding(d, objs, n) && n < WITNESS_SLOTS && ZeroDisk(d', objs') && d'.end == n + 1
    requires d'.region == Splice(d.region, n, [EntryOf(n)])
    requires objs' == objs[FidAt(n) := Zeros(SizeAt(n))]
    ensures Holding(d', objs', n + 1)
  {
    hide Inv, FidAt, SizeAt, Zeros;
    forall k ensures k in objs' <==> exists i :: 0 <= i < n + 1 && FidAt(i) == k {
      if k == FidAt(n) {
        assert k in objs';
      } else if k in objs {
        var i :| 0 <= i < n && FidAt(i) == k;
      }
    }
  }

  /** Between the first two objects lie sixteen zero bytes: the last seven of the first
      entry and the first nine of the second. */
  lemma FirstSeam()
    ensures Seam(EntryOf(0), EntryOf(1)) && Fits(EntryOf(0)) && Fits(EntryOf(1))
  {
    SeamBeforeZero(EntryOf(0), EntryOf(1));
    Pow256Values();
    assert Pow256(1) == 256 && 1 < Pow256(1) && 256 % Pow256(1) == 0;
  }

  lemma ScanIsCut(d: Disk, objs: Objects)
    requires Holding(d, objs, CHUNK_ENTRIES + 2)
    ensures ScanEnd(d.region) == CHUNK_ENTRIES
  {
    hide Inv, EndOf, Seam, HasRun, RegionBytes, EncodeEntry;
    OpenServes(d, objs);
    var bytes := RegionBytes(d.region);
    forall k | 0 <= k < CHUNK_ENTRIES ensures Fits(d.region[k]) && d.region[k] != ZERO {
      assert d.region[k] == EntryOf(k);
    }
    RunIsSeam(d.region, CHUNK_ENTRIES);
    FirstSeam();
    assert d.region[0] == EntryOf(0) && d.region[0 + 1] == EntryOf(1);
    BytesLength(d.region);
  }

  /** A disk in order whose compaction succeeds and loses an object: its last two objects
      are recorded behind the first scan chunk. */
  lemma CutLoses() returns (d: Disk, objs: Objects)
    ensures Inv(d, objs) && !d.fault && |d.region| == MAX_ENTRIES && CHUNK_ENTRIES + 1 in objs
    ensures CompactIndex(d).1.Ok? && Read(CompactIndex(d).0, CHUNK_ENTRIES + 1) == Err(NotFound)
  {
    hide Inv, EntryOf, ScanEnd, FrontRefs, CompactIndex, Read, Latest, KeysOf;
    var d1, objs1;
    d, objs := Filled(CHUNK_ENTRIES + 2);
    d1, objs1 := Filled(CHUNK_ENTRIES);
    ScanIsCut(d, objs);
    assert d.region[..CHUNK_ENTRIES] == d1.region[..CHUNK_ENTRIES];
    assert Front(d) == Recs(d1);
    var k := CHUNK_ENTRIES + 1;
    assert FidAt(CHUNK_ENTRIES + 1) == k;
    assert k !in objs1;
    CompactionIs(d, objs);
    CompactionServes(d, objs, k);
    RecordsKnown(d1, objs1, k);
    FrontRefsIs(d, d1);
  }

  lemma RecordsKnown(d: Disk, objs: Objects, k: nat)
    requires Inv(d, objs) && k !in objs
    ensures k !in KeysOf(Recs(d)) && k !in TablesRefs(d.slots, d.grid, Recs(d))
    ensures DisjointExtents(MeaningOf(d.slots, Recs(d)).extents)
  {
    hide LogIs, TailClean, Packing, RecsOk, MeaningOf, TablesOk, Contents, MemoryOk, Recs, KeysOf, TablesRefs,
         TableBacked;
    KeysStored(d.slots, d.grid, Recs(d), d.confirmed, d.intervals, objs);
    if k in TablesRefs(d.slots, d.grid, Recs(d)) { TablesRefsMember(d.slots, d.grid, Recs(d), k); }
  }

  lemma FrontRefsIs(d: Disk, d1: Disk)
    requires d.slots == d1.slots && d.grid == d1.grid && Front(d) == Recs(d1)
    ensures FrontRefs(d) == TablesRefs(d1.slots, d1.grid, Recs(d1))
  {
    hide TablesRefs, Recs, Front;
  }
}
