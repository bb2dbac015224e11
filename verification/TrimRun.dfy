/** The transitions of a running Trim, each keeping the disk's objects and Trim's
    own bookkeeping. */
module TrimRun {
  import opened Layout
  import opened IndexLog
  import opened PackedTable
  import opened Replay
  import opened Store
  import opened StoreSteps
  import opened DiskState
  import opened DiskSteps
  import opened TrimSteps
  import opened Trim

  // ----- transitions -----

  /** Candidates are read and laid end to end. */
  function Begin(d: Disk, cands: seq<nat>): TrimState {
    var c := BuildContainer(d, cands);
    if c.Err? then Idle else Built(cands, c.value.entries, c.value.data)
  }

  /** The container, with whatever nonces were appended, is written under its hash. */
  function WriteContainer(d: Disk, ts: TrimState, fid: nat, tail: seq<byte>): (Disk, TrimState)
    requires Shape(d) && ts.Built?
  {
    var (d', r) := WriteObject(d, fid, ts.data + tail);
    (d', if r.Ok? then ContainerDone(ts.cands, ts.entries, fid, |ts.data + tail|) else Idle)
  }

  function NewTable(d: Disk, ts: TrimState, nonce: nat): Table
    requires ts.ContainerDone?
  {
    DecodedTable(Header(d.diskID, ts.container, ts.size, |ts.entries|, nonce), ts.entries)
  }

  function TableBlob(t: Table): seq<byte> { EncodeTable(t.header, t.entries) }

  function WriteTable(d: Disk, ts: TrimState, fid: nat, nonce: nat): (Disk, TrimState)
    requires Shape(d) && ts.ContainerDone?
  {
    var t := NewTable(d, ts, nonce);
    var (d', r) := WriteObject(d, fid, TableBlob(t));
    (d', if r.Ok? then TableDone(ts.cands, t, fid, |TableBlob(t)|) else Idle)
  }

  function Anchor(d: Disk, ts: TrimState): (Disk, TrimState)
    requires Shape(d) && ts.TableDone?
  {
    var (d', r) := AppendAnchor(d, ts.tableFid, ts.tableSize);
    (d', if r.Ok? then Anchored(ts.cands, ts.table, ts.tableFid, ts.tableSize) else Idle)
  }

  function Load(d: Disk, ts: TrimState): (Disk, TrimState)
    requires ts.Anchored?
  {
    var (d', r) := LoadPackedTable(d, ts.tableFid);
    (d', if r.Ok? then Loaded(ts.cands, ts.table, ts.tableFid, ts.tableSize, 0) else Idle)
  }

  function Bury(d: Disk, ts: TrimState): (Disk, TrimState)
    requires Shape(d) && ts.Loaded? && ts.done < |ts.cands|
  {
    var (d', r) := AppendTombstone(d, ts.cands[ts.done]);
    (d', if r.Ok? then ts.(done := ts.done + 1) else Idle)
  }

  // ----- what a new object leaves in place -----

  ghost predicate RecsStored(recs: seq<Rec>, objs: Objects) {
    forall r :: r in recs && r.Table? ==> r.fid in objs
  }

  lemma RecsAreStored(d: Disk, objs: Objects)
    requires Inv(d, objs)
    ensures RecsStored(Recs(d), objs)
  {
    hide Inv, Recs, TableOf, DecodeTable;
    forall r | r in Recs(d) && r.Table? ensures r.fid in objs { TableIsBlob(d, objs, r); }
  }

  lemma MovableGrows(recs: seq<Rec>, objs: Objects, fid: nat, data: seq<byte>, c: nat)
    requires RecsStored(recs, objs) && fid !in objs
    ensures HoldsNone(recs, objs, c) ==> HoldsNone(recs + [Plain(fid, |data|)], objs[fid := data], c)
    ensures ListedNowhere(recs, objs, c) ==> ListedNowhere(recs + [Plain(fid, |data|)], objs[fid := data], c)
    ensures HasPlain(recs, c) ==> HasPlain(recs + [Plain(fid, |data|)], c)
  {
    hide DecodeTable;
    var recs', objs' := recs + [Plain(fid, |data|)], objs[fid := data];
    forall r | r in recs' && r.Table? ensures r in recs && Blob(objs', r.fid) == Blob(objs, r.fid) {}
    if HasPlain(recs, c) {
      var r :| r in recs && r.Plain? && r.fid == c;
      assert r in recs';
    }
  }

  lemma WaitingGrows(recs: seq<Rec>, objs: Objects, fid: nat, data: seq<byte>, cands: seq<nat>)
    requires RecsStored(recs, objs) && fid !in objs && Waiting(recs, objs, cands)
    ensures Waiting(recs + [Plain(fid, |data|)], objs[fid := data], cands)
    ensures fid !in cands
  {
    hide HoldsNone, HasPlain, Distinct;
    forall i | 0 <= i < |cands| ensures Movable(recs + [Plain(fid, |data|)], objs[fid := data], cands[i]) {
      MovableGrows(recs, objs, fid, data, cands[i]);
    }
  }

  lemma SlicesGrow(objs: Objects, fid: nat, bytes: seq<byte>, cands: seq<nat>, es: seq<TableEntry>, data: seq<byte>)
    requires Slices(objs, cands, es, data) && fid !in objs
    ensures Slices(objs[fid := bytes], cands, es, data)
  {
    var objs' := objs[fid := bytes];
    forall i | 0 <= i < |cands| ensures SliceAt(objs', cands, es, data, i) {
      assert SliceAt(objs, cands, es, data, i);
    }
  }

  // ----- each transition keeps everything -----

  lemma BeginKeeps(d: Disk, objs: Objects, cands: seq<nat>)
    requires Inv(d, objs) && !d.fault && Waiting(Recs(d), objs, cands) && cands != []
    ensures Begin(d, cands).Built? && TrimInv(d, objs, Begin(d, cands))
  {
    hide Inv, Recs, Read, HoldsNone, HasPlain, BuildContainer;
    BuiltSlices(d, objs, cands);
    var c := BuildContainer(d, cands).value;
    assert SliceAt(objs, cands, c.entries, c.data, 0);
  }

  /** Trim stays consistent on the disk it is on, whose objects only grew. */
  ghost predicate Carries(d': Disk, objs: Objects, objs': Objects, ts': TrimState) {
    Inv(d', objs') && TrimInv(d', objs', ts') && forall k :: k in objs ==> k in objs' && objs'[k] == objs[k]
  }

  /** What a step leaves alone whatever comes of it. */
  ghost predicate Aside(d: Disk, d': Disk) {
    && d'.pending == d.pending && d'.slots == d.slots && d'.diskID == d.diskID && d'.fault == d.fault
    && SameOn(d.grid, d'.grid, d.intervals + d.pending)
  }

  lemma WriteContainerKeeps(d: Disk, objs: Objects, ts: TrimState, fid: nat, tail: seq<byte>)
    requires Inv(d, objs) && TrimInv(d, objs, ts) && ts.Built? && fid < TWO_64
    ensures Shape(d)
    ensures var (d', ts') := WriteContainer(d, ts, fid, tail);
            && Aside(d, d')
            && (if ts'.ContainerDone? then fid !in objs && Carries(d', objs, objs[fid := ts.data + tail], ts')
                else ts'.Idle? && Carries(d', objs, objs, ts'))
  {
    hide Inv, Recs, WriteObject, Waiting, Slices, Shape, SameOn, Extent;
    ConfirmedKeys(d, objs);
    var data := ts.data + tail;
    WriteObjectKeeps(d, objs, fid, data);
    if WriteObject(d, fid, data).1.Ok? {
      RecsAreStored(d, objs);
      WaitingGrows(Recs(d), objs, fid, data, ts.cands);
      SlicesExtend(objs, ts.cands, ts.entries, ts.data, tail);
      SlicesGrow(objs, fid, data, ts.cands, ts.entries, data);
    }
  }

  lemma EntriesFit(objs: Objects, recs: seq<Rec>, cands: seq<nat>, es: seq<TableEntry>, data: seq<byte>)
    requires Slices(objs, cands, es, data) && AllMovable(recs, objs, cands) && |data| < TWO_64
    ensures forall e :: e in es ==> EntryFits(e)
    ensures forall i :: 0 <= i < |es| ==> EntryAccepted(es[i], |data|)
  {
    hide HoldsNone, HasPlain;
    forall i | 0 <= i < |es| ensures EntryFits(es[i]) && EntryAccepted(es[i], |data|) {
      assert SliceAt(objs, cands, es, data, i) && Movable(recs, objs, cands[i]);
      assert |data[es[i].offset..es[i].offset + es[i].size]| == es[i].size;
    }
  }

  /** A stored object is no larger than the disk. */
  lemma PlainFits(d: Disk, objs: Objects, fid: nat, size: nat)
    requires Inv(d, objs) && Plain(fid, size) in Recs(d)
    ensures 0 < size < TWO_56
  {
    hide Inv, Recs, RecsOk;
    RecsAreOk(d, objs);
    ConfirmedKeys(d, objs);
    RecsOkMember(d.slots, Recs(d), Plain(fid, size));
  }

  lemma TableDecodes(d: Disk, objs: Objects, ts: TrimState, nonce: nat)
    requires Inv(d, objs) && TrimInv(d, objs, ts) && ts.ContainerDone?
    requires d.diskID < TWO_64 && nonce < TWO_64
    requires |ts.entries| < 0x800_0000_0000_0000
    ensures var t := NewTable(d, ts, nonce); DecodeTable(TableBlob(t)) == Ok(t)
  {
    hide Inv, Recs, Slices, DecodeTable, EncodeTable, HoldsNone, HasPlain, Distinct;
    PlainFits(d, objs, ts.container, ts.size);
    var t := NewTable(d, ts, nonce);
    EntriesFit(objs, Recs(d), ts.cands, ts.entries, objs[ts.container]);
    DecodeAfterEncode(t.header, t.entries);
  }

  lemma WriteTableKeeps(d: Disk, objs: Objects, ts: TrimState, fid: nat, nonce: nat)
    requires Inv(d, objs) && TrimInv(d, objs, ts) && ts.ContainerDone?
    requires d.diskID < TWO_64 && nonce < TWO_64
    ensures Shape(d)
    ensures var (d', ts') := WriteTable(d, ts, fid, nonce);
            && Aside(d, d')
            && (if ts'.TableDone?
                then fid !in objs && Carries(d', objs, objs[fid := TableBlob(NewTable(d, ts, nonce))], ts')
                else ts'.Idle? && Carries(d', objs, objs, ts'))
  {
    hide Inv, Recs, WriteObject, Waiting, Slices, Shape, SameOn, Extent, DecodeTable, EncodeTable, HoldsNone,
         ListedNowhere;
    ConfirmedKeys(d, objs);
    var t := NewTable(d, ts, nonce);
    var blob := TableBlob(t);
    WriteObjectKeeps(d, objs, fid, blob);
    if WriteObject(d, fid, blob).1.Ok? {
      BlobFits(d, objs, ts, fid, t);
      TableDecodes(d, objs, ts, nonce);
      RecsAreStored(d, objs);
      WaitingGrows(Recs(d), objs, fid, blob, ts.cands);
      SlicesGrow(objs, fid, blob, ts.cands, ts.entries, objs[ts.container]);
      NewFid(d, objs, fid);
      MovableGrows(Recs(d), objs, fid, blob, fid);
    }
  }

  /** A table that was placed on the disk lists fewer entries than would wrap. */
  lemma BlobFits(d: Disk, objs: Objects, ts: TrimState, fid: nat, t: Table)
    requires Shape(d) && Extent(d.slots, fid, |TableBlob(t)|).Some?
    ensures |t.entries| < 0x800_0000_0000_0000
  {
    hide EncodeHeader, EncodeEntries;
    assert |TableBlob(t)| <= d.slots * SLOT_SIZE;
    TableLength(t);
  }

  lemma TableLength(t: Table)
    ensures |TableBlob(t)| == TABLE_HEADER_SIZE + TABLE_ENTRY_SIZE * |t.entries|
  {}

  // ----- the anchor -----

  lemma PlainNotTable(slots: nat, recs: seq<Rec>, fid: nat)
    requires RecsOk(slots, recs) && HasPlain(recs, fid)
    ensures NotATable(recs, fid)
  {
    hide RecsOk;
    var p :| p in recs && p.Plain? && p.fid == fid;
    forall r | r in recs && r.Table? ensures r.fid != fid {
      if r.fid == fid { RecsUnique(slots, recs, p, r, fid); }
    }
  }

  lemma SlicesPack(slots: nat, recs: seq<Rec>, objs: Objects, diskID: nat, cands: seq<nat>, t: Table)
    requires RecsOk(slots, recs) && AllMovable(recs, objs, cands) && TableFor(diskID, recs, objs, cands, t)
    ensures Packs(recs, objs, t)
    ensures forall e :: e in t.entries ==> e.fid in cands
  {
    hide RecsOk, HoldsNone, HasPlain;
    forall e | e in t.entries
      ensures e.fid in cands && NotATable(recs, e.fid) && SliceOf(objs, t, e)
    {
      var i :| 0 <= i < |t.entries| && t.entries[i] == e;
      assert SliceAt(objs, cands, t.entries, objs[t.header.containerFid], i);
      assert Movable(recs, objs, cands[i]);
      PlainNotTable(slots, recs, cands[i]);
    }
  }

  ghost predicate SliceOf(objs: Objects, t: Table, e: TableEntry) {
    var c := t.header.containerFid;
    && c in objs && e.fid in objs && e.offset + e.size <= |objs[c]|
    && objs[e.fid] == objs[c][e.offset..e.offset + e.size]
  }

  lemma TableAnchorable(d: Disk, objs: Objects, ts: TrimState)
    requires Inv(d, objs) && TrimInv(d, objs, ts) && ts.TableDone? && ts.tableFid != 0
    ensures Anchorable(d, objs, Recs(d), ts.tableFid, ts.tableSize, ts.table)
  {
    hide Inv, Recs, RecsOk, Distinct, NotContainer, Unlisted, DecodeTable, AllMovable, TableFor, HoldsNone,
         ListedNowhere, Packs, LoadTable;
    RecsAreOk(d, objs);
    TableIsBlob(d, objs, Plain(ts.tableFid, ts.tableSize));
    SlicesPack(d.slots, Recs(d), objs, d.diskID, ts.cands, ts.table);
    HoldsNoneMeans(d, objs, ts.tableFid);
  }

  lemma AnchoredWaiting(slots: nat, recs: seq<Rec>, objs: Objects, diskID: nat, cands: seq<nat>, t: Table, fid: nat,
                        size: nat)
    requires RecsOk(slots, recs) && Waiting(recs, objs, cands) && TableFor(diskID, recs, objs, cands, t)
    requires Plain(fid, size) in recs && fid != 0 && fid !in cands && fid != t.header.containerFid
    requires fid in objs && DecodeTable(objs[fid]) == Ok(t)
    ensures var recs' := Remove(recs, fid) + [Table(fid, fid, size)];
            Waiting(recs', objs, cands) && TableFor(diskID, recs', objs, cands, t)
  {
    hide RecsOk, Remove, Distinct, DecodeTable, MeaningOf, Slices;
    var recs' := Remove(recs, fid) + [Table(fid, fid, size)];
    AnchoredMeaning(slots, recs, fid, size);
    forall i | 0 <= i < |cands| ensures Movable(recs', objs, cands[i]) {
      assert Movable(recs, objs, cands[i]);
      var p :| p in recs && p.Plain? && p.fid == cands[i];
      assert p in recs';
    }
  }

  lemma AnchorStepKeeps(d: Disk, objs: Objects, ts: TrimState)
    requires Inv(d, objs) && TrimInv(d, objs, ts) && ts.TableDone? && ts.tableFid != 0
    ensures Shape(d)
    ensures var (d', ts') := Anchor(d, ts);
            Aside(d, d') && (ts'.Anchored? || ts'.Idle?) && Carries(d', objs, objs, ts')
  {
    hide Inv, Recs, RecsOk, Waiting, TableFor, DecodeTable, HoldsNone, ListedNowhere, SameOn, AppendAnchor, Remove,
         Anchorable;
    RecsAreOk(d, objs);
    SameItself(d.grid, d.intervals + d.pending);
    ConfirmedKeys(d, objs);
    TableAnchorable(d, objs, ts);
    AnchorKeeps(d, objs, Recs(d), ts.tableFid, ts.tableSize, ts.table);
    AnchoredWaiting(d.slots, Recs(d), objs, d.diskID, ts.cands, ts.table, ts.tableFid, ts.tableSize);
  }

  // ----- loading, burying, compacting -----

  lemma LoadStepKeeps(d: Disk, objs: Objects, ts: TrimState)
    requires Inv(d, objs) && TrimInv(d, objs, ts) && ts.Anchored?
    ensures var (d', ts') := Load(d, ts);
            Aside(d, d') && ts'.Loaded? && Carries(d', objs, objs, ts')
  {
    SameItself(d.grid, d.intervals + d.pending);
    hide Inv, Recs, Waiting, DecodeTable, SameOn, LoadPackedTable, TableOf, TableRefs, Slices;
    TableIsBlob(d, objs, Table(ts.tableFid, ts.tableFid, ts.tableSize));
    LoadKeeps(d, objs, ts.tableFid, ts.tableSize);
    CandidatesListed(objs, ts.cands, ts.table, d.confirmed);
    assert ts.cands[0..] == ts.cands;
  }

  lemma CandidatesListed(objs: Objects, cands: seq<nat>, t: Table, confirmed: map<nat, Ref>)
    requires t.header.containerFid in objs && Slices(objs, cands, t.entries, objs[t.header.containerFid])
    ensures LoadedFor(confirmed + TableRefs(t), cands, t)
  {
    hide EntriesRefs;
    forall i | 0 <= i < |cands| ensures cands[i] in TableRefs(t) {
      assert SliceAt(objs, cands, t.entries, objs[t.header.containerFid], i);
      EntriesRefsCover(t.header, t.entries, t.entries[i]);
    }
  }

  /** The checks made on the loaded table before anything is buried always pass. */
  predicate VerifyPacked(d: Disk, cands: seq<nat>, sizes: seq<nat>)
    requires |sizes| == |cands|
  {
    forall i :: 0 <= i < |cands| ==> PackedFine(d, cands[i], sizes[i])
  }

  /** The candidate is packed with its size, and its slice starts on the disk. */
  predicate PackedFine(d: Disk, c: nat, size: nat) {
    && c in d.packed && c in d.confirmed && d.confirmed[c].packed
    && var record := d.packed[c];
    var place := Extent(d.slots, record.containerFid, record.containerSize);
    && place.Some?
    && (record.logicSize == 0 || place.value.start * SLOT_SIZE + record.offset < |d.grid|)
    && record.logicSize == size
  }

  lemma RemovedWaiting(slots: nat, recs: seq<Rec>, objs: Objects, cands: seq<nat>, n: nat)
    requires RecsOk(slots, recs) && n < |cands| && Waiting(recs, objs, cands[n..])
    ensures Waiting(Remove(recs, cands[n]), objs, cands[n + 1..])
  {
    hide RecsOk, Remove, DecodeTable;
    var recs', rest := Remove(recs, cands[n]), cands[n + 1..];
    forall q ensures q in recs' <==> q in recs && q.fid != cands[n] { RemoveMembers(recs, cands[n], q); }
    assert cands[n..][0] == cands[n];
    forall i | 0 <= i < |rest| ensures Movable(recs', objs, rest[i]) {
      assert rest[i] == cands[n..][i + 1];
      var p :| p in recs && p.Plain? && p.fid == rest[i];
      assert p in recs';
    }
    forall i, j | 0 <= i < j < |rest| ensures rest[i] != rest[j] {
      assert cands[n..][i + 1] != cands[n..][j + 1];
    }
  }

  lemma BuryKeeps(d: Disk, objs: Objects, ts: TrimState)
    requires Inv(d, objs) && TrimInv(d, objs, ts) && ts.Loaded? && ts.done < |ts.cands| && ts.cands[ts.done] != 0
    ensures Shape(d)
    ensures var (d', ts') := Bury(d, ts);
            Aside(d, d') && (ts'.Loaded? || ts'.Idle?) && Carries(d', objs, objs, ts')
  {
    hide Inv, Recs, RecsOk, DecodeTable, SameOn, TableOf, TableRefs, AppendTombstone, Waiting, Remove,
         TableBacked, NotContainer, HasPlain;
    RecsAreOk(d, objs);
    SameItself(d.grid, d.intervals + d.pending);
    BuryReady(d, objs, ts);
    ConfirmedKeys(d, objs);
    var c := ts.cands[ts.done];
    TombstoneKeeps(d, objs, Recs(d), c);
    RemovedWaiting(d.slots, Recs(d), objs, ts.cands, ts.done);
    RemoveMembers(Recs(d), c, Table(ts.tableFid, ts.tableFid, ts.tableSize));
    LoadedRest(d.confirmed, ts.cands, ts.done, ts.table);
  }

  lemma LoadedRest(confirmed: map<nat, Ref>, cands: seq<nat>, n: nat, t: Table)
    requires n < |cands| && LoadedFor(confirmed, cands[n..], t)
    ensures LoadedFor(confirmed, cands[n + 1..], t)
  {
    hide TableRefs;
    var before, after := cands[n..], cands[n + 1..];
    forall i | 0 <= i < |after|
      ensures after[i] in confirmed && after[i] in TableRefs(t) && confirmed[after[i]] == TableRefs(t)[after[i]]
    {
      assert after[i] == before[i + 1];
    }
  }

  lemma BuryReady(d: Disk, objs: Objects, ts: TrimState)
    requires Inv(d, objs) && TrimInv(d, objs, ts) && ts.Loaded? && ts.done < |ts.cands|
    ensures var c := ts.cands[ts.done];
            && HasPlain(Recs(d), c) && NotContainer(d.slots, d.grid, Recs(d), c)
            && c in d.confirmed && TableBacked(d.slots, d.grid, Recs(d), c, d.confirmed[c])
            && c != ts.tableFid
  {
    hide Inv, Recs, RecsOk, DecodeTable, TableOf, TableRefs, NotContainer, HasPlain, HoldsNone, Distinct;
    RecsAreOk(d, objs);
    var c, r := ts.cands[ts.done], Table(ts.tableFid, ts.tableFid, ts.tableSize);
    assert ts.cands[ts.done..][0] == c;
    assert Movable(Recs(d), objs, c);
    HoldsNoneMeans(d, objs, c);
    TableIsBlob(d, objs, r);
    assert InTable(d.slots, d.grid, r, c, d.confirmed[c]);
    PlainNotTable(d.slots, Recs(d), c);
  }

  lemma VerifyPasses(d: Disk, objs: Objects, cands: seq<nat>, sizes: seq<nat>, t: Table)
    requires Inv(d, objs) && LoadedFor(d.confirmed, cands, t) && |sizes| == |cands|
    requires forall i :: 0 <= i < |cands| ==> cands[i] in objs && sizes[i] == |objs[cands[i]]|
    ensures VerifyPacked(d, cands, sizes)
  {
    hide Inv, PackedFine, TableRefs;
    forall i | 0 <= i < |cands| ensures PackedFine(d, cands[i], sizes[i]) {
      VerifyOne(d, objs, t, cands[i]);
    }
  }

  lemma VerifyOne(d: Disk, objs: Objects, t: Table, c: nat)
    requires Inv(d, objs) && c in d.confirmed && c in TableRefs(t) && d.confirmed[c] == TableRefs(t)[c] && c in objs
    ensures PackedFine(d, c, |objs[c]|)
  {
    TableEntryMember(t, c);
    assert Backed(d.slots, d.grid, Recs(d), c, d.confirmed[c]);
    assert SliceRef(d.packed[c]) == d.confirmed[c];
    hide Inv, Recs, Extent;
    ConfirmedKeys(d, objs);
    ReadsInside(d.slots, d.grid, d.confirmed[c]);
  }

  lemma ReadsInside(slots: nat, grid: seq<byte>, ref: Ref)
    requires ReadRef(slots, grid, ref).Ok?
    ensures |ReadRef(slots, grid, ref).value| == ref.size
    ensures var place := Extent(slots, ref.fid, ref.stored);
            place.Some? && place.value.start * SLOT_SIZE + ref.offset + ref.size <= |grid|
  {
    hide Extent;
  }

  /** Compaction ends the Trim: every object is still there. */
  lemma CompactStepKeeps(d: Disk, objs: Objects)
    requires Inv(d, objs) && !d.fault && ScansWhole(d.region)
    ensures Shape(d)
    ensures var (d', r) := CompactIndex(d);
            && r.Ok? && Aside(d, d') && Carries(d', objs, objs, Idle) && d'.intervals <= d.intervals
  {
    SameItself(d.grid, d.intervals + d.pending);
    hide Inv, Recs, CompactIndex, SameOn, MeaningOf, TailClean, ScansWhole;
    TailOf(d, objs);
    ConfirmedKeys(d, objs);
    CompactKeeps(d, objs);
  }
}
