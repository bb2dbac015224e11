/** Trim as a small machine over one disk: collect small objects into a container,
    list them in a table, anchor and load the table, bury the originals, compact.
    Its bookkeeping refers to records and objects only, so writes that are being
    streamed into reserved extents meanwhile do not disturb it. */
module Trim {
  import opened Layout
  import opened IndexLog
  import opened PackedTable
  import opened Replay
  import opened Store
  import opened StoreSteps
  import opened DiskState
  import opened DiskSteps
  import opened TrimSteps

  /** Where a Trim stands; it may be abandoned at any of these points. */
  datatype TrimState =
    | Idle
    | Built(cands: seq<nat>, entries: seq<TableEntry>, data: seq<byte>)
    | ContainerDone(cands: seq<nat>, entries: seq<TableEntry>, container: nat, size: nat)
    | TableDone(cands: seq<nat>, table: Table, tableFid: nat, tableSize: nat)
    | Anchored(cands: seq<nat>, table: Table, tableFid: nat, tableSize: nat)
    | Loaded(cands: seq<nat>, table: Table, tableFid: nat, tableSize: nat, done: nat)

  // ----- tables seen through the stored objects -----

  function Blob(objs: Objects, fid: nat): seq<byte> { if fid in objs then objs[fid] else [] }

  ghost predicate HoldsNone(recs: seq<Rec>, objs: Objects, fid: nat) {
    forall r :: r in recs && r.Table? && DecodeTable(Blob(objs, r.fid)).Ok? ==>
      DecodeTable(Blob(objs, r.fid)).value.header.containerFid != fid
  }

  ghost predicate ListedNowhere(recs: seq<Rec>, objs: Objects, fid: nat) {
    forall r :: r in recs && r.Table? && DecodeTable(Blob(objs, r.fid)).Ok? ==>
      forall e :: e in DecodeTable(Blob(objs, r.fid)).value.entries ==> e.fid != fid
  }

  /** A table record, or a plain one, reads as the object stored under its fid. */
  lemma TableIsBlob(d: Disk, objs: Objects, r: Rec)
    requires Inv(d, objs) && r in Recs(d) && !r.Jump?
    ensures r.fid in objs && |objs[r.fid]| == r.size
    ensures TableOf(d.slots, d.grid, r) == DecodeTable(objs[r.fid])
  {
    hide LogIs, TailClean, PackedOk, Space, RecsOk, ExtentsIn, MeaningOf, Recs, Shape, DecodeTable, ReadRef, TablesOk,
         MemoryOk, TableBacked;
    var recs := Recs(d);
    RecsOkMember(d.slots, recs, r);
    RecCore(d.slots, recs, r, r.fid);
    assert Backed(d.slots, d.grid, recs, r.fid, PlainRef(r.fid, r.size));
    BlobSize(d, r.fid, r.size);
  }

  lemma HoldsNoneMeans(d: Disk, objs: Objects, fid: nat)
    requires Inv(d, objs)
    ensures HoldsNone(Recs(d), objs, fid) ==> NotContainer(d.slots, d.grid, Recs(d), fid)
    ensures ListedNowhere(Recs(d), objs, fid) ==> Unlisted(d.slots, d.grid, Recs(d), fid)
  {
    hide Inv, Recs, DecodeTable, TableOf;
    forall r | r in Recs(d) && r.Table? ensures TableOf(d.slots, d.grid, r) == DecodeTable(Blob(objs, r.fid)) {
      TableIsBlob(d, objs, r);
    }
  }

  /** A fid that is not stored is nobody's container and on nobody's list. */
  lemma NewFid(d: Disk, objs: Objects, fid: nat)
    requires Inv(d, objs) && fid !in objs
    ensures HoldsNone(Recs(d), objs, fid) && ListedNowhere(Recs(d), objs, fid)
  {
    forall r | r in Recs(d) && r.Table? && DecodeTable(Blob(objs, r.fid)).Ok?
      ensures DecodeTable(Blob(objs, r.fid)).value.header.containerFid != fid
      ensures forall e :: e in DecodeTable(Blob(objs, r.fid)).value.entries ==> e.fid != fid
    {
      NewFidFor(d, objs, fid, r);
    }
  }

  lemma NewFidFor(d: Disk, objs: Objects, fid: nat, r: Rec)
    requires Inv(d, objs) && fid !in objs && r in Recs(d) && r.Table? && DecodeTable(Blob(objs, r.fid)).Ok?
    ensures var t := DecodeTable(Blob(objs, r.fid)).value;
            t.header.containerFid != fid && forall e :: e in t.entries ==> e.fid != fid
  {
    assert TableOk(d.slots, d.grid, Recs(d), r);
    hide DecodeTable, TableOf, Recs, Inv, MeaningOf, RecsOk;
    TableIsBlob(d, objs, r);
    var t := DecodeTable(Blob(objs, r.fid)).value;
    TableIsBlob(d, objs, Plain(t.header.containerFid, t.header.containerSize));
    forall e | e in t.entries ensures e.fid in objs {
      EntriesRefsCover(t.header, t.entries, e);
      ListedStored(d, objs, r, e.fid, TableRefs(t)[e.fid]);
    }
  }

  lemma ListedStored(d: Disk, objs: Objects, r: Rec, k: nat, ref: Ref)
    requires Inv(d, objs) && r in Recs(d) && InTable(d.slots, d.grid, r, k, ref)
    ensures k in objs
  {
    assert Backed(d.slots, d.grid, Recs(d), k, ref);
  }

  // ----- the invariant of a running Trim -----

  predicate Distinct(s: seq<nat>) {
    forall i, j :: 0 <= i < j < |s| ==> s[i] != s[j]
  }

  /** An object Trim may move: stored plainly and nobody's container. */
  ghost predicate Movable(recs: seq<Rec>, objs: Objects, fid: nat) {
    fid < TWO_64 && HasPlain(recs, fid) && HoldsNone(recs, objs, fid) && fid in objs && objs[fid] != []
  }

  ghost predicate AllMovable(recs: seq<Rec>, objs: Objects, cands: seq<nat>) {
    forall i :: 0 <= i < |cands| ==> Movable(recs, objs, cands[i])
  }

  /** Entry i is the slice of the container that holds candidate i; the slices
      follow each other without gap from offset 0. */
  predicate SliceAt(objs: Objects, cands: seq<nat>, entries: seq<TableEntry>, data: seq<byte>, i: nat)
    requires i < |cands| && i < |entries|
  {
    var e := entries[i];
    && e.fid == cands[i] && e.fid in objs
    && e.offset == (if i == 0 then 0 else entries[i - 1].offset + entries[i - 1].size)
    && e.offset + e.size <= |data|
    && data[e.offset..e.offset + e.size] == objs[e.fid]
  }

  ghost predicate Slices(objs: Objects, cands: seq<nat>, entries: seq<TableEntry>, data: seq<byte>) {
    |entries| == |cands| && forall i :: 0 <= i < |cands| ==> SliceAt(objs, cands, entries, data, i)
  }

  /** The table maps candidate i to its slice of a plain container. */
  ghost predicate TableFor(diskID: nat, recs: seq<Rec>, objs: Objects, cands: seq<nat>, t: Table) {
    var h := t.header;
    && h.diskID == diskID && h.containerSize != 0
    && Plain(h.containerFid, h.containerSize) in recs && h.containerFid in objs
    && |objs[h.containerFid]| == h.containerSize
    && h.containerFid !in cands
    && Slices(objs, cands, t.entries, objs[h.containerFid])
  }

  /** What the first n candidates still waiting to be buried must satisfy. */
  ghost predicate Waiting(recs: seq<Rec>, objs: Objects, cands: seq<nat>) {
    Distinct(cands) && AllMovable(recs, objs, cands)
  }

  ghost predicate TrimInv(d: Disk, objs: Objects, ts: TrimState) {
    (ts.Idle? || !d.fault) && TrimOk(d.diskID, Recs(d), d.confirmed, objs, ts)
  }

  ghost predicate TrimOk(diskID: nat, recs: seq<Rec>, confirmed: map<nat, Ref>, objs: Objects, ts: TrimState) {
    match ts
    case Idle => true
    case Built(cands, entries, data) =>
      data != [] && Waiting(recs, objs, cands) && Slices(objs, cands, entries, data)
    case ContainerDone(cands, entries, c, size) =>
      && Waiting(recs, objs, cands) && c !in cands && c < TWO_64
      && c in objs && |objs[c]| == size > 0 && Plain(c, size) in recs && Slices(objs, cands, entries, objs[c])
    case TableDone(cands, t, f, size) =>
      && Waiting(recs, objs, cands) && TableFor(diskID, recs, objs, cands, t)
      && f !in cands && f != t.header.containerFid && f in objs && Plain(f, size) in recs
      && HoldsNone(recs, objs, f) && ListedNowhere(recs, objs, f) && DecodeTable(objs[f]) == Ok(t)
    case Anchored(cands, t, f, size) =>
      && Waiting(recs, objs, cands) && TableFor(diskID, recs, objs, cands, t)
      && f in objs && Table(f, f, size) in recs && DecodeTable(objs[f]) == Ok(t)
    case Loaded(cands, t, f, size, done) =>
      && done <= |cands| && Waiting(recs, objs, cands[done..])
      && f in objs && Table(f, f, size) in recs && DecodeTable(objs[f]) == Ok(t)
      && LoadedFor(confirmed, cands[done..], t)
  }

  /** Memory reads the candidates through the table. */
  ghost predicate LoadedFor(confirmed: map<nat, Ref>, cands: seq<nat>, t: Table) {
    forall i :: 0 <= i < |cands| ==>
      cands[i] in confirmed && cands[i] in TableRefs(t) && confirmed[cands[i]] == TableRefs(t)[cands[i]]
  }

  // ----- building the container -----

  datatype Container = Container(entries: seq<TableEntry>, data: seq<byte>)

  /** The candidates' bytes one after the other, with the slice of each. */
  function BuildContainer(d: Disk, cands: seq<nat>): Result<Container> {
    if cands == [] then Ok(Container([], []))
    else
      var before := BuildContainer(d, cands[..|cands| - 1]);
      if before.Err? then before else AddSlice(before.value, cands[|cands| - 1], Read(d, cands[|cands| - 1]))
  }

  function AddSlice(c: Container, fid: nat, bytes: Result<seq<byte>>): Result<Container> {
    if bytes.Err? then Err(bytes.error)
    else Ok(Container(c.entries + [TableEntry(fid, |c.data|, |bytes.value|)], c.data + bytes.value))
  }

  /** The last slice ends where the container ends. */
  ghost predicate Tiled(entries: seq<TableEntry>, data: seq<byte>) {
    if entries == [] then |data| == 0
    else |data| == entries[|entries| - 1].offset + entries[|entries| - 1].size
  }

  /** The container is the candidates' bytes end to end. */
  lemma {:induction false} BuiltSlices(d: Disk, objs: Objects, cands: seq<nat>)
    requires Inv(d, objs) && !d.fault && forall i :: 0 <= i < |cands| ==> cands[i] in objs
    ensures BuildContainer(d, cands).Ok?
    ensures var c := BuildContainer(d, cands).value;
            Slices(objs, cands, c.entries, c.data) && Tiled(c.entries, c.data)
  {
    hide Inv, Read, Shape, Space, LogIs, Holds;
    if cands != [] {
      hide Slices, Tiled, AddSlice;
      var front, fid := cands[..|cands| - 1], cands[|cands| - 1];
      BuiltSlices(d, objs, front);
      ReadsObjects(d, objs, fid);
      SliceAdded(objs, front, BuildContainer(d, front).value, fid);
      assert front + [fid] == cands;
    }
  }

  lemma SliceAdded(objs: Objects, cands: seq<nat>, c: Container, fid: nat)
    requires Slices(objs, cands, c.entries, c.data) && Tiled(c.entries, c.data) && fid in objs
    ensures var r := AddSlice(c, fid, Ok(objs[fid]));
            r.Ok? && Slices(objs, cands + [fid], r.value.entries, r.value.data) && Tiled(r.value.entries, r.value.data)
  {
    var c' := AddSlice(c, fid, Ok(objs[fid])).value;
    assert (c.data + objs[fid])[|c.data|..|c.data| + |objs[fid]|] == objs[fid];
    assert SliceAt(objs, cands + [fid], c'.entries, c'.data, |cands|);
    forall i | 0 <= i < |cands| ensures SliceAt(objs, cands + [fid], c'.entries, c'.data, i) {
      assert SliceAt(objs, cands, c.entries, c.data, i);
      SliceOfConcat(c.data, objs[fid], c.entries[i].offset, c.entries[i].offset + c.entries[i].size);
    }
  }

  /** Appending to the container, as every nonce does, keeps every slice. */
  lemma SlicesExtend(objs: Objects, cands: seq<nat>, es: seq<TableEntry>, data: seq<byte>, tail: seq<byte>)
    requires Slices(objs, cands, es, data)
    ensures Slices(objs, cands, es, data + tail)
  {
    forall i | 0 <= i < |cands| ensures SliceAt(objs, cands, es, data + tail, i) {
      assert SliceAt(objs, cands, es, data, i);
      SliceOfConcat(data, tail, es[i].offset, es[i].offset + es[i].size);
    }
  }
}
