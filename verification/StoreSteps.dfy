/** Each change of the log keeps the stored objects readable: a new record, an
    anchored table, a loaded table, a tombstone, and a fresh replay. */
module StoreSteps {
  import opened Layout
  import opened IndexLog
  import opened PackedTable
  import opened Replay
  import opened Store

  // ----- a new object, with or without an alias -----

  /** The objects a new record makes visible: the data, and under an alias the
      data without its last byte. */
  function RecObjects(r: Rec, data: seq<byte>): Objects {
    match r
    case Jump(fid, target, _, _) => map[target := data, fid := if data == [] then [] else data[..|data| - 1]]
    case _ => map[StorageFid(r) := data]
  }

  lemma KeysStored(slots: nat, grid: seq<byte>, recs: seq<Rec>, confirmed: map<nat, Ref>,
                   ivs: set<Interval>, objs: Objects)
    requires Holds(slots, grid, recs, confirmed, ivs, objs)
    ensures KeysOf(recs) <= objs.Keys
    ensures forall k, ref :: TableBacked(slots, grid, recs, k, ref) ==> k in objs
  {
    hide MeaningOf, RecsOk, KeysOf, TableBacked, ReadRef;
    MeaningKeys(slots, recs);
    forall k | k in KeysOf(recs) ensures k in objs {
      assert Backed(slots, grid, recs, k, MeaningOf(slots, recs).refs[k]);
    }
    forall k, ref | TableBacked(slots, grid, recs, k, ref) ensures k in objs {
      assert Backed(slots, grid, recs, k, ref);
    }
  }

  lemma AddedExtents(slots: nat, recs: seq<Rec>, ivs: set<Interval>, r: Rec, iv: Interval)
    requires ExtentsIn(slots, recs, ivs)
    requires Extent(slots, StorageFid(r), r.size) == Some(iv)
    requires iv !in ivs && forall a :: a in ivs ==> !Overlaps(a, iv)
    ensures ExtentsIn(slots, recs + [r], ivs + {iv})
  {
    hide Extent, MeaningOf;
    MeaningAppend(slots, recs, r);
  }

  lemma AddedTables(slots: nat, grid: seq<byte>, recs: seq<Rec>, r: Rec)
    requires TablesOk(slots, grid, recs) && !r.Table?
    ensures TablesOk(slots, grid, recs + [r])
  {
    hide TableOf;
    forall q | q in recs + [r] && q.Table? ensures TableOk(slots, grid, recs + [r], q) {
      assert TableOk(slots, grid, recs, q);
    }
  }

  /** What is supported after adding a record: what was before, and the record's own. */
  lemma AddedBacked(slots: nat, grid: seq<byte>, recs: seq<Rec>, r: Rec, k: nat, ref: Ref)
    requires !r.Table? && RecKeys(r) !! KeysOf(recs) && RecsOk(slots, recs)
    ensures Backed(slots, grid, recs + [r], k, ref)
            <==> (if k in RecRefs(r) && !TableBacked(slots, grid, recs, k, ref) then RecRefs(r)[k] == ref
                  else Backed(slots, grid, recs, k, ref))
  {
    hide MeaningOf, TableOf, TableRefs, RecsOk, KeysOf, Extent;
    MeaningAppend(slots, recs, r);
    MeaningKeys(slots, recs);
    assert RecRefs(r).Keys == RecKeys(r);
    if TableBacked(slots, grid, recs, k, ref) {
      var q :| q in recs && InTable(slots, grid, q, k, ref);
      assert q in recs + [r];
    }
    if TableBacked(slots, grid, recs + [r], k, ref) {
      var q :| q in recs + [r] && InTable(slots, grid, q, k, ref);
    }
  }

  /** The bytes behind a new record's references. */
  lemma AddedBytes(slots: nat, grid: seq<byte>, r: Rec, data: seq<byte>, k: nat)
    requires RecOk(slots, r) && |data| == r.size && !r.Table? && k in RecRefs(r)
    requires ReadRef(slots, grid, PlainRef(StorageFid(r), r.size)) == Ok(data)
    ensures k in RecObjects(r, data) && ReadRef(slots, grid, RecRefs(r)[k]) == Ok(RecObjects(r, data)[k])
  {
    hide Extent;
    if r.Jump? && k == r.fid {
      var iv := Extent(slots, r.target, r.size).value;
      var at := iv.start * SLOT_SIZE;
      assert grid[at..at + r.size][..r.size - 1] == grid[at..at + (r.size - 1)];
    }
  }

  lemma HoldsAdd(slots: nat, grid: seq<byte>, recs: seq<Rec>, confirmed: map<nat, Ref>, ivs: set<Interval>,
                 objs: Objects, r: Rec, data: seq<byte>, iv: Interval)
    requires Holds(slots, grid, recs, confirmed, ivs, objs)
    requires !r.Table? && RecOk(slots, r) && |data| == r.size && RecKeys(r) !! objs.Keys
    requires Extent(slots, StorageFid(r), r.size) == Some(iv)
    requires iv !in ivs && forall a :: a in ivs ==> !Overlaps(a, iv)
    requires ReadRef(slots, grid, PlainRef(StorageFid(r), r.size)) == Ok(data)
    ensures RecKeys(r) !! KeysOf(recs)
    ensures Holds(slots, grid, recs + [r], confirmed + RecRefs(r), ivs + {iv}, objs + RecObjects(r, data))
  {
    hide Extent, MeaningOf, ReadRef, RecOk, RecsOk, KeysOf, ExtentsIn, TablesOk, Backed;
    KeysStored(slots, grid, recs, confirmed, ivs, objs);
    AppendRec(slots, recs, r);
    AddedExtents(slots, recs, ivs, r, iv);
    AddedTables(slots, grid, recs, r);
    var recs', objs' := recs + [r], objs + RecObjects(r, data);
    assert RecRefs(r).Keys == RecKeys(r) == RecObjects(r, data).Keys;
    forall k, ref | Backed(slots, grid, recs', k, ref)
      ensures k in objs' && ReadRef(slots, grid, ref) == Ok(objs'[k])
    {
      AddedBacked(slots, grid, recs, r, k, ref);
      if k in RecRefs(r) { AddedBytes(slots, grid, r, data, k); }
    }
    var confirmed' := confirmed + RecRefs(r);
    forall k | k in confirmed' ensures Backed(slots, grid, recs', k, confirmed'[k]) {
      AddedBacked(slots, grid, recs, r, k, confirmed'[k]);
    }
  }

  // ----- anchoring a table -----

  ghost predicate NotContainer(slots: nat, grid: seq<byte>, recs: seq<Rec>, fid: nat) {
    forall r :: r in recs && r.Table? && TableOf(slots, grid, r).Ok? ==>
      TableOf(slots, grid, r).value.header.containerFid != fid
  }

  ghost predicate Unlisted(slots: nat, grid: seq<byte>, recs: seq<Rec>, fid: nat) {
    forall r :: r in recs && r.Table? && TableOf(slots, grid, r).Ok? ==>
      forall e :: e in TableOf(slots, grid, r).value.entries ==> e.fid != fid
  }

  /** The slices of a new table are stored objects held by a plain container. */
  ghost predicate Packs(recs: seq<Rec>, objs: Objects, t: Table) {
    var c, cs := t.header.containerFid, t.header.containerSize;
    && Plain(c, cs) in recs && c in objs && |objs[c]| == cs
    && forall e :: e in t.entries ==>
         && e.offset + e.size <= cs && e.fid in objs && NotATable(recs, e.fid)
         && objs[e.fid] == objs[c][e.offset..e.offset + e.size]
  }

  lemma ReadSlice(slots: nat, grid: seq<byte>, h: Header, e: TableEntry, data: seq<byte>)
    requires ReadRef(slots, grid, PlainRef(h.containerFid, h.containerSize)) == Ok(data)
    requires e.offset + e.size <= |data|
    ensures ReadRef(slots, grid, EntryRef(h, e)) == Ok(data[e.offset..e.offset + e.size])
  {
    hide Extent;
    var at := Extent(slots, h.containerFid, h.containerSize).value.start * SLOT_SIZE;
    assert data == grid[at..at + h.containerSize];
    SliceOfSlice(grid, at, at + h.containerSize, e.offset, e.offset + e.size);
  }

  lemma AnchoredMeaning(slots: nat, recs: seq<Rec>, fid: nat, size: nat)
    requires RecsOk(slots, recs) && Plain(fid, size) in recs && fid != 0
    ensures var recs' := Remove(recs, fid) + [Table(fid, fid, size)];
            && RecsOk(slots, recs')
            && MeaningOf(slots, recs').refs == MeaningOf(slots, recs).refs
            && MeaningOf(slots, recs').extents == MeaningOf(slots, recs).extents
            && (forall r :: r in recs' <==> r == Table(fid, fid, size) || (r in recs && r.fid != fid))
  {
    hide Extent, MeaningOf, RecsOk, KeysOf;
    assert HasPlain(recs, fid);
    RecsOkMember(slots, recs, Plain(fid, size));
    RemovePlain(slots, recs, fid);
    RemoveMeaning(slots, recs, fid);
    var rest, r := Remove(recs, fid), Table(fid, fid, size);
    AppendRec(slots, rest, r);
    MeaningAppend(slots, rest, r);
    PlainCore(slots, recs, fid, size);
    var m := MeaningOf(slots, recs);
    assert (m.refs - {fid}) + RecRefs(r) == m.refs;
    assert (m.extents - {fid})[fid := Extent(slots, fid, size).value] == m.extents;
    forall q ensures q in rest + [r] <==> q == r || (q in recs && q.fid != fid) {
      RemoveMembers(recs, fid, q);
    }
  }

  lemma AnchoredTables(slots: nat, grid: seq<byte>, recs: seq<Rec>, recs': seq<Rec>, objs: Objects,
                       fid: nat, size: nat, t: Table)
    requires TablesOk(slots, grid, recs)
    requires forall r :: r in recs' <==> r == Table(fid, fid, size) || (r in recs && r.fid != fid)
    requires TableOf(slots, grid, Table(fid, fid, size)) == Ok(t) && Packs(recs, objs, t)
    requires t.header.containerFid != fid && forall e :: e in t.entries ==> e.fid != fid
    requires NotContainer(slots, grid, recs, fid) && Unlisted(slots, grid, recs, fid)
    ensures TablesOk(slots, grid, recs')
  {
    hide TableOf;
    forall q | q in recs' && q.Table? ensures TableOk(slots, grid, recs', q) {
      if q != Table(fid, fid, size) {
        assert TableOk(slots, grid, recs, q);
      }
    }
  }

  lemma AnchoredBacked(slots: nat, grid: seq<byte>, recs: seq<Rec>, recs': seq<Rec>, r: Rec, fid: nat, k: nat, ref: Ref)
    requires r.Table? && MeaningOf(slots, recs').refs == MeaningOf(slots, recs).refs
    requires forall q :: q in recs' <==> q == r || (q in recs && q.fid != fid)
    requires forall q :: q in recs && q.fid == fid ==> q.Plain?
    ensures Backed(slots, grid, recs', k, ref)
            <==> Backed(slots, grid, recs, k, ref) || InTable(slots, grid, r, k, ref)
  {
    hide MeaningOf, TableOf, TableRefs;
    if TableBacked(slots, grid, recs, k, ref) {
      var q :| q in recs && InTable(slots, grid, q, k, ref);
      assert q in recs';
    }
    if TableBacked(slots, grid, recs', k, ref) {
      var q :| q in recs' && InTable(slots, grid, q, k, ref);
    }
    if InTable(slots, grid, r, k, ref) { assert r in recs'; }
  }

  lemma HoldsAnchor(slots: nat, grid: seq<byte>, recs: seq<Rec>, confirmed: map<nat, Ref>, ivs: set<Interval>,
                    objs: Objects, fid: nat, size: nat, t: Table)
    requires Holds(slots, grid, recs, confirmed, ivs, objs)
    requires Plain(fid, size) in recs && fid != 0
    requires TableOf(slots, grid, Table(fid, fid, size)) == Ok(t) && Packs(recs, objs, t)
    requires t.header.containerFid != fid && forall e :: e in t.entries ==> e.fid != fid
    requires NotContainer(slots, grid, recs, fid) && Unlisted(slots, grid, recs, fid)
    ensures Holds(slots, grid, Remove(recs, fid) + [Table(fid, fid, size)], confirmed, ivs, objs)
  {
    hide Extent, MeaningOf, RecsOk, TableOf, ReadRef, TablesOk, Backed, Remove, NotContainer, Unlisted;
    AnchoredMeaning(slots, recs, fid, size);
    var r := Table(fid, fid, size);
    var recs' := Remove(recs, fid) + [r];
    AnchoredTables(slots, grid, recs, recs', objs, fid, size, t);
    forall q | q in recs && q.fid == fid ensures q.Plain? {
      RecsUnique(slots, recs, q, Plain(fid, size), fid);
    }
    forall k, ref ensures Backed(slots, grid, recs', k, ref)
                          <==> Backed(slots, grid, recs, k, ref) || InTable(slots, grid, r, k, ref)
    {
      AnchoredBacked(slots, grid, recs, recs', r, fid, k, ref);
    }
    forall k, ref | InTable(slots, grid, r, k, ref) ensures k in objs && ReadRef(slots, grid, ref) == Ok(objs[k]) {
      NewTableBytes(slots, grid, recs, objs, t, k, ref);
    }
  }

  lemma NewTableBytes(slots: nat, grid: seq<byte>, recs: seq<Rec>, objs: Objects, t: Table, k: nat, ref: Ref)
    requires RecsOk(slots, recs) && Contents(slots, grid, recs, objs) && Packs(recs, objs, t)
    requires k in TableRefs(t) && TableRefs(t)[k] == ref
    ensures k in objs && ReadRef(slots, grid, ref) == Ok(objs[k])
  {
    hide Extent, MeaningOf, RecsOk, ReadRef;
    var h := t.header;
    var e := EntriesRefsMember(h, t.entries, k);
    PlainCore(slots, recs, h.containerFid, h.containerSize);
    assert Backed(slots, grid, recs, h.containerFid, PlainRef(h.containerFid, h.containerSize));
    ReadSlice(slots, grid, h, e, objs[h.containerFid]);
  }

  // ----- loading a table into memory -----

  lemma HoldsLoad(slots: nat, grid: seq<byte>, recs: seq<Rec>, confirmed: map<nat, Ref>, ivs: set<Interval>,
                  objs: Objects, r: Rec)
    requires Holds(slots, grid, recs, confirmed, ivs, objs)
    requires r in recs && r.Table? && TableOf(slots, grid, r).Ok?
    ensures Holds(slots, grid, recs, confirmed + TableRefs(TableOf(slots, grid, r).value), ivs, objs)
  {
    hide MeaningOf, RecsOk, TableOf, ReadRef, TablesOk, ExtentsIn, TableRefs;
    var refs := TableRefs(TableOf(slots, grid, r).value);
    forall k | k in refs ensures Backed(slots, grid, recs, k, refs[k]) && k in objs {
      assert InTable(slots, grid, r, k, refs[k]);
    }
  }

  // ----- a tombstone -----

  lemma RemovedBacked(slots: nat, grid: seq<byte>, recs: seq<Rec>, fid: nat, k: nat, ref: Ref)
    requires RecsOk(slots, recs) && HasPlain(recs, fid)
    ensures Backed(slots, grid, Remove(recs, fid), k, ref)
            <==> (k != fid && CoreBacked(slots, recs, k, ref)) || TableBacked(slots, grid, recs, k, ref)
  {
    hide MeaningOf, RecsOk, Remove, KeysOf, TableOf, TableRefs;
    RemoveMeaning(slots, recs, fid);
    var p :| p in recs && p.Plain? && p.fid == fid;
    if TableBacked(slots, grid, recs, k, ref) {
      var q :| q in recs && InTable(slots, grid, q, k, ref);
      RemoveMembers(recs, fid, q);
      if q.fid == fid { RecsUnique(slots, recs, p, q, fid); }
      assert q in Remove(recs, fid);
    }
    if TableBacked(slots, grid, Remove(recs, fid), k, ref) {
      var q :| q in Remove(recs, fid) && InTable(slots, grid, q, k, ref);
      RemoveMembers(recs, fid, q);
    }
  }

  lemma RemovedTables(slots: nat, grid: seq<byte>, recs: seq<Rec>, fid: nat)
    requires TablesOk(slots, grid, recs) && NotContainer(slots, grid, recs, fid)
    ensures TablesOk(slots, grid, Remove(recs, fid))
  {
    hide TableOf, Remove;
    forall q ensures q in Remove(recs, fid) <==> q in recs && q.fid != fid { RemoveMembers(recs, fid, q); }
    forall q | q in Remove(recs, fid) && q.Table? ensures TableOk(slots, grid, Remove(recs, fid), q) {
      assert TableOk(slots, grid, recs, q);
    }
  }

  lemma RemovedExtents(slots: nat, recs: seq<Rec>, ivs: set<Interval>, fid: nat)
    requires RecsOk(slots, recs) && HasPlain(recs, fid) && ExtentsIn(slots, recs, ivs)
    ensures ExtentsIn(slots, Remove(recs, fid), ivs)
  {
    hide MeaningOf, RecsOk, Remove, HasPlain;
    RemoveMeaning(slots, recs, fid);
  }

  /** A tombstone takes nothing away once memory reads the object through a table. */
  lemma HoldsTombstone(slots: nat, grid: seq<byte>, recs: seq<Rec>, confirmed: map<nat, Ref>, ivs: set<Interval>,
                       objs: Objects, fid: nat)
    requires Holds(slots, grid, recs, confirmed, ivs, objs)
    requires HasPlain(recs, fid) && NotContainer(slots, grid, recs, fid)
    requires fid in confirmed && TableBacked(slots, grid, recs, fid, confirmed[fid])
    ensures Holds(slots, grid, Remove(recs, fid), confirmed, ivs, objs)
  {
    hide MeaningOf, RecsOk, TableOf, ReadRef, TablesOk, Remove, NotContainer, HasPlain, TableBacked, KeysOf, ExtentsIn;
    RemovePlain(slots, recs, fid);
    RemovedExtents(slots, recs, ivs, fid);
    RemovedTables(slots, grid, recs, fid);
    var recs' := Remove(recs, fid);
    forall k, ref | Backed(slots, grid, recs', k, ref) ensures Backed(slots, grid, recs, k, ref) {
      RemovedBacked(slots, grid, recs, fid, k, ref);
    }
    forall k | k in confirmed ensures Backed(slots, grid, recs', k, confirmed[k]) {
      RemovedBacked(slots, grid, recs, fid, k, confirmed[k]);
    }
  }

  // ----- a fresh replay -----

  function TablesRefs(slots: nat, grid: seq<byte>, recs: seq<Rec>): map<nat, Ref> {
    if recs == [] then map[]
    else
      var before, r := TablesRefs(slots, grid, recs[..|recs| - 1]), recs[|recs| - 1];
      if r.Table? && TableOf(slots, grid, r).Ok? then before + TableRefs(TableOf(slots, grid, r).value) else before
  }

  lemma {:induction false} TablesRefsMember(slots: nat, grid: seq<byte>, recs: seq<Rec>, k: nat)
    requires k in TablesRefs(slots, grid, recs)
    ensures TableBacked(slots, grid, recs, k, TablesRefs(slots, grid, recs)[k])
  {
    hide TableOf, TableRefs;
    var front, last := recs[..|recs| - 1], recs[|recs| - 1];
    var ref := TablesRefs(slots, grid, recs)[k];
    if InTable(slots, grid, last, k, ref) {
    } else {
      TablesRefsMember(slots, grid, front, k);
      var q :| q in front && InTable(slots, grid, q, k, ref);
      assert q in recs;
    }
  }

  lemma {:induction false} TablesRefsCover(slots: nat, grid: seq<byte>, recs: seq<Rec>, r: Rec, k: nat, ref: Ref)
    requires r in recs && InTable(slots, grid, r, k, ref)
    ensures k in TablesRefs(slots, grid, recs)
  {
    hide TableOf, TableRefs;
    var front, last := recs[..|recs| - 1], recs[|recs| - 1];
    if r != last { assert r in front; TablesRefsCover(slots, grid, front, r, k, ref); }
  }

  lemma ExpandStep(slots: nat, grid: seq<byte>, core: map<nat, Ref>, over: map<nat, Ref>,
                   packed: map<nat, PackedRecord>, tables: seq<nat>, r: Rec)
    requires ExpandTables(slots, grid, Index(core, map[]), tables) == Ok(Index(core + over, packed))
    requires PackedMatches(over, packed)
    requires TableOf(slots, grid, r).Ok? && r.fid !in over && r.fid in core && core[r.fid] == PlainRef(r.fid, r.size)
    ensures var t := TableOf(slots, grid, r).value;
            var packed' := packed + EntriesPacked(t.header, t.entries, r.fid, r.size);
            && ExpandTables(slots, grid, Index(core, map[]), tables + [r.fid])
               == Ok(Index(core + (over + TableRefs(t)), packed'))
            && PackedMatches(over + TableRefs(t), packed')
  {
    hide LoadTable, EntriesRefs, EntriesPacked;
    assert (tables + [r.fid])[..|tables|] == tables;
    var t := TableOf(slots, grid, r).value;
    assert (core + over) + TableRefs(t) == core + (over + TableRefs(t));
    EntriesMatch(t.header, t.entries, r.fid, r.size);
    MatchUnion(over, packed, TableRefs(t), EntriesPacked(t.header, t.entries, r.fid, r.size));
  }

  lemma MatchUnion(refs: map<nat, Ref>, packed: map<nat, PackedRecord>, refs': map<nat, Ref>,
                   packed': map<nat, PackedRecord>)
    requires PackedMatches(refs, packed) && PackedMatches(refs', packed')
    ensures PackedMatches(refs + refs', packed + packed')
  {}

  /** Expanding the anchored tables in log order overlays their slices on the
      plain references; later tables win. */
  lemma {:induction false} ExpandIsUnion(slots: nat, grid: seq<byte>, recs: seq<Rec>, core: map<nat, Ref>)
    requires forall r :: r in recs && r.Table? ==>
               TableOf(slots, grid, r).Ok? && r.fid in core && core[r.fid] == PlainRef(r.fid, r.size)
    requires forall r :: r in recs && r.Table? ==> r.fid !in TablesRefs(slots, grid, recs)
    ensures ExpandTables(slots, grid, Index(core, map[]), MeaningOf(slots, recs).tables).Ok?
    ensures var idx := ExpandTables(slots, grid, Index(core, map[]), MeaningOf(slots, recs).tables).value;
            && idx.refs == core + TablesRefs(slots, grid, recs)
            && PackedMatches(TablesRefs(slots, grid, recs), idx.packed)
  {
    if recs != [] {
      hide Extent, TableOf, TableRefs, EntriesPacked, ExpandTables;
      var front, last := recs[..|recs| - 1], recs[|recs| - 1];
      assert recs == front + [last];
      assert TablesRefs(slots, grid, front).Keys <= TablesRefs(slots, grid, recs).Keys;
      ExpandIsUnion(slots, grid, front, core);
      if last.Table? {
        var idx := ExpandTables(slots, grid, Index(core, map[]), MeaningOf(slots, front).tables).value;
        assert idx == Index(idx.refs, idx.packed);
        ExpandStep(slots, grid, core, TablesRefs(slots, grid, front), idx.packed, MeaningOf(slots, front).tables, last);
      }
    }
  }

  /** The slice a packed record describes. */
  function SliceRef(p: PackedRecord): Ref { Ref(p.containerFid, p.containerSize, p.logicSize, p.offset, true) }

  ghost predicate PackedMatches(refs: map<nat, Ref>, packed: map<nat, PackedRecord>) {
    packed.Keys == refs.Keys && forall k :: k in packed ==> SliceRef(packed[k]) == refs[k]
  }

  lemma {:induction false} EntriesMatch(h: Header, es: seq<TableEntry>, fid: nat, size: nat)
    ensures PackedMatches(EntriesRefs(h, es), EntriesPacked(h, es, fid, size))
  {
    if es != [] { EntriesMatch(h, es[..|es| - 1], fid, size); }
  }
}
