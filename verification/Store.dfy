/** What it means for records, references and grid bytes to hold a set of
    objects, and how that survives each change the engine makes. */
module Store {
  import opened Layout
  import opened IndexLog
  import opened PackedTable
  import opened Replay

  /** The abstract store: fid to logical bytes. */
  type Objects = map<nat, seq<byte>>

  function TableOf(slots: nat, grid: seq<byte>, r: Rec): Result<Table> {
    LoadTable(slots, grid, PlainRef(r.fid, r.size))
  }

  /** An anchored table decodes, its container is a plain object that holds all its
      slices, and it lists no anchored table. */
  ghost predicate TableOk(slots: nat, grid: seq<byte>, recs: seq<Rec>, r: Rec) {
    TableOf(slots, grid, r).Ok? &&
    var t := TableOf(slots, grid, r).value;
    && Plain(t.header.containerFid, t.header.containerSize) in recs
    && (forall e :: e in t.entries ==>
          e.offset + e.size <= t.header.containerSize && NotATable(recs, e.fid))
  }

  ghost predicate NotATable(recs: seq<Rec>, fid: nat) {
    forall r :: r in recs && r.Table? ==> r.fid != fid
  }

  ghost predicate TablesOk(slots: nat, grid: seq<byte>, recs: seq<Rec>) {
    forall r :: r in recs && r.Table? ==> TableOk(slots, grid, recs, r)
  }

  /** The table of record r maps k to ref. */
  predicate InTable(slots: nat, grid: seq<byte>, r: Rec, k: nat, ref: Ref) {
    r.Table? && TableOf(slots, grid, r).Ok? &&
    var refs := TableRefs(TableOf(slots, grid, r).value);
    k in refs && refs[k] == ref
  }

  ghost predicate TableBacked(slots: nat, grid: seq<byte>, recs: seq<Rec>, k: nat, ref: Ref) {
    exists r :: r in recs && InTable(slots, grid, r, k, ref)
  }

  predicate CoreBacked(slots: nat, recs: seq<Rec>, k: nat, ref: Ref) {
    var refs := MeaningOf(slots, recs).refs;
    k in refs && refs[k] == ref
  }

  /** The log supports looking k up as ref: by k's own record or by a table. */
  ghost predicate Backed(slots: nat, grid: seq<byte>, recs: seq<Rec>, k: nat, ref: Ref) {
    CoreBacked(slots, recs, k, ref) || TableBacked(slots, grid, recs, k, ref)
  }

  ghost predicate ExtentsIn(slots: nat, recs: seq<Rec>, ivs: set<Interval>) {
    var extents := MeaningOf(slots, recs).extents;
    DisjointExtents(extents) && forall f :: f in extents ==> extents[f] in ivs
  }

  /** Every supported reference reads the object's bytes. */
  ghost predicate Contents(slots: nat, grid: seq<byte>, recs: seq<Rec>, objs: Objects) {
    forall k, ref :: Backed(slots, grid, recs, k, ref) ==>
      k in objs && ReadRef(slots, grid, ref) == Ok(objs[k])
  }

  /** The in-memory references are supported, for exactly the stored objects. */
  ghost predicate MemoryOk(slots: nat, grid: seq<byte>, recs: seq<Rec>, confirmed: map<nat, Ref>, objs: Objects) {
    && confirmed.Keys == objs.Keys
    && forall k :: k in confirmed ==> Backed(slots, grid, recs, k, confirmed[k])
  }

  ghost predicate Holds(slots: nat, grid: seq<byte>, recs: seq<Rec>, confirmed: map<nat, Ref>,
                        ivs: set<Interval>, objs: Objects) {
    && RecsOk(slots, recs)
    && ExtentsIn(slots, recs, ivs)
    && TablesOk(slots, grid, recs)
    && Contents(slots, grid, recs, objs)
    && MemoryOk(slots, grid, recs, confirmed, objs)
  }

  // ----- storage of references -----

  /** A reference that reads inside the extent of a record. */
  ghost predicate Stored(slots: nat, recs: seq<Rec>, ref: Ref) {
    var extents := MeaningOf(slots, recs).extents;
    && ref.fid in extents
    && Extent(slots, ref.fid, ref.stored) == Some(extents[ref.fid])
    && ref.offset + ref.size <= ref.stored
  }

  lemma {:induction false} CoreStored(slots: nat, recs: seq<Rec>, k: nat)
    requires RecsOk(slots, recs) && k in MeaningOf(slots, recs).refs
    ensures Stored(slots, recs, MeaningOf(slots, recs).refs[k])
  {
    hide Extent, KeysOf;
    var front, last := recs[..|recs| - 1], recs[|recs| - 1];
    if k !in RecRefs(last) {
      CoreStored(slots, front, k);
      MeaningKeys(slots, front);
    }
  }

  lemma PlainCore(slots: nat, recs: seq<Rec>, fid: nat, size: nat)
    requires RecsOk(slots, recs) && Plain(fid, size) in recs
    ensures CoreBacked(slots, recs, fid, PlainRef(fid, size))
    ensures Stored(slots, recs, PlainRef(fid, size))
  {
    hide Extent;
    RecCore(slots, recs, Plain(fid, size), fid);
    CoreStored(slots, recs, fid);
  }

  /** A record's references are in force: no later record covers its keys. */
  lemma {:induction false} RecCore(slots: nat, recs: seq<Rec>, r: Rec, k: nat)
    requires RecsOk(slots, recs) && r in recs && k in RecKeys(r)
    ensures k in RecRefs(r) && CoreBacked(slots, recs, k, RecRefs(r)[k])
  {
    hide Extent;
    RecsOkMember(slots, recs, r);
    var front, last := recs[..|recs| - 1], recs[|recs| - 1];
    if r != last {
      assert r in front;
      KeysContain(front, r);
      RecCore(slots, front, r, k);
      assert k !in RecKeys(last);
      assert RecRefs(last).Keys == RecKeys(last);
    }
  }

  lemma {:induction false} EntriesRefsMember(h: Header, es: seq<TableEntry>, k: nat) returns (e: TableEntry)
    requires k in EntriesRefs(h, es)
    ensures e in es && e.fid == k && EntriesRefs(h, es)[k] == EntryRef(h, e)
  {
    var front, last := es[..|es| - 1], es[|es| - 1];
    if last.fid == k { e := last; } else { e := EntriesRefsMember(h, front, k); }
  }

  lemma {:induction false} EntriesRefsCover(h: Header, es: seq<TableEntry>, e: TableEntry)
    requires e in es
    ensures e.fid in EntriesRefs(h, es)
  {
    var front, last := es[..|es| - 1], es[|es| - 1];
    if e != last { assert e in front; EntriesRefsCover(h, front, e); }
  }

  lemma InTableStored(slots: nat, grid: seq<byte>, recs: seq<Rec>, r: Rec, k: nat, ref: Ref)
    requires RecsOk(slots, recs) && TablesOk(slots, grid, recs) && r in recs && InTable(slots, grid, r, k, ref)
    ensures Stored(slots, recs, ref)
  {
    hide Extent, LoadTable, MeaningOf, RecsOk;
    assert TableOk(slots, grid, recs, r);
    var t := TableOf(slots, grid, r).value;
    var e := EntriesRefsMember(t.header, t.entries, k);
    PlainCore(slots, recs, t.header.containerFid, t.header.containerSize);
  }

  lemma BackedStored(slots: nat, grid: seq<byte>, recs: seq<Rec>, k: nat, ref: Ref)
    requires RecsOk(slots, recs) && TablesOk(slots, grid, recs) && Backed(slots, grid, recs, k, ref)
    ensures Stored(slots, recs, ref)
  {
    if CoreBacked(slots, recs, k, ref) {
      CoreStored(slots, recs, k);
    } else {
      var r :| r in recs && InTable(slots, grid, r, k, ref);
      InTableStored(slots, grid, recs, r, k, ref);
    }
  }

  // ----- changes of the grid -----

  /** The two grids hold the same bytes in the slots of iv. */
  predicate SameIn(g: seq<byte>, g': seq<byte>, iv: Interval) {
    && |g| == |g'|
    && forall i :: iv.start * SLOT_SIZE <= i < (iv.end + 1) * SLOT_SIZE && i < |g| ==> g[i] == g'[i]
  }

  ghost predicate SameOn(g: seq<byte>, g': seq<byte>, ivs: set<Interval>) {
    forall iv :: iv in ivs ==> SameIn(g, g', iv)
  }

  lemma ReadRefFrame(slots: nat, g: seq<byte>, g': seq<byte>, ref: Ref)
    requires Extent(slots, ref.fid, ref.stored).Some? && ref.offset + ref.size <= ref.stored
    requires SameIn(g, g', Extent(slots, ref.fid, ref.stored).value)
    ensures ReadRef(slots, g', ref) == ReadRef(slots, g, ref)
  {
    var iv := Extent(slots, ref.fid, ref.stored).value;
    hide Extent;
    var at := iv.start * SLOT_SIZE + ref.offset;
    if at + ref.size <= |g| {
      assert g[at..at + ref.size] == g'[at..at + ref.size];
    }
  }

  lemma StoredFrame(slots: nat, g: seq<byte>, g': seq<byte>, recs: seq<Rec>, ivs: set<Interval>, ref: Ref)
    requires ExtentsIn(slots, recs, ivs) && SameOn(g, g', ivs) && Stored(slots, recs, ref)
    ensures ReadRef(slots, g', ref) == ReadRef(slots, g, ref)
  {
    hide Extent, ReadRef;
    ReadRefFrame(slots, g, g', ref);
  }

  lemma TableFrame(slots: nat, g: seq<byte>, g': seq<byte>, recs: seq<Rec>, ivs: set<Interval>, r: Rec)
    requires RecsOk(slots, recs) && ExtentsIn(slots, recs, ivs) && SameOn(g, g', ivs) && r in recs && r.Table?
    ensures TableOf(slots, g', r) == TableOf(slots, g, r)
  {
    hide Extent, ReadRef, DecodeTable, MeaningOf, RecsOk;
    RecsOkMember(slots, recs, r);
    RecCore(slots, recs, r, r.fid);
    CoreStored(slots, recs, r.fid);
    StoredFrame(slots, g, g', recs, ivs, PlainRef(r.fid, r.size));
  }

  /** Writes outside the occupied extents change nothing that is stored. */
  lemma HoldsFrame(slots: nat, g: seq<byte>, g': seq<byte>, recs: seq<Rec>,
                   confirmed: map<nat, Ref>, ivs: set<Interval>, objs: Objects)
    requires Holds(slots, g, recs, confirmed, ivs, objs) && SameOn(g, g', ivs)
    ensures Holds(slots, g', recs, confirmed, ivs, objs)
  {
    hide Extent, ReadRef, LoadTable, MeaningOf, RecsOk, TableRefs, ExtentsIn, SameOn;
    forall r | r in recs && r.Table? ensures TableOf(slots, g', r) == TableOf(slots, g, r) {
      TableFrame(slots, g, g', recs, ivs, r);
    }
    assert TablesOk(slots, g', recs) by {
      forall r | r in recs && r.Table? ensures TableOk(slots, g', recs, r) {
        assert TableOk(slots, g, recs, r);
      }
    }
    forall k, ref ensures Backed(slots, g', recs, k, ref) == Backed(slots, g, recs, k, ref) {
      BackedFrame(slots, g, g', recs, k, ref);
    }
    forall k, ref | Backed(slots, g', recs, k, ref) ensures k in objs && ReadRef(slots, g', ref) == Ok(objs[k]) {
      assert Backed(slots, g, recs, k, ref);
      BackedStored(slots, g, recs, k, ref);
      StoredFrame(slots, g, g', recs, ivs, ref);
    }
  }

  lemma BackedFrame(slots: nat, g: seq<byte>, g': seq<byte>, recs: seq<Rec>, k: nat, ref: Ref)
    requires forall r :: r in recs && r.Table? ==> TableOf(slots, g', r) == TableOf(slots, g, r)
    ensures Backed(slots, g', recs, k, ref) == Backed(slots, g, recs, k, ref)
  {
    hide LoadTable, TableOf, TableRefs, MeaningOf;
    if TableBacked(slots, g, recs, k, ref) {
      var r :| r in recs && InTable(slots, g, r, k, ref);
      assert InTable(slots, g', r, k, ref);
    }
    if TableBacked(slots, g', recs, k, ref) {
      var r :| r in recs && InTable(slots, g', r, k, ref);
      assert InTable(slots, g, r, k, ref);
    }
  }
}
