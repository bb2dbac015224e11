/** Replaying the index: from the log to the references, the packed records and
    the occupied extents, with rejection of bad logs. */
module Replay {
  import opened Layout
  import opened IndexEntry
  import opened IndexLog
  import opened PackedTable

  /** Where an object's bytes are: `size` bytes at `offset` inside the stored
      object `fid` of `stored` bytes. */
  datatype Ref = Ref(fid: nat, stored: nat, size: nat, offset: nat, packed: bool)

  datatype PackedRecord = PackedRecord(
    containerFid: nat, containerSize: nat, offset: nat, logicSize: nat, tableFid: nat, tableSize: nat)

  datatype ReplayState = ReplayState(
    refs: map<nat, Ref>,
    extents: map<nat, Interval>,
    alias: Option<Entry>,
    anchor: Option<Entry>,
    tables: seq<nat>)

  const EMPTY_REPLAY := ReplayState(map[], map[], None, None, [])

  function PlainRef(fid: nat, size: nat): Ref { Ref(fid, size, size, 0, false) }

  function ReplayStep(slots: nat, st: ReplayState, e: Entry): Result<ReplayState> {
    if st.anchor.Some? then
      if e.code != 0 || e.size == 0 then Err(BadLog("invalid packed table entry following anchor"))
      else if Extent(slots, e.fid, e.size).None? then Err(OutOfRange)
      else Ok(st.(refs := st.refs[e.fid := PlainRef(e.fid, e.size)],
                  extents := st.extents[e.fid := Extent(slots, e.fid, e.size).value],
                  anchor := None, tables := st.tables + [e.fid]))
    else if IsPackedAnchor(e) then
      if st.alias.Some? || e.fid == 0 then Err(BadLog("invalid packed anchor indicator"))
      else Ok(st.(anchor := Some(e)))
    else if IsJumpIndicator(e) then
      if st.alias.Some? || e.fid == 0 then Err(BadLog("invalid alias indicator"))
      else if e.fid in st.refs then Err(BadLog("duplicate alias fid"))
      else Ok(st.(alias := Some(e)))
    else if IsTombstone(e) then
      Ok(st.(refs := st.refs - {e.fid}, extents := st.extents - {e.fid}))
    else if e.code != 0 || e.size == 0 || e.size >= PACKED_SENTINEL then Err(BadLog("unsupported entry"))
    else if e.fid in st.refs then Err(BadLog("duplicate fid"))
    else if Extent(slots, e.fid, e.size).None? then Err(OutOfRange)
    else
      var refs := st.refs[e.fid := PlainRef(e.fid, e.size)];
      var extents := st.extents[e.fid := Extent(slots, e.fid, e.size).value];
      if st.alias.None? then Ok(st.(refs := refs, extents := extents))
      else if st.alias.value.fid == e.fid || e.size < 2 then Err(BadLog("invalid alias target"))
      else Ok(st.(refs := refs[st.alias.value.fid := Ref(e.fid, e.size, e.size - 1, 0, false)],
                  extents := extents, alias := None))
  }

  function ReplayLog(slots: nat, log: seq<Entry>): Result<ReplayState> {
    if log == [] then Ok(EMPTY_REPLAY)
    else
      var before := ReplayLog(slots, log[..|log| - 1]);
      if before.Err? then before else ReplayStep(slots, before.value, log[|log| - 1])
  }

  /** A rejected prefix rejects the log. */
  lemma {:induction false} RejectedPrefix(slots: nat, log: seq<Entry>, n: nat)
    requires n <= |log| && ReplayLog(slots, log[..n]).Err?
    ensures ReplayLog(slots, log).Err?
    decreases |log|
  {
    if n == |log| {
      assert log[..n] == log;
    } else {
      assert log[..|log| - 1][..n] == log[..n];
      RejectedPrefix(slots, log[..|log| - 1], n);
    }
  }

  function ReadAt(grid: seq<byte>, at: nat, n: nat): Result<seq<byte>> {
    if at + n <= |grid| then Ok(grid[at..at + n]) else Err(ReadFailed)
  }

  /** The bytes a reference denotes on a grid. */
  function ReadRef(slots: nat, grid: seq<byte>, ref: Ref): Result<seq<byte>> {
    var iv := Extent(slots, ref.fid, ref.stored);
    if iv.None? then Err(OutOfRange)
    else ReadAt(grid, iv.value.start * SLOT_SIZE + ref.offset, ref.size)
  }

  function EntryRef(h: Header, e: TableEntry): Ref {
    Ref(h.containerFid, h.containerSize, e.size, e.offset, true)
  }

  function TableRefs(t: Table): map<nat, Ref> {
    EntriesRefs(t.header, t.entries)
  }

  function EntriesRefs(h: Header, es: seq<TableEntry>): map<nat, Ref> {
    if es == [] then map[]
    else EntriesRefs(h, es[..|es| - 1])[es[|es| - 1].fid := EntryRef(h, es[|es| - 1])]
  }

  function EntriesPacked(h: Header, es: seq<TableEntry>, tableFid: nat, tableSize: nat): map<nat, PackedRecord> {
    if es == [] then map[]
    else
      var e := es[|es| - 1];
      EntriesPacked(h, es[..|es| - 1], tableFid, tableSize)
        [e.fid := PackedRecord(h.containerFid, h.containerSize, e.offset, e.size, tableFid, tableSize)]
  }

  datatype Index = Index(refs: map<nat, Ref>, packed: map<nat, PackedRecord>)

  /** The table object stored under a reference, read from its first byte. */
  function LoadTable(slots: nat, grid: seq<byte>, ref: Ref): Result<Table> {
    var blob := ReadRef(slots, grid, ref.(offset := 0));
    if blob.Err? then Err(blob.error) else DecodeTable(blob.value)
  }

  /** Expands the anchored tables in log order over the plain references. */
  function ExpandTables(slots: nat, grid: seq<byte>, idx: Index, tables: seq<nat>): Result<Index> {
    if tables == [] then Ok(idx)
    else
      var before := ExpandTables(slots, grid, idx, tables[..|tables| - 1]);
      if before.Err? then before else ExpandTable(slots, grid, before.value, tables[|tables| - 1])
  }

  function ExpandTable(slots: nat, grid: seq<byte>, idx: Index, fid: nat): Result<Index> {
    if fid !in idx.refs then Ok(idx)
    else
      var ref := idx.refs[fid];
      var t := LoadTable(slots, grid, ref);
      if t.Err? then Err(t.error)
      else Ok(Index(idx.refs + TableRefs(t.value),
                    idx.packed + EntriesPacked(t.value.header, t.value.entries, fid, ref.size)))
  }

  predicate DisjointExtents(extents: map<nat, Interval>) {
    forall f, g :: f in extents && g in extents && f != g ==> !Overlaps(extents[f], extents[g])
  }

  datatype Replayed = Replayed(refs: map<nat, Ref>, packed: map<nat, PackedRecord>, extents: map<nat, Interval>)

  function Finish(slots: nat, grid: seq<byte>, st: ReplayState): Result<Replayed> {
    if st.alias.Some? then Err(BadLog("incomplete alias pair at index tail"))
    else if st.anchor.Some? then Err(BadLog("incomplete packed anchor pair at index tail"))
    else
      var idx := ExpandTables(slots, grid, Index(st.refs, map[]), st.tables);
      if idx.Err? then Err(idx.error)
      else if !DisjointExtents(st.extents) then Err(BadLog("overlapping confirmed extents"))
      else Ok(Replayed(idx.value.refs, idx.value.packed, st.extents))
  }

  /** How many entries of the index region come before the first all-zero one. */
  function EndOf(region: seq<Entry>): (n: nat)
    ensures n <= |region|
    ensures forall i :: 0 <= i < n ==> region[i] != ZERO
    ensures n < |region| ==> region[n] == ZERO
  {
    if region == [] || region[0] == ZERO then 0
    else
      assert forall i :: 0 < i < |region| ==> region[i] == region[1..][i - 1];
      1 + EndOf(region[1..])
  }

  function ReplayEntries(slots: nat, grid: seq<byte>, log: seq<Entry>): Result<Replayed> {
    var st := ReplayLog(slots, log);
    if st.Err? then Err(st.error) else Finish(slots, grid, st.value)
  }

  /** What opening a disk rebuilds from its index region and data grid. */
  function ReplayRegion(slots: nat, grid: seq<byte>, region: seq<Entry>): Result<Replayed> {
    ReplayEntries(slots, grid, region[..EndOf(region)])
  }

  // ----- what the records of an engine log replay to -----

  /** The references, extents and anchored tables that a list of records stands for. */
  datatype Meaning = Meaning(refs: map<nat, Ref>, extents: map<nat, Interval>, tables: seq<nat>)

  function RecRefs(r: Rec): map<nat, Ref> {
    match r
    case Plain(fid, size) => map[fid := PlainRef(fid, size)]
    case Jump(fid, target, size, _) =>
      map[target := PlainRef(target, size), fid := Ref(target, size, if size == 0 then 0 else size - 1, 0, false)]
    case Table(_, target, size) => map[target := PlainRef(target, size)]
  }

  function AddRec(slots: nat, m: Meaning, r: Rec): Meaning {
    var iv := Extent(slots, StorageFid(r), r.size);
    Meaning(m.refs + RecRefs(r),
            if iv.None? then m.extents else m.extents[StorageFid(r) := iv.value],
            if r.Table? then m.tables + [r.fid] else m.tables)
  }

  function Drop(m: Meaning, fid: nat): Meaning {
    m.(refs := m.refs - {fid}, extents := m.extents - {fid})
  }

  function MeaningOf(slots: nat, recs: seq<Rec>): Meaning {
    if recs == [] then Meaning(map[], map[], [])
    else AddRec(slots, MeaningOf(slots, recs[..|recs| - 1]), recs[|recs| - 1])
  }

  lemma {:induction false} MeaningKeys(slots: nat, recs: seq<Rec>)
    requires RecsOk(slots, recs)
    ensures MeaningOf(slots, recs).refs.Keys == KeysOf(recs)
    ensures MeaningOf(slots, recs).extents.Keys <= KeysOf(recs)
  {
    if recs != [] {
      hide Extent;
      MeaningKeys(slots, recs[..|recs| - 1]);
    }
  }

  lemma MeaningAppend(slots: nat, recs: seq<Rec>, r: Rec)
    ensures MeaningOf(slots, recs + [r]) == AddRec(slots, MeaningOf(slots, recs), r)
  {
    hide AddRec;
    assert (recs + [r])[..|recs|] == recs;
  }

  lemma DropAddOther(slots: nat, m: Meaning, r: Rec, fid: nat)
    requires fid !in RecKeys(r) && fid != StorageFid(r)
    ensures Drop(AddRec(slots, m, r), fid) == AddRec(slots, Drop(m, fid), r)
  {
    hide Extent;
    assert (m.refs + RecRefs(r)) - {fid} == (m.refs - {fid}) + RecRefs(r);
    var iv := Extent(slots, StorageFid(r), r.size);
    if iv.Some? {
      assert m.extents[StorageFid(r) := iv.value] - {fid} == (m.extents - {fid})[StorageFid(r) := iv.value];
    }
  }

  lemma DropAdded(slots: nat, m: Meaning, fid: nat, size: nat)
    requires fid !in m.refs && fid !in m.extents
    ensures Drop(AddRec(slots, m, Plain(fid, size)), fid) == m
  {
    hide Extent;
    assert (m.refs + RecRefs(Plain(fid, size))) - {fid} == m.refs;
  }

  lemma {:induction false} RemoveMeaning(slots: nat, recs: seq<Rec>, fid: nat)
    requires RecsOk(slots, recs) && HasPlain(recs, fid)
    ensures MeaningOf(slots, Remove(recs, fid)) == Drop(MeaningOf(slots, recs), fid)
  {
    var front, last := recs[..|recs| - 1], recs[|recs| - 1];
    var r :| r in recs && r.Plain? && r.fid == fid;
    MeaningKeys(slots, front);
    assert RecKeys(last) !! KeysOf(front) && RecsOk(slots, front);
    assert StorageFid(last) in RecKeys(last);
    hide RecsOk, RecOk, KeysOf, MeaningOf;
    assert MeaningOf(slots, recs) == AddRec(slots, MeaningOf(slots, front), last) by {
      assert recs == front + [last];
      MeaningAppend(slots, front, last);
    }
    hide AddRec, Drop;
    if last.fid == fid {
      RecsUnique(slots, recs, r, last, fid);
      RemoveAbsent(front, fid);
      DropAdded(slots, MeaningOf(slots, front), fid, last.size);
    } else {
      assert r in front;
      assert HasPlain(front, fid);
      KeysContain(front, r);
      RemoveMeaning(slots, front, fid);
      MeaningAppend(slots, Remove(front, fid), last);
      DropAddOther(slots, MeaningOf(slots, front), last, fid);
    }
  }

  function ReplayOf(slots: nat, cs: CollectState): ReplayState {
    var p, m := cs.pending, MeaningOf(slots, cs.recs);
    ReplayState(m.refs, m.extents,
                if p.Some? && !IsPackedAnchor(p.value) then p else None,
                if p.Some? && IsPackedAnchor(p.value) then p else None,
                m.tables)
  }

  /** Appending one engine entry moves both scanners alike. */
  lemma ReplayStepAgrees(slots: nat, cs: CollectState, e: Entry)
    requires slots < SLOT_LIMIT
    requires CollectOk(slots, cs) && StepOk(slots, cs, e)
    ensures CollectStep(cs, e).Ok?
    ensures ReplayStep(slots, ReplayOf(slots, cs), e) == Ok(ReplayOf(slots, CollectStep(cs, e).value))
  {
    hide MeaningOf, RecsOk, KeysOf;
    MeaningKeys(slots, cs.recs);
    if cs.pending.Some? {
      var p := cs.pending.value;
      if IsPackedAnchor(p) && Plain(e.fid, e.size) in cs.recs {
        ReplayAnchorAgrees(slots, cs, e);
      } else {
        RemoveAbsent(cs.recs, p.fid);
        MeaningAppend(slots, cs.recs, PairRecord(p, e));
        var refs := MeaningOf(slots, cs.recs).refs;
        assert refs + map[e.fid := PlainRef(e.fid, e.size)] == refs[e.fid := PlainRef(e.fid, e.size)];
        assert !IsPackedAnchor(p) ==>
          refs + RecRefs(PairRecord(p, e))
          == refs[e.fid := PlainRef(e.fid, e.size)][p.fid := Ref(e.fid, e.size, e.size - 1, 0, false)];
      }
    } else if IsTombstone(e) {
      hide Extent;
      RemoveMeaning(slots, cs.recs, e.fid);
    } else if !IsPackedAnchor(e) && !IsJumpIndicator(e) {
      RemoveAbsent(cs.recs, e.fid);
      MeaningAppend(slots, cs.recs, Plain(e.fid, e.size));
      var refs := MeaningOf(slots, cs.recs).refs;
      assert refs + RecRefs(Plain(e.fid, e.size)) == refs[e.fid := PlainRef(e.fid, e.size)];
    }
  }

  /** Anchoring a table already stored plainly replaces its record by itself. */
  lemma ReplayAnchorAgrees(slots: nat, cs: CollectState, e: Entry)
    requires CollectOk(slots, cs) && StepOk(slots, cs, e)
    requires cs.pending.Some? && IsPackedAnchor(cs.pending.value) && Plain(e.fid, e.size) in cs.recs
    ensures ReplayStep(slots, ReplayOf(slots, cs), e) == Ok(ReplayOf(slots, CollectStep(cs, e).value))
  {
    hide MeaningOf, RecsOk, KeysOf, Extent;
    assert HasPlain(cs.recs, e.fid);
    RemoveMeaning(slots, cs.recs, e.fid);
    MeaningAppend(slots, Remove(cs.recs, e.fid), Table(e.fid, e.fid, e.size));
    var m := MeaningOf(slots, cs.recs);
    assert (m.refs - {e.fid}) + RecRefs(Table(e.fid, e.fid, e.size)) == m.refs[e.fid := PlainRef(e.fid, e.size)];
    var iv := Extent(slots, e.fid, e.size).value;
    assert (m.extents - {e.fid})[e.fid := iv] == m.extents[e.fid := iv];
  }

  /** The two scanners agree on every engine log: the replayed references, extents
      and tables are exactly those of the collected records. */
  lemma {:induction false} EngineReplays(slots: nat, log: seq<Entry>)
    requires slots < SLOT_LIMIT && Engine(slots, log)
    ensures Collect(log).Ok? && CollectOk(slots, Collect(log).value)
    ensures ReplayLog(slots, log) == Ok(ReplayOf(slots, Collect(log).value))
  {
    EngineCollects(slots, log);
    if log != [] {
      hide ReplayStep, CollectStep, StepOk, CollectOk, ReplayOf;
      EngineReplays(slots, log[..|log| - 1]);
      ReplayStepAgrees(slots, Collect(log[..|log| - 1]).value, log[|log| - 1]);
    }
  }

  /** Compaction preserves meaning: on any data grid, the compacted log replays to
      the references, packed records and extents of the log it came from. The
      compacted log is again an engine log, validates, is not longer, and
      compacting it once more gives itself. */
  lemma CompactionPreservesReplay(slots: nat, grid: seq<byte>, log: seq<Entry>)
    requires slots < SLOT_LIMIT && Engine(slots, log)
    ensures Collect(log).Ok?
    ensures var cs := Collect(log).value;
            var compacted := WriteLog(cs.recs);
            && (cs.pending.None? ==> ReplayEntries(slots, grid, compacted) == ReplayEntries(slots, grid, log))
            && Engine(slots, compacted)
            && Collect(compacted) == Ok(CollectState(cs.recs, None))
            && Validate(compacted).Ok?
            && |compacted| <= |log|
  {
    hide Engine, Collect, WriteLog, Validate, Finish, ReplayLog;
    EngineReplays(slots, log);
    var recs := Collect(log).value.recs;
    WrittenLogCollects(slots, recs);
    WrittenLogValidates(slots, recs);
    EngineReplays(slots, WriteLog(recs));
    CompactionNeverLonger(log);
  }
}
