/** Replaying the index as the engine runs it: one loop over the region with its
    pending indicators, the expansion of the anchored tables, and the check of the
    sorted extents. */
module IndexState {
  import opened Layout
  import opened IndexEntry
  import opened PackedTable
  import opened Replay

  function SetOf<T>(s: seq<T>): set<T> { set x | x in s }

  method ReplayIndex(slots: nat, grid: seq<byte>, region: seq<Entry>)
    returns (r: Result<Replayed>, intervals: seq<Interval>, end: nat)
    ensures r.Ok? <==> ReplayRegion(slots, grid, region).Ok?
    ensures r.Ok? ==>
      r == ReplayRegion(slots, grid, region) && end == EndOf(region) && SetOf(intervals) == r.value.extents.Values
  {
    hide EndOf, Extent, Finish;
    var refs: map<nat, Ref> := map[];
    var extentsMap: map<nat, Interval> := map[];
    var alias: Option<Entry> := None;
    var pendingPacked: Option<Entry> := None;
    var packedTableFIDs: seq<nat> := [];
    intervals, end := [], 0;
    ghost var log := region[..EndOf(region)];
    while end < |region| && region[end] != ZERO
      invariant end <= EndOf(region)
      invariant ReplayLog(slots, log[..end]) == Ok(ReplayState(refs, extentsMap, alias, pendingPacked, packedTableFIDs))
    {
      var e := region[end];
      assert end < |log| && log[..end + 1][..end] == log[..end] && log[end] == e;
      if ReplayLog(slots, log[..end + 1]).Err? { RejectedPrefix(slots, log, end + 1); }
      end := end + 1;
      if pendingPacked.Some? {
        if e.code != 0 || e.size == 0 { return Err(BadLog("invalid packed table entry following anchor")), [], 0; }
        packedTableFIDs := packedTableFIDs + [e.fid];
        var iv := Extent(slots, e.fid, e.size);
        if iv.None? { return Err(OutOfRange), [], 0; }
        refs := refs[e.fid := PlainRef(e.fid, e.size)];
        extentsMap := extentsMap[e.fid := iv.value];
        pendingPacked := None;
      } else if IsPackedAnchor(e) {
        if alias.Some? || e.fid == 0 { return Err(BadLog("invalid packed anchor indicator")), [], 0; }
        pendingPacked := Some(e);
      } else if IsJumpIndicator(e) {
        if alias.Some? || e.fid == 0 { return Err(BadLog("invalid alias indicator")), [], 0; }
        if e.fid in refs { return Err(BadLog("duplicate alias fid")), [], 0; }
        alias := Some(e);
      } else if IsTombstone(e) {
        refs, extentsMap := refs - {e.fid}, extentsMap - {e.fid};
      } else {
        if e.code != 0 || e.size == 0 || e.size >= PACKED_SENTINEL {
          return Err(BadLog("unsupported entry")), [], 0;
        }
        if e.fid in refs { return Err(BadLog("duplicate fid")), [], 0; }
        var iv := Extent(slots, e.fid, e.size);
        if iv.None? { return Err(OutOfRange), [], 0; }
        refs := refs[e.fid := PlainRef(e.fid, e.size)];
        extentsMap := extentsMap[e.fid := iv.value];
        if alias.Some? {
          if alias.value.fid == e.fid || e.size < 2 { return Err(BadLog("invalid alias target")), [], 0; }
          refs := refs[alias.value.fid := Ref(e.fid, e.size, e.size - 1, 0, false)];
          alias := None;
        }
      }
    }
    assert log[..end] == log;
    ReplayedOrdered(slots, log);
    r, intervals := FinishReplay(slots, grid, ReplayState(refs, extentsMap, alias, pendingPacked, packedTableFIDs));
  }

  method FinishReplay(slots: nat, grid: seq<byte>, st: ReplayState)
    returns (r: Result<Replayed>, intervals: seq<Interval>)
    requires ExtentsOrdered(st.extents)
    ensures r.Ok? <==> Finish(slots, grid, st).Ok?
    ensures r.Ok? ==> r == Finish(slots, grid, st) && SetOf(intervals) == r.value.extents.Values
  {
    hide ExpandTables, DisjointExtents, ExtentsOrdered, ByStart, Owned;
    if st.alias.Some? { return Err(BadLog("incomplete alias pair at index tail")), []; }
    if st.anchor.Some? { return Err(BadLog("incomplete packed anchor pair at index tail")), []; }
    var idx := ExpandAll(slots, grid, Index(st.refs, map[]), st.tables);
    if idx.Err? { return Err(idx.error), []; }
    ghost var owners;
    intervals, owners := SortedExtents(st.extents);
    OwnedValues(st.extents, intervals, owners);
    var disjoint := NoneOverlap(st.extents, intervals, owners);
    if !disjoint { return Err(BadLog("overlapping confirmed extents")), []; }
    return Ok(Replayed(idx.value.refs, idx.value.packed, st.extents)), intervals;
  }

  // ----- the anchored tables -----

  method ExpandAll(slots: nat, grid: seq<byte>, idx: Index, tables: seq<nat>) returns (r: Result<Index>)
    ensures r == ExpandTables(slots, grid, idx, tables)
  {
    hide LoadTable, TableRefs, EntriesPacked;
    var refs, packed := idx.refs, idx.packed;
    for i := 0 to |tables|
      invariant ExpandTables(slots, grid, idx, tables[..i]) == Ok(Index(refs, packed))
    {
      var tableFID := tables[i];
      assert tables[..i + 1][..i] == tables[..i];
      if tableFID in refs {
        var tableRef := refs[tableFID];
        var t := LoadTable(slots, grid, tableRef);
        if t.Err? {
          ExpandFails(slots, grid, idx, tables, i + 1);
          return Err(t.error);
        }
        refs, packed := ExpandEntries(refs, packed, t.value, tableFID, tableRef.size);
      }
    }
    assert tables[..|tables|] == tables;
    return Ok(Index(refs, packed));
  }

  method ExpandEntries(refs0: map<nat, Ref>, packed0: map<nat, PackedRecord>, t: Table, tableFID: nat, tableSize: nat)
    returns (refs: map<nat, Ref>, packed: map<nat, PackedRecord>)
    ensures refs == refs0 + TableRefs(t)
    ensures packed == packed0 + EntriesPacked(t.header, t.entries, tableFID, tableSize)
  {
    var h, es := t.header, t.entries;
    refs, packed := refs0, packed0;
    for j := 0 to |es|
      invariant refs == refs0 + EntriesRefs(h, es[..j])
      invariant packed == packed0 + EntriesPacked(h, es[..j], tableFID, tableSize)
    {
      var entry := es[j];
      assert es[..j + 1][..j] == es[..j];
      PlusUpdate(refs0, EntriesRefs(h, es[..j]), entry.fid, EntryRef(h, entry));
      PlusUpdate(packed0, EntriesPacked(h, es[..j], tableFID, tableSize), entry.fid,
                 PackedRecord(h.containerFid, h.containerSize, entry.offset, entry.size, tableFID, tableSize));
      refs := refs[entry.fid := Ref(h.containerFid, h.containerSize, entry.size, entry.offset, true)];
      packed := packed[
        entry.fid := PackedRecord(h.containerFid, h.containerSize, entry.offset, entry.size, tableFID, tableSize)];
    }
    assert es[..|es|] == es;
  }

  lemma PlusUpdate<K, V>(a: map<K, V>, b: map<K, V>, k: K, v: V)
    ensures (a + b)[k := v] == a + b[k := v]
  {}

  lemma {:induction false} ExpandFails(slots: nat, grid: seq<byte>, idx: Index, tables: seq<nat>, n: nat)
    requires n <= |tables| && ExpandTables(slots, grid, idx, tables[..n]).Err?
    ensures ExpandTables(slots, grid, idx, tables) == ExpandTables(slots, grid, idx, tables[..n])
    decreases |tables|
  {
    if n == |tables| {
      assert tables[..n] == tables;
    } else {
      hide ExpandTable;
      assert tables[..|tables| - 1][..n] == tables[..n];
      ExpandFails(slots, grid, idx, tables[..|tables| - 1], n);
    }
  }

  // ----- the sorted extents -----

  predicate ByStart(ivs: seq<Interval>) {
    forall i, j :: 0 <= i < j < |ivs| ==> ivs[i].start <= ivs[j].start
  }

  predicate ExtentsOrdered(extents: map<nat, Interval>) {
    forall f :: f in extents ==> extents[f].start <= extents[f].end
  }

  /** The list holds the extents of the fids `owners`, each fid once. */
  ghost predicate Owned(extents: map<nat, Interval>, ivs: seq<Interval>, owners: seq<nat>) {
    && |owners| == |ivs|
    && (forall i :: 0 <= i < |ivs| ==> owners[i] in extents && extents[owners[i]] == ivs[i])
    && (forall i, j :: 0 <= i < j < |owners| ==> owners[i] != owners[j])
  }

  method SortedExtents(extents: map<nat, Interval>) returns (ivs: seq<Interval>, ghost owners: seq<nat>)
    ensures ByStart(ivs) && Owned(extents, ivs, owners) && SetOf(owners) == extents.Keys
  {
    hide ByStart, Owned, InsertAt;
    ivs, owners := [], [];
    var rest := extents.Keys;
    NoneYet(extents);
    while rest != {}
      invariant rest <= extents.Keys && ByStart(ivs) && Owned(extents, ivs, owners)
      invariant SetOf(owners) == extents.Keys - rest
    {
      var f :| f in rest;
      var at := Position(ivs, extents[f]);
      assert |owners| == |ivs| by { OwnedLength(extents, ivs, owners); }
      InsertedOrder(ivs, at, extents[f]);
      InsertedOwners(extents, ivs, owners, f, at);
      InsertedSet(owners, at, f);
      ivs, owners := InsertAt(ivs, at, extents[f]), InsertAt(owners, at, f);
      rest := rest - {f};
    }
  }

  lemma OwnedLength(extents: map<nat, Interval>, ivs: seq<Interval>, owners: seq<nat>)
    requires Owned(extents, ivs, owners)
    ensures |owners| == |ivs|
  {}

  lemma NoneYet(extents: map<nat, Interval>)
    ensures ByStart([]) && Owned(extents, [], [])
  {}

  method Position(ivs: seq<Interval>, iv: Interval) returns (at: nat)
    requires ByStart(ivs)
    ensures at <= |ivs|
    ensures forall k :: 0 <= k < at ==> ivs[k].start <= iv.start
    ensures forall k :: at <= k < |ivs| ==> iv.start <= ivs[k].start
  {
    at := |ivs|;
    while at > 0 && ivs[at - 1].start > iv.start
      invariant at <= |ivs| && forall k :: at <= k < |ivs| ==> iv.start <= ivs[k].start
    {
      at := at - 1;
    }
  }

  lemma InsertedSet<T>(s: seq<T>, at: nat, x: T)
    requires at <= |s|
    ensures SetOf(InsertAt(s, at, x)) == SetOf(s) + {x}
  {
    InsertedMembers(s, at, x);
  }

  lemma InsertedOrder(ivs: seq<Interval>, at: nat, iv: Interval)
    requires ByStart(ivs) && at <= |ivs|
    requires forall k :: 0 <= k < at ==> ivs[k].start <= iv.start
    requires forall k :: at <= k < |ivs| ==> iv.start <= ivs[k].start
    ensures ByStart(InsertAt(ivs, at, iv))
  {}

  lemma InsertedOwners(extents: map<nat, Interval>, ivs: seq<Interval>, owners: seq<nat>, f: nat, at: nat)
    requires Owned(extents, ivs, owners) && f in extents && f !in SetOf(owners) && at <= |ivs|
    ensures Owned(extents, InsertAt(ivs, at, extents[f]), InsertAt(owners, at, f))
  {
    forall k | 0 <= k < |owners| ensures owners[k] != f { assert owners[k] in SetOf(owners); }
  }

  /** Looking at neighbours in start order is enough to find any overlap. */
  method NoneOverlap(extents: map<nat, Interval>, ivs: seq<Interval>, ghost owners: seq<nat>) returns (disjoint: bool)
    requires ByStart(ivs) && Owned(extents, ivs, owners) && SetOf(owners) == extents.Keys && ExtentsOrdered(extents)
    ensures disjoint <==> DisjointExtents(extents)
  {
    var i := 1;
    while i < |ivs|
      invariant 1 <= i && forall k :: 0 < k < i && k < |ivs| ==> ivs[k - 1].end < ivs[k].start
    {
      if Overlaps(ivs[i - 1], ivs[i]) {
        assert owners[i - 1] != owners[i];
        return false;
      }
      i := i + 1;
    }
    NeighboursSuffice(extents, ivs, owners);
    return true;
  }

  lemma NeighboursSuffice(extents: map<nat, Interval>, ivs: seq<Interval>, owners: seq<nat>)
    requires Owned(extents, ivs, owners) && SetOf(owners) == extents.Keys && ExtentsOrdered(extents)
    requires forall k :: 0 < k < |ivs| ==> ivs[k - 1].end < ivs[k].start
    ensures DisjointExtents(extents)
  {
    forall f, g | f in extents && g in extents && f != g ensures !Overlaps(extents[f], extents[g]) {
      assert f in SetOf(owners) && g in SetOf(owners);
      var i :| 0 <= i < |owners| && owners[i] == f;
      var j :| 0 <= j < |owners| && owners[j] == g;
      if i < j { StrictlyAfter(extents, ivs, owners, i, j); } else { StrictlyAfter(extents, ivs, owners, j, i); }
    }
  }

  lemma {:induction false} StrictlyAfter(extents: map<nat, Interval>, ivs: seq<Interval>, owners: seq<nat>, i: nat,
                                         j: nat)
    requires Owned(extents, ivs, owners) && ExtentsOrdered(extents) && i < j < |ivs|
    requires forall k :: 0 < k < |ivs| ==> ivs[k - 1].end < ivs[k].start
    ensures ivs[i].end < ivs[j].start
    decreases j - i
  {
    if i + 1 < j {
      StrictlyAfter(extents, ivs, owners, i, j - 1);
      assert extents[owners[j - 1]] == ivs[j - 1];
    }
  }

  lemma OwnedValues(extents: map<nat, Interval>, ivs: seq<Interval>, owners: seq<nat>)
    requires Owned(extents, ivs, owners) && SetOf(owners) == extents.Keys
    ensures SetOf(ivs) == extents.Values
  {
    forall iv | iv in extents.Values ensures iv in ivs {
      var f :| f in extents && extents[f] == iv;
      assert f in SetOf(owners);
      var i :| 0 <= i < |owners| && owners[i] == f;
    }
    forall iv | iv in ivs ensures iv in extents.Values {
      var i :| 0 <= i < |ivs| && ivs[i] == iv;
      assert owners[i] in extents;
    }
  }

  lemma {:induction false} ReplayedOrdered(slots: nat, log: seq<Entry>)
    requires ReplayLog(slots, log).Ok?
    ensures ExtentsOrdered(ReplayLog(slots, log).value.extents)
  {
    hide Extent, ReplayStep;
    if log != [] {
      ReplayedOrdered(slots, log[..|log| - 1]);
      StepOrdered(slots, ReplayLog(slots, log[..|log| - 1]).value, log[|log| - 1]);
    }
  }

  lemma StepOrdered(slots: nat, st: ReplayState, e: Entry)
    requires ExtentsOrdered(st.extents) && ReplayStep(slots, st, e).Ok?
    ensures ExtentsOrdered(ReplayStep(slots, st, e).value.extents)
  {
    hide Extent, IsTombstone, IsPackedAnchor, IsJumpIndicator;
    ExtentOrdered(slots, e.fid, e.size);
  }

  lemma ExtentOrdered(slots: nat, fid: nat, size: nat)
    ensures Extent(slots, fid, size).Some? ==>
      Extent(slots, fid, size).value.start <= Extent(slots, fid, size).value.end
  {}
}
