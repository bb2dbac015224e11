/** What the log becomes when an append or its rollback is cut short, and the
    inputs for which the engine does not keep its promises, each with the exact
    condition under which it does. */
module Faults {
  import opened Layout
  import opened IndexEntry
  import opened IndexLog
  import opened PackedTable
  import opened Replay
  import opened IndexScan
  import opened Store
  import opened StoreSteps
  import opened DiskState
  import opened DiskSteps
  import opened TrimSteps

  // ----- replaying prefixes -----

  lemma ReplayAppend(slots: nat, log: seq<Entry>, e: Entry)
    ensures ReplayLog(slots, log + [e])
            == if ReplayLog(slots, log).Err? then ReplayLog(slots, log)
               else ReplayStep(slots, ReplayLog(slots, log).value, e)
  {
    assert (log + [e])[..|log|] == log;
  }

  /** Only entries up to the first all-zero one are replayed. */
  lemma SameReplay(slots: nat, grid: seq<byte>, region: seq<Entry>, region': seq<Entry>, n: nat)
    requires n == EndOf(region) && |region'| == |region| && region'[..n] == region[..n]
    requires n < |region| && region'[n] == ZERO
    ensures EndOf(region') == n && ReplayRegion(slots, grid, region') == ReplayRegion(slots, grid, region)
  {
    hide ReplayEntries, EndOf;
    assert ZERO !in region[..n];
    EndOfIs(region', n);
  }

  // ----- a commit whose rollback failed -----

  datatype Outcome = OldState | NewState | Unopenable

  /** What a restart makes of `written` entries of which `cleared` were zeroed again. */
  function TornOutcome(alias: nat, written: nat, cleared: nat): Outcome {
    if written == 0 || cleared > 0 then OldState
    else if alias != 0 && written == 1 then Unopenable
    else NewState
  }

  /** The second entry of a pair is on the disk behind a cleared first one. */
  predicate StaleTarget(alias: nat, written: nat, cleared: nat) {
    alias != 0 && written == 2 && cleared == 1
  }

  /** A commit that was attempted in full and failed twice. */
  ghost predicate Torn(d: Disk, objs: Objects, fid: nat, size: nat, iv: Interval, alias: nat, w: nat, c: nat,
                       data: seq<byte>) {
    && Inv(d, objs) && !d.fault && iv in d.pending && Extent(d.slots, fid, size) == Some(iv)
    && |data| == size && ReadRef(d.slots, d.grid, PlainRef(fid, size)) == Ok(data)
    && fid !in objs && (alias != 0 ==> alias !in objs && alias != fid && size >= 2)
    && w <= EntryCount(alias) && c <= EntryCount(alias) && d.end + EntryCount(alias) <= MAX_ENTRIES
  }

  function EntryCount(alias: nat): nat { if alias == 0 then 1 else 2 }

  /** The disk left behind, its fault raised. */
  function TornDisk(d: Disk, fid: nat, size: nat, alias: nat, w: nat, c: nat): Disk
    requires |d.region| == MAX_ENTRIES && d.end + EntryCount(alias) <= MAX_ENTRIES
    requires w <= EntryCount(alias) && c <= EntryCount(alias)
  {
    d.(region := TornRegion(d.region, d.end, RecEntries(CommitRec(fid, size, alias)), w, RollbackFails(c)),
      fault := true)
  }

  lemma TornEntries(region: seq<Entry>, at: nat, fid: nat, size: nat, alias: nat, w: nat, c: nat)
    requires size > 0 && w <= EntryCount(alias) && c <= EntryCount(alias) && at + EntryCount(alias) <= |region|
    requires TailClean(region, at)
    ensures var es := RecEntries(CommitRec(fid, size, alias));
            var torn := TornRegion(region, at, es, w, RollbackFails(c));
            && |es| == EntryCount(alias) && |torn| == |region| && torn[..at] == region[..at] && region[at] == ZERO
            && (TornOutcome(alias, w, c).OldState? ==> torn[at] == ZERO)
            && (TornOutcome(alias, w, c).OldState? && !StaleTarget(alias, w, c) ==> torn == region)
            && (StaleTarget(alias, w, c) ==> torn == Splice(region, at + 1, [Entry(fid, size, 0)]))
            && (TornOutcome(alias, w, c).NewState? ==> torn == Splice(region, at, es))
            && (TornOutcome(alias, w, c).Unopenable? ==>
                  torn == Splice(region, at, [Entry(alias, JUMP_SENTINEL, ALIAS_JUMP_CODE)]))
  {}

  ghost predicate Serves(d: Disk, objs: Objects) {
    forall f :: Read(d, f) == if f in objs then Ok(objs[f]) else Err(NotFound)
  }

  /** The other disk replays to the same memory. */
  lemma OpensAlike(d: Disk, d': Disk)
    requires d' == d.(region := d'.region, end := d'.end, fault := d'.fault)
    requires ReplayRegion(d.slots, d.grid, d'.region) == ReplayRegion(d.slots, d.grid, d.region)
    requires EndOf(d'.region) == EndOf(d.region)
    ensures if Open(d).Ok? then Open(d').Ok? && Open(d').value == Open(d).value.(region := d'.region) else Open(d').Err?
    ensures Open(d).Ok? ==> Open(d).value.region == d.region && Open(d).value.end == EndOf(d.region)
  {
    hide ReplayRegion, EndOf;
  }

  lemma OpenServes(d: Disk, objs: Objects)
    requires Inv(d, objs) && !d.fault
    ensures Open(d).Ok? && Inv(Open(d).value, objs) && !Open(d).value.fault && Serves(Open(d).value, objs)
    ensures EndOf(d.region) == d.end
  {
    hide Inv, TailClean, Read, ReplayRegion, EndOf;
    TailOf(d, objs);
    ReplayAgrees(d, objs);
    OpenKeeps(d, objs);
    forall f ensures Read(Open(d).value, f) == if f in objs then Ok(objs[f]) else Err(NotFound) {
      ReadsObjects(Open(d).value, objs, f);
    }
  }

  lemma RefusedPair(slots: nat, grid: seq<byte>, log: seq<Entry>, e: Entry)
    requires IsJumpIndicator(e) && !IsPackedAnchor(e)
    ensures ReplayEntries(slots, grid, log + [e]).Err?
  {
    hide ReplayLog, Extent;
    ReplayAppend(slots, log, e);
  }

  lemma TornByCommit(d: Disk, objs: Objects, fid: nat, size: nat, iv: Interval, alias: nat, w: nat, c: nat,
                     data: seq<byte>)
    requires Torn(d, objs, fid, size, iv, alias, w, c, data)
    ensures |d.region| == MAX_ENTRIES
    ensures Commit(d, fid, size, iv, alias, AppendFails(w, RollbackFails(c)))
            == (TornDisk(d, fid, size, alias, w, c), Err(CommitFailed))
  {
    hide Inv, TornRegion, ReadRef;
    ConfirmedKeys(d, objs);
  }

  /** A commit that failed, and whose rollback failed too, is never half visible
      after a restart: the disk serves the old objects, the new ones, or does not
      open, exactly as the entries that reached it say. */
  lemma ReopenAfterTorn(d: Disk, objs: Objects, fid: nat, size: nat, iv: Interval, alias: nat, w: nat, c: nat,
                        data: seq<byte>)
    requires Torn(d, objs, fid, size, iv, alias, w, c, data)
    ensures |d.region| == MAX_ENTRIES
    ensures Commit(d, fid, size, iv, alias, AppendFails(w, RollbackFails(c)))
            == (TornDisk(d, fid, size, alias, w, c), Err(CommitFailed))
    ensures var o := Open(Commit(d, fid, size, iv, alias, AppendFails(w, RollbackFails(c))).0);
            match TornOutcome(alias, w, c)
            case OldState => o.Ok? && Serves(o.value, objs) && (StaleTarget(alias, w, c) || Inv(o.value, objs))
            case NewState =>
              var objs' := objs + RecObjects(CommitRec(fid, size, alias), data);
              o.Ok? && Serves(o.value, objs') && Inv(o.value, objs')
            case Unopenable => o.Err?
  {
    hide Inv, TornRegion, ReadRef, TailClean, EndOf, ReplayRegion, Serves, Open, CommitRec, RecEntries, Splice;
    TailOf(d, objs);
    TornByCommit(d, objs, fid, size, iv, alias, w, c, data);
    OpenServes(d, objs);
    SizePositive(d.slots, fid, size);
    TornEntries(d.region, d.end, fid, size, alias, w, c);
    var d' := TornDisk(d, fid, size, alias, w, c);
    match TornOutcome(alias, w, c) {
    case OldState =>
      SameReplay(d.slots, d.grid, d.region, d'.region, d.end);
      OpensAlike(d, d');
      ServesAlike(Open(d).value, d'.region, objs);
    case NewState => TornNew(d, objs, fid, size, iv, alias, data);
    case Unopenable => TornPair(d, objs, fid, size, alias, w, c);
    }
  }

  lemma SizePositive(slots: nat, fid: nat, size: nat)
    requires Extent(slots, fid, size).Some?
    ensures size > 0
  {}

  lemma ServesAlike(d: Disk, region: seq<Entry>, objs: Objects)
    requires Serves(d, objs)
    ensures Serves(d.(region := region), objs)
  {
    hide ReadRef;
    forall f ensures Read(d.(region := region), f) == Read(d, f) {}
  }

  lemma TornNew(d: Disk, objs: Objects, fid: nat, size: nat, iv: Interval, alias: nat, data: seq<byte>)
    requires Torn(d, objs, fid, size, iv, alias, EntryCount(alias), 0, data)
    ensures |d.region| == MAX_ENTRIES && |RecEntries(CommitRec(fid, size, alias))| == EntryCount(alias)
    ensures var d' := d.(region := Splice(d.region, d.end, RecEntries(CommitRec(fid, size, alias))), fault := true);
            var objs' := objs + RecObjects(CommitRec(fid, size, alias), data);
            Open(d').Ok? && Serves(Open(d').value, objs') && Inv(Open(d').value, objs')
  {
    hide Inv, ReadRef, ReplayRegion, Serves, RecRefs, RecObjects, Splice, EndOf;
    ConfirmedKeys(d, objs);
    CommitOkKeeps(d, objs, fid, size, iv, alias, data);
    var r := CommitRec(fid, size, alias);
    OpenServes(Appended(d, r, iv), objs + RecObjects(r, data));
  }

  lemma TornPair(d: Disk, objs: Objects, fid: nat, size: nat, alias: nat, w: nat, c: nat)
    requires Inv(d, objs) && !d.fault && alias != 0 && d.end + 2 <= MAX_ENTRIES
    ensures |d.region| == MAX_ENTRIES
    ensures Open(d.(region := Splice(d.region, d.end, [Entry(alias, JUMP_SENTINEL, ALIAS_JUMP_CODE)]),
            fault := true)).Err?
  {
    hide Inv, ReplayEntries, TailClean, EndOf;
    TailOf(d, objs);
    NoZeroes(d, objs);
    var e := Entry(alias, JUMP_SENTINEL, ALIAS_JUMP_CODE);
    PairRegion(d.region, d.end, e);
    RefusedPair(d.slots, d.grid, d.region[..d.end], e);
  }

  lemma NoZeroes(d: Disk, objs: Objects)
    requires Inv(d, objs)
    ensures d.end <= |d.region| && ZERO !in d.region[..d.end]
  {
    hide Engine, Collect, Holds, Space, TailClean, Recs;
    EngineNoZero(d.slots, Log(d));
  }

  lemma PairRegion(region: seq<Entry>, end: nat, e: Entry)
    requires end + 1 <= |region| && TailClean(region, end) && ZERO !in region[..end] && e != ZERO
    ensures var region' := Splice(region, end, [e]);
            EndOf(region') == end + 1 && region'[..end + 1] == region[..end] + [e]
  {
    hide EndOf;
    var region' := Splice(region, end, [e]);
    assert region'[..end + 1] == region[..end] + [e];
    EndOfIs(region', end + 1);
  }

  // ----- a stale target entry -----

  lemma {:induction false} ExpandGrows(slots: nat, grid: seq<byte>, idx: Index, tables: seq<nat>)
    requires ExpandTables(slots, grid, idx, tables).Ok?
    ensures idx.refs.Keys <= ExpandTables(slots, grid, idx, tables).value.refs.Keys
  {
    if tables != [] {
      hide LoadTable, TableRefs;
      ExpandGrows(slots, grid, idx, tables[..|tables| - 1]);
    }
  }

  lemma LastIsReplayed(slots: nat, grid: seq<byte>, log: seq<Entry>, e: Entry)
    requires e.code == 0 && 0 < e.size < PACKED_SENTINEL && ReplayEntries(slots, grid, log + [e]).Ok?
    ensures e.fid in ReplayEntries(slots, grid, log + [e]).value.refs
  {
    hide ReplayLog, Extent, ExpandTables;
    ReplayAppend(slots, log, e);
    var st := ReplayLog(slots, log + [e]).value;
    ExpandGrows(slots, grid, Index(st.refs, map[]), st.tables);
  }

  /** The memory of a restarted disk agrees with its log for good exactly if no stale
      target was left: behind a stale target, the next plain commit, of any object g,
      brings the failed object back at the following restart, or leaves a disk that
      does not open. */
  lemma StaleTargetReturns(d: Disk, objs: Objects, fid: nat, size: nat, iv: Interval, alias: nat, w: nat, c: nat,
                           data: seq<byte>, g: nat, gsize: nat, giv: Interval)
    requires Torn(d, objs, fid, size, iv, alias, w, c, data) && TornOutcome(alias, w, c) == OldState
    requires 0 < gsize && fid != g
    ensures |d.region| == MAX_ENTRIES && Open(TornDisk(d, fid, size, alias, w, c)).Ok?
    ensures var o := Open(TornDisk(d, fid, size, alias, w, c)).value;
            && (Inv(o, objs) <==> !StaleTarget(alias, w, c))
            && (StaleTarget(alias, w, c) ==>
                  && o.end + 1 <= |o.region|
                  && var o' := Appended(o, Plain(g, gsize), giv);
                  fid !in o'.confirmed && (Open(o').Ok? ==> fid in Open(o').value.confirmed))
  {
    hide Inv, TornRegion, ReadRef, TailClean, EndOf, ReplayRegion, Serves, Open, CommitRec, RecEntries, Splice,
         Appended, TornDisk;
    ReopenAfterTorn(d, objs, fid, size, iv, alias, w, c, data);
    if StaleTarget(alias, w, c) {
      StaleCase(d, objs, fid, size, alias, g, gsize, giv);
    }
  }

  lemma StaleCase(d: Disk, objs: Objects, fid: nat, size: nat, alias: nat, g: nat, gsize: nat, giv: Interval)
    requires Inv(d, objs) && !d.fault && fid !in objs && alias != 0 && d.end + 2 <= MAX_ENTRIES
    requires 0 < size && 0 < gsize && Extent(d.slots, fid, size).Some? && fid != g
    ensures |d.region| == MAX_ENTRIES && Open(TornDisk(d, fid, size, alias, 2, 1)).Ok?
    ensures var o := Open(TornDisk(d, fid, size, alias, 2, 1)).value;
            && !Inv(o, objs) && o.end + 1 <= |o.region|
            && var o' := Appended(o, Plain(g, gsize), giv);
            fid !in o'.confirmed && (Open(o').Ok? ==> fid in Open(o').value.confirmed)
  {
    hide Inv, TornRegion, TailClean, EndOf, ReplayRegion, ReplayEntries, Serves, Splice, Open, RecEntries;
    StaleOpen(d, objs, fid, size, alias);
    var o := Open(TornDisk(d, fid, size, alias, 2, 1)).value;
    StaleAppended(d.region, d.end, fid, size, g, gsize, o, giv);
    var o' := Appended(o, Plain(g, gsize), giv);
    SmallEnough(d.slots, fid, size, d, objs);
    OpenReads(o');
    if Open(o').Ok? {
      LastIsReplayed(o'.slots, o'.grid, d.region[..d.end] + [Entry(g, gsize, 0)], Entry(fid, size, 0));
    }
  }

  /** A disk reopened with a stale target behind its append position. */
  lemma StaleOpen(d: Disk, objs: Objects, fid: nat, size: nat, alias: nat)
    requires Inv(d, objs) && !d.fault && fid !in objs && alias != 0 && d.end + 2 <= MAX_ENTRIES && 0 < size
    ensures |d.region| == MAX_ENTRIES && ZERO !in d.region[..d.end] && TailClean(d.region, d.end)
    ensures Open(TornDisk(d, fid, size, alias, 2, 1)).Ok?
    ensures var o := Open(TornDisk(d, fid, size, alias, 2, 1)).value;
            && !Inv(o, objs) && o.end == d.end && fid !in o.confirmed
            && o.region == Splice(d.region, d.end + 1, [Entry(fid, size, 0)])
  {
    hide Inv, TornRegion, TailClean, EndOf, ReplayRegion, Serves, Splice, Open, RecEntries;
    TailOf(d, objs);
    OpenServes(d, objs);
    NoZeroes(d, objs);
    TornEntries(d.region, d.end, fid, size, alias, 2, 1);
    var d' := TornDisk(d, fid, size, alias, 2, 1);
    SameReplay(d.slots, d.grid, d.region, d'.region, d.end);
    OpensAlike(d, d');
    ConfirmedKeys(Open(d).value, objs);
    StaleTail(d.region, d.end, fid, size, Open(d').value, objs);
  }

  lemma StaleAppended(region: seq<Entry>, end: nat, fid: nat, size: nat, g: nat, gsize: nat, o: Disk, giv: Interval)
    requires 0 < size && 0 < gsize && fid != g && fid !in o.confirmed && o.end == end && end + 2 <= |region|
    requires o.region == Splice(region, end + 1, [Entry(fid, size, 0)])
    requires ZERO !in region[..end] && TailClean(region, end)
    ensures end + 1 <= |o.region| && |RecEntries(Plain(g, gsize))| == 1
    ensures var o' := Appended(o, Plain(g, gsize), giv);
            && fid !in o'.confirmed && EndOf(o'.region) == end + 2
            && o'.region[..end + 2] == region[..end] + [Entry(g, gsize, 0)] + [Entry(fid, size, 0)]
  {
    hide EndOf, TailClean, Splice;
    SpliceLength(region, end + 1, [Entry(fid, size, 0)]);
    StaleRegion(region, end, Entry(g, gsize, 0), Entry(fid, size, 0));
  }

  lemma SmallEnough(slots: nat, fid: nat, size: nat, d: Disk, objs: Objects)
    requires Inv(d, objs) && d.slots == slots && Extent(slots, fid, size).Some?
    ensures 0 < size < PACKED_SENTINEL
  {}

  lemma OpenReads(d: Disk)
    ensures Open(d).Ok? ==>
      ReplayEntries(d.slots, d.grid, d.region[..EndOf(d.region)]).Ok?
      && Open(d).value.confirmed == ReplayEntries(d.slots, d.grid, d.region[..EndOf(d.region)]).value.refs
  {
    hide ReplayEntries, EndOf;
  }

  lemma StaleTail(region: seq<Entry>, end: nat, fid: nat, size: nat, o: Disk, objs: Objects)
    requires size > 0 && end + 2 <= |region| && o.region == Splice(region, end + 1, [Entry(fid, size, 0)])
    requires o.end == end && !o.fault
    ensures !Inv(o, objs)
  {
    assert o.region[end + 1] != ZERO;
    hide Holds, LogIs, Recs, Packing, PackedOk, Splice;
  }

  lemma StaleRegion(region: seq<Entry>, end: nat, e: Entry, stale: Entry)
    requires end + 2 <= |region| && TailClean(region, end) && ZERO !in region[..end] && e != ZERO && stale != ZERO
    ensures var region' := Splice(Splice(region, end + 1, [stale]), end, [e]);
            EndOf(region') == end + 2 && region'[..end + 2] == region[..end] + [e] + [stale]
  {
    hide EndOf;
    var region' := Splice(Splice(region, end + 1, [stale]), end, [e]);
    assert region'[..end + 2] == region[..end] + [e] + [stale];
    EndOfIs(region', end + 2);
  }

  // ----- a tombstone of fid 0 -----

  /** A tombstone can be read back exactly if its fid is not 0: the tombstone of fid 0
      is the end marker. */
  lemma TombstoneReadable(d: Disk, objs: Objects, fid: nat)
    requires Inv(d, objs) && !d.fault && d.end + 1 <= MAX_ENTRIES
    ensures |d.region| == MAX_ENTRIES
    ensures var d' := AppendTombstone(d, fid).0; EndOf(d'.region) == d'.end <==> fid != 0
  {
    hide Inv, TailClean, EndOf, Splice;
    TailOf(d, objs);
    NoZeroes(d, objs);
    if fid != 0 {
      PairRegion(d.region, d.end, Entry(fid, 0, 0));
    } else {
      SplicedAt(d.region, d.end, ZERO);
    }
  }

  lemma SplicedAt(region: seq<Entry>, at: nat, e: Entry)
    requires at < |region|
    ensures Splice(region, at, [e])[at] == e && |Splice(region, at, [e])| == |region|
    ensures e == ZERO ==> EndOf(Splice(region, at, [e])) <= at
  {}

  /** Whatever is appended after the tombstone of fid 0 is lost at the next restart,
      although each append succeeded. */
  lemma ZeroTombstoneHides(d: Disk, objs: Objects, grid: seq<byte>, es: seq<Entry>)
    requires Inv(d, objs) && !d.fault && d.end + 1 + |es| <= MAX_ENTRIES
    ensures |d.region| == MAX_ENTRIES
    ensures var d1 := AppendTombstone(d, 0).0;
            ReplayRegion(d.slots, grid, Splice(d1.region, d1.end, es)) == ReplayRegion(d.slots, grid, d.region)
  {
    hide Inv, TailClean, ReplayRegion, EndOf;
    TailOf(d, objs);
    NoZeroes(d, objs);
    EndOfIs(d.region, d.end);
    var region' := Splice(AppendTombstone(d, 0).0.region, d.end + 1, es);
    assert region'[..d.end] == d.region[..d.end];
    SameReplay(d.slots, grid, d.region, region', d.end);
  }

  /** In particular an object committed after it is gone. */
  lemma CommitAfterZeroTombstone(d: Disk, objs: Objects, fid: nat, size: nat, iv: Interval)
    requires Inv(d, objs) && !d.fault && d.end + 2 <= MAX_ENTRIES && fid !in objs
    ensures |d.region| == MAX_ENTRIES
    ensures var d1 := AppendTombstone(d, 0).0;
            var d2 := Appended(d1, Plain(fid, size), iv);
            fid in d2.confirmed && Open(d2).Ok? && fid !in Open(d2).value.confirmed
  {
    hide Inv, ReplayRegion, Splice;
    TailOf(d, objs);
    ZeroTombstoneHides(d, objs, d.grid, RecEntries(Plain(fid, size)));
    ReplayAgrees(d, objs);
  }

  // ----- a table stored under fid 0 -----

  /** A log that goes on with an anchor of fid 0 is refused, whatever follows. */
  lemma ZeroAnchorRefused(d: Disk, objs: Objects, grid: seq<byte>, region': seq<Entry>)
    requires Inv(d, objs) && d.end + 1 <= |region'| == |d.region|
    requires region'[..d.end] == d.region[..d.end] && region'[d.end] == Entry(0, PACKED_SENTINEL, PACKED_ANCHOR_CODE)
    ensures ReplayRegion(d.slots, grid, region').Err?
  {
    hide Inv, EndOf, ReplayLog, Finish;
    NoZeroes(d, objs);
    var e := region'[d.end];
    LongerEnd(d.region, region', d.end, e);
    var log := region'[..EndOf(region')];
    RefusedZero(d.slots, d.region[..d.end], e);
    assert log[..d.end + 1] == region'[..d.end + 1];
    RejectedPrefix(d.slots, log, d.end + 1);
  }

  lemma ZeroAnchor(d: Disk, objs: Objects, size: nat)
    requires Inv(d, objs) && !d.fault && d.end + 2 <= MAX_ENTRIES
    ensures |d.region| == MAX_ENTRIES && Open(AppendAnchor(d, 0, size).0).Err?
  {
    hide Inv, ReplayRegion;
    TailOf(d, objs);
    AnchorEntries(size);
    ZeroAnchorRefused(d, objs, d.grid, AppendAnchor(d, 0, size).0.region);
  }

  lemma AnchorEntries(size: nat)
    ensures RecEntries(Table(0, 0, size)) == [Entry(0, PACKED_SENTINEL, PACKED_ANCHOR_CODE), Entry(0, size, 0)]
  {}

  lemma RefusedZero(slots: nat, log: seq<Entry>, e: Entry)
    requires e == Entry(0, PACKED_SENTINEL, PACKED_ANCHOR_CODE)
    ensures ReplayLog(slots, log + [e]).Err?
  {
    hide ReplayLog, Extent;
    ReplayAppend(slots, log, e);
  }

  lemma LongerEnd(region: seq<Entry>, region': seq<Entry>, end: nat, e: Entry)
    requires end + 1 <= |region| == |region'| && ZERO !in region[..end] && e != ZERO
    requires region'[..end] == region[..end] && region'[end] == e
    ensures EndOf(region') >= end + 1 && region'[..end + 1] == region[..end] + [e]
  {
    hide EndOf;
    assert region'[..end + 1] == region[..end] + [e];
    forall i | 0 <= i <= end ensures region'[i] != ZERO {
      if i < end { assert region'[..end][i] in region[..end]; }
    }
  }

  /** Anchoring a table leaves a disk that opens exactly if the table's fid is not 0. */
  lemma AnchorOpens(d: Disk, objs: Objects, recs: seq<Rec>, fid: nat, size: nat, t: Table)
    requires Inv(d, objs) && !d.fault && recs == Recs(d) && d.end + 2 <= MAX_ENTRIES
    requires fid != 0 ==> Anchorable(d, objs, recs, fid, size, t)
    ensures |d.region| == MAX_ENTRIES
    ensures Open(AppendAnchor(d, fid, size).0).Ok? <==> fid != 0
  {
    hide Inv, Anchorable, Open, Recs, Splice, TailClean, EndOf;
    TailOf(d, objs);
    if fid == 0 {
      ZeroAnchor(d, objs, size);
    } else {
      AnchorKeeps(d, objs, recs, fid, size, t);
      OpenServes(AppendAnchor(d, fid, size).0, objs);
    }
  }

  // ----- compacted logs are scanned whole -----

  ghost predicate KeysFit(recs: seq<Rec>) {
    forall r, k :: r in recs && k in RecKeys(r) ==> 0 < k < TWO_64
  }

  lemma {:induction false} CompactedEntries(slots: nat, recs: seq<Rec>)
    requires slots < SLOT_LIMIT && RecsOk(slots, recs) && KeysFit(recs)
    ensures forall e :: e in WriteLog(recs) ==> Clean(e)
  {
    if recs != [] {
      var front, last := recs[..|recs| - 1], recs[|recs| - 1];
      assert last in recs && forall r :: r in front ==> r in recs;
      hide RecsOk;
      CompactedEntries(slots, front);
      assert RecOk(slots, last);
      assert last.fid in RecKeys(last) && StorageFid(last) in RecKeys(last);
      forall e | e in RecEntries(last) ensures Clean(e) {}
    }
  }

  lemma FilledEnd(log: seq<Entry>)
    requires |log| <= MAX_ENTRIES && ZERO !in log
    ensures EndOf(log + ZeroEntries(MAX_ENTRIES - |log|)) == |log|
  {
    hide EndOf;
    var region := log + ZeroEntries(MAX_ENTRIES - |log|);
    assert region[..|log|] == log;
    EndOfIs(region, |log|);
  }

  /** A compacted log of nonzero fids has no tombstones, so the next scan of it is
      never cut, however long it is. */
  lemma CompactedScansWhole(slots: nat, recs: seq<Rec>)
    requires slots < SLOT_LIMIT && RecsOk(slots, recs) && KeysFit(recs) && |WriteLog(recs)| <= MAX_ENTRIES
    ensures ScansWhole(WriteLog(recs) + ZeroEntries(MAX_ENTRIES - |WriteLog(recs)|))
  {
    hide WriteLog, RecsOk, KeysFit, EndOf, ScanEnd;
    CompactedEntries(slots, recs);
    var log := WriteLog(recs);
    var region := log + ZeroEntries(MAX_ENTRIES - |log|);
    FilledEnd(log);
    forall k | 0 <= k < EndOf(region) ensures Clean(region[k]) { assert region[k] in log; }
    CleanScan(region);
  }

  lemma {:induction false} EnginePrefix(slots: nat, log: seq<Entry>, n: nat)
    requires Engine(slots, log) && n <= |log|
    ensures Engine(slots, log[..n])
    decreases |log|
  {
    if n < |log| {
      hide StepOk, Collect;
      assert log[..|log| - 1][..n] == log[..n];
      EnginePrefix(slots, log[..|log| - 1], n);
    } else {
      assert log[..n] == log;
    }
  }

  lemma EngineOf(d: Disk, objs: Objects)
    requires Inv(d, objs)
    ensures Shape(d) && Engine(d.slots, d.region[..d.end]) && Log(d) == d.region[..d.end]
  {
    hide Engine, Collect, Holds, Space, TailClean;
  }

  lemma ScanEndInside(region: seq<Entry>)
    ensures ScanEnd(region) <= EndOf(region)
  {
    hide EndOf, CutAt, RegionBytes;
  }
}
