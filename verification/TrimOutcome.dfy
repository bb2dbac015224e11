/** What a Trim comes to, wherever it stops: what is stored before is stored after and
    read now and after a restart, and a finished Trim frees exactly what it packed.
    Two things are asked, both known before it starts: the scans must reach the end of
    the log, and the table's hash must not be 0. */
module TrimOutcome {
  import opened Layout
  import opened IndexEntry
  import opened IndexLog
  import opened PackedTable
  import opened Replay
  import opened IndexScan
  import opened Store
  import opened StoreSteps
  import D = DiskState
  import opened DiskSteps
  import opened TrimSteps
  import opened Trim
  import T = TrimRun
  import F = Faults
  import opened TrimSpec
  import opened TrimSelection
  import opened TrimProgress

  // ----- a candidate with fid 0 -----

  /** m is the disk v with tombstones appended of which the first is of fid 0: it ends
      the log of v, and whatever follows is behind the end. */
  ghost predicate Shadow(m: Disk, v: Disk) {
    && m == v.(region := m.region, end := m.end)
    && v.end < m.end <= |m.region| == |v.region|
    && m.region[..v.end] == v.region[..v.end] && m.region[v.end] == ZERO
  }

  lemma ShadowStarts(v: Disk)
    requires |v.region| == MAX_ENTRIES
    ensures var (d, r) := D.AppendTombstone(v, 0);
            (r.Ok? <==> v.end + 1 <= MAX_ENTRIES) && (if r.Ok? then Shadow(d, v) && d.end == v.end + 1 else d == v)
  {}

  lemma ShadowStep(m: Disk, v: Disk, fid: nat)
    requires |m.region| == MAX_ENTRIES && Shadow(m, v)
    ensures var (d, r) := D.AppendTombstone(m, fid);
            && (r.Ok? <==> m.end + 1 <= MAX_ENTRIES) && Shadow(d, v) && |d.region| == MAX_ENTRIES
            && (if r.Ok? then d.end == m.end + 1 else d == m)
  {}

  lemma {:induction false} BuryShadow(m: Disk, v: Disk, fids: seq<nat>, i: nat)
    requires |m.region| == MAX_ENTRIES && i <= |fids| && Shadow(m, v)
    ensures var (d, r) := BuryAll(m, fids, i);
            (r.Ok? <==> m.end + (|fids| - i) <= MAX_ENTRIES) && Shadow(d, v)
    decreases |fids| - i
  {
    hide Shadow, D.AppendTombstone;
    ShadowInside(m, v);
    if i < |fids| {
      ShadowStep(m, v, fids[i]);
      var (d, r) := D.AppendTombstone(m, fids[i]);
      if r.Ok? { BuryShadow(d, v, fids, i + 1); }
    }
  }

  lemma ShadowInside(m: Disk, v: Disk)
    requires Shadow(m, v)
    ensures m.end <= |m.region|
  {}

  lemma ShadowEnds(m: Disk, v: Disk, objs: Objects)
    requires Shadow(m, v) && D.Inv(v, objs) && !v.fault
    ensures EndOf(v.region) == EndOf(m.region) == v.end && ScanEnd(m.region) == ScanEnd(v.region)
    ensures forall grid :: ReplayRegion(v.slots, grid, m.region) == ReplayRegion(v.slots, grid, v.region)
    ensures !D.Inv(m, objs)
  {
    hide D.Inv, D.TailClean, EndOf, ReplayRegion, ScanEnd;
    F.OpenServes(v, objs);
    F.NoZeroes(v, objs);
    assert m.region[..v.end] == v.region[..v.end];
    EndOfIs(m.region, v.end);
    ScanSame(m.region, v.region);
    ReplaySame(m, v);
    ZeroInside(m, v);
    if D.Inv(m, objs) { F.NoZeroes(m, objs); }
  }

  lemma ZeroInside(m: Disk, v: Disk)
    requires Shadow(m, v)
    ensures m.end <= |m.region| && ZERO in m.region[..m.end]
  {
    assert m.region[..m.end][v.end] == ZERO;
  }

  lemma ReplaySame(m: Disk, v: Disk)
    requires EndOf(v.region) == EndOf(m.region) == v.end && Shadow(m, v)
    ensures forall grid :: ReplayRegion(v.slots, grid, m.region) == ReplayRegion(v.slots, grid, v.region)
  {
    hide EndOf, ReplayEntries;
  }

  /** Memory and a restart serve what v serves. */
  lemma ShadowReads(m: Disk, v: Disk, objs: Objects)
    requires Shadow(m, v) && D.Inv(v, objs) && !v.fault
    ensures F.Serves(m, objs) && D.Open(m).Ok? && F.Serves(D.Open(m).value, objs)
  {
    hide D.Inv, EndOf, ReplayRegion, ReadRef, D.Open;
    ShadowEnds(m, v, objs);
    F.OpensAlike(v, m);
    F.OpenServes(v, objs);
    forall f ensures D.Read(m, f) == if f in objs then Ok(objs[f]) else Err(NotFound) {
      ReadsObjects(v, objs, f);
      assert D.Read(m, f) == D.Read(v, f);
    }
    hide Shadow;
    F.ServesAlike(D.Open(v).value, m.region, objs);
  }

  /** But whatever is appended to it is not replayed. */
  lemma ShadowHides(m: Disk, v: Disk, objs: Objects, es: seq<Entry>)
    requires Shadow(m, v) && D.Inv(v, objs) && !v.fault && m.end + |es| <= |m.region|
    ensures ReplayRegion(v.slots, v.grid, D.Splice(m.region, m.end, es)) == ReplayRegion(v.slots, v.grid, v.region)
  {
    hide D.Inv, EndOf, ReplayRegion;
    ShadowEnds(m, v, objs);
    var region' := D.Splice(m.region, m.end, es);
    assert region'[..v.end] == v.region[..v.end] && region'[v.end] == ZERO;
    F.SameReplay(v.slots, v.grid, m.region, region', v.end);
  }

  /** Compaction reads the same records from both, and so leaves the same disk. */
  lemma CompactSame(m: Disk, v: Disk, objs: Objects)
    requires Shadow(m, v) && D.Inv(v, objs) && !v.fault
    ensures |m.region| == |v.region| == MAX_ENTRIES
    ensures D.ScansWhole(m.region) <==> D.ScansWhole(v.region)
    ensures D.CompactIndex(m).1 == D.CompactIndex(v).1
    ensures D.CompactIndex(v).1.Ok? ==> D.CompactIndex(m).0 == D.CompactIndex(v).0
  {
    hide D.Inv, EndOf, ReplayRegion, ScanEnd, Collect, WriteLog, Validate, D.ZeroEntries;
    ConfirmedKeys(v, objs);
    ShadowEnds(m, v, objs);
    ScanWithin(v.region);
    assert m.region[..ScanEnd(m.region)] == v.region[..ScanEnd(v.region)];
  }

  lemma ScanWithin(region: seq<Entry>)
    ensures ScanEnd(region) <= EndOf(region) <= |region|
  {
    F.ScanEndInside(region);
    hide ScanEnd;
  }

  /** Burying all candidates: v is the disk whose log ends before a tombstone of fid 0,
      or at the last tombstone that fits. */
  lemma {:induction false} BuryOutcome(m0: Disk, objs0: Objects, m: Disk, objs: Objects, ts: TrimState, recs0: seq<Rec>)
    returns (v: Disk)
    requires Going(m0, objs0, m, objs, ts) && ts.Loaded? && ts.done <= ZeroAt(ts.cands)
    requires D.Recs(m) == RemoveAll(recs0, ts.cands, ts.done)
    ensures |m.region| == MAX_ENTRIES
    ensures var (d, r) := BuryAll(m, ts.cands, ts.done);
            && (r.Ok? <==> m.end + (|ts.cands| - ts.done) <= MAX_ENTRIES)
            && Going(m0, objs0, v, objs, Idle) && !v.fault && v.end <= m.end + (|ts.cands| - ts.done)
            && (d == v || (Shadow(d, v) && 0 in ts.cands))
            && (r.Ok? ==> D.Recs(v) == RemoveAll(recs0, ts.cands, ZeroAt(ts.cands)) && (d == v <==> 0 !in ts.cands))
    decreases |ts.cands| - ts.done
  {
    hide Going, D.AppendTombstone, D.Recs, TrimInv, Shadow, RemoveAll;
    Abandoned(m0, objs0, m, objs, ts);
    NoFaultGoing(m0, objs0, m, objs, ts);
    v := m;
    if ts.done < |ts.cands| {
      var (d1, r1) := D.AppendTombstone(m, ts.cands[ts.done]);
      if ts.done == ZeroAt(ts.cands) {
        assert ts.cands[ts.done] == 0;
        ShadowStarts(m);
        if r1.Ok? {
          TombstoneEnd(m, 0);
          BuryShadow(d1, m, ts.cands, ts.done + 1);
          ShadowDiffers(BuryAll(m, ts.cands, ts.done).0, m);
        }
      } else {
        TombstoneEnd(m, ts.cands[ts.done]);
        if r1.Ok? {
          BuryGoesOn(m0, objs0, m, objs, ts);
          BuryRecords(m0, objs0, m, objs, ts);
          RemovedNext(recs0, ts.cands, ts.done);
          v := BuryOutcome(m0, objs0, d1, objs, ts.(done := ts.done + 1), recs0);
        }
      }
    } else {
      NoZero(ts.cands);
    }
  }

  lemma RemovedNext(recs: seq<Rec>, fids: seq<nat>, n: nat)
    requires n < |fids|
    ensures RemoveAll(recs, fids, n + 1) == Remove(RemoveAll(recs, fids, n), fids[n])
  {
    hide Remove;
  }

  lemma NoZero(fids: seq<nat>)
    ensures 0 in fids <==> ZeroAt(fids) < |fids|
  {}

  lemma TombstoneEnd(m: Disk, fid: nat)
    requires |m.region| == MAX_ENTRIES
    ensures var (d, r) := D.AppendTombstone(m, fid);
            && (r.Ok? <==> m.end + 1 <= MAX_ENTRIES) && |d.region| == MAX_ENTRIES
            && (if r.Ok? then d.end == m.end + 1 else d == m)
  {}

  lemma ShadowDiffers(m: Disk, v: Disk)
    requires Shadow(m, v)
    ensures m != v
  {}

  lemma NoFaultGoing(m0: Disk, objs0: Objects, m: Disk, objs: Objects, ts: TrimState)
    requires Going(m0, objs0, m, objs, ts) && !ts.Idle?
    ensures !m.fault
  {
    hide D.Inv, TrimOk;
  }

  // ----- from the anchor on -----

  /** The last scan, if Trim comes to it, reaches the end of the log. */
  ghost predicate LastScanWhole(m: Disk, cands: seq<Candidate>, t: Candidate)
    requires |m.region| == MAX_ENTRIES
  {
    Switch(m, cands, t, AfterDelete).1 == Err(Stopped) ==> D.ScansWhole(Switch(m, cands, t, AfterDelete).0.region)
  }

  /** The checks before anything is buried pass. */
  lemma VerifyGoes(m0: Disk, objs0: Objects, m: Disk, objs: Objects, ts: TrimState, cands: seq<Candidate>)
    requires Going(m0, objs0, m, objs, ts) && ts.Loaded? && ts.done == 0 && ts.cands == FidsOf(cands)
             && SizesRight(objs, cands)
    ensures T.VerifyPacked(m, FidsOf(cands), SizesOf(cands))
  {
    hide D.Inv, D.Recs, T.VerifyPacked, TableRefs, LoadedFor, Waiting;
    assert ts.cands[0..] == ts.cands;
    T.VerifyPasses(m, objs, FidsOf(cands), SizesOf(cands), ts.table);
  }

  lemma AnchorEnd(m: Disk, t: Candidate)
    requires |m.region| == MAX_ENTRIES
    ensures var (d, r) := D.AppendAnchor(m, t.fid, t.size);
            && (r.Ok? <==> m.end + 2 <= MAX_ENTRIES) && |d.region| == MAX_ENTRIES
            && (if r.Ok? then d.end == m.end + 2 else d == m)
  {}

  lemma LoadEnd(m: Disk, fid: nat)
    ensures D.LoadPackedTable(m, fid).0.end == m.end && D.LoadPackedTable(m, fid).0.region == m.region
  {
    hide D.Read, DecodeTable;
  }

  /** The table is anchored and loaded: the disk before the first tombstone. */
  lemma LoadedOutcome(m0: Disk, objs0: Objects, m: Disk, objs: Objects, ts: TrimState, cands: seq<Candidate>,
                      recs0: seq<Rec>, c: Candidate, t: Candidate)
    returns (d2: Disk, ts2: TrimState)
    requires Going(m0, objs0, m, objs, ts) && ts.TableDone? && ts.cands == FidsOf(cands) && SizesRight(objs, cands)
    requires t == Candidate(ts.tableFid, ts.tableSize) && t.fid != 0
    requires D.Recs(m) == recs0 + [Plain(c.fid, c.size)] + [Plain(t.fid, t.size)]
    requires m.end + 2 <= MAX_ENTRIES
    ensures |m.region| == MAX_ENTRIES
    ensures var d1 := D.AppendAnchor(m, t.fid, t.size).0;
            && Going(m0, objs0, d1, objs, Idle) && !d1.fault && d1.end == m.end + 2
            && D.Recs(d1) == Switched(recs0, c, t)
            && D.LoadPackedTable(d1, t.fid).0 == d2 && D.LoadPackedTable(d1, t.fid).1.Ok?
    ensures Going(m0, objs0, d2, objs, ts2) && ts2.Loaded? && ts2.cands == ts.cands && ts2.done == 0
    ensures T.VerifyPacked(d2, FidsOf(cands), SizesOf(cands))
    ensures D.Recs(d2) == Switched(recs0, c, t) && d2.end == m.end + 2
    ensures RecsOk(m0.slots, Switched(recs0, c, t))
  {
    hide Going, D.AppendAnchor, D.LoadPackedTable, D.Recs, TrimInv, T.VerifyPacked, Remove, RecsOk, SizesRight;
    Abandoned(m0, objs0, m, objs, ts);
    AnchorEnd(m, t);
    AnchorGoesOn(m0, objs0, m, objs, ts);
    AnchorRecords(m0, objs0, m, objs, ts);
    var d1 := D.AppendAnchor(m, t.fid, t.size).0;
    var ts1 := Anchored(ts.cands, ts.table, ts.tableFid, ts.tableSize);
    Abandoned(m0, objs0, d1, objs, ts1);
    NoFaultGoing(m0, objs0, d1, objs, ts1);
    LoadGoesOn(m0, objs0, d1, objs, ts1);
    LoadRecords(d1, t.fid);
    LoadEnd(d1, t.fid);
    d2, ts2 := D.LoadPackedTable(d1, t.fid).0, Loaded(ts.cands, ts.table, ts.tableFid, ts.tableSize, 0);
    VerifyGoes(m0, objs0, d2, objs, ts2, cands);
    GoingRecs(m0, objs0, d1, objs, ts1);
  }

  lemma GoingRecs(m0: Disk, objs0: Objects, m: Disk, objs: Objects, ts: TrimState)
    requires Going(m0, objs0, m, objs, ts)
    ensures RecsOk(m0.slots, D.Recs(m)) && m.slots == m0.slots
  {
    hide D.Inv, TrimInv, D.Recs, RecsOk;
    RecsAreOk(m, objs);
  }

  /** What the disk comes to from the anchor on, seen as v: the disk itself, or the one
      whose log ends at the tombstone of fid 0. */
  ghost predicate Ends(m0: Disk, objs0: Objects, objs: Objects, d: Disk, r: Result<()>, v: Disk, fids: seq<nat>) {
    && Going(m0, objs0, v, objs, Idle) && v.fault == false
    && (d == v || (Shadow(d, v) && 0 in fids && r.Err?))
  }

  lemma RemovedNone(recs: seq<Rec>, fids: seq<nat>)
    ensures RemoveAll(recs, fids, 0) == recs
  {}

  /** Compaction of the disk, or of the one that ends at the tombstone of fid 0. */
  lemma CompactOutcome(m0: Disk, objs0: Objects, d: Disk, v: Disk, objs: Objects) returns (v': Disk)
    requires Going(m0, objs0, v, objs, Idle) && !v.fault && (d == v || Shadow(d, v)) && D.ScansWhole(d.region)
    ensures |d.region| == MAX_ENTRIES && D.CompactIndex(d).0 == v' && D.CompactIndex(d).1.Ok?
    ensures Going(m0, objs0, v', objs, Idle) && !v'.fault && v'.end <= v.end
    ensures v'.intervals == MeaningOf(m0.slots, D.Recs(v')).extents.Values && D.Recs(v') == D.Recs(v)
    ensures D.Log(v') == WriteLog(D.Recs(v'))
  {
    hide D.Log, WriteLog, D.Inv, TrimInv, D.CompactIndex, D.Recs, MeaningOf, D.ScansWhole, Shadow, Extends;
    ConfirmedKeys(v, objs);
    if d != v { CompactSame(d, v, objs); }
    CompactGoesOn(m0, objs0, v, objs);
    v' := D.CompactIndex(v).0;
  }

  lemma {:induction false} RemoveFront(recs: seq<Rec>, fids: seq<nat>, n: nat, k: nat)
    requires n <= k <= |fids|
    ensures RemoveAll(recs, fids[..k], n) == RemoveAll(recs, fids, n)
  {
    hide Remove;
    if n > 0 { RemoveFront(recs, fids, n - 1, k); }
  }

  /** A finished Trim: the log is the records and nothing else, and the confirmed extents
      are exactly those before, without those of the candidates packed, with the
      container's and the table's. */
  ghost predicate Done(slots: nat, recs0: seq<Rec>, d: Disk, fids: seq<nat>, c: Candidate, t: Candidate) {
    && D.Log(d) == WriteLog(D.Recs(d))
    && d.intervals == MeaningOf(slots, D.Recs(d)).extents.Values
    && FreesExactly(slots, MeaningOf(slots, recs0).extents, MeaningOf(slots, D.Recs(d)).extents,
       fids[..ZeroAt(fids)], c, t)
  }

  lemma DoneHere(m0: Disk, objs0: Objects, m: Disk, objs: Objects, ts: TrimState, recs0: seq<Rec>, c: Candidate,
                 t: Candidate, d: Disk)
    requires Going(m0, objs0, m, objs, ts) && ts.TableDone? && t == Candidate(ts.tableFid, ts.tableSize)
    requires D.Recs(m) == recs0 + [Plain(c.fid, c.size)] + [Plain(t.fid, t.size)]
    requires RecsOk(m0.slots, Switched(recs0, c, t)) && d.intervals == MeaningOf(m0.slots, D.Recs(d)).extents.Values
    requires D.Recs(d) == RemoveAll(Switched(recs0, c, t), ts.cands, ZeroAt(ts.cands))
    requires D.Log(d) == WriteLog(D.Recs(d))
    ensures Done(m0.slots, recs0, d, ts.cands, c, t)
  {
    hide Going, D.Recs, RecsOk, Switched, RemoveAll, FreesExactly, HasPlain, MeaningOf, D.Log, WriteLog;
    GoingSized(m0, objs0, m, objs, ts);
    GoingRecs(m0, objs0, m, objs, ts);
    TablesReady(m0, objs0, m, objs, ts, recs0, c);
    var packed := ts.cands[..ZeroAt(ts.cands)];
    FreesExactlyPacked(m0.slots, recs0, D.Recs(m), packed, c, t);
    RemoveFront(Switched(recs0, c, t), ts.cands, |packed|, |packed|);
  }

  /** How many tombstones Trim writes before it stops. */
  function Tombstones(failPoint: FailPoint, cands: seq<Candidate>): nat {
    if failPoint == AfterAnchorAppend then 0 else |cands|
  }

  lemma SwitchOutcome(m0: Disk, objs0: Objects, m: Disk, objs: Objects, ts: TrimState, cands: seq<Candidate>,
                      recs0: seq<Rec>, c: Candidate, t: Candidate, failPoint: FailPoint)
    returns (v: Disk)
    requires Going(m0, objs0, m, objs, ts) && ts.TableDone? && ts.cands == FidsOf(cands) && SizesRight(objs, cands)
    requires t == Candidate(ts.tableFid, ts.tableSize) && t.fid != 0
    requires D.Recs(m) == recs0 + [Plain(c.fid, c.size)] + [Plain(t.fid, t.size)]
    requires failPoint == Nowhere || failPoint == AfterAnchorAppend || failPoint == AfterDelete
    requires |m.region| == MAX_ENTRIES && (failPoint == Nowhere ==> LastScanWhole(m, cands, t))
    ensures var (d, r) := Switch(m, cands, t, failPoint);
            && Ends(m0, objs0, objs, d, r, v, FidsOf(cands)) && v.end <= m.end + 2 + |cands|
            && (r.Ok? <==> failPoint == Nowhere && m.end + 2 + |cands| <= MAX_ENTRIES)
            && (r.Ok? ==> Done(m0.slots, recs0, d, FidsOf(cands), c, t))
            && (m.end + 2 + Tombstones(failPoint, cands) <= MAX_ENTRIES ==>
                  && D.Recs(v) == StepRecs(recs0, FidsOf(cands), c, t, failPoint)
                  && (failPoint != Nowhere ==> r == Err(Stopped)))
  {
    hide Going, D.AppendAnchor, D.LoadPackedTable, D.Recs, TrimInv, T.VerifyPacked, Remove, RecsOk, SizesRight,
         Switched, RemoveAll, Shadow, BuryAll, D.CompactIndex, D.ScansWhole, MeaningOf, Done;
    Abandoned(m0, objs0, m, objs, ts);
    NoFaultGoing(m0, objs0, m, objs, ts);
    AnchorEnd(m, t);
    v := m;
    if m.end + 2 <= MAX_ENTRIES {
      var d2, ts2 := LoadedOutcome(m0, objs0, m, objs, ts, cands, recs0, c, t);
      v := D.AppendAnchor(m, t.fid, t.size).0;
      if failPoint != AfterAnchorAppend {
        RemovedNone(Switched(recs0, c, t), FidsOf(cands));
        v := BuryOutcome(m0, objs0, d2, objs, ts2, Switched(recs0, c, t));
        var (d3, r3) := BuryAll(d2, FidsOf(cands), 0);
        if r3.Ok? && failPoint == Nowhere {
          v := CompactOutcome(m0, objs0, d3, v, objs);
          DoneHere(m0, objs0, m, objs, ts, recs0, c, t, v);
        }
      }
    } else {
      assert D.AppendAnchor(m, t.fid, t.size).1.Err?;
    }
  }

  // ----- from the table on -----

  /** Trim goes on to the anchor. */
  predicate Anchors(failPoint: FailPoint) {
    failPoint == Nowhere || failPoint == AfterAnchorAppend || failPoint == AfterDelete
  }

  lemma WriteEnd(m: Disk, fid: nat, data: seq<byte>)
    requires Sized(m)
    ensures var (d, r) := D.WriteObject(m, fid, data); d.end == m.end + (if r.Ok? then 1 else 0)
  {
    hide D.AnyOverlap, D.Zeros;
  }

  lemma GoingSized(m0: Disk, objs0: Objects, m: Disk, objs: Objects, ts: TrimState)
    requires Going(m0, objs0, m, objs, ts)
    ensures Sized(m) && D.Shape(m)
  {
    hide D.Inv, TrimInv;
    ConfirmedKeys(m, objs);
  }

  /** The stored objects with the container, if it gets written. */
  ghost function WithContainer(d: Disk, objs: Objects, hash: Hash, data: seq<byte>): Objects
    requires Sized(d)
  {
    var c := ContainerFrom(d, hash, data, 0);
    if c.written.Ok? then objs[c.written.value.fid := data + NonceTail(c.nonce)] else objs
  }

  /** The stored objects with the table, if it gets written. */
  ghost function WithTable(d: Disk, objs: Objects, hash: Hash, container: Candidate, entries: seq<TableEntry>): Objects
    requires Sized(d)
  {
    var header := HeaderFor(d, container, entries);
    var t := TableFrom(d, hash, header, entries, 0);
    if t.written.Ok? then objs[t.written.value.fid := EncodeTable(header.(reserved := t.nonce), entries)] else objs
  }

  /** Writing the table: it is stored, or nothing is. */
  lemma TableOutcome(m0: Disk, objs0: Objects, m: Disk, objs: Objects, ts: TrimState, hash: Hash)
    returns (objs': Objects, ts': TrimState)
    requires Going(m0, objs0, m, objs, ts) && ts.ContainerDone? && m.diskID < TWO_64 && Sized(m)
    ensures var t := TableFrom(m, hash, HeaderFor(m, Candidate(ts.container, ts.size), ts.entries), ts.entries, 0);
            && Going(m0, objs0, t.disk, objs', ts') && t.disk.end == m.end + (if t.written.Ok? then 1 else 0)
            && objs' == WithTable(m, objs, hash, Candidate(ts.container, ts.size), ts.entries)
            && (t.written.Ok? ==>
                  && ts'.TableDone? && ts'.cands == ts.cands
                     && Candidate(ts'.tableFid, ts'.tableSize) == t.written.value
                  && t.written.value.fid !in objs
                  && objs'.Keys == objs.Keys + {t.written.value.fid} && Extends(objs, objs')
                  && D.Recs(t.disk) == D.Recs(m) + [Plain(t.written.value.fid, t.written.value.size)])
  {
    hide Going, D.WriteObject, EncodeTable, D.Recs, TrimInv;
    GoingSized(m0, objs0, m, objs, ts);
    var header := HeaderFor(m, Candidate(ts.container, ts.size), ts.entries);
    TableAttempt(m, hash, header, ts.entries, 0);
    var t := TableFrom(m, hash, header, ts.entries, 0);
    var listing := T.NewTable(m, ts, t.nonce);
    var blob := T.TableBlob(listing);
    assert blob == EncodeTable(header.(reserved := t.nonce), ts.entries);
    TableGoesOn(m0, objs0, m, objs, ts, hash(blob), t.nonce);
    WroteRecords(m0, objs0, m, objs, ts, hash(blob), blob);
    WriteEnd(m, hash(blob), blob);
    if t.written.Ok? {
      WroteNew(m0, objs0, m, objs, ts, hash(blob), blob);
      objs', ts' := objs[hash(blob) := blob], TableDone(ts.cands, listing, hash(blob), |blob|);
    } else {
      objs', ts' := objs, Idle;
    }
  }

  lemma WroteNew(m0: Disk, objs0: Objects, m: Disk, objs: Objects, ts: TrimState, fid: nat, data: seq<byte>)
    requires Going(m0, objs0, m, objs, ts)
    ensures D.Shape(m)
    ensures D.WriteObject(m, fid, data).1.Ok? ==> fid !in objs && Extends(objs, objs[fid := data])
  {
    hide D.Inv, TrimInv, D.WriteObject, D.Recs;
    ConfirmedKeys(m, objs);
    WriteObjectKeeps(m, objs, fid, data);
  }

  lemma GoingFault(m0: Disk, objs0: Objects, m: Disk, objs: Objects, ts: TrimState)
    requires Going(m0, objs0, m, objs, ts)
    ensures m.fault == m0.fault
  {
    hide D.Inv, TrimInv, Extends;
  }

  lemma SizesKept(objs: Objects, objs': Objects, cands: seq<Candidate>)
    requires SizesRight(objs, cands) && Extends(objs, objs')
    ensures SizesRight(objs', cands)
  {}

  lemma PackOutcome(m0: Disk, objs0: Objects, m: Disk, objs: Objects, ts: TrimState, cands: seq<Candidate>,
                    recs0: seq<Rec>, c: Candidate, hash: Hash, failPoint: FailPoint)
    returns (objs': Objects, v: Disk)
    requires Going(m0, objs0, m, objs, ts) && ts.ContainerDone? && ts.cands == FidsOf(cands) && SizesRight(objs, cands)
    requires c == Candidate(ts.container, ts.size) && D.Recs(m) == recs0 + [Plain(c.fid, c.size)]
    requires m.diskID < TWO_64 && Sized(m) && !m.fault
    requires failPoint == AfterTableWrite || Anchors(failPoint)
    requires var t := TableFrom(m, hash, HeaderFor(m, c, ts.entries), ts.entries, 0);
             t.written.Ok? && Anchors(failPoint) ==>
               && t.written.value.fid != 0 && |t.disk.region| == MAX_ENTRIES
               && (failPoint == Nowhere ==> LastScanWhole(t.disk, cands, t.written.value))
    ensures var t := TableFrom(m, hash, HeaderFor(m, c, ts.entries), ts.entries, 0).written;
            var (d, r) := PackTable(m, hash, cands, ts.entries, c, failPoint);
            && Ends(m0, objs0, objs', d, r, v, FidsOf(cands)) && v.end <= m.end + 3 + |cands|
            && (r.Ok? <==> failPoint == Nowhere && t.Ok? && m.end + 3 + |cands| <= MAX_ENTRIES)
            && (r.Ok? ==> Done(m0.slots, recs0, d, FidsOf(cands), c, t.value))
            && (t.Ok? && (Anchors(failPoint) ==> m.end + 3 + Tombstones(failPoint, cands) <= MAX_ENTRIES) ==>
                  && D.Recs(v) == StepRecs(recs0, FidsOf(cands), c, t.value, failPoint)
                  && (failPoint != Nowhere ==> r == Err(Stopped)))
            && objs' == WithTable(m, objs, hash, c, ts.entries)
  {
    hide Going, TrimInv, D.Recs, Switch, SizesRight, LastScanWhole, TableFrom, Shadow, Done, RecsOk, MeaningOf,
         RemoveAll, Switched, Extends, WithTable;
    var ts': TrimState;
    objs', ts' := TableOutcome(m0, objs0, m, objs, ts, hash);
    var t := TableFrom(m, hash, HeaderFor(m, c, ts.entries), ts.entries, 0);
    TableAttempt(m, hash, HeaderFor(m, c, ts.entries), ts.entries, 0);
    Abandoned(m0, objs0, t.disk, objs', ts');
    GoingFault(m0, objs0, m, objs, ts);
    GoingFault(m0, objs0, t.disk, objs', ts');
    v := t.disk;
    if t.written.Ok? && Anchors(failPoint) {
      SizesKept(objs, objs', cands);
      v := SwitchOutcome(m0, objs0, t.disk, objs', ts', cands, recs0, c, t.written.value, failPoint);
    }
  }

  // ----- from the container on -----

  /** Building and writing the container: it is stored, or nothing is. */
  lemma ContainerOutcome(d: Disk, objs: Objects, cands: seq<Candidate>, hash: Hash)
    returns (objs': Objects, ts': TrimState)
    requires D.Inv(d, objs) && !d.fault && Waiting(D.Recs(d), objs, FidsOf(cands)) && cands != []
    ensures Sized(d) && BuildContainer(d, FidsOf(cands)).Ok?
    ensures var built := BuildContainer(d, FidsOf(cands)).value;
            var c := ContainerFrom(d, hash, built.data, 0);
            && Sized(c.disk)
            && Going(d, objs, c.disk, objs', ts') && c.disk.end == d.end + (if c.written.Ok? then 1 else 0)
            && objs' == WithContainer(d, objs, hash, built.data)
            && (c.written.Ok? ==>
                  && c.written.value.fid !in objs
                  && ts' == ContainerDone(FidsOf(cands), built.entries, c.written.value.fid, c.written.value.size)
                  && Extends(objs, objs')
                  && D.Recs(c.disk) == D.Recs(d) + [Plain(c.written.value.fid, c.written.value.size)])
  {
    hide D.Inv, Going, D.WriteObject, NonceTail, D.Recs, TrimInv, BuildContainer, Waiting;
    StartsGoing(d, objs, FidsOf(cands));
    var built := BuildContainer(d, FidsOf(cands)).value;
    var ts := Built(FidsOf(cands), built.entries, built.data);
    GoingSized(d, objs, d, objs, ts);
    ContainerAttempt(d, hash, built.data, 0);
    var c := ContainerFrom(d, hash, built.data, 0);
    var data := built.data + NonceTail(c.nonce);
    ContainerGoesOn(d, objs, d, objs, ts, hash(data), NonceTail(c.nonce));
    WroteRecords(d, objs, d, objs, ts, hash(data), data);
    WroteNew(d, objs, d, objs, ts, hash(data), data);
    WriteEnd(d, hash(data), data);
    if c.written.Ok? {
      objs', ts' := objs[hash(data) := data], ContainerDone(FidsOf(cands), built.entries, hash(data), |data|);
    } else {
      objs', ts' := objs, Idle;
    }
  }

  /** What a Trim of these candidates asks: a table that gets anchored is not stored
      under fid 0, and the scan of the final compaction, if Trim comes to it, reaches the
      end of the log. Both are known from the disk before it starts. */
  ghost predicate Careful(d: Disk, hash: Hash, cands: seq<Candidate>, failPoint: FailPoint)
    requires Sized(d)
  {
    && (Anchors(failPoint) && TableMade(d, hash, cands).Some? ==> TableMade(d, hash, cands).value.fid != 0)
    && (failPoint == Nowhere && Repack(d, hash, cands, AfterDelete).1 == Err(Stopped) ==>
          D.ScansWhole(Repack(d, hash, cands, AfterDelete).0.region))
  }

  /** What a Trim of candidates that can be read comes to, and what it writes. */
  lemma RepackCases(d: Disk, hash: Hash, cands: seq<Candidate>, failPoint: FailPoint)
    requires Sized(d) && BuildContainer(d, FidsOf(cands)).Ok?
    ensures var built := BuildContainer(d, FidsOf(cands)).value;
            var c := ContainerFrom(d, hash, built.data, 0);
            && Sized(c.disk)
            && ContainerMade(d, hash, cands) == (if c.written.Ok? then Some(c.written.value) else None)
            && TableMade(d, hash, cands)
               == (if c.written.Ok? then TableAfter(c.disk, hash, c.written.value, built.entries) else None)
            && Repack(d, hash, cands, failPoint)
               == if failPoint == AfterContainerBuild then (d, Err(Stopped))
                  else if c.written.Err? then (c.disk, Err(c.written.error))
                  else if failPoint == AfterContainerWrite then (c.disk, Err(Stopped))
                  else PackTable(c.disk, hash, cands, built.entries, c.written.value, failPoint)
  {
    hide BuildContainer, ContainerFrom, TableFrom, PackTable;
    ContainerAttempt(d, hash, BuildContainer(d, FidsOf(cands)).value.data, 0);
  }

  function TableAfter(d: Disk, hash: Hash, container: Candidate, entries: seq<TableEntry>): Option<Candidate>
    requires Sized(d)
  {
    var t := TableFrom(d, hash, HeaderFor(d, container, entries), entries, 0);
    if t.written.Ok? then Some(t.written.value) else None
  }

  lemma CarefulPack(d: Disk, hash: Hash, cands: seq<Candidate>, failPoint: FailPoint)
    requires Sized(d) && BuildContainer(d, FidsOf(cands)).Ok? && Careful(d, hash, cands, failPoint)
             && ContainerMade(d, hash, cands).Some?
    ensures var built := BuildContainer(d, FidsOf(cands)).value;
            var c := ContainerFrom(d, hash, built.data, 0);
            && Sized(c.disk) && c.written.Ok?
            && var t := TableFrom(c.disk, hash, HeaderFor(c.disk, c.written.value, built.entries), built.entries, 0);
            t.written.Ok? && Anchors(failPoint) ==>
              && t.written.value.fid != 0 && |t.disk.region| == MAX_ENTRIES
              && (failPoint == Nowhere ==> LastScanWhole(t.disk, cands, t.written.value))
  {
    hide BuildContainer, ContainerFrom, TableFrom, Switch, D.ScansWhole;
    RepackCases(d, hash, cands, AfterDelete);
    var built := BuildContainer(d, FidsOf(cands)).value;
    var c := ContainerFrom(d, hash, built.data, 0);
    TableAttempt(c.disk, hash, HeaderFor(c.disk, c.written.value, built.entries), built.entries, 0);
  }

  function The(c: Option<Candidate>): Candidate { if c.Some? then c.value else Candidate(0, 0) }

  /** Trim comes to the given stop: what it writes before can be written. */
  predicate Reaches(d: Disk, cands: seq<Candidate>, c: Option<Candidate>, t: Option<Candidate>, failPoint: FailPoint) {
    && (failPoint != AfterBackup && failPoint != AfterContainerBuild ==> c.Some?)
    && (failPoint == AfterTableWrite || Anchors(failPoint) ==> t.Some?)
    && (Anchors(failPoint) ==> d.end + 4 + Tombstones(failPoint, cands) <= MAX_ENTRIES)
  }

  /** The stored objects with what a Trim stopped there has written. */
  ghost function StoredBy(d: Disk, objs: Objects, hash: Hash, cands: seq<Candidate>, failPoint: FailPoint): Objects
    requires Sized(d)
  {
    var built := BuildContainer(d, FidsOf(cands));
    if failPoint == AfterBackup || failPoint == AfterContainerBuild || built.Err? then objs
    else
      ContainerAttempt(d, hash, built.value.data, 0);
      var c := ContainerFrom(d, hash, built.value.data, 0);
      var objs1 := WithContainer(d, objs, hash, built.value.data);
      if c.written.Err? || failPoint == AfterContainerWrite then objs1
      else WithTable(c.disk, objs1, hash, c.written.value, built.value.entries)
  }

  lemma RepackOutcome(d: Disk, objs: Objects, hash: Hash, cands: seq<Candidate>, failPoint: FailPoint)
    returns (objs': Objects, v: Disk)
    requires D.Inv(d, objs) && !d.fault && d.diskID < TWO_64 && Sized(d) && failPoint != AfterBackup
    requires Waiting(D.Recs(d), objs, FidsOf(cands)) && SizesRight(objs, cands) && cands != []
    requires Careful(d, hash, cands, failPoint)
    ensures var c, t := ContainerMade(d, hash, cands), TableMade(d, hash, cands);
            var (d', r) := Repack(d, hash, cands, failPoint);
            && Ends(d, objs, objs', d', r, v, FidsOf(cands)) && v.end <= d.end + 4 + |cands|
            && (t.Some? ==> c.Some?)
            && (r.Ok? <==> failPoint == Nowhere && t.Some? && d.end + 4 + |cands| <= MAX_ENTRIES)
            && (r.Ok? ==> Done(d.slots, D.Recs(d), d', FidsOf(cands), c.value, t.value))
            && (Reaches(d, cands, c, t, failPoint) ==>
                  && D.Recs(v) == StepRecs(D.Recs(d), FidsOf(cands), The(c), The(t), failPoint)
                  && (failPoint != Nowhere ==> r == Err(Stopped)))
            && objs' == StoredBy(d, objs, hash, cands, failPoint)
  {
    hide D.Inv, Going, TrimInv, D.Recs, SizesRight, ContainerFrom, TableFrom, Shadow, Done, BuildContainer, Waiting,
         PackTable, Extends, Repack, Careful, TableMade, ContainerMade, LastScanWhole, WithContainer, WithTable,
         RemoveAll, Switched;
    Starting(d, objs);
    objs', v := objs, d;
    var ts: TrimState;
    var objs1, ts1 := ContainerOutcome(d, objs, cands, hash);
    RepackCases(d, hash, cands, failPoint);
    if failPoint != AfterContainerBuild {
      var built := BuildContainer(d, FidsOf(cands)).value;
      var c := ContainerFrom(d, hash, built.data, 0);
      Abandoned(d, objs, c.disk, objs1, ts1);
      GoingFault(d, objs, c.disk, objs1, ts1);
      objs', v := objs1, c.disk;
      if c.written.Ok? && failPoint != AfterContainerWrite {
        CarefulPack(d, hash, cands, failPoint);
        SizesKept(objs, objs1, cands);
        GoingDiskID(d, objs, c.disk, objs1, ts1);
        objs', v := PackOutcome(d, objs, c.disk, objs1, ts1, cands, D.Recs(d), c.written.value, hash, failPoint);
      }
    }
  }

  /** What Trim writes is stored under new fids. */
  lemma MadeNew(d: Disk, objs: Objects, hash: Hash, cands: seq<Candidate>)
    requires D.Inv(d, objs) && !d.fault && d.diskID < TWO_64 && Sized(d)
    requires Waiting(D.Recs(d), objs, FidsOf(cands)) && cands != []
    ensures var c, t := ContainerMade(d, hash, cands), TableMade(d, hash, cands);
            && (c.Some? ==> c.value.fid !in objs)
            && (t.Some? ==> c.Some? && t.value.fid !in objs && t.value.fid != c.value.fid)
  {
    hide D.Inv, Going, TrimInv, D.Recs, ContainerFrom, TableFrom, BuildContainer, Waiting, Extends, TableMade,
         ContainerMade, Repack, WithTable;
    var objs1, ts1 := ContainerOutcome(d, objs, cands, hash);
    RepackCases(d, hash, cands, AfterContainerBuild);
    var built := BuildContainer(d, FidsOf(cands)).value;
    var c := ContainerFrom(d, hash, built.data, 0);
    if c.written.Ok? {
      GoingDiskID(d, objs, c.disk, objs1, ts1);
      var objs2, ts2 := TableOutcome(d, objs, c.disk, objs1, ts1, hash);
    }
  }

  lemma GoingDiskID(m0: Disk, objs0: Objects, m: Disk, objs: Objects, ts: TrimState)
    requires Going(m0, objs0, m, objs, ts)
    ensures m.diskID == m0.diskID
  {
    hide D.Inv, TrimInv, Extends;
  }

  lemma Starting(d: Disk, objs: Objects)
    requires D.Inv(d, objs)
    ensures Going(d, objs, d, objs, Idle)
  {
    hide D.Inv;
  }

  // ----- the whole of Trim -----

  /** The objects Trim moves, when it comes to moving any. */
  function Chosen(d: Disk, cfg: Config): seq<Candidate> {
    if CandidatesOn(d, cfg).Ok? && cfg.trigger && cfg.failPoint != AfterBackup then CandidatesOn(d, cfg).value else []
  }

  /** What Trim asks of a disk in order: the scan that selects the candidates reaches the
      end of the log, and the Trim of what it selects is careful. */
  ghost predicate Clear(d: Disk, cfg: Config)
    requires Sized(d)
  {
    d.fault
    || (D.ScansWhole(d.region) && (Chosen(d, cfg) != [] ==> Careful(d, cfg.hash, Chosen(d, cfg), cfg.failPoint)))
  }

  /** Every object is still stored with the same bytes, and is read so now and after a
      restart; reservations and fault are as before. */
  ghost predicate Kept(d: Disk, objs: Objects, d': Disk, objs': Objects) {
    && Extends(objs, objs')
    && d'.pending == d.pending && d'.fault == d.fault && d'.slots == d.slots && d'.diskID == d.diskID
    && (!d.fault ==> F.Serves(d', objs') && D.Open(d').Ok? && F.Serves(D.Open(d').value, objs'))
  }

  lemma InOrderServes(d: Disk, objs: Objects)
    requires D.Inv(d, objs) && !d.fault
    ensures F.Serves(d, objs) && D.Open(d).Ok? && F.Serves(D.Open(d).value, objs)
  {
    hide D.Inv, D.Read, D.Open;
    F.OpenServes(d, objs);
    forall f ensures D.Read(d, f) == if f in objs then Ok(objs[f]) else Err(NotFound) { ReadsObjects(d, objs, f); }
  }

  lemma EndsKept(d: Disk, objs: Objects, d': Disk, r: Result<()>, objs': Objects, v: Disk, fids: seq<nat>)
    requires !d.fault && Ends(d, objs, objs', d', r, v, fids)
    ensures Kept(d, objs, d', objs') && D.Inv(v, objs')
    ensures D.Inv(d', objs') <==> d' == v
  {
    hide D.Inv, TrimInv, F.Serves, D.Open, Shadow, Extends;
    InOrderServes(v, objs');
    if d' != v {
      ShadowReads(d', v, objs');
      ShadowEnds(d', v, objs');
      ShadowSame(d', v);
    }
  }

  lemma ShadowSame(m: Disk, v: Disk)
    requires Shadow(m, v)
    ensures m.pending == v.pending && m.fault == v.fault && m.slots == v.slots && m.diskID == v.diskID
  {}

  /** Trim comes to its end exactly if it is not stopped, the container and the table get
      written, and the log has room; then it has freed exactly what it packed. The records
      at every stop are those of the last step before it. */
  ghost predicate Finishes(d: Disk, cfg: Config, d': Disk, finished: bool)
    requires Sized(d)
  {
    var cands := Chosen(d, cfg);
    var c, t := ContainerMade(d, cfg.hash, cands), TableMade(d, cfg.hash, cands);
    && (finished <==> cfg.failPoint == Nowhere && c.Some? && t.Some? && d.end + 4 + |cands| <= MAX_ENTRIES)
    && (finished ==> Done(d.slots, D.Recs(d), d', FidsOf(cands), c.value, t.value))
    && (Reaches(d, cands, c, t, cfg.failPoint) && (finished || 0 !in FidsOf(cands)) ==>
          D.Recs(d') == StageRecs(D.Recs(d), FidsOf(cands), The(c), The(t), cfg.failPoint))
  }

  /** Trim on a disk in order, stopped wherever it may be, keeps every object, now and
      after a restart. The disk is in order afterwards unless a candidate of fid 0 was
      buried and Trim stopped before its compaction; then it is the shadow of a disk in
      order. */
  lemma TrimKeepsObjects(d: Disk, objs: Objects, cfg: Config) returns (objs': Objects, v: Disk)
    requires D.Inv(d, objs) && d.diskID < TWO_64 && RegionFits(d) && Sized(d) && Clear(d, cfg)
    ensures var cands := Chosen(d, cfg);
            var (d', r) := Trimmed(d, cfg);
            && Kept(d, objs, d', objs') && D.Inv(v, objs')
            && (d' == v || (Shadow(d', v) && r.Err? && 0 in FidsOf(cands)))
            && (D.Inv(d', objs') <==> d' == v)
    ensures !d.fault && Chosen(d, cfg) != [] ==> Finishes(d, cfg, Trimmed(d, cfg).0, Trimmed(d, cfg).1.Ok?)
    ensures objs' == if d.fault || Chosen(d, cfg) == [] then objs
                     else StoredBy(d, objs, cfg.hash, Chosen(d, cfg), cfg.failPoint)
  {
    hide D.Inv, Waiting, SizesRight, Kept, Ends, CandidatesOn, Careful, Repack, Done, D.ScansWhole, Shadow,
         RegionFits, D.Recs, StageRecs, StepRecs, ContainerMade, TableMade, StoredBy, Oldest;
    var cands := Chosen(d, cfg);
    objs', v := objs, d;
    UnchangedKept(d, objs);
    if cands != [] {
      if d.fault {
        FaultRepacksNothing(d, cfg.hash, cands, cfg.failPoint);
      } else {
        CandidatesWait(d, objs, cfg);
        objs', v := RepackOutcome(d, objs, cfg.hash, cands, cfg.failPoint);
        var (d', r) := Repack(d, cfg.hash, cands, cfg.failPoint);
        EndsKept(d, objs, d', r, objs', v, FidsOf(cands));
        EndsCases(d, objs, d', r, objs', v, FidsOf(cands));
        MadeStages(d, objs, cfg.hash, cands, cfg.failPoint);
      }
    }
  }

  lemma MadeStages(d: Disk, objs: Objects, hash: Hash, cands: seq<Candidate>, failPoint: FailPoint)
    requires D.Inv(d, objs) && !d.fault && d.diskID < TWO_64 && Sized(d) && failPoint != AfterBackup
    requires Waiting(D.Recs(d), objs, FidsOf(cands)) && cands != []
    ensures Reaches(d, cands, ContainerMade(d, hash, cands), TableMade(d, hash, cands), failPoint) ==>
            var c, t := The(ContainerMade(d, hash, cands)), The(TableMade(d, hash, cands));
            StepRecs(D.Recs(d), FidsOf(cands), c, t, failPoint) == StageRecs(D.Recs(d), FidsOf(cands), c, t, failPoint)
  {
    hide D.Inv, D.Recs, ContainerMade, TableMade, Movable, KeysOf, RemoveAll, Switched, Without;
    MadeNew(d, objs, hash, cands);
    var c, t := The(ContainerMade(d, hash, cands)), The(TableMade(d, hash, cands));
    if Reaches(d, cands, ContainerMade(d, hash, cands), TableMade(d, hash, cands), failPoint)
       && (failPoint == AfterTableWrite || Anchors(failPoint)) {
      RecordsStored(d, objs, t.fid);
      forall i | 0 <= i < |cands| ensures FidsOf(cands)[i] in objs {
        CandidateStored(D.Recs(d), objs, FidsOf(cands), i);
      }
      StagesAgree(D.Recs(d), FidsOf(cands), c, t, failPoint);
    }
  }

  lemma CandidateStored(recs: seq<Rec>, objs: Objects, fids: seq<nat>, i: nat)
    requires Waiting(recs, objs, fids) && i < |fids|
    ensures fids[i] in objs
  {
    assert Movable(recs, objs, fids[i]);
  }

  lemma RecordsStored(d: Disk, objs: Objects, fid: nat)
    requires D.Inv(d, objs) && fid !in objs
    ensures fid !in KeysOf(D.Recs(d))
  {
    hide RecsOk, ExtentsIn, TablesOk, Contents, D.LogIs, MeaningOf;
    KeysStored(d.slots, d.grid, D.Recs(d), d.confirmed, d.intervals, objs);
  }

  lemma EndsCases(d: Disk, objs: Objects, d': Disk, r: Result<()>, objs': Objects, v: Disk, fids: seq<nat>)
    requires Ends(d, objs, objs', d', r, v, fids)
    ensures d' == v || (Shadow(d', v) && r.Err? && 0 in fids)
  {}

  lemma FaultRepacksNothing(d: Disk, hash: Hash, cands: seq<Candidate>, failPoint: FailPoint)
    requires Sized(d) && d.fault && cands != []
    ensures Repack(d, hash, cands, failPoint).0 == d
  {
    hide BuildContainer;
    FaultBuildsNothing(d, FidsOf(cands));
  }

  lemma UnchangedKept(d: Disk, objs: Objects)
    requires D.Inv(d, objs)
    ensures Kept(d, objs, d, objs)
  {
    hide D.Inv, D.Open, F.Serves;
    if !d.fault { InOrderServes(d, objs); }
  }

  /** A log with room in one scan chunk for what Trim appends is always scanned whole, so
      only the table's hash matters. */
  lemma ShortLogClear(d: Disk, objs: Objects, cfg: Config)
    requires D.Inv(d, objs) && !d.fault && d.diskID < TWO_64 && RegionFits(d) && Sized(d)
    requires d.end + 4 + |Chosen(d, cfg.(failPoint := AfterDelete))| <= CHUNK_ENTRIES
    requires var t := TableMade(d, cfg.hash, Chosen(d, cfg.(failPoint := AfterDelete))); t.Some? ==> t.value.fid != 0
    ensures Clear(d, cfg)
  {
    hide D.Inv, Waiting, SizesRight, Repack, RegionFits, EndOf, ScanEnd, D.Recs, Done, TableMade, ContainerMade;
    F.OpenServes(d, objs);
    ShortScan(d.region);
    var cands := Chosen(d, cfg.(failPoint := AfterDelete));
    if cands != [] {
      CandidatesWait(d, objs, cfg);
      var objs', v := RepackOutcome(d, objs, cfg.hash, cands, AfterDelete);
      var (d', r) := Repack(d, cfg.hash, cands, AfterDelete);
      EndsShort(d, objs, d', r, objs', v, FidsOf(cands));
    }
  }

  lemma EndsShort(d: Disk, objs: Objects, d': Disk, r: Result<()>, objs': Objects, v: Disk, fids: seq<nat>)
    requires Ends(d, objs, objs', d', r, v, fids) && v.end <= CHUNK_ENTRIES
    ensures D.ScansWhole(d'.region)
  {
    hide D.Inv, TrimInv, EndOf, ScanEnd, Extends, Shadow;
    F.OpenServes(v, objs');
    if d' != v { ShadowEnds(d', v, objs'); }
    ShortScan(d'.region);
  }

  // ----- the last step, however much its scan delivers -----

  lemma SwitchLast(m0: Disk, objs0: Objects, m: Disk, objs: Objects, ts: TrimState, cands: seq<Candidate>,
                   recs0: seq<Rec>, c: Candidate, t: Candidate)
    requires Going(m0, objs0, m, objs, ts) && ts.TableDone? && ts.cands == FidsOf(cands) && SizesRight(objs, cands)
    requires t == Candidate(ts.tableFid, ts.tableSize) && t.fid != 0
    requires D.Recs(m) == recs0 + [Plain(c.fid, c.size)] + [Plain(t.fid, t.size)]
    requires |m.region| == MAX_ENTRIES && m.end + 2 + |cands| <= MAX_ENTRIES
    ensures |Switch(m, cands, t, AfterDelete).0.region| == MAX_ENTRIES
    ensures Switch(m, cands, t, Nowhere) == D.CompactIndex(Switch(m, cands, t, AfterDelete).0)
  {
    hide Going, D.AppendAnchor, D.LoadPackedTable, D.Recs, TrimInv, T.VerifyPacked, RecsOk, SizesRight, Switched,
         RemoveAll, Shadow, BuryAll, D.CompactIndex;
    AnchorEnd(m, t);
    var d2, ts2 := LoadedOutcome(m0, objs0, m, objs, ts, cands, recs0, c, t);
    RemovedNone(Switched(recs0, c, t), FidsOf(cands));
    var v := BuryOutcome(m0, objs0, d2, objs, ts2, Switched(recs0, c, t));
  }

  lemma RepackLast(d: Disk, objs: Objects, hash: Hash, cands: seq<Candidate>)
    requires D.Inv(d, objs) && !d.fault && d.diskID < TWO_64 && Sized(d) && cands != []
    requires Waiting(D.Recs(d), objs, FidsOf(cands)) && SizesRight(objs, cands)
    requires TableMade(d, hash, cands).Some? && TableMade(d, hash, cands).value.fid != 0
    requires d.end + 4 + |cands| <= MAX_ENTRIES
    ensures |Repack(d, hash, cands, AfterDelete).0.region| == MAX_ENTRIES
    ensures Repack(d, hash, cands, Nowhere) == D.CompactIndex(Repack(d, hash, cands, AfterDelete).0)
  {
    hide D.Inv, Going, TrimInv, D.Recs, ContainerFrom, TableFrom, BuildContainer, Waiting, Extends, Repack, TableMade,
         ContainerMade, Switch, D.CompactIndex, SizesRight;
    var objs1, ts1 := ContainerOutcome(d, objs, cands, hash);
    RepackCases(d, hash, cands, AfterDelete);
    RepackCases(d, hash, cands, Nowhere);
    var built := BuildContainer(d, FidsOf(cands)).value;
    var c := ContainerFrom(d, hash, built.data, 0);
    GoingDiskID(d, objs, c.disk, objs1, ts1);
    var objs2, ts2 := TableOutcome(d, objs, c.disk, objs1, ts1, hash);
    TableAttempt(c.disk, hash, HeaderFor(c.disk, c.written.value, built.entries), built.entries, 0);
    var t := TableFrom(c.disk, hash, HeaderFor(c.disk, c.written.value, built.entries), built.entries, 0);
    SizesKept(objs, objs1, cands);
    SizesKept(objs1, objs2, cands);
    SwitchLast(d, objs, t.disk, objs2, ts2, cands, D.Recs(d), c.written.value, t.written.value);
  }

  /** A Trim that comes to its last step ends as the compaction of a disk in order that
      still has every object; `CutScan` tells what that compaction leaves of each when
      its scan is cut short. */
  lemma TrimEndsInCompaction(d: Disk, objs: Objects, cfg: Config) returns (objs': Objects, v: Disk)
    requires D.Inv(d, objs) && !d.fault && d.diskID < TWO_64 && RegionFits(d) && Sized(d) && D.ScansWhole(d.region)
    requires cfg.failPoint == Nowhere && Chosen(d, cfg) != [] && d.end + 4 + |Chosen(d, cfg)| <= MAX_ENTRIES
    requires var t := TableMade(d, cfg.hash, Chosen(d, cfg)); t.Some? && t.value.fid != 0
    ensures D.Inv(v, objs') && Extends(objs, objs') && !v.fault && |v.region| == MAX_ENTRIES
    ensures Trimmed(d, cfg).1 == D.CompactIndex(v).1
    ensures D.CompactIndex(v).1.Ok? ==> Trimmed(d, cfg).0 == D.CompactIndex(v).0
  {
    hide D.Inv, Waiting, SizesRight, CandidatesOn, Repack, D.ScansWhole, RegionFits, D.Recs, TableMade, ContainerMade,
         D.CompactIndex, Ends, Done;
    var cands := Chosen(d, cfg);
    CandidatesWait(d, objs, cfg);
    objs', v := RepackOutcome(d, objs, cfg.hash, cands, AfterDelete);
    RepackLast(d, objs, cfg.hash, cands);
    var (d', r) := Repack(d, cfg.hash, cands, AfterDelete);
    EndsInOrder(d, objs, objs', d', r, v, FidsOf(cands));
    if d' != v { CompactSame(d', v, objs'); }
  }

  lemma EndsInOrder(d: Disk, objs: Objects, objs': Objects, d': Disk, r: Result<()>, v: Disk, fids: seq<nat>)
    requires Ends(d, objs, objs', d', r, v, fids)
    ensures D.Inv(v, objs') && Extends(objs, objs') && !v.fault && |v.region| == MAX_ENTRIES
    ensures d' == v || Shadow(d', v)
  {
    hide D.Inv, TrimInv, Extends, Shadow;
    ConfirmedKeys(v, objs');
  }

  // ----- a table of fid 0 -----

  lemma {:induction false} BuryFront(m: Disk, fids: seq<nat>, i: nat, n: nat)
    requires |m.region| == MAX_ENTRIES && i <= |fids| && n <= m.end
    ensures var d := BuryAll(m, fids, i).0;
            n <= |m.region| ==> d.region[..n] == m.region[..n] && d.slots == m.slots && d.grid == m.grid
    decreases |fids| - i
  {
    if i < |fids| {
      var (d, r) := D.AppendTombstone(m, fids[i]);
      if r.Ok? && n <= |m.region| {
        assert d.region[..n] == m.region[..n];
        BuryFront(d, fids, i + 1, n);
      }
    }
  }

  /** Once an anchor of fid 0 is in the log, the disk does not open again. */
  lemma AnchoredZero(m: Disk, objs: Objects, cands: seq<Candidate>, t: Candidate, failPoint: FailPoint)
    requires D.Inv(m, objs) && !m.fault && t.fid == 0 && m.end + 2 <= MAX_ENTRIES
    requires failPoint == AfterAnchorAppend || failPoint == AfterDelete
    ensures |m.region| == MAX_ENTRIES && D.Open(Switch(m, cands, t, failPoint).0).Err?
  {
    hide D.Inv, D.LoadPackedTable, T.VerifyPacked, ReplayRegion, BuryAll;
    ConfirmedKeys(m, objs);
    F.AnchorEntries(t.size);
    var d1 := D.AppendAnchor(m, t.fid, t.size).0;
    var d2 := D.LoadPackedTable(d1, t.fid).0;
    LoadEnd(d1, t.fid);
    LoadSame(d1, t.fid);
    BuryFront(d2, FidsOf(cands), 0, m.end + 1);
    var d := Switch(m, cands, t, failPoint).0;
    assert d.region[..m.end + 1] == d1.region[..m.end + 1];
    assert d.region[m.end] == d.region[..m.end + 1][m.end];
    assert d.region[..m.end] == d.region[..m.end + 1][..m.end];
    F.ZeroAnchorRefused(m, objs, d.grid, d.region);
  }

  lemma LoadSame(m: Disk, fid: nat)
    ensures D.LoadPackedTable(m, fid).0.slots == m.slots && D.LoadPackedTable(m, fid).0.grid == m.grid
  {
    hide D.Read, DecodeTable;
  }

  /** A Trim that has anchored its table and stops before the compaction leaves a disk
      that opens exactly if the table is not stored under fid 0. */
  lemma TableFidDecides(d: Disk, objs: Objects, cfg: Config)
    requires D.Inv(d, objs) && !d.fault && d.diskID < TWO_64 && RegionFits(d) && Sized(d) && D.ScansWhole(d.region)
    requires cfg.failPoint == AfterAnchorAppend || cfg.failPoint == AfterDelete
    requires Chosen(d, cfg) != [] && TableMade(d, cfg.hash, Chosen(d, cfg)).Some? && d.end + 4 <= MAX_ENTRIES
    ensures D.Open(Trimmed(d, cfg).0).Ok? <==> TableMade(d, cfg.hash, Chosen(d, cfg)).value.fid != 0
  {
    hide D.Inv, Waiting, SizesRight, CandidatesOn, Repack, D.ScansWhole, RegionFits, D.Recs, TableMade,
         ContainerMade, D.Open,
         Finishes, F.Serves;
    var cands := Chosen(d, cfg);
    if TableMade(d, cfg.hash, cands).value.fid != 0 {
      var objs', v := TrimKeepsObjects(d, objs, cfg);
    } else {
      CandidatesWait(d, objs, cfg);
      ZeroTableStops(d, objs, cfg.hash, cands, cfg.failPoint);
    }
  }

  lemma ZeroTableStops(d: Disk, objs: Objects, hash: Hash, cands: seq<Candidate>, failPoint: FailPoint)
    requires D.Inv(d, objs) && !d.fault && d.diskID < TWO_64 && Sized(d)
    requires Waiting(D.Recs(d), objs, FidsOf(cands)) && cands != []
    requires failPoint == AfterAnchorAppend || failPoint == AfterDelete
    requires TableMade(d, hash, cands).Some? && TableMade(d, hash, cands).value.fid == 0 && d.end + 4 <= MAX_ENTRIES
    ensures D.Open(Repack(d, hash, cands, failPoint).0).Err?
  {
    hide D.Inv, Going, TrimInv, D.Recs, ContainerFrom, TableFrom, BuildContainer, Waiting, Extends, Repack, TableMade,
         ContainerMade, Switch, D.Open;
    var objs1, ts1 := ContainerOutcome(d, objs, cands, hash);
    RepackCases(d, hash, cands, failPoint);
    var built := BuildContainer(d, FidsOf(cands)).value;
    var c := ContainerFrom(d, hash, built.data, 0);
    GoingDiskID(d, objs, c.disk, objs1, ts1);
    var objs2, ts2 := TableOutcome(d, objs, c.disk, objs1, ts1, hash);
    TableAttempt(c.disk, hash, HeaderFor(c.disk, c.written.value, built.entries), built.entries, 0);
    var t := TableFrom(c.disk, hash, HeaderFor(c.disk, c.written.value, built.entries), built.entries, 0);
    GoingFault(d, objs, t.disk, objs2, ts2);
    GoingInv(d, objs, t.disk, objs2, ts2);
    AnchoredZero(t.disk, objs2, cands, t.written.value, failPoint);
  }

  lemma GoingInv(m0: Disk, objs0: Objects, m: Disk, objs: Objects, ts: TrimState)
    requires Going(m0, objs0, m, objs, ts)
    ensures D.Inv(m, objs)
  {}
}
