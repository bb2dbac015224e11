/** A running Trim on one disk: each step keeps the disk in order, and what the steps do
    to the records and the extents. */
module TrimProgress {
  import opened Layout
  import opened IndexLog
  import opened PackedTable
  import opened Replay
  import opened Store
  import opened StoreSteps
  import D = DiskState
  import opened DiskSteps
  import opened TrimSteps
  import opened Trim
  import T = TrimRun
  import opened TrimSpec
  import opened TrimSelection

  // ----- the steps -----

  /** A faulty disk builds no container. */
  lemma {:induction false} FaultBuildsNothing(d: Disk, fids: seq<nat>)
    requires d.fault && fids != []
    ensures BuildContainer(d, fids).Err?
  {
    hide ReadRef;
  }

  /** Every object of before is in after, unchanged. */
  ghost predicate Extends(before: Objects, after: Objects) {
    forall k :: k in before ==> k in after && after[k] == before[k]
  }

  lemma ExtendsSelf(a: Objects)
    ensures Extends(a, a)
  {}

  /** The disk and the running Trim are in order; reservations and fault are as before. */
  ghost predicate Going(m0: Disk, objs0: Objects, m: Disk, objs: Objects, ts: TrimState) {
    && D.Inv(m, objs) && TrimInv(m, objs, ts) && Extends(objs0, objs)
    && m.pending == m0.pending && m.diskID == m0.diskID && m.fault == m0.fault && m.slots == m0.slots
  }

  lemma GoesOn(m0: Disk, objs0: Objects, m: Disk, objs: Objects, m': Disk, objs': Objects, ts: TrimState,
               ts': TrimState)
    requires Going(m0, objs0, m, objs, ts) && T.Aside(m, m') && T.Carries(m', objs, objs', ts')
    ensures Going(m0, objs0, m', objs', ts')
  {
    hide D.Inv, TrimInv, SameOn;
  }

  lemma ContainerGoesOn(m0: Disk, objs0: Objects, m: Disk, objs: Objects, ts: TrimState, fid: nat, tail: seq<byte>)
    requires Going(m0, objs0, m, objs, ts) && ts.Built? && fid < TWO_64
    ensures D.Shape(m)
    ensures var (d, q) := D.WriteObject(m, fid, ts.data + tail);
            if q.Ok?
            then Going(m0, objs0, d, objs[fid := ts.data + tail],
                       ContainerDone(ts.cands, ts.entries, fid, |ts.data + tail|))
            else Going(m0, objs0, d, objs, Idle)
  {
    hide D.Inv, TrimInv, T.Aside, T.Carries, D.WriteObject, Extends;
    T.WriteContainerKeeps(m, objs, ts, fid, tail);
    var (d, ts') := T.WriteContainer(m, ts, fid, tail);
    GoesOn(m0, objs0, m, objs, d, if ts'.ContainerDone? then objs[fid := ts.data + tail] else objs, ts, ts');
  }

  lemma TableGoesOn(m0: Disk, objs0: Objects, m: Disk, objs: Objects, ts: TrimState, fid: nat, nonce: nat)
    requires Going(m0, objs0, m, objs, ts) && ts.ContainerDone? && m.diskID < TWO_64 && nonce < NONCES
    ensures D.Shape(m)
    ensures var blob := T.TableBlob(T.NewTable(m, ts, nonce));
            var (d, q) := D.WriteObject(m, fid, blob);
            if q.Ok?
            then Going(m0, objs0, d, objs[fid := blob], TableDone(ts.cands, T.NewTable(m, ts, nonce), fid, |blob|))
            else Going(m0, objs0, d, objs, Idle)
  {
    hide D.Inv, TrimInv, T.Aside, T.Carries, D.WriteObject, T.TableBlob, T.NewTable, Extends;
    T.WriteTableKeeps(m, objs, ts, fid, nonce);
    var (d, ts') := T.WriteTable(m, ts, fid, nonce);
    var blob := T.TableBlob(T.NewTable(m, ts, nonce));
    GoesOn(m0, objs0, m, objs, d, if ts'.TableDone? then objs[fid := blob] else objs, ts, ts');
  }

  lemma AnchorGoesOn(m0: Disk, objs0: Objects, m: Disk, objs: Objects, ts: TrimState)
    requires Going(m0, objs0, m, objs, ts) && ts.TableDone? && ts.tableFid != 0
    ensures D.Shape(m)
    ensures var (d, q) := D.AppendAnchor(m, ts.tableFid, ts.tableSize);
            Going(m0, objs0, d, objs, if q.Ok? then Anchored(ts.cands, ts.table, ts.tableFid, ts.tableSize) else Idle)
  {
    hide D.Inv, TrimInv, T.Aside, T.Carries, D.AppendAnchor, Extends;
    T.AnchorStepKeeps(m, objs, ts);
    var (d, ts') := T.Anchor(m, ts);
    GoesOn(m0, objs0, m, objs, d, objs, ts, ts');
  }

  lemma LoadGoesOn(m0: Disk, objs0: Objects, m: Disk, objs: Objects, ts: TrimState)
    requires Going(m0, objs0, m, objs, ts) && ts.Anchored?
    ensures var (d, q) := D.LoadPackedTable(m, ts.tableFid);
            q.Ok? && Going(m0, objs0, d, objs, Loaded(ts.cands, ts.table, ts.tableFid, ts.tableSize, 0))
  {
    hide D.Inv, TrimInv, T.Aside, T.Carries, D.LoadPackedTable, Extends;
    T.LoadStepKeeps(m, objs, ts);
    var (d, ts') := T.Load(m, ts);
    GoesOn(m0, objs0, m, objs, d, objs, ts, ts');
  }

  lemma BuryGoesOn(m0: Disk, objs0: Objects, m: Disk, objs: Objects, ts: TrimState)
    requires Going(m0, objs0, m, objs, ts) && ts.Loaded? && ts.done < |ts.cands| && ts.cands[ts.done] != 0
    ensures D.Shape(m)
    ensures var (d, q) := D.AppendTombstone(m, ts.cands[ts.done]);
            Going(m0, objs0, d, objs, if q.Ok? then ts.(done := ts.done + 1) else Idle)
  {
    hide D.Inv, TrimInv, T.Aside, T.Carries, D.AppendTombstone, Extends;
    T.BuryKeeps(m, objs, ts);
    var (d, ts') := T.Bury(m, ts);
    GoesOn(m0, objs0, m, objs, d, objs, ts, ts');
  }

  lemma CompactGoesOn(m0: Disk, objs0: Objects, m: Disk, objs: Objects)
    requires Going(m0, objs0, m, objs, Idle) && !m.fault && D.ScansWhole(m.region)
    ensures |m.region| == MAX_ENTRIES
    ensures var (d, q) := D.CompactIndex(m); q.Ok? && Going(m0, objs0, d, objs, Idle) && d.end <= m.end
    ensures D.CompactIndex(m).0.intervals == MeaningOf(m.slots, D.Recs(m)).extents.Values <= m.intervals
    ensures D.Recs(D.CompactIndex(m).0) == D.Recs(m) && D.Log(D.CompactIndex(m).0) == WriteLog(D.Recs(m))
  {
    hide D.Inv, TrimInv, T.Aside, T.Carries, D.CompactIndex, D.ScansWhole, MeaningOf, D.Recs, Extends, D.TailClean,
         D.Log, WriteLog;
    T.CompactStepKeeps(m, objs);
    TailOf(m, objs);
    CompactKeeps(m, objs);
    GoesOn(m0, objs0, m, objs, D.CompactIndex(m).0, objs, Idle, Idle);
  }

  lemma NoFault(m: Disk, objs: Objects, ts: TrimState)
    requires TrimInv(m, objs, ts) && !ts.Idle?
    ensures !m.fault
  {
    hide TrimOk;
  }

  lemma StartsGoing(m: Disk, objs: Objects, fids: seq<nat>)
    requires D.Inv(m, objs) && !m.fault && Waiting(D.Recs(m), objs, fids) && fids != []
    ensures BuildContainer(m, fids).Ok?
    ensures var c := BuildContainer(m, fids).value; Going(m, objs, m, objs, Built(fids, c.entries, c.data))
  {
    hide D.Inv, TrimInv, BuildContainer, Waiting;
    T.BeginKeeps(m, objs, fids);
    ExtendsSelf(objs);
  }

  /** Trim may be abandoned at any point. */
  lemma Abandoned(m0: Disk, objs0: Objects, m: Disk, objs: Objects, ts: TrimState)
    requires Going(m0, objs0, m, objs, ts)
    ensures Going(m0, objs0, m, objs, Idle) && D.Shape(m)
  {
    hide D.Inv, Waiting, LoadedFor, Slices, TableFor;
    ConfirmedKeys(m, objs);
  }

  // ----- what Trim does to the records and the extents -----

  ghost function RemoveAll(recs: seq<Rec>, fids: seq<nat>, n: nat): seq<Rec>
    requires n <= |fids|
  {
    if n == 0 then recs else Remove(RemoveAll(recs, fids, n - 1), fids[n - 1])
  }

  /** The records with container c and the anchored table t added. */
  ghost function Switched(recs: seq<Rec>, c: Candidate, t: Candidate): seq<Rec> {
    Remove(recs + [Plain(c.fid, c.size)] + [Plain(t.fid, t.size)], t.fid) + [Table(t.fid, t.fid, t.size)]
  }

  ghost function Repacked(recs: seq<Rec>, fids: seq<nat>, c: Candidate, t: Candidate): seq<Rec> {
    RemoveAll(Switched(recs, c, t), fids, |fids|)
  }

  lemma WroteRecords(m0: Disk, objs0: Objects, m: Disk, objs: Objects, ts: TrimState, fid: nat, data: seq<byte>)
    requires Going(m0, objs0, m, objs, ts)
    ensures D.Shape(m)
    ensures var (d, q) := D.WriteObject(m, fid, data); q.Ok? ==> D.Recs(d) == D.Recs(m) + [Plain(fid, |data|)]
  {
    hide D.Inv, TrimInv, D.WriteObject, D.Recs;
    ConfirmedKeys(m, objs);
    WriteObjectKeeps(m, objs, fid, data);
  }

  lemma AnchorRecords(m0: Disk, objs0: Objects, m: Disk, objs: Objects, ts: TrimState)
    requires Going(m0, objs0, m, objs, ts) && ts.TableDone? && ts.tableFid != 0
    ensures D.Shape(m)
    ensures var (d, q) := D.AppendAnchor(m, ts.tableFid, ts.tableSize);
            q.Ok? ==> D.Recs(d) == Remove(D.Recs(m), ts.tableFid) + [Table(ts.tableFid, ts.tableFid, ts.tableSize)]
  {
    hide D.Inv, TrimInv, D.AppendAnchor, D.Recs, Anchorable;
    ConfirmedKeys(m, objs);
    NoFault(m, objs, ts);
    T.TableAnchorable(m, objs, ts);
    AnchorKeeps(m, objs, D.Recs(m), ts.tableFid, ts.tableSize, ts.table);
  }

  lemma LoadRecords(m: Disk, fid: nat)
    ensures D.Recs(D.LoadPackedTable(m, fid).0) == D.Recs(m)
  {
    hide D.Read, DecodeTable, D.Latest;
  }

  lemma BuryRecords(m0: Disk, objs0: Objects, m: Disk, objs: Objects, ts: TrimState)
    requires Going(m0, objs0, m, objs, ts) && ts.Loaded? && ts.done < |ts.cands| && ts.cands[ts.done] != 0
    ensures D.Shape(m)
    ensures var (d, q) := D.AppendTombstone(m, ts.cands[ts.done]);
            q.Ok? ==> D.Recs(d) == Remove(D.Recs(m), ts.cands[ts.done])
  {
    hide D.Inv, TrimInv, D.AppendTombstone, D.Recs, NotContainer, HasPlain, TableBacked;
    ConfirmedKeys(m, objs);
    NoFault(m, objs, ts);
    T.BuryReady(m, objs, ts);
    TombstoneKeeps(m, objs, D.Recs(m), ts.cands[ts.done]);
  }

  lemma {:induction false} RemoveAllExtents(slots: nat, recs: seq<Rec>, fids: seq<nat>, n: nat)
    requires RecsOk(slots, recs) && n <= |fids| && Distinct(fids)
    requires forall i :: 0 <= i < |fids| ==> HasPlain(recs, fids[i])
    ensures var rest := RemoveAll(recs, fids, n);
            && RecsOk(slots, rest)
            && (forall i :: n <= i < |fids| ==> HasPlain(rest, fids[i]))
            && MeaningOf(slots, rest).extents == MeaningOf(slots, recs).extents - (set i | 0 <= i < n :: fids[i])
  {
    hide RecsOk, MeaningOf, HasPlain, Remove;
    if n > 0 {
      RemoveAllExtents(slots, recs, fids, n - 1);
      var rest, f := RemoveAll(recs, fids, n - 1), fids[n - 1];
      RemovePlain(slots, rest, f);
      RemoveMeaning(slots, rest, f);
      forall i | n <= i < |fids| ensures HasPlain(Remove(rest, f), fids[i]) {
        PlainStays(rest, f, fids[i]);
      }
      assert (set i | 0 <= i < n :: fids[i]) == (set i | 0 <= i < n - 1 :: fids[i]) + {f};
    }
  }

  lemma PlainStays(recs: seq<Rec>, f: nat, g: nat)
    requires HasPlain(recs, g) && f != g
    ensures HasPlain(Remove(recs, f), g)
  {
    var r :| r in recs && r.Plain? && r.fid == g;
    RemoveMembers(recs, f, r);
  }

  lemma SwitchedExtents(slots: nat, recs: seq<Rec>, c: Candidate, t: Candidate)
    requires RecsOk(slots, recs + [Plain(c.fid, c.size)] + [Plain(t.fid, t.size)])
    ensures Extent(slots, c.fid, c.size).Some? && Extent(slots, t.fid, t.size).Some?
    ensures MeaningOf(slots, Switched(recs, c, t)).extents
            == MeaningOf(slots, recs).extents
                 [c.fid := Extent(slots, c.fid, c.size).value][t.fid := Extent(slots, t.fid, t.size).value]
  {
    var one, both := recs + [Plain(c.fid, c.size)], recs + [Plain(c.fid, c.size)] + [Plain(t.fid, t.size)];
    assert Plain(t.fid, t.size) in both && Plain(c.fid, c.size) in both && HasPlain(both, t.fid);
    hide RecsOk, MeaningOf, Remove, Extent, HasPlain;
    RecsOkMember(slots, both, Plain(c.fid, c.size));
    RecsOkMember(slots, both, Plain(t.fid, t.size));
    MeaningAppend(slots, recs, Plain(c.fid, c.size));
    MeaningAppend(slots, one, Plain(t.fid, t.size));
    RemoveMeaning(slots, both, t.fid);
    MeaningAppend(slots, Remove(both, t.fid), Table(t.fid, t.fid, t.size));
    PutAgain(MeaningOf(slots, one).extents, t.fid, Extent(slots, t.fid, t.size).value);
  }

  /** A finished Trim frees exactly the extents of the objects it packed, and takes
      those of the container and the table. */
  ghost predicate FreesExactly(slots: nat, before: map<nat, Interval>, after: map<nat, Interval>, fids: seq<nat>,
                               c: Candidate, t: Candidate)
  {
    && Extent(slots, c.fid, c.size).Some? && Extent(slots, t.fid, t.size).Some?
    && after == before[c.fid := Extent(slots, c.fid, c.size).value][t.fid := Extent(slots, t.fid, t.size).value]
                - (set i | 0 <= i < |fids| :: fids[i])
  }

  /** What holds between writing the table and the end: the records are those before
      Trim with the container and the table. */
  ghost predicate Tables(slots: nat, recs0: seq<Rec>, recs: seq<Rec>, fids: seq<nat>, c: Candidate, t: Candidate) {
    && recs == recs0 + [Plain(c.fid, c.size)] + [Plain(t.fid, t.size)]
    && RecsOk(slots, recs) && Distinct(fids)
    && forall i :: 0 <= i < |fids| ==> HasPlain(recs, fids[i]) && fids[i] != t.fid
  }

  lemma TablesReady(m0: Disk, objs0: Objects, m: Disk, objs: Objects, ts: TrimState, recs0: seq<Rec>, c: Candidate)
    requires Going(m0, objs0, m, objs, ts) && ts.TableDone?
    requires D.Recs(m) == recs0 + [Plain(c.fid, c.size)] + [Plain(ts.tableFid, ts.tableSize)]
    ensures Tables(m.slots, recs0, D.Recs(m), ts.cands, c, Candidate(ts.tableFid, ts.tableSize))
  {
    hide D.Inv, D.Recs, RecsOk, HoldsNone, ListedNowhere, DecodeTable, TableFor, HasPlain;
    RecsAreOk(m, objs);
    forall i | 0 <= i < |ts.cands| ensures HasPlain(D.Recs(m), ts.cands[i]) && ts.cands[i] != ts.tableFid {
      assert Movable(D.Recs(m), objs, ts.cands[i]);
    }
  }

  lemma FreesExactlyPacked(slots: nat, recs0: seq<Rec>, recs: seq<Rec>, fids: seq<nat>, c: Candidate, t: Candidate)
    requires slots < SLOT_LIMIT && Tables(slots, recs0, recs, fids, c, t) && RecsOk(slots, Switched(recs0, c, t))
    ensures FreesExactly(slots, MeaningOf(slots, recs0).extents, MeaningOf(slots, Repacked(recs0, fids, c, t)).extents,
                         fids, c, t)
  {
    hide RecsOk, MeaningOf, Remove, Extent, HasPlain;
    SwitchedExtents(slots, recs0, c, t);
    forall i | 0 <= i < |fids| ensures HasPlain(Switched(recs0, c, t), fids[i]) {
      PlainStays(recs, t.fid, fids[i]);
      PlainAppend(Remove(recs, t.fid), Table(t.fid, t.fid, t.size), fids[i]);
    }
    RemoveAllExtents(slots, Switched(recs0, c, t), fids, |fids|);
  }

  lemma PlainAppend(recs: seq<Rec>, r: Rec, f: nat)
    requires HasPlain(recs, f)
    ensures HasPlain(recs + [r], f)
  {
    var p :| p in recs && p.Plain? && p.fid == f;
    assert p in recs + [r];
  }

  // ----- the records at the points where Trim may stop -----

  /** The records of other fids, in their order. */
  ghost function Without(recs: seq<Rec>, fids: seq<nat>): seq<Rec> {
    if recs == [] then []
    else
      var front, last := Without(recs[..|recs| - 1], fids), recs[|recs| - 1];
      if last.fid in fids then front else front + [last]
  }

  /** The records after the last step before the given stop: the container joins them,
      then the table, as an object and then as an anchor, and then the candidates go, up
      to the first of fid 0. */
  ghost function StageRecs(recs: seq<Rec>, fids: seq<nat>, c: Candidate, t: Candidate, failPoint: FailPoint): seq<Rec> {
    match failPoint
    case AfterBackup => recs
    case AfterContainerBuild => recs
    case AfterContainerWrite => recs + [Plain(c.fid, c.size)]
    case AfterTableWrite => recs + [Plain(c.fid, c.size), Plain(t.fid, t.size)]
    case AfterAnchorAppend => recs + [Plain(c.fid, c.size), Table(t.fid, t.fid, t.size)]
    case _ => Without(recs, fids[..ZeroAt(fids)]) + [Plain(c.fid, c.size), Table(t.fid, t.fid, t.size)]
  }

  /** The same by the steps that lead there. */
  ghost function StepRecs(recs: seq<Rec>, fids: seq<nat>, c: Candidate, t: Candidate, failPoint: FailPoint): seq<Rec> {
    match failPoint
    case AfterBackup => recs
    case AfterContainerBuild => recs
    case AfterContainerWrite => recs + [Plain(c.fid, c.size)]
    case AfterTableWrite => recs + [Plain(c.fid, c.size)] + [Plain(t.fid, t.size)]
    case AfterAnchorAppend => Switched(recs, c, t)
    case _ => RemoveAll(Switched(recs, c, t), fids, ZeroAt(fids))
  }

  lemma RemoveLast(recs: seq<Rec>, r: Rec, fid: nat)
    ensures Remove(recs + [r], fid) == if r.fid == fid then Remove(recs, fid) else Remove(recs, fid) + [r]
  {
    assert (recs + [r])[..|recs|] == recs;
  }

  lemma {:induction false} RemoveWithout(recs: seq<Rec>, fids: seq<nat>, fid: nat)
    ensures Remove(Without(recs, fids), fid) == Without(recs, fids + [fid])
  {
    if recs != [] {
      var front, last := recs[..|recs| - 1], recs[|recs| - 1];
      RemoveWithout(front, fids, fid);
      if last.fid !in fids { RemoveLast(Without(front, fids), last, fid); }
    }
  }

  lemma {:induction false} WithoutNone(recs: seq<Rec>)
    ensures Without(recs, []) == recs
  {
    if recs != [] { WithoutNone(recs[..|recs| - 1]); }
  }

  lemma SwitchedIs(recs: seq<Rec>, c: Candidate, t: Candidate)
    requires t.fid !in KeysOf(recs) && t.fid != c.fid
    ensures Switched(recs, c, t) == recs + [Plain(c.fid, c.size), Table(t.fid, t.fid, t.size)]
  {
    hide Remove, KeysOf;
    var p, q := Plain(c.fid, c.size), Plain(t.fid, t.size);
    RemoveAbsent(recs, t.fid);
    RemoveLast(recs, p, t.fid);
    RemoveLast(recs + [p], q, t.fid);
  }

  lemma {:induction false} RemoveAllIs(recs: seq<Rec>, fids: seq<nat>, p: Rec, q: Rec, n: nat)
    requires n <= |fids| && forall i :: 0 <= i < |fids| ==> fids[i] != p.fid && fids[i] != q.fid
    ensures RemoveAll(recs + [p, q], fids, n) == Without(recs, fids[..n]) + [p, q]
  {
    hide Remove;
    if n == 0 {
      WithoutNone(recs);
    } else {
      RemoveAllIs(recs, fids, p, q, n - 1);
      var rest, f := Without(recs, fids[..n - 1]), fids[n - 1];
      assert rest + [p, q] == rest + [p] + [q] && fids[..n - 1] + [f] == fids[..n];
      RemoveLast(rest + [p], q, f);
      RemoveLast(rest, p, f);
      RemoveWithout(recs, fids[..n - 1], f);
    }
  }

  lemma StagesAgree(recs: seq<Rec>, fids: seq<nat>, c: Candidate, t: Candidate, failPoint: FailPoint)
    requires t.fid !in KeysOf(recs) && t.fid != c.fid && c.fid !in fids && t.fid !in fids
    ensures StepRecs(recs, fids, c, t, failPoint) == StageRecs(recs, fids, c, t, failPoint)
  {
    hide KeysOf, RemoveAll, Without, Switched;
    SwitchedIs(recs, c, t);
    RemoveAllIs(recs, fids, Plain(c.fid, c.size), Table(t.fid, t.fid, t.size), ZeroAt(fids));
  }
}
