/** Whole runs of the pool: whatever the interleaving, the invariant holds after
    every step, and what has been committed can be read for ever after. */
module PoolRuns {
  import opened Layout
  import opened IndexEntry
  import opened IndexLog
  import opened PackedTable
  import opened Replay
  import opened Store
  import opened StoreSteps
  import D = DiskState
  import opened DiskSteps
  import opened TrimSteps
  import opened Trim
  import T = TrimRun
  import opened Pool
  import opened PoolSteps

  // ----- the steps of Trim and the restart -----

  /** What a step of Trim on one disk must show: the disk carries its objects on,
      and only fresh fids join them. */
  ghost predicate TrimStepOk(p: Pool, i: nat, d: Disk, objs: Objects, ts: TrimState)
    requires i < |p.disks| == |p.objs|
  {
    && T.Aside(p.disks[i], d) && T.Carries(d, p.objs[i], objs, ts)
    && forall f :: f in objs && f !in p.objs[i] ==> FreshFid(p, i, f)
  }

  lemma TrimStepKeeps(p: Pool, i: nat, d: Disk, objs: Objects, ts: TrimState)
    requires PoolInv(p) && i < |p.disks| == |p.objs| == |p.trims| && TrimStepOk(p, i, d, objs, ts)
    ensures PoolInv(TrimOnDisk(p, i, d, objs, ts))
  {
    hide PoolInv, D.Inv, TrimInv, FreshFid, SameIn;
    DiskAt(p, i);
    TrimOnDiskKeeps(p, i, d, objs, ts);
  }

  /** The disk that the step is about, before the step. */
  lemma TrimDisk(p: Pool, i: nat)
    requires PoolInv(p) && i < |p.disks|
    ensures |p.disks| == |p.objs| == |p.trims|
    ensures D.Inv(p.disks[i], p.objs[i]) && TrimInv(p.disks[i], p.objs[i], p.trims[i]) && p.disks[i].diskID < TWO_64
  {
    hide D.Inv, TrimInv;
    DiskAt(p, i);
  }

  /** The step changes its disk as a step of Trim may, and nothing else. */
  ghost predicate TrimStepDone(p: Pool, s: Step)
    requires PoolInv(p) && Enabled(p, s) && OfTrim(s)
  {
    hide PoolInv, Enabled, TrimNext;
    var p' := Next(p, s);
    && s.disk < |p.disks| == |p.objs| == |p.trims| == |p'.disks| == |p'.objs| == |p'.trims|
    && TrimStepOk(p, s.disk, p'.disks[s.disk], p'.objs[s.disk], p'.trims[s.disk])
    && p' == TrimOnDisk(p, s.disk, p'.disks[s.disk], p'.objs[s.disk], p'.trims[s.disk])
  }

  lemma TrimEnds(p: Pool, s: Step)
    requires PoolInv(p) && Enabled(p, s) && (s.TrimBegin? || s.TrimCompact? || s.TrimStop?)
    ensures TrimStepDone(p, s)
  {
    hide PoolInv, D.Inv, TrimInv, FreshFid, SameOn, Waiting, T.Begin, D.CompactIndex, D.Shape, D.Recs, D.ScansWhole;
    var i := s.disk;
    TrimDisk(p, i);
    var d, objs, ts := p.disks[i], p.objs[i], p.trims[i];
    SameItself(d.grid, d.intervals + d.pending);
    TrimFacts(d, objs, ts);
    if s.TrimBegin? { T.BeginKeeps(d, objs, s.cands); }
    if s.TrimCompact? { T.CompactStepKeeps(d, objs); }
  }

  lemma TrimWrites(p: Pool, s: Step)
    requires PoolInv(p) && Enabled(p, s) && (s.TrimContainer? || s.TrimTable?)
    ensures TrimStepDone(p, s)
  {
    hide PoolInv, D.Inv, TrimInv, FreshFid, SameOn, Waiting, T.WriteContainer, T.WriteTable, D.Shape, T.TableBlob,
         T.NewTable, D.Recs;
    var i := s.disk;
    TrimDisk(p, i);
    FreshBound(p, i, s.fid);
    if s.TrimContainer? {
      T.WriteContainerKeeps(p.disks[i], p.objs[i], p.trims[i], s.fid, s.tail);
    } else {
      T.WriteTableKeeps(p.disks[i], p.objs[i], p.trims[i], s.fid, s.nonce);
    }
  }

  lemma TrimMoves(p: Pool, s: Step)
    requires PoolInv(p) && Enabled(p, s) && (s.TrimAnchor? || s.TrimLoad? || s.TrimBury?)
    ensures TrimStepDone(p, s)
  {
    hide PoolInv, D.Inv, TrimInv, FreshFid, SameOn, Waiting, T.Anchor, T.Load, T.Bury, D.Shape, D.Recs;
    var i := s.disk;
    TrimDisk(p, i);
    var d, objs, ts := p.disks[i], p.objs[i], p.trims[i];
    if s.TrimAnchor? {
      T.AnchorStepKeeps(d, objs, ts);
    } else if s.TrimLoad? {
      T.LoadStepKeeps(d, objs, ts);
    } else {
      T.BuryKeeps(d, objs, ts);
    }
  }

  lemma TrimKeeps(p: Pool, s: Step)
    requires PoolInv(p) && Enabled(p, s) && OfTrim(s)
    ensures PoolInv(Next(p, s)) && TrimStepDone(p, s)
  {
    hide PoolInv, Enabled, Next, TrimStepOk;
    if s.TrimBegin? || s.TrimCompact? || s.TrimStop? {
      TrimEnds(p, s);
    } else if s.TrimContainer? || s.TrimTable? {
      TrimWrites(p, s);
    } else {
      TrimMoves(p, s);
    }
    var p' := Next(p, s);
    TrimStepKeeps(p, s.disk, p'.disks[s.disk], p'.objs[s.disk], p'.trims[s.disk]);
  }

  lemma FreshBound(p: Pool, i: nat, fid: nat)
    requires FreshFid(p, i, fid)
    ensures fid < TWO_64
  {}

  lemma TrimFacts(d: Disk, objs: Objects, ts: TrimState)
    requires TrimInv(d, objs, ts)
    ensures ts.Idle? || !d.fault
    ensures TrimInv(d, objs, Idle)
  {
    hide Waiting, TableFor, Slices;
  }

  lemma OpenedOk(d: Disk, objs: Objects, ts: TrimState)
    requires DiskOk(d, objs, ts) && !d.fault
    ensures DiskOk(Opened(d), objs, Idle) && Opened(d).pending == {} && Opened(d).grid == d.grid
    ensures Opened(d).slots == d.slots
  {
    hide D.Inv, D.TailClean, ReplayRegion, Waiting, TableFor, Slices, DecodeTable;
    TailOf(d, objs);
    OpenKeeps(d, objs);
  }

  /** A restart at any moment finds every disk openable and every object in place;
      the Puts and Trims that were running are forgotten. */
  lemma ReopenKeeps(p: Pool)
    requires PoolInv(p) && Enabled(p, Reopen)
    ensures PoolInv(Next(p, Reopen)) && Next(p, Reopen).objs == p.objs
  {
    hide DiskOk, Opened, PutOk;
    var p' := Next(p, Reopen);
    forall i | 0 <= i < |p.disks| ensures DiskOk(p'.disks[i], p.objs[i], Idle) && p'.disks[i].pending == {} {
      OpenedOk(p.disks[i], p.objs[i], p.trims[i]);
    }
  }

  // ----- every step -----

  /** Objects are only added, never changed or removed. */
  ghost predicate Grows(objs: seq<Objects>, objs': seq<Objects>) {
    |objs'| == |objs| &&
    forall i, k :: 0 <= i < |objs| && k in objs[i] ==> k in objs'[i] && objs'[i][k] == objs[i][k]
  }

  lemma PutKeeps(p: Pool, s: Step)
    requires PoolInv(p) && Enabled(p, s) && !OfTrim(s) && !s.Reopen?
    ensures PoolInv(Next(p, s))
  {
    hide PoolInv, Enabled, Next;
    match s {
    case BeginPut(id, c) => BeginPutKeeps(p, id, c);
    case Ask(id, i, f) => AskKeeps(p, id, i, f);
    case Reject(id) => RejectStepKeeps(p, id);
    case Grant(id) => GrantKeeps(p, id);
    case NoDisk(id) => NoDiskKeeps(p, id);
    case Prepare(id, i) => PrepareStepKeeps(p, id, i);
    case Stream(id, n) => StreamStepKeeps(p, id, n);
    case BreakStream(id) => BreakStreamKeeps(p, id);
    case CommitPut(id, io) => CommitStepKeeps(p, id, io);
    case AbortPut(id) => AbortStepKeeps(p, id);
    case Release(id) => ReleaseKeeps(p, id);
    }
  }

  lemma RejectStepKeeps(p: Pool, id: nat)
    requires PoolInv(p) && Enabled(p, Reject(id))
    ensures PoolInv(Next(p, Reject(id)))
  {
    hide PoolInv;
    RejectKeeps(p, id);
  }

  lemma CommitGrows(p: Pool, id: nat, io: D.CommitIO)
    requires PoolInv(p) && Enabled(p, CommitPut(id, io))
    ensures Grows(p.objs, Next(p, CommitPut(id, io)).objs)
  {
    hide PoolInv, DiskOk, D.Inv, Extent, ReadRef, D.Commit, RecObjects, Fids, D.CommitRec, Landed, Payload;
    var c, i := p.puts[id].claim, p.puts[id].disk;
    CommitDisk(p, id, io);
    PutAt(p, id);
    CommitObjects(c);
    var more := RecObjects(D.CommitRec(c.fid, |c.data|, c.alias), c.data);
    forall k | k in p.objs[i] ensures k !in more {}
  }

  lemma PutGrows(p: Pool, s: Step)
    requires PoolInv(p) && Enabled(p, s) && !OfTrim(s) && !s.Reopen?
    ensures Grows(p.objs, Next(p, s).objs)
  {
    hide PoolInv, D.Lookup, D.PrepareWrite, D.Abort, D.StreamWrite, Payload, Enabled, Fids;
    if s.CommitPut? {
      CommitGrows(p, s.id, s.io);
    }
  }

  /** Every enabled step of any Put, Trim or restart keeps the invariant and every
      object. */
  lemma NextKeeps(p: Pool, s: Step)
    requires PoolInv(p) && Enabled(p, s)
    ensures PoolInv(Next(p, s)) && Grows(p.objs, Next(p, s).objs)
  {
    hide PoolInv, Enabled, PutNext, TrimNext, T.Aside, TrimInv, D.Inv, FreshFid, OpenAll;
    if s.Reopen? {
      ReopenKeeps(p);
    } else if OfTrim(s) {
      TrimKeeps(p, s);
    } else {
      PutKeeps(p, s);
      PutGrows(p, s);
    }
  }

  // ----- runs -----

  /** Each step of the list can happen when its turn comes. */
  ghost predicate Legal(p: Pool, steps: seq<Step>)
    requires PoolInv(p)
    decreases |steps|
  {
    hide PoolInv, Enabled, Next;
    steps == [] || (Enabled(p, steps[0]) && (NextKeeps(p, steps[0]); Legal(Next(p, steps[0]), steps[1..])))
  }

  ghost function Run(p: Pool, steps: seq<Step>): Pool
    requires PoolInv(p) && Legal(p, steps)
    decreases |steps|
  {
    hide PoolInv, Enabled, Next;
    if steps == [] then p else (NextKeeps(p, steps[0]); Run(Next(p, steps[0]), steps[1..]))
  }

  lemma GrowsOn(a: seq<Objects>, b: seq<Objects>, c: seq<Objects>)
    requires Grows(a, b) && Grows(b, c)
    ensures Grows(a, c)
  {}

  lemma {:induction false} RunKeeps(p: Pool, steps: seq<Step>)
    requires PoolInv(p) && Legal(p, steps)
    ensures PoolInv(Run(p, steps)) && Grows(p.objs, Run(p, steps).objs)
    decreases |steps|
  {
    hide PoolInv, Enabled, Next;
    if steps != [] {
      hide Grows;
      NextKeeps(p, steps[0]);
      var p' := Next(p, steps[0]);
      RunKeeps(p', steps[1..]);
      GrowsOn(p.objs, p'.objs, Run(p, steps).objs);
    }
  }

  /** A pool of formatted, empty disks. */
  predicate Blank(d: Disk) {
    && D.Shape(d) && d.diskID < TWO_64 && d.end == 0 && d.confirmed == map[] && d.packed == map[]
    && d.intervals == {} && d.pending == {} && !d.fault
    && forall i :: 0 <= i < |d.region| ==> d.region[i] == ZERO
  }

  lemma BlankDiskOk(d: Disk)
    requires Blank(d)
    ensures DiskOk(d, map[], Idle)
  {
    assert D.Log(d) == [];
    hide LoadTable;
  }

  ghost function StartPool(disks: seq<Disk>): (p: Pool)
    requires forall i :: 0 <= i < |disks| ==> Blank(disks[i])
    ensures PoolInv(p)
  {
    hide DiskOk;
    var p := Pool(disks, seq(|disks|, i => map[]), AllIdle(|disks|), {}, None, map[]);
    assert DisksOk(p.disks, p.objs, p.trims) by {
      forall i | 0 <= i < |disks| ensures DiskOk(disks[i], p.objs[i], p.trims[i]) {
        assert Blank(disks[i]);
        BlankDiskOk(disks[i]);
      }
    }
    assert forall i :: 0 <= i < |disks| ==> Blank(p.disks[i]);
    p
  }

  // ----- what can be read -----

  /** The answers a Get may give: a disk that knows the fid is read; without one, a
      faulty disk fails the Get, and otherwise the fid is not found. */
  ghost predicate GetAnswers(p: Pool, fid: nat, r: Result<seq<byte>>) {
    || (exists i :: 0 <= i < |p.disks| && D.Lookup(p.disks[i], fid).Ok? && r == D.Read(p.disks[i], fid))
    || (&& (forall i :: 0 <= i < |p.disks| ==> D.Lookup(p.disks[i], fid).Err?)
        && r == Err(if exists i :: 0 <= i < |p.disks| && p.disks[i].fault then Fault else NotFound))
  }

  lemma DiskReads(p: Pool, i: nat, fid: nat)
    requires PoolInv(p) && i < |p.disks|
    ensures |p.objs| == |p.disks|
    ensures D.Read(p.disks[i], fid)
            == if p.disks[i].fault then Err(Fault) else if fid in p.objs[i] then Ok(p.objs[i][fid]) else Err(NotFound)
    ensures D.Lookup(p.disks[i], fid).Ok? <==> !p.disks[i].fault && fid in p.objs[i]
  {
    hide PoolInv, D.Inv, ReadRef;
    TrimDisk(p, i);
    ConfirmedKeys(p.disks[i], p.objs[i]);
    if !p.disks[i].fault { ReadsObjects(p.disks[i], p.objs[i], fid); }
  }

  /** Whichever disk answers first, a Get of a stored fid returns exactly its bytes,
      or fails because its disk has a fault. */
  lemma GetReturns(p: Pool, i: nat, fid: nat, r: Result<seq<byte>>)
    requires PoolInv(p) && i < |p.objs| && fid in p.objs[i] && GetAnswers(p, fid, r)
    ensures |p.disks| == |p.objs|
    ensures r == if p.disks[i].fault then Err(Fault) else Ok(p.objs[i][fid])
  {
    hide D.Read, D.Lookup, DiskOk, PutOk, GateOk, ExtentsHeld;
    forall j | 0 <= j < |p.disks|
      ensures D.Lookup(p.disks[j], fid).Ok? <==> !p.disks[j].fault && fid in p.objs[j]
      ensures j != i ==> fid !in p.objs[j]
    {
      DiskReads(p, j, fid);
    }
    DiskReads(p, i, fid);
  }

  /** A fid stored nowhere is never found. */
  lemma GetFindsNothing(p: Pool, fid: nat, r: Result<seq<byte>>)
    requires PoolInv(p) && (forall i :: 0 <= i < |p.objs| ==> fid !in p.objs[i]) && GetAnswers(p, fid, r)
    ensures r.Err?
    ensures (forall i :: 0 <= i < |p.disks| ==> !p.disks[i].fault) ==> r == Err(NotFound)
  {
    hide PoolInv, D.Read, D.Lookup;
    forall j | 0 <= j < |p.disks| ensures D.Lookup(p.disks[j], fid).Err? {
      DiskReads(p, j, fid);
    }
  }

  /** Put id is about to commit, successfully. */
  ghost predicate Commits(p: Pool, id: nat, io: D.CommitIO) {
    hide PoolInv, D.Commit;
    PoolInv(p) && Enabled(p, CommitPut(id, io)) && p.puts[id].Streaming? &&
    var p' := Next(p, CommitPut(id, io)); p'.puts[id].Committed?
  }

  ghost function AfterCommit(p: Pool, id: nat, io: D.CommitIO): Pool
    requires Commits(p, id, io)
  {
    Next(p, CommitPut(id, io))
  }

  /** Durability. Once a Put commits, after any further run of Puts, Trims and
      restarts every Get of its fid returns exactly its data, and every Get of its
      alias the data without the last byte, unless its disk has a fault. */
  lemma Durable(p: Pool, id: nat, io: D.CommitIO, steps: seq<Step>, r: Result<seq<byte>>)
    requires Commits(p, id, io) && PoolInv(AfterCommit(p, id, io)) && Legal(AfterCommit(p, id, io), steps)
    ensures var c, i, q := p.puts[id].claim, p.puts[id].disk, Run(AfterCommit(p, id, io), steps);
            && i < |q.disks|
            && (GetAnswers(q, c.fid, r) ==> r == if q.disks[i].fault then Err(Fault) else Ok(c.data))
            && (c.alias != 0 && GetAnswers(q, c.alias, r) ==>
                  r == if q.disks[i].fault then Err(Fault) else Ok(c.data[..|c.data| - 1]))
  {
    hide PoolInv, GetAnswers, Legal, Run, Enabled, Next, AfterCommit, Commits;
    CommitStores(p, id, io);
    var c, i, p' := p.puts[id].claim, p.puts[id].disk, AfterCommit(p, id, io);
    RunKeeps(p', steps);
    var q := Run(p', steps);
    if GetAnswers(q, c.fid, r) { GetReturns(q, i, c.fid, r); }
    if c.alias != 0 && GetAnswers(q, c.alias, r) { GetReturns(q, i, c.alias, r); }
    SameCount(q);
  }

  lemma SameCount(p: Pool)
    requires PoolInv(p)
    ensures |p.disks| == |p.objs|
  {}

  lemma CommitStores(p: Pool, id: nat, io: D.CommitIO)
    requires Commits(p, id, io)
    ensures id in p.puts && p.puts[id].Streaming? && PoolInv(p) && Enabled(p, CommitPut(id, io))
    ensures var p', c, i := AfterCommit(p, id, io), p.puts[id].claim, p.puts[id].disk;
            && i < |p'.objs| && c.data != []
            && c.fid in p'.objs[i] && p'.objs[i][c.fid] == c.data
            && (c.alias != 0 ==>
                  |c.data| >= 2 && c.alias in p'.objs[i] && p'.objs[i][c.alias] == c.data[..|c.data| - 1])
  {
    hide PoolInv, D.Commit, Landed, Payload, D.Inv, ReadRef, Extent, DiskOk;
    CommitDisk(p, id, io);
    PutAt(p, id);
    HeaderOf(p.disks, p.objs, p.puts[id]);
  }

  // ----- uniqueness -----

  /** Puts past the gate never share a fid; until one commits, its fids are stored
      on no disk; and no fid is ever stored on two disks. */
  ghost predicate Unique(p: Pool) {
    && (forall a, b :: a in p.puts && b in p.puts && a != b && !p.puts[a].Asking? && !p.puts[b].Asking? ==>
          Fids(p.puts[a].claim) !! Fids(p.puts[b].claim))
    && (forall id :: id in p.puts && !p.puts[id].Asking? && !p.puts[id].Committed? ==>
         NotStored(p.objs, p.puts[id].claim))
    && (forall i, j, f :: 0 <= i < j < |p.objs| && f in p.objs[i] ==> f !in p.objs[j])
  }

  lemma UniqueHere(p: Pool)
    requires PoolInv(p)
    ensures Unique(p)
  {
    hide DiskOk, PutOk, Fids, NotStored, ExtentsHeld;
    forall id | id in p.puts && !p.puts[id].Asking? && !p.puts[id].Committed?
      ensures NotStored(p.objs, p.puts[id].claim)
    {
      MayEnd(p.disks, p.objs, p.puts[id]);
    }
  }

  lemma UniqueAlways(p: Pool, steps: seq<Step>)
    requires PoolInv(p) && Legal(p, steps)
    ensures Unique(Run(p, steps))
  {
    hide PoolInv, Legal, Run, Unique;
    RunKeeps(p, steps);
    UniqueHere(Run(p, steps));
  }

  /** A Put that has not committed is not visible, however far it has come. */
  lemma UncommittedInvisible(p: Pool, steps: seq<Step>, id: nat, f: nat, r: Result<seq<byte>>)
    requires PoolInv(p) && Legal(p, steps)
    requires var q := Run(p, steps);
             && id in q.puts && !q.puts[id].Asking? && !q.puts[id].Committed? && f in Fids(q.puts[id].claim)
             && GetAnswers(q, f, r)
    ensures r.Err?
  {
    hide PoolInv, Legal, Run, GetAnswers, Fids;
    RunKeeps(p, steps);
    UniqueHere(Run(p, steps));
    GetFindsNothing(Run(p, steps), f, r);
  }

  // ----- conservation -----

  /** The gate holds exactly the fids of the Puts past it, and each disk reserves
      exactly the extents of the Puts streaming to it or about to abort. */
  ghost predicate Conserved(p: Pool) {
    && p.gate == (set id, f | id in p.puts && !p.puts[id].Asking? && f in Fids(p.puts[id].claim) :: f)
    && (forall i :: 0 <= i < |p.disks| ==>
          p.disks[i].pending == set id | id in p.puts && Holding(p.puts[id]) && p.puts[id].disk == i :: p.puts[id].iv)
    && (forall a, b :: a in p.puts && b in p.puts && a != b ==> Apart(p.puts[a], p.puts[b]))
  }

  predicate Holding(ps: PutState) { ps.Streaming? || ps.Failed? }

  predicate Apart(a: PutState, b: PutState) {
    Holding(a) && Holding(b) && a.disk == b.disk ==> a.iv != b.iv
  }

  lemma ConservedHere(p: Pool)
    requires PoolInv(p)
    ensures Conserved(p)
  {
    hide DisksOk, PutOk, Fids;
    HoldersOk(p);
    forall i | 0 <= i < |p.disks|
      ensures p.disks[i].pending
              == set id | id in p.puts && Holding(p.puts[id]) && p.puts[id].disk == i :: p.puts[id].iv
    {
      forall iv | iv in p.disks[i].pending
        ensures exists id :: id in p.puts && Holding(p.puts[id]) && p.puts[id].disk == i && p.puts[id].iv == iv
      {
        var id :| id in p.puts && HoldsExtent(p.puts[id], i, iv);
      }
    }
    forall a, b | a in p.puts && b in p.puts && a != b ensures Apart(p.puts[a], p.puts[b]) {
      if Holding(p.puts[a]) { assert HoldsExtent(p.puts[a], p.puts[a].disk, p.puts[a].iv); }
    }
  }

  /** Nothing leaks over any run: when no Put is in progress, nothing is claimed and
      nothing is reserved. */
  lemma NothingLeaks(p: Pool, steps: seq<Step>)
    requires PoolInv(p) && Legal(p, steps)
    ensures Conserved(Run(p, steps))
    ensures var q := Run(p, steps);
            q.puts == map[] ==>
              q.gate == {} && q.holder == None && forall i :: 0 <= i < |q.disks| ==> q.disks[i].pending == {}
  {
    hide Legal, Run, Next, Enabled, Conserved, DisksOk, PutOk;
    RunKeeps(p, steps);
    ConservedHere(Run(p, steps));
  }

  // ----- extents -----

  /** No step changes a byte inside any confirmed extent, whatever disk it works on. */
  lemma StepSpares(p: Pool, s: Step)
    requires PoolInv(p) && Enabled(p, s)
    ensures |Next(p, s).disks| == |p.disks|
    ensures forall i :: 0 <= i < |p.disks| ==> SameOn(p.disks[i].grid, Next(p, s).disks[i].grid, p.disks[i].intervals)
  {
    hide PoolInv, D.Inv, TrimInv, FreshFid, SameOn, D.PrepareWrite, D.Lookup, D.Commit, OpenAll, PutNext, TrimNext,
         Enabled, T.Carries;
    forall i | 0 <= i < |p.disks| ensures SameOn(p.disks[i].grid, p.disks[i].grid, p.disks[i].intervals) {
      SameItself(p.disks[i].grid, p.disks[i].intervals);
    }
    if s.Reopen? {
      ReopenSpares(p);
    } else if OfTrim(s) {
      TrimKeeps(p, s);
      OnFewer(p.disks[s.disk].grid, Next(p, s).disks[s.disk].grid, p.disks[s.disk].intervals, p.disks[s.disk].pending);
    } else {
      PutSpares(p, s);
    }
  }

  lemma OnFewer(g: seq<byte>, g': seq<byte>, ivs: set<Interval>, more: set<Interval>)
    requires SameOn(g, g', ivs + more)
    ensures SameOn(g, g', ivs)
  {}

  lemma ReopenSpares(p: Pool)
    requires PoolInv(p) && Enabled(p, Reopen)
    ensures |Next(p, Reopen).disks| == |p.disks|
    ensures forall i :: 0 <= i < |p.disks| ==> Next(p, Reopen).disks[i].grid == p.disks[i].grid
  {
    hide DiskOk, Opened, PutOk;
    forall i | 0 <= i < |p.disks| ensures Opened(p.disks[i]).grid == p.disks[i].grid {
      OpenedOk(p.disks[i], p.objs[i], p.trims[i]);
    }
  }

  lemma PutSpares(p: Pool, s: Step)
    requires PoolInv(p) && Enabled(p, s) && !OfTrim(s) && !s.Reopen?
    ensures |Next(p, s).disks| == |p.disks|
    ensures forall i :: 0 <= i < |p.disks| ==> SameOn(p.disks[i].grid, Next(p, s).disks[i].grid, p.disks[i].intervals)
  {
    hide PoolInv, SameOn, D.Splice, Payload, Fids, D.IOFits, D.Commit, D.PrepareWrite, D.Lookup, CommitNext, StreamNext;
    forall i | 0 <= i < |p.disks| ensures SameOn(p.disks[i].grid, p.disks[i].grid, p.disks[i].intervals) {
      SameItself(p.disks[i].grid, p.disks[i].intervals);
    }
    if s.Stream? {
      StreamSpares(p, s.id, s.count);
    } else {
      OthersWriteNothing(p, s);
    }
  }

  lemma OthersWriteNothing(p: Pool, s: Step)
    requires PoolInv(p) && Enabled(p, s) && !OfTrim(s) && !s.Reopen? && !s.Stream?
    ensures |Next(p, s).disks| == |p.disks|
    ensures forall i :: 0 <= i < |p.disks| ==> Next(p, s).disks[i].grid == p.disks[i].grid
  {
    hide PoolInv, Payload, Fids, D.Lookup, RecObjects, D.TornRegion, D.Splice, Extent, D.AnyOverlap, RecEntries,
         FreshFid, Waiting, D.ScansWhole, Landed;
    Sizes(p);
  }

  lemma StreamSpares(p: Pool, id: nat, n: nat)
    requires PoolInv(p) && Enabled(p, Stream(id, n))
    ensures |Next(p, Stream(id, n)).disks| == |p.disks|
    ensures forall i :: 0 <= i < |p.disks| ==>
      SameOn(p.disks[i].grid, Next(p, Stream(id, n)).disks[i].grid, p.disks[i].intervals)
  {
    hide PoolInv, SameOn, D.Splice, Payload, Fids, Landed, D.Inv, TrimInv, Overlaps;
    var ps := p.puts[id];
    var iv, i := ps.iv, ps.disk;
    StreamFits(p, id);
    TrimDisk(p, i);
    HeldApart(p, id);
    var d := p.disks[i];
    PendingClear(d, p.objs[i], iv);
    ConfirmedKeys(d, p.objs[i]);
    LandsMore(d.grid, ps.claim, iv, ps.written, n);
    var part := Payload(ps.claim, iv)[ps.written..ps.written + n];
    WriteOutside(d.slots, d.grid, iv.start * SLOT_SIZE + ps.written, part, iv, d.intervals);
    forall j | 0 <= j < |p.disks| ensures SameOn(p.disks[j].grid, p.disks[j].grid, p.disks[j].intervals) {
      SameItself(p.disks[j].grid, p.disks[j].intervals);
    }
  }

  /** On every disk, after any run, the confirmed and reserved extents lie on the grid
      and no two of them share a slot. */
  lemma ExtentsApart(p: Pool, steps: seq<Step>, i: nat)
    requires PoolInv(p) && Legal(p, steps) && i < |Run(p, steps).disks|
    ensures var d := Run(p, steps).disks[i];
            d.intervals !! d.pending && Packing(d.slots, d.intervals + d.pending)
  {
    hide PoolInv, Legal, Run, Packing, D.LogIs, Holds, TrimInv;
    RunKeeps(p, steps);
    TrimDisk(Run(p, steps), i);
  }

  /** A restart finds no fid confirmed on two disks, so it is accepted. */
  lemma RestartAccepted(p: Pool)
    requires PoolInv(p) && Enabled(p, Reopen)
    ensures var q := Next(p, Reopen);
            forall i, j, f :: 0 <= i < j < |q.disks| && f in q.disks[j].confirmed ==> f !in q.disks[i].confirmed
  {
    hide PoolInv, D.Inv, TrimInv, Next, Enabled, NotStored, Fids;
    ReopenKeeps(p);
    var q := Next(p, Reopen);
    UniqueHere(q);
    SameCount(q);
    forall i | 0 <= i < |q.disks| ensures q.disks[i].confirmed.Keys == q.objs[i].Keys {
      TrimDisk(q, i);
      ConfirmedKeys(q.disks[i], q.objs[i]);
    }
  }

  // ----- the sticky fault -----

  /** No step but a restart clears a fault, and a restart waits until there is none. */
  lemma FaultStays(p: Pool, s: Step, i: nat)
    requires PoolInv(p) && Enabled(p, s) && i < |p.disks| && p.disks[i].fault
    ensures |Next(p, s).disks| == |p.disks| && Next(p, s).disks[i].fault
  {
    hide PoolInv, Next, TrimStepOk, T.Carries, SameOn;
    if OfTrim(s) {
      TrimKeeps(p, s);
      TrimFault(p, s);
    } else {
      FaultStaysInPut(p, s, i);
    }
  }

  lemma TrimFault(p: Pool, s: Step)
    requires PoolInv(p) && Enabled(p, s) && OfTrim(s) && TrimStepDone(p, s)
    ensures s.disk < |p.disks| == |Next(p, s).disks| && Next(p, s).disks[s.disk].fault == p.disks[s.disk].fault
  {
    hide PoolInv, Enabled, Next, T.Carries, SameOn, FreshFid;
  }

  lemma FaultStaysInPut(p: Pool, s: Step, i: nat)
    requires PoolInv(p) && Enabled(p, s) && !OfTrim(s) && !s.Reopen? && i < |p.disks| && p.disks[i].fault
    ensures |Next(p, s).disks| == |p.disks| && Next(p, s).disks[i].fault
  {
    hide PoolInv, D.TornRegion, D.Appended, D.Splice, Payload, Fids, D.Lookup, Extent, D.AnyOverlap, RecObjects, Landed,
         RecEntries, FreshFid, Waiting, D.ScansWhole;
    Sizes(p);
  }

  /** Nor does any step store an object on a faulty disk. */
  lemma FaultFreezes(p: Pool, s: Step, i: nat)
    requires PoolInv(p) && Enabled(p, s) && i < |p.disks| && p.disks[i].fault
    ensures |p.objs| == |Next(p, s).objs| == |p.disks| && Next(p, s).objs[i] == p.objs[i]
  {
    hide PoolInv, Next, TrimStepOk, PutNext, TrimNext;
    Sizes(p);
    NextKeeps(p, s);
    if OfTrim(s) {
      TrimKeeps(p, s);
      TrimFreezes(p, s, i);
    } else {
      PutFreezes(p, s, i);
    }
  }

  lemma TrimFreezes(p: Pool, s: Step, i: nat)
    requires PoolInv(p) && Enabled(p, s) && OfTrim(s) && TrimStepDone(p, s) && i < |p.disks| && p.disks[i].fault
    ensures i < |p.objs| == |Next(p, s).objs| && Next(p, s).objs[i] == p.objs[i]
  {
    hide PoolInv, TrimStepOk, FreshFid, Waiting, D.ScansWhole, D.Inv, TrimOk;
    TrimDisk(p, i);
  }

  lemma PutFreezes(p: Pool, s: Step, i: nat)
    requires PoolInv(p) && Enabled(p, s) && !OfTrim(s) && i < |p.disks| == |p.objs| && p.disks[i].fault
    ensures |Next(p, s).objs| == |p.objs| && Next(p, s).objs[i] == p.objs[i]
  {
    hide PoolInv, Payload, Fids, D.Lookup, D.PrepareWrite, D.StreamWrite, D.Abort, Landed, FreshFid, Waiting,
         D.ScansWhole, CommitNext, StreamNext;
    if s.CommitPut? {
      CommitFreezes(p, s.id, s.io, i);
    } else if s.Stream? {
      StreamStores(p, s.id, s.count);
    }
  }

  lemma StreamStores(p: Pool, id: nat, n: nat)
    requires PoolInv(p) && Enabled(p, Stream(id, n))
    ensures StreamNext(p, id, n).objs == p.objs
  {
    hide PoolInv, Payload, D.StreamWrite, Landed;
  }

  lemma CommitFreezes(p: Pool, id: nat, io: D.CommitIO, i: nat)
    requires PoolInv(p) && Enabled(p, CommitPut(id, io)) && i < |p.disks| == |p.objs| && p.disks[i].fault
    ensures |CommitNext(p, id, io).objs| == |p.objs| && CommitNext(p, id, io).objs[i] == p.objs[i]
  {
    hide PoolInv, D.TornRegion, D.Appended, Payload, RecObjects, RecEntries;
    Sizes(p);
  }

  /** Whatever the pool does, a faulty disk stays as it is for good: its fault is never
      cleared, nothing more is stored on it, and it answers no Get. */
  lemma {:induction false} FaultForGood(p: Pool, steps: seq<Step>, i: nat, f: nat)
    requires PoolInv(p) && Legal(p, steps) && i < |p.disks| && p.disks[i].fault
    ensures |p.objs| == |p.disks| == |Run(p, steps).disks| == |Run(p, steps).objs|
    ensures Run(p, steps).disks[i].fault && Run(p, steps).objs[i] == p.objs[i]
    ensures D.Read(Run(p, steps).disks[i], f) == Err(Fault)
    decreases |steps|
  {
    hide PoolInv, Enabled, Next;
    Sizes(p);
    if steps != [] {
      NextKeeps(p, steps[0]);
      FaultStays(p, steps[0], i);
      FaultFreezes(p, steps[0], i);
      FaultForGood(Next(p, steps[0]), steps[1..], i, f);
    }
  }
}
