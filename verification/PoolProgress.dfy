/** Progress: a Put nobody stands in the way of goes through from its header to the
    commit, whatever other Puts and Trims are doing elsewhere. */
module PoolProgress {
  import opened Layout
  import opened IndexEntry
  import opened Replay
  import opened StoreSteps
  import D = DiskState
  import opened DiskSteps
  import opened TrimSteps
  import opened Trim
  import opened Pool
  import opened PoolSteps
  import opened PoolRuns

  // ----- from the grant to the commit -----

  /** Nothing stands in the way of the granted Put on disk i: no Trim holds the disk's
      lock, the disk is in order, the object's extent shares no slot with any other, and
      the log has room. */
  ghost predicate WayFree(p: Pool, id: nat, i: nat) {
    && id in p.puts && p.puts[id].Granted? && i < |p.disks| && Unlocked(p, i)
    && Reservable(p.disks[i], p.puts[id].claim.fid, |p.puts[id].claim.data|)
    && p.disks[i].end + |CommitEntriesOf(p.puts[id].claim)| <= MAX_ENTRIES
  }

  function CommitEntriesOf(c: Claim): seq<Entry> { CommitEntries(c.fid, |c.data|, c.alias) }

  function Whole(p: Pool, id: nat): nat {
    if id in p.puts && p.puts[id].Streaming? then |Payload(p.puts[id].claim, p.puts[id].iv)| else 0
  }

  lemma PrepareGoes(p: Pool, id: nat, i: nat) returns (p': Pool, iv: Interval)
    requires PoolInv(p) && WayFree(p, id, i)
    ensures Enabled(p, Prepare(id, i)) && p' == Next(p, Prepare(id, i)) && PoolInv(p')
    ensures id in p'.puts && p'.puts[id] == Streaming(p.puts[id].claim, i, iv, 0)
    ensures |p'.disks| == |p.disks| && p'.trims == p.trims && p'.objs == p.objs
    ensures i < |p'.disks| && p'.disks[i] == p.disks[i].(pending := p'.disks[i].pending)
  {
    hide PoolInv, Extent, D.PrepareWrite, Reservable;
    PrepareExactly(p.disks[i], p.puts[id].claim.fid, |p.puts[id].claim.data|);
    p' := Next(p, Prepare(id, i));
    iv := D.PrepareWrite(p.disks[i], p.puts[id].claim.fid, |p.puts[id].claim.data|).1.value;
    PrepareStepKeeps(p, id, i);
  }

  lemma StreamGoes(p: Pool, id: nat) returns (p': Pool)
    requires PoolInv(p) && id in p.puts && p.puts[id].Streaming? && p.puts[id].written == 0
    ensures Enabled(p, Stream(id, Whole(p, id))) && p' == Next(p, Stream(id, Whole(p, id))) && PoolInv(p')
    ensures id in p'.puts && p'.puts[id] == p.puts[id].(written := Whole(p, id))
    ensures |p'.disks| == |p.disks| && p'.trims == p.trims && p'.objs == p.objs
    ensures var i := p.puts[id].disk;
            i < |p'.disks| && p'.disks[i] == p.disks[i].(grid := p'.disks[i].grid)
  {
    hide PoolInv, Payload, D.Splice, Landed;
    StreamFits(p, id);
    p' := Next(p, Stream(id, Whole(p, id)));
    StreamStepKeeps(p, id, Whole(p, id));
  }

  lemma CommitGoes(p: Pool, id: nat)
    requires PoolInv(p) && id in p.puts && p.puts[id].Streaming? && p.puts[id].written == Whole(p, id)
    requires Unlocked(p, p.puts[id].disk)
    requires p.puts[id].disk < |p.disks| && !p.disks[p.puts[id].disk].fault
             && p.disks[p.puts[id].disk].end + |CommitEntriesOf(p.puts[id].claim)| <= MAX_ENTRIES
    ensures Commits(p, id, D.AllWell)
  {
    hide PoolInv, Payload, D.Inv, Extent, ReadRef, D.Commit, Landed, TrimInv;
    var ps := p.puts[id];
    var c, d := ps.claim, p.disks[ps.disk];
    FullyWritten(p, id);
    CommitDisk(p, id, D.AllWell);
    PutAt(p, id);
    HeaderOf(p.disks, p.objs, ps);
    ConfirmedKeys(d, p.objs[ps.disk]);
    assert c.fid in Fids(c) && (c.alias != 0 ==> c.alias in Fids(c));
    ExtentInside(d.slots, c.fid, |c.data|);
    CommitExactly(d, c.fid, |c.data|, ps.iv, c.alias, D.AllWell);
  }

  lemma ExtentInside(slots: nat, fid: nat, size: nat)
    requires slots < SLOT_LIMIT && Extent(slots, fid, size).Some?
    ensures size < TWO_56
  {}

  lemma FullyWritten(p: Pool, id: nat)
    requires id in p.puts && p.puts[id].Streaming? && p.puts[id].written == Whole(p, id) && Unlocked(p, p.puts[id].disk)
    ensures Enabled(p, CommitPut(id, D.AllWell))
  {}

  lemma WayHasNoFault(p: Pool, id: nat, i: nat)
    requires WayFree(p, id, i)
    ensures !p.disks[i].fault
  {}

  /** A granted Put whose way is free commits in three steps, whatever other Puts and
      Trims are doing elsewhere. */
  lemma PutGoesThrough(p: Pool, id: nat, i: nat) returns (p2: Pool)
    requires PoolInv(p) && WayFree(p, id, i)
    ensures Enabled(p, Prepare(id, i)) && PoolInv(Next(p, Prepare(id, i)))
    ensures var p1 := Next(p, Prepare(id, i));
            Enabled(p1, Stream(id, Whole(p1, id))) && p2 == Next(p1, Stream(id, Whole(p1, id)))
    ensures PoolInv(p2) && Commits(p2, id, D.AllWell)
    ensures p2.puts[id].Streaming? && p2.puts[id].claim == p.puts[id].claim && p2.puts[id].disk == i
    ensures p2.objs == p.objs
  {
    hide PoolInv, Enabled, Next, Commits, Payload, Reservable;
    WayHasNoFault(p, id, i);
    var p1, iv := PrepareGoes(p, id, i);
    p2 := StreamGoes(p1, id);
    CommitGoes(p2, id);
  }

  // ----- from the header to the grant -----

  lemma AskGoes(p: Pool, id: nat, i: nat, f: nat)
    requires PoolInv(p) && id in p.puts && p.puts[id].Asking? && i < |p.disks| == |p.objs|
    requires f in Fids(p.puts[id].claim) && f !in p.objs[i] && !p.disks[i].fault
    ensures Enabled(p, Ask(id, i, f)) && PoolInv(Next(p, Ask(id, i, f)))
    ensures Next(p, Ask(id, i, f)) == SetPut(p, id, Asking(p.puts[id].claim, p.puts[id].asked + {(i, f)}))
  {
    hide PoolInv, D.Inv, TrimInv;
    DiskAt(p, i);
    ConfirmedKeys(p.disks[i], p.objs[i]);
    AskKeeps(p, id, i, f);
  }

  ghost predicate NoFaults(p: Pool) { forall i :: 0 <= i < |p.disks| ==> !p.disks[i].fault }

  /** The Put has heard about all its fids from the first n disks. */
  ghost predicate Heard(ps: PutState, n: nat)
    requires ps.Asking?
  {
    forall j, f :: 0 <= j < n && f in Fids(ps.claim) ==> (j, f) in ps.asked
  }

  /** Asking every disk from the i-th on. */
  lemma {:induction false} AsksGo(p: Pool, id: nat, i: nat) returns (steps: seq<Step>, asked: set<(nat, nat)>)
    requires PoolInv(p) && id in p.puts && p.puts[id].Asking? && i <= |p.disks| && Heard(p.puts[id], i)
    requires NotStored(p.objs, p.puts[id].claim) && NoFaults(p)
    ensures Legal(p, steps) && Run(p, steps) == SetPut(p, id, Asking(p.puts[id].claim, asked))
    ensures Heard(Asking(p.puts[id].claim, asked), |p.disks|)
    decreases |p.disks| - i
  {
    hide PoolInv, Enabled, Next;
    Sizes(p);
    var c := p.puts[id].claim;
    if i == |p.disks| {
      steps, asked := [], p.puts[id].asked;
      assert p.puts[id := p.puts[id]] == p.puts;
    } else {
      AskGoes(p, id, i, c.fid);
      var p1 := Next(p, Ask(id, i, c.fid));
      if c.alias == 0 {
        var rest, all := AsksGo(p1, id, i + 1);
        steps, asked := [Ask(id, i, c.fid)] + rest, all;
      } else {
        AskGoes(p1, id, i, c.alias);
        var p2 := Next(p1, Ask(id, i, c.alias));
        var rest, all := AsksGo(p2, id, i + 1);
        RunFirst(p1, Ask(id, i, c.alias), rest);
        steps, asked := [Ask(id, i, c.fid)] + ([Ask(id, i, c.alias)] + rest), all;
      }
      RunFirst(p, Ask(id, i, c.fid), steps[1..]);
    }
  }

  lemma RunFirst(p: Pool, s: Step, rest: seq<Step>)
    requires PoolInv(p) && Enabled(p, s) && PoolInv(Next(p, s)) && Legal(Next(p, s), rest)
    ensures Legal(p, [s] + rest) && Run(p, [s] + rest) == Run(Next(p, s), rest)
  {
    hide PoolInv, Enabled, Next;
    assert ([s] + rest)[1..] == rest;
  }

  lemma {:induction false} RunAppend(p: Pool, a: seq<Step>, b: seq<Step>)
    requires PoolInv(p) && Legal(p, a) && PoolInv(Run(p, a)) && Legal(Run(p, a), b)
    ensures Legal(p, a + b) && Run(p, a + b) == Run(Run(p, a), b)
    decreases |a|
  {
    hide PoolInv, Enabled, Next;
    if a == [] {
      assert a + b == b;
    } else {
      NextKeeps(p, a[0]);
      RunAppend(Next(p, a[0]), a[1..], b);
      RunFirst(p, a[0], a[1..] + b);
      assert [a[0]] + (a[1..] + b) == a + b;
    }
  }

  lemma BeginGoes(p: Pool, id: nat, c: Claim) returns (p': Pool)
    requires PoolInv(p) && id !in p.puts && p.holder.None? && HeaderOk(c) && Fids(c) !! p.gate
    ensures Enabled(p, BeginPut(id, c)) && p' == Next(p, BeginPut(id, c)) && PoolInv(p')
    ensures p' == p.(holder := Some(id), puts := p.puts[id := Asking(c, {})])
  {
    hide PoolInv;
    p' := Next(p, BeginPut(id, c));
    BeginPutKeeps(p, id, c);
  }

  lemma GrantGoes(p: Pool, id: nat) returns (p': Pool)
    requires PoolInv(p) && id in p.puts && p.puts[id].Asking? && Heard(p.puts[id], |p.disks|)
    ensures Enabled(p, Grant(id)) && p' == Next(p, Grant(id)) && PoolInv(p')
    ensures var c := p.puts[id].claim;
            p' == p.(holder := None, gate := p.gate + Fids(c), puts := p.puts[id := Granted(c)])
  {
    hide PoolInv;
    p' := Next(p, Grant(id));
    GrantKeeps(p, id);
  }

  /** The gate lets a Put in whose fids nobody claims and no disk stores. */
  lemma PutIsGranted(p: Pool, id: nat, c: Claim) returns (steps: seq<Step>)
    requires PoolInv(p) && id !in p.puts && p.holder.None? && HeaderOk(c) && Fids(c) !! p.gate
    requires NotStored(p.objs, c) && NoFaults(p)
    ensures Legal(p, steps) && PoolInv(Run(p, steps))
    ensures Run(p, steps) == p.(gate := p.gate + Fids(c), puts := p.puts[id := Granted(c)])
  {
    hide PoolInv, Enabled, Next, NotStored;
    var p1 := BeginGoes(p, id, c);
    var asks, asked := AsksGo(p1, id, 0);
    var p2 := Run(p1, asks);
    RunKeeps(p1, asks);
    var p3 := GrantGoes(p2, id);
    assert Legal(p3, []) && Run(p3, []) == p3;
    RunFirst(p2, Grant(id), []);
    RunAppend(p1, asks, [Grant(id)] + []);
    RunFirst(p, BeginPut(id, c), asks + ([Grant(id)] + []));
    steps := [BeginPut(id, c)] + (asks + ([Grant(id)] + []));
    assert p.puts[id := Asking(c, {})][id := Asking(c, asked)][id := Granted(c)] == p.puts[id := Granted(c)];
  }

  /** A Put nobody stands in the way of goes through: its fids are neither claimed nor
      stored, no disk has a fault, and on disk i the extent is free and the log has room.
      Then the disk stores the object, and every other disk what it stored. */
  lemma PutCompletes(p: Pool, id: nat, c: Claim, i: nat) returns (steps: seq<Step>)
    requires PoolInv(p) && id !in p.puts && p.holder.None? && HeaderOk(c) && Fids(c) !! p.gate
    requires NotStored(p.objs, c) && NoFaults(p) && WayFree(p.(puts := p.puts[id := Granted(c)]), id, i)
    ensures i < |p.objs| && Legal(p, steps)
    ensures var p' := Run(p, steps);
            && id in p'.puts && p'.puts[id] == Committed(c, i)
            && p'.objs == p.objs[i := p.objs[i] + RecObjects(D.CommitRec(c.fid, |c.data|, c.alias), c.data)]
  {
    hide PoolInv, Enabled, Next, NotStored, NoFaults, Commits, Whole, Payload, Reservable;
    Sizes(p);
    var grant := PutIsGranted(p, id, c);
    var g := Run(p, grant);
    var p2 := PutGoesThrough(g, id, i);
    var p1 := Next(g, Prepare(id, i));
    CommitEnds(p2, id);
    var p3 := Next(p2, CommitPut(id, D.AllWell));
    assert Legal(p3, []) && Run(p3, []) == p3;
    RunFirst(p2, CommitPut(id, D.AllWell), []);
    var last := [CommitPut(id, D.AllWell)] + [];
    RunFirst(p1, Stream(id, Whole(p1, id)), last);
    RunFirst(g, Prepare(id, i), [Stream(id, Whole(p1, id))] + last);
    steps := grant + ([Prepare(id, i)] + ([Stream(id, Whole(p1, id))] + last));
    RunAppend(p, grant, [Prepare(id, i)] + ([Stream(id, Whole(p1, id))] + last));
  }

  lemma CommitEnds(p: Pool, id: nat)
    requires PoolInv(p) && Commits(p, id, D.AllWell) && p.puts[id].Streaming?
    ensures Enabled(p, CommitPut(id, D.AllWell)) && PoolInv(Next(p, CommitPut(id, D.AllWell)))
    ensures var ps, p' := p.puts[id], Next(p, CommitPut(id, D.AllWell));
            var c, i := ps.claim, ps.disk;
            && i < |p.objs| && id in p'.puts && p'.puts[id] == Committed(c, i)
            && p'.objs == p.objs[i := p.objs[i] + RecObjects(D.CommitRec(c.fid, |c.data|, c.alias), c.data)]
  {
    hide PoolInv, D.Commit, RecObjects;
    Sizes(p);
    CommitStepKeeps(p, id, D.AllWell);
  }
}
