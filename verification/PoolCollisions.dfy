/** Trim's own objects bypass the gate: when a container or a table keeps the pool in
    order, and what a colliding hash leads to. */
module PoolCollisions {
  import opened Layout
  import opened IndexLog
  import opened PackedTable
  import opened Store
  import D = DiskState
  import opened DiskSteps
  import opened TrimSteps
  import opened Trim
  import T = TrimRun
  import opened Pool
  import opened PoolSteps
  import opened PoolRuns
  import opened Witness

  // ----- the exact condition -----

  /** Trim on disk i has stored one more object, under fid. */
  ghost predicate AddsOne(p: Pool, i: nat, d: Disk, fid: nat, data: seq<byte>, ts: TrimState)
    requires i < |p.disks| == |p.objs|
  {
    fid < TWO_64 && fid !in p.objs[i] && T.Aside(p.disks[i], d) && T.Carries(d, p.objs[i], p.objs[i][fid := data], ts)
  }

  lemma FreshSuffices(p: Pool, i: nat, d: Disk, fid: nat, data: seq<byte>, ts: TrimState)
    requires PoolInv(p) && Trimming(p, i) && AddsOne(p, i, d, fid, data, ts) && FreshFid(p, i, fid)
    ensures PoolInv(TrimOnDisk(p, i, d, p.objs[i][fid := data], ts))
  {
    hide PoolInv, FreshFid, D.Inv, TrimInv, SameOn, TrimOnDisk;
    TrimStepKeeps(p, i, d, p.objs[i][fid := data], ts);
  }

  lemma FreshNeeded(p: Pool, i: nat, d: Disk, fid: nat, data: seq<byte>, ts: TrimState)
    requires PoolInv(p) && Trimming(p, i) && AddsOne(p, i, d, fid, data, ts)
    requires PoolInv(TrimOnDisk(p, i, d, p.objs[i][fid := data], ts))
    ensures FreshFid(p, i, fid)
  {
    hide GateOk, ExtentsHeld, DiskOk, Fids, HeaderOk, Landed, Extent, T.Aside, T.Carries;
    var p' := TrimOnDisk(p, i, d, p.objs[i][fid := data], ts);
    assert fid in p'.objs[i];
    forall j | 0 <= j < |p.objs| && j != i ensures fid !in p.objs[j] { assert p'.objs[j] == p.objs[j]; }
    forall id | id in p.puts ensures !Relies(p.puts[id], i, fid) {
      assert p'.puts[id] == p.puts[id];
      PutAt(p', id);
    }
  }

  lemma FreshExactly(p: Pool, i: nat, d: Disk, fid: nat, data: seq<byte>, ts: TrimState)
    requires PoolInv(p) && Trimming(p, i) && AddsOne(p, i, d, fid, data, ts)
    ensures PoolInv(TrimOnDisk(p, i, d, p.objs[i][fid := data], ts)) <==> FreshFid(p, i, fid)
  {
    hide PoolInv, FreshFid, AddsOne, TrimOnDisk;
    if FreshFid(p, i, fid) { FreshSuffices(p, i, d, fid, data, ts); }
    if PoolInv(TrimOnDisk(p, i, d, p.objs[i][fid := data], ts)) { FreshNeeded(p, i, d, fid, data, ts); }
  }

  lemma ContainerAdds(p: Pool, i: nat, fid: nat, tail: seq<byte>)
    requires PoolInv(p) && Trimming(p, i) && p.trims[i].Built? && fid < TWO_64
    requires D.Shape(p.disks[i]) && T.WriteContainer(p.disks[i], p.trims[i], fid, tail).1.ContainerDone?
    ensures var (d, ts) := T.WriteContainer(p.disks[i], p.trims[i], fid, tail);
            AddsOne(p, i, d, fid, p.trims[i].data + tail, ts)
  {
    hide PoolInv, D.Inv, TrimInv, T.WriteContainer, T.Aside, T.Carries, D.Shape;
    TrimDisk(p, i);
    T.WriteContainerKeeps(p.disks[i], p.objs[i], p.trims[i], fid, tail);
  }

  lemma TableAdds(p: Pool, i: nat, fid: nat, nonce: nat)
    requires PoolInv(p) && Trimming(p, i) && p.trims[i].ContainerDone? && fid < TWO_64 && nonce < 256
    requires D.Shape(p.disks[i]) && T.WriteTable(p.disks[i], p.trims[i], fid, nonce).1.TableDone?
    ensures var (d, ts) := T.WriteTable(p.disks[i], p.trims[i], fid, nonce);
            AddsOne(p, i, d, fid, T.TableBlob(T.NewTable(p.disks[i], p.trims[i], nonce)), ts)
  {
    hide PoolInv, D.Inv, TrimInv, T.WriteTable, T.TableBlob, T.NewTable, T.Aside, T.Carries, D.Shape;
    TrimDisk(p, i);
    T.WriteTableKeeps(p.disks[i], p.objs[i], p.trims[i], fid, nonce);
  }

  /** A container leaves the pool in order exactly if no other disk stores its fid and no
      Put in progress relies on this disk not storing it. */
  lemma ContainerFresh(p: Pool, i: nat, fid: nat, tail: seq<byte>)
    requires PoolInv(p) && Trimming(p, i) && p.trims[i].Built? && fid < TWO_64
    requires D.Shape(p.disks[i]) && T.WriteContainer(p.disks[i], p.trims[i], fid, tail).1.ContainerDone?
    ensures var (d, ts) := T.WriteContainer(p.disks[i], p.trims[i], fid, tail);
            PoolInv(TrimOnDisk(p, i, d, p.objs[i][fid := p.trims[i].data + tail], ts)) <==> FreshFid(p, i, fid)
  {
    hide PoolInv, FreshFid, AddsOne, TrimOnDisk, T.WriteContainer, D.Shape;
    ContainerAdds(p, i, fid, tail);
    var (d, ts) := T.WriteContainer(p.disks[i], p.trims[i], fid, tail);
    FreshExactly(p, i, d, fid, p.trims[i].data + tail, ts);
  }

  /** So does a table. */
  lemma TableFresh(p: Pool, i: nat, fid: nat, nonce: nat)
    requires PoolInv(p) && Trimming(p, i) && p.trims[i].ContainerDone? && fid < TWO_64 && nonce < 256
    requires D.Shape(p.disks[i]) && T.WriteTable(p.disks[i], p.trims[i], fid, nonce).1.TableDone?
    ensures var (d, ts) := T.WriteTable(p.disks[i], p.trims[i], fid, nonce);
            PoolInv(TrimOnDisk(p, i, d, p.objs[i][fid := T.TableBlob(T.NewTable(p.disks[i], p.trims[i], nonce))], ts))
            <==> FreshFid(p, i, fid)
  {
    hide PoolInv, FreshFid, AddsOne, TrimOnDisk, T.WriteTable, T.TableBlob, T.NewTable, D.Shape;
    TableAdds(p, i, fid, nonce);
    var (d, ts) := T.WriteTable(p.disks[i], p.trims[i], fid, nonce);
    FreshExactly(p, i, d, fid, T.TableBlob(T.NewTable(p.disks[i], p.trims[i], nonce)), ts);
  }

  // ----- what a collision leads to -----

  /** The next start accepts the pool: no fid is confirmed on two disks. */
  ghost predicate NoFidTwice(disks: seq<Disk>) {
    forall i, j, f :: 0 <= i < j < |disks| && f in disks[i].confirmed ==> f !in disks[j].confirmed
  }

  lemma KeysKnown(p: Pool, j: nat)
    requires PoolInv(p) && j < |p.disks|
    ensures |p.objs| == |p.disks| && p.disks[j].confirmed.Keys == p.objs[j].Keys
  {
    hide PoolInv, D.Inv, TrimInv;
    TrimDisk(p, j);
    ConfirmedKeys(p.disks[j], p.objs[j]);
  }

  lemma OnOneDisk(p: Pool, i: nat, j: nat, f: nat)
    requires PoolInv(p) && i < |p.objs| && j < |p.objs| && i != j && f in p.objs[i]
    ensures f !in p.objs[j]
  {
    hide DiskOk, PutOk, GateOk, ExtentsHeld;
  }

  /** After one more object of Trim's the next start accepts the pool exactly if no other
      disk stores its fid. */
  lemma AddedCollides(p: Pool, i: nat, d: Disk, fid: nat, data: seq<byte>, ts: TrimState)
    requires PoolInv(p) && Trimming(p, i) && AddsOne(p, i, d, fid, data, ts)
    ensures NoFidTwice(p.disks[i := d]) <==> forall j :: 0 <= j < |p.objs| && j != i ==> fid !in p.objs[j]
  {
    hide PoolInv, D.Inv, TrimInv, T.Aside;
    ConfirmedKeys(d, p.objs[i][fid := data]);
    forall j | 0 <= j < |p.disks| ensures p.disks[j].confirmed.Keys == p.objs[j].Keys { KeysKnown(p, j); }
    var disks' := p.disks[i := d];
    if forall j :: 0 <= j < |p.objs| && j != i ==> fid !in p.objs[j] {
      forall a, b, f | 0 <= a < b < |disks'| && f in disks'[a].confirmed ensures f !in disks'[b].confirmed {
        if f in p.objs[a] { OnOneDisk(p, a, b, f); }
      }
    }
    if NoFidTwice(disks') {
      forall j | 0 <= j < |p.objs| && j != i ensures fid !in p.objs[j] {
        assert fid in disks'[i].confirmed;
        assert disks'[j] == p.disks[j];
      }
    }
  }

  lemma ContainerCollision(p: Pool, i: nat, fid: nat, tail: seq<byte>)
    requires PoolInv(p) && Trimming(p, i) && p.trims[i].Built? && fid < TWO_64
    requires D.Shape(p.disks[i]) && T.WriteContainer(p.disks[i], p.trims[i], fid, tail).1.ContainerDone?
    ensures NoFidTwice(p.disks[i := T.WriteContainer(p.disks[i], p.trims[i], fid, tail).0])
            <==> forall j :: 0 <= j < |p.objs| && j != i ==> fid !in p.objs[j]
  {
    hide PoolInv, AddsOne, T.WriteContainer, D.Shape, NoFidTwice;
    ContainerAdds(p, i, fid, tail);
    var (d, ts) := T.WriteContainer(p.disks[i], p.trims[i], fid, tail);
    AddedCollides(p, i, d, fid, p.trims[i].data + tail, ts);
  }

  lemma TableCollision(p: Pool, i: nat, fid: nat, nonce: nat)
    requires PoolInv(p) && Trimming(p, i) && p.trims[i].ContainerDone? && fid < TWO_64 && nonce < 256
    requires D.Shape(p.disks[i]) && T.WriteTable(p.disks[i], p.trims[i], fid, nonce).1.TableDone?
    ensures NoFidTwice(p.disks[i := T.WriteTable(p.disks[i], p.trims[i], fid, nonce).0])
            <==> forall j :: 0 <= j < |p.objs| && j != i ==> fid !in p.objs[j]
  {
    hide PoolInv, AddsOne, T.WriteTable, T.TableBlob, T.NewTable, D.Shape, NoFidTwice;
    TableAdds(p, i, fid, nonce);
    var (d, ts) := T.WriteTable(p.disks[i], p.trims[i], fid, nonce);
    AddedCollides(p, i, d, fid, T.TableBlob(T.NewTable(p.disks[i], p.trims[i], nonce)), ts);
  }

  /** The commit of a Put that is streaming. */
  function CommitOf(p: Pool, id: nat, io: D.CommitIO): (D.Disk, Result<()>)
    requires id in p.puts && p.puts[id].Streaming? && p.puts[id].disk < |p.disks|
    requires |p.disks[p.puts[id].disk].region| == MAX_ENTRIES
             && D.IOFits(io, if p.puts[id].claim.alias == 0 then 1 else 2)
  {
    var ps := p.puts[id];
    D.Commit(p.disks[ps.disk], ps.claim.fid, |ps.claim.data|, ps.iv, ps.claim.alias, io)
  }

  /** A Put that claimed the fid before goes on undisturbed on its own disk: when it
      commits there, the next start refuses the pool. */
  lemma InFlightCollision(p: Pool, i: nat, d: Disk, fid: nat, data: seq<byte>, ts: TrimState, id: nat, io: D.CommitIO)
    requires Trimming(p, i) && AddsOne(p, i, d, fid, data, ts)
    requires id in p.puts && p.puts[id].Streaming? && p.puts[id].disk < |p.disks| && p.puts[id].disk != i
    requires |p.disks[p.puts[id].disk].region| == MAX_ENTRIES
             && D.IOFits(io, if p.puts[id].claim.alias == 0 then 1 else 2)
    requires fid in Fids(p.puts[id].claim) && CommitOf(p, id, io).1.Ok?
    ensures !NoFidTwice(p.disks[i := d][p.puts[id].disk := CommitOf(p, id, io).0])
  {
    hide AddsOne, NoFidTwice, CommitOf, D.IOFits, Fids;
    ConfirmedAdded(p, i, d, fid, data, ts);
    ConfirmedByCommit(p, id, io, fid);
    TwiceIs(p.disks[i := d][p.puts[id].disk := CommitOf(p, id, io).0], i, p.puts[id].disk, fid);
  }

  lemma TwiceIs(disks: seq<Disk>, i: nat, j: nat, fid: nat)
    requires i < |disks| && j < |disks| && i != j && fid in disks[i].confirmed && fid in disks[j].confirmed
    ensures !NoFidTwice(disks)
  {}

  lemma ConfirmedByCommit(p: Pool, id: nat, io: D.CommitIO, fid: nat)
    requires id in p.puts && p.puts[id].Streaming? && p.puts[id].disk < |p.disks| && fid in Fids(p.puts[id].claim)
    requires |p.disks[p.puts[id].disk].region| == MAX_ENTRIES
             && D.IOFits(io, if p.puts[id].claim.alias == 0 then 1 else 2)
    requires CommitOf(p, id, io).1.Ok?
    ensures fid in CommitOf(p, id, io).0.confirmed
  {
    hide D.TornRegion, D.Splice;
  }

  lemma ConfirmedAdded(p: Pool, i: nat, d: Disk, fid: nat, data: seq<byte>, ts: TrimState)
    requires i < |p.disks| == |p.objs| && AddsOne(p, i, d, fid, data, ts)
    ensures fid in d.confirmed
  {
    hide D.Inv, TrimInv, T.Aside;
    ConfirmedKeys(d, p.objs[i][fid := data]);
  }

  // ----- a pool that collides -----

  lemma OneObject(fid: nat) returns (d: Disk, objs: Objects)
    requires fid < WITNESS_SLOTS
    ensures ZeroDisk(d, objs) && objs == map[fid := [0]] && D.Recs(d) == [Plain(fid, 1)] && d.end == 1
  {
    hide ZeroDisk, D.Recs, D.Splice;
    BlankIsZero();
    d, objs := StoreZeros(BlankDisk(), map[], fid, 1);
    assert D.Zeros(1) == [0];
  }

  lemma BuiltOne(d: Disk, objs: Objects) returns (ts: TrimState)
    requires ZeroDisk(d, objs) && objs == map[1 := [0]] && D.Recs(d) == [Plain(1, 1)]
    ensures ts.Built? && TrimInv(d, objs, ts) && ts.data == [0]
  {
    hide D.Inv, D.Recs, D.Read, DecodeTable;
    assert Plain(1, 1) in D.Recs(d);
    assert Waiting(D.Recs(d), objs, [1]);
    T.BeginKeeps(d, objs, [1]);
    ts := T.Begin(d, [1]);
    ReadsObjects(d, objs, 1);
    assert [1][..0] == [] && BuildContainer(d, []) == Ok(Container([], []));
    assert BuildContainer(d, [1]) == AddSlice(Container([], []), 1, Ok([0]));
  }

  lemma WritesTwo(d: Disk, objs: Objects, ts: TrimState)
    requires ZeroDisk(d, objs) && objs == map[1 := [0]] && d.end == 1 && ts.Built? && ts.data == [0]
    ensures D.Shape(d) && T.WriteContainer(d, ts, 2, []).1.ContainerDone?
  {
    hide D.Inv, Extent, D.Splice, D.Appended, D.Zeros;
    ConfirmedKeys(d, objs);
    OneSlot(2, 1);
    assert ts.data + [] == [0];
  }

  lemma TwoDisks(a: Disk, objsA: Objects, ts: TrimState, b: Disk, objsB: Objects)
    requires ZeroDisk(a, objsA) && ZeroDisk(b, objsB) && TrimInv(a, objsA, ts) && objsA.Keys == {1} && objsB.Keys == {2}
    ensures PoolInv(Pool([a, b], [objsA, objsB], [ts, Idle], {}, None, map[]))
  {
    hide D.Inv, TrimOk;
    IdleIn(b, objsB);
  }

  lemma IdleIn(d: Disk, objs: Objects)
    ensures TrimInv(d, objs, Idle)
  {}

  /** Two disks with one object each, fids 1 and 2, and a Trim of the first one whose
      container hashes to 2: the write succeeds and the next start refuses the pool. */
  lemma TrimCollides() returns (p: Pool, d: Disk)
    ensures PoolInv(p) && Trimming(p, 0) && p.trims[0].Built? && |p.disks| == 2 && D.Shape(p.disks[0])
    ensures var (d', ts) := T.WriteContainer(p.disks[0], p.trims[0], 2, []); d' == d && ts.ContainerDone?
    ensures !NoFidTwice(p.disks[0 := d])
  {
    hide PoolInv, D.Recs, ZeroDisk, T.WriteContainer, NoFidTwice;
    var a, objsA := OneObject(1);
    var b, objsB := OneObject(2);
    var ts := BuiltOne(a, objsA);
    p := Pool([a, b], [objsA, objsB], [ts, Idle], {}, None, map[]);
    TwoDisks(a, objsA, ts, b, objsB);
    WritesTwo(a, objsA, ts);
    d := T.WriteContainer(a, ts, 2, []).0;
    assert 2 in p.objs[1];
    ContainerCollision(p, 0, 2, []);
  }
}
