/** Every step of the pool keeps its invariant. */
module PoolSteps {
  import opened Layout
  import opened Replay
  import opened Store
  import opened StoreSteps
  import D = DiskState
  import opened DiskSteps
  import opened TrimSteps
  import opened Trim
  import opened Pool

  // ----- what one Put does not notice -----

  /** Between two states of the disks, nothing that put state ps relies on changes: no
      fid is newly stored that it relies on, and its extent keeps its slots and bytes. */
  ghost predicate Undisturbed(disks: seq<Disk>, objs: seq<Objects>, disks': seq<Disk>, objs': seq<Objects>,
                              ps: PutState) {
    && |disks'| == |disks| && |objs'| == |objs|
    && (forall i, f :: 0 <= i < |objs| && Relies(ps, i, f) && f in objs'[i] ==> f in objs[i])
    && (ps.Committed? && ps.disk < |objs| ==> objs[ps.disk].Keys <= objs'[ps.disk].Keys)
    && ((ps.Streaming? || ps.Failed?) && ps.disk < |disks| ==>
          && (ps.iv in disks[ps.disk].pending ==> ps.iv in disks'[ps.disk].pending)
          && disks'[ps.disk].slots == disks[ps.disk].slots
          && SameIn(disks[ps.disk].grid, disks'[ps.disk].grid, ps.iv))
  }

  lemma PutKept(disks: seq<Disk>, objs: seq<Objects>, disks': seq<Disk>, objs': seq<Objects>, ps: PutState)
    requires PutOk(disks, objs, ps) && Undisturbed(disks, objs, disks', objs', ps)
    ensures PutOk(disks', objs', ps)
  {
    hide Extent, Fids, HeaderOk, SameIn, Landed;
    if ps.Streaming? {
      LandedKept(disks[ps.disk].grid, disks'[ps.disk].grid, ps.claim, ps.iv, ps.written);
    }
  }

  lemma LandedKept(grid: seq<byte>, grid': seq<byte>, c: Claim, iv: Interval, n: nat)
    requires Landed(grid, c, iv, n) && SameIn(grid, grid', iv)
    ensures Landed(grid', c, iv, n)
  {
    hide D.Zeros;
    PaddedLength(c, iv);
    var at := iv.start * SLOT_SIZE;
    assert grid'[at..at + n] == grid[at..at + n];
  }

  lemma PaddedLength(c: Claim, iv: Interval)
    requires Span(c, iv)
    ensures |Payload(c, iv)| == (iv.end - iv.start + 1) * SLOT_SIZE
    ensures Payload(c, iv)[..|c.data|] == c.data
  {}

  // ----- disks -----

  lemma DisksSet(disks: seq<Disk>, objs: seq<Objects>, trims: seq<TrimState>, i: nat, d: Disk, o: Objects,
                 ts: TrimState)
    requires DisksOk(disks, objs, trims) && i < |disks| && DiskOk(d, o, ts)
    requires forall j, f :: 0 <= j < |objs| && j != i && f in o && f !in objs[i] ==> f !in objs[j]
    ensures DisksOk(disks[i := d], objs[i := o], trims[i := ts])
  {
    hide DiskOk;
  }

  lemma DiskAt(p: Pool, i: nat)
    requires PoolInv(p) && i < |p.disks|
    ensures |p.disks| == |p.objs| == |p.trims| && DiskOk(p.disks[i], p.objs[i], p.trims[i])
  {}

  lemma PutAt(p: Pool, id: nat)
    requires PoolInv(p) && id in p.puts
    ensures PutOk(p.disks, p.objs, p.puts[id])
  {}

  /** Distinct reservations of one disk share no slot. */
  lemma PendingApart(d: Disk, objs: Objects, a: Interval, b: Interval)
    requires D.Inv(d, objs) && a in d.pending && b in d.pending && a != b
    ensures !Overlaps(a, b) && a.start <= a.end < d.slots
  {
    assert a in d.intervals + d.pending && b in d.intervals + d.pending;
  }

  lemma PendingClear(d: Disk, objs: Objects, iv: Interval)
    requires D.Inv(d, objs) && iv in d.pending
    ensures iv.start <= iv.end < d.slots
    ensures forall a :: a in d.intervals ==> !Overlaps(a, iv)
  {
    assert iv in d.intervals + d.pending;
    forall a | a in d.intervals ensures !Overlaps(a, iv) { assert a in d.intervals + d.pending; }
  }

  lemma SameInItself(grid: seq<byte>, iv: Interval)
    ensures SameIn(grid, grid, iv)
  {}

  // ----- the gate -----

  lemma GateBegin(gate: set<nat>, puts: map<nat, PutState>, id: nat, c: Claim)
    requires GateOk(gate, None, puts) && id !in puts && Fids(c) !! gate
    ensures GateOk(gate, Some(id), puts[id := Asking(c, {})])
  {
    hide Fids;
    var puts' := puts[id := Asking(c, {})];
    forall f | f in gate ensures exists k :: k in puts' && !puts'[k].Asking? && f in Fids(puts'[k].claim) {
      var k :| k in puts && !puts[k].Asking? && f in Fids(puts[k].claim);
      assert k in puts' && puts'[k] == puts[k];
    }
  }

  lemma GateReject(gate: set<nat>, holder: Option<nat>, puts: map<nat, PutState>, id: nat)
    requires GateOk(gate, holder, puts) && id in puts && puts[id].Asking?
    ensures GateOk(gate, None, puts - {id})
  {
    hide Fids;
    var puts' := puts - {id};
    forall f | f in gate ensures exists k :: k in puts' && !puts'[k].Asking? && f in Fids(puts'[k].claim) {
      var k :| k in puts && !puts[k].Asking? && f in Fids(puts[k].claim);
      assert k in puts' && puts'[k] == puts[k];
    }
  }

  lemma GateGrant(gate: set<nat>, holder: Option<nat>, puts: map<nat, PutState>, id: nat)
    requires GateOk(gate, holder, puts) && id in puts && puts[id].Asking?
    ensures GateOk(gate + Fids(puts[id].claim), None, puts[id := Granted(puts[id].claim)])
  {
    hide Fids;
    var c := puts[id].claim;
    var puts' := puts[id := Granted(c)];
    forall f | f in gate + Fids(c) ensures exists k :: k in puts' && !puts'[k].Asking? && f in Fids(puts'[k].claim) {
      if f in Fids(c) {
        assert id in puts' && f in Fids(puts'[id].claim);
      } else {
        var k :| k in puts && !puts[k].Asking? && f in Fids(puts[k].claim);
        assert k in puts' && puts'[k] == puts[k];
      }
    }
  }

  /** Any move that keeps the claim and the side of the gate keeps the gate. */
  lemma GateSame(gate: set<nat>, holder: Option<nat>, puts: map<nat, PutState>, id: nat, ps: PutState)
    requires GateOk(gate, holder, puts) && id in puts
    requires ps.claim == puts[id].claim && ps.Asking? == puts[id].Asking?
    ensures GateOk(gate, holder, puts[id := ps])
  {
    hide Fids;
    var puts' := puts[id := ps];
    forall f | f in gate ensures exists k :: k in puts' && !puts'[k].Asking? && f in Fids(puts'[k].claim) {
      var k :| k in puts && !puts[k].Asking? && f in Fids(puts[k].claim);
      assert k in puts' && puts'[k].claim == puts[k].claim;
    }
  }

  lemma GateRelease(gate: set<nat>, holder: Option<nat>, puts: map<nat, PutState>, id: nat)
    requires GateOk(gate, holder, puts) && id in puts && !puts[id].Asking?
    ensures GateOk(gate - Fids(puts[id].claim), holder, puts - {id})
  {
    hide Fids;
    var c, puts' := puts[id].claim, puts - {id};
    forall f | f in gate - Fids(c) ensures exists k :: k in puts' && !puts'[k].Asking? && f in Fids(puts'[k].claim) {
      var k :| k in puts && !puts[k].Asking? && f in Fids(puts[k].claim);
      assert k in puts' && puts'[k] == puts[k];
    }
  }

  /** Past the gate, a Put shares no fid with any other Put. */
  lemma FidsApart(p: Pool, id: nat, other: nat)
    requires PoolInv(p) && id in p.puts && other in p.puts && id != other && !p.puts[id].Asking?
    ensures Fids(p.puts[id].claim) !! Fids(p.puts[other].claim)
  {
    hide Fids, DisksOk, PutOk, ExtentsHeld;
  }

  // ----- the reservations -----

  lemma HeldSame(disks: seq<Disk>, disks': seq<Disk>, puts: map<nat, PutState>, id: nat, ps: PutState)
    requires ExtentsHeld(disks, puts) && |disks'| == |disks|
    requires forall i :: 0 <= i < |disks| ==> disks'[i].pending == disks[i].pending
    requires forall i, iv :: HoldsExtent(ps, i, iv) <==> id in puts && HoldsExtent(puts[id], i, iv)
    ensures ExtentsHeld(disks', puts[id := ps])
  {
    hide HoldsExtent;
    var puts' := puts[id := ps];
    forall i, iv | 0 <= i < |disks'| && iv in disks'[i].pending
      ensures exists k :: k in puts' && HoldsExtent(puts'[k], i, iv)
    {
      var k :| k in puts && HoldsExtent(puts[k], i, iv);
      assert k in puts' && HoldsExtent(puts'[k], i, iv);
    }
  }

  lemma HeldRemove(disks: seq<Disk>, puts: map<nat, PutState>, id: nat)
    requires ExtentsHeld(disks, puts) && forall i, iv :: id in puts ==> !HoldsExtent(puts[id], i, iv)
    ensures ExtentsHeld(disks, puts - {id})
  {
    hide HoldsExtent;
    var puts' := puts - {id};
    forall i, iv | 0 <= i < |disks| && iv in disks[i].pending
      ensures exists k :: k in puts' && HoldsExtent(puts'[k], i, iv)
    {
      var k :| k in puts && HoldsExtent(puts[k], i, iv);
      assert k in puts' && HoldsExtent(puts'[k], i, iv);
    }
  }

  lemma HeldReserve(disks: seq<Disk>, puts: map<nat, PutState>, id: nat, c: Claim, i: nat, d: Disk, iv: Interval)
    requires ExtentsHeld(disks, puts) && i < |disks| && d.pending == disks[i].pending + {iv} && iv !in disks[i].pending
    requires forall k :: k in puts && (puts[k].Streaming? || puts[k].Failed?) ==>
               puts[k].disk < |disks| && puts[k].iv in disks[puts[k].disk].pending
    requires id in puts ==> !puts[id].Streaming? && !puts[id].Failed?
    ensures ExtentsHeld(disks[i := d], puts[id := Streaming(c, i, iv, 0)])
  {
    var disks', puts' := disks[i := d], puts[id := Streaming(c, i, iv, 0)];
    forall j, other | 0 <= j < |disks'| && other in disks'[j].pending
      ensures exists k :: k in puts' && HoldsExtent(puts'[k], j, other)
    {
      if j == i && other == iv {
        assert HoldsExtent(puts'[id], j, other);
      } else {
        var k :| k in puts && HoldsExtent(puts[k], j, other);
        assert k in puts' && HoldsExtent(puts'[k], j, other);
      }
    }
  }

  lemma HeldDrop(disks: seq<Disk>, puts: map<nat, PutState>, id: nat, d: Disk, ps: PutState)
    requires ExtentsHeld(disks, puts) && id in puts && (puts[id].Streaming? || puts[id].Failed?)
    requires puts[id].disk < |disks| && d.pending == disks[puts[id].disk].pending - {puts[id].iv}
    requires !ps.Streaming? && !ps.Failed?
    ensures ExtentsHeld(disks[puts[id].disk := d], puts[id := ps])
  {
    var i, iv := puts[id].disk, puts[id].iv;
    var disks', puts' := disks[i := d], puts[id := ps];
    assert HoldsExtent(puts[id], i, iv);
    forall j, other | 0 <= j < |disks'| && other in disks'[j].pending
      ensures exists k :: k in puts' && HoldsExtent(puts'[k], j, other)
    {
      var k :| k in puts && HoldsExtent(puts[k], j, other);
      assert k in puts' && HoldsExtent(puts'[k], j, other);
    }
  }

  // ----- general steps -----

  /** A step that only moves Put id, without touching a disk. */
  lemma MoveKeeps(p: Pool, p': Pool, id: nat)
    requires PoolInv(p) && p'.disks == p.disks && p'.objs == p.objs && p'.trims == p.trims
    requires forall k :: k in p'.puts && k != id ==> k in p.puts && p'.puts[k] == p.puts[k]
    requires id in p'.puts ==> PutOk(p.disks, p.objs, p'.puts[id])
    requires GateOk(p'.gate, p'.holder, p'.puts) && ExtentsHeld(p'.disks, p'.puts)
    ensures PoolInv(p')
  {
    hide DisksOk, GateOk, ExtentsHeld, PutOk;
  }

  /** On disk i, the reservations other than `own` keep their slots and bytes. */
  ghost predicate SparesOthers(d: Disk, d': Disk, own: set<Interval>) {
    d'.slots == d.slots && forall iv :: iv in d.pending - own ==> iv in d'.pending && SameIn(d.grid, d'.grid, iv)
  }

  /** A step of Put id on disk i that stores at most its own fids there. */
  lemma PutOnDiskKeeps(p: Pool, p': Pool, id: nat, i: nat, own: set<Interval>)
    requires PoolInv(p) && i < |p.disks| == |p.objs| && id in p.puts && id in p'.puts && !p.puts[id].Asking?
    requires |p'.disks| == |p.disks| && |p'.objs| == |p.objs| && p'.trims == p.trims && p'.gate == p.gate
             && p'.holder == p.holder
    requires forall j :: 0 <= j < |p.disks| && j != i ==> p'.disks[j] == p.disks[j] && p'.objs[j] == p.objs[j]
    requires p'.puts == p.puts[id := p'.puts[id]] && p'.puts[id].claim == p.puts[id].claim && !p'.puts[id].Asking?
    requires i < |p.trims| && DiskOk(p'.disks[i], p'.objs[i], p.trims[i])
    requires SparesOthers(p.disks[i], p'.disks[i], own)
    requires forall k, iv :: k in p.puts && k != id && HoldsExtent(p.puts[k], i, iv) ==> iv !in own
    requires p.objs[i].Keys <= p'.objs[i].Keys <= p.objs[i].Keys + Fids(p.puts[id].claim)
    requires p'.objs[i] != p.objs[i] ==> NotStored(p.objs, p.puts[id].claim)
    requires ExtentsHeld(p'.disks, p'.puts) && PutOk(p'.disks, p'.objs, p'.puts[id])
    ensures PoolInv(p')
  {
    hide GateOk, ExtentsHeld, PutOk, DiskOk, Fids, SameIn;
    GateSame(p.gate, p.holder, p.puts, id, p'.puts[id]);
    DisksSet(p.disks, p.objs, p.trims, i, p'.disks[i], p'.objs[i], p.trims[i]);
    assert p'.disks == p.disks[i := p'.disks[i]];
    assert p'.objs == p.objs[i := p'.objs[i]];
    assert p.trims[i := p.trims[i]] == p.trims;
    forall k | k in p'.puts && k != id ensures PutOk(p'.disks, p'.objs, p'.puts[k]) {
      PutAt(p, k);
      FidsApart(p, id, k);
      ReliesOnOwn(p.disks, p.objs, p.puts[k]);
      OtherUndisturbed(p, p', k, i, own);
      PutKept(p.disks, p.objs, p'.disks, p'.objs, p.puts[k]);
    }
  }

  lemma ReliesOnOwn(disks: seq<Disk>, objs: seq<Objects>, ps: PutState)
    requires PutOk(disks, objs, ps)
    ensures forall i, f :: Relies(ps, i, f) ==> f in Fids(ps.claim)
  {
    hide HeaderOk, Landed, Extent, NotStored, Fids;
  }

  lemma OtherUndisturbed(p: Pool, p': Pool, k: nat, i: nat, own: set<Interval>)
    requires k in p.puts && i < |p.disks| == |p.objs|
    requires |p'.disks| == |p.disks| && |p'.objs| == |p.objs|
    requires forall j :: 0 <= j < |p.disks| && j != i ==> p'.disks[j] == p.disks[j] && p'.objs[j] == p.objs[j]
    requires SparesOthers(p.disks[i], p'.disks[i], own)
    requires forall iv :: HoldsExtent(p.puts[k], i, iv) ==> iv !in own
    requires p.objs[i].Keys <= p'.objs[i].Keys
    requires forall f :: f in p'.objs[i] && f !in p.objs[i] ==> !Relies(p.puts[k], i, f)
    requires PutOk(p.disks, p.objs, p.puts[k])
    ensures Undisturbed(p.disks, p.objs, p'.disks, p'.objs, p.puts[k])
  {
    hide Fids, Landed, Extent, SameIn, HeaderOk, NotStored;
    var ps := p.puts[k];
    if (ps.Streaming? || ps.Failed?) && ps.disk < |p.disks| {
      if ps.disk == i {
        assert HoldsExtent(ps, i, ps.iv);
      } else {
        SameInItself(p.disks[ps.disk].grid, ps.iv);
      }
    }
  }

  // ----- steps of the gate -----

  lemma BeginPutKeeps(p: Pool, id: nat, c: Claim)
    requires PoolInv(p) && Enabled(p, BeginPut(id, c))
    ensures PoolInv(Next(p, BeginPut(id, c)))
  {
    hide DisksOk, Fids, HeaderOk, PutOk, GateOk, ExtentsHeld;
    AskingFresh(p.disks, p.objs, c);
    GateBegin(p.gate, p.puts, id, c);
    HeldSame(p.disks, p.disks, p.puts, id, Asking(c, {}));
    MoveKeeps(p, Next(p, BeginPut(id, c)), id);
  }

  lemma AskingFresh(disks: seq<Disk>, objs: seq<Objects>, c: Claim)
    requires HeaderOk(c)
    ensures PutOk(disks, objs, Asking(c, {}))
  {}

  lemma AskKeeps(p: Pool, id: nat, i: nat, f: nat)
    requires PoolInv(p) && Enabled(p, Ask(id, i, f))
    ensures PoolInv(Next(p, Ask(id, i, f)))
  {
    hide DisksOk, Fids, HeaderOk, PutOk, GateOk, ExtentsHeld, D.Lookup;
    if D.Lookup(p.disks[i], f) == Err(NotFound) {
      var ps := p.puts[id];
      var ps' := Asking(ps.claim, ps.asked + {(i, f)});
      AskedOne(p, id, i, f);
      GateSame(p.gate, p.holder, p.puts, id, ps');
      HeldSame(p.disks, p.disks, p.puts, id, ps');
      MoveKeeps(p, Next(p, Ask(id, i, f)), id);
    } else {
      RejectKeeps(p, id);
    }
  }

  lemma AskedOne(p: Pool, id: nat, i: nat, f: nat)
    requires PoolInv(p) && Enabled(p, Ask(id, i, f)) && D.Lookup(p.disks[i], f) == Err(NotFound)
    ensures PutOk(p.disks, p.objs, Asking(p.puts[id].claim, p.puts[id].asked + {(i, f)}))
  {
    hide GateOk, ExtentsHeld, Fids, HeaderOk;
    PutAt(p, id);
    DiskAt(p, i);
    hide D.Inv, TrimInv;
    ConfirmedKeys(p.disks[i], p.objs[i]);
  }

  lemma RejectKeeps(p: Pool, id: nat)
    requires PoolInv(p) && id in p.puts && p.puts[id].Asking?
    ensures PoolInv(Rejected(p, id))
  {
    hide DisksOk, Fids, PutOk, GateOk, ExtentsHeld;
    GateReject(p.gate, p.holder, p.puts, id);
    HeldRemove(p.disks, p.puts, id);
    MoveKeeps(p, Rejected(p, id), id);
  }

  /** A Put that asked every disk for every fid found none of them stored. */
  lemma AskedAll(disks: seq<Disk>, objs: seq<Objects>, ps: PutState)
    requires PutOk(disks, objs, ps) && ps.Asking? && |disks| == |objs|
    requires forall i, f :: 0 <= i < |disks| && f in Fids(ps.claim) ==> (i, f) in ps.asked
    ensures NotStored(objs, ps.claim) && PutOk(disks, objs, Granted(ps.claim))
  {
    hide Fids, HeaderOk;
  }

  /** Past the gate and not committed, a Put's fids are stored nowhere, so it may end. */
  lemma MayEnd(disks: seq<Disk>, objs: seq<Objects>, ps: PutState)
    requires PutOk(disks, objs, ps) && !ps.Asking? && !ps.Committed?
    ensures NotStored(objs, ps.claim) && PutOk(disks, objs, Ended(ps.claim))
    ensures ps.Streaming? ==> PutOk(disks, objs, Failed(ps.claim, ps.disk, ps.iv))
  {
    hide NotStored, HeaderOk, Landed, Extent;
  }

  /** A Put is let past the gate only after every disk answered not-found for every
      one of its fids, and none of them can have been stored since. */
  lemma GrantKeeps(p: Pool, id: nat)
    requires PoolInv(p) && Enabled(p, Grant(id))
    ensures PoolInv(Next(p, Grant(id))) && NotStored(p.objs, p.puts[id].claim)
  {
    hide DisksOk, Fids, HeaderOk, GateOk, ExtentsHeld, PutOk, NotStored;
    var c := p.puts[id].claim;
    Sizes(p);
    AskedAll(p.disks, p.objs, p.puts[id]);
    GateGrant(p.gate, p.holder, p.puts, id);
    HeldSame(p.disks, p.disks, p.puts, id, Granted(c));
    MoveKeeps(p, Next(p, Grant(id)), id);
  }

  lemma NoDiskKeeps(p: Pool, id: nat)
    requires PoolInv(p) && Enabled(p, NoDisk(id))
    ensures PoolInv(Next(p, NoDisk(id)))
  {
    hide DisksOk, Fids, HeaderOk, PutOk, GateOk, ExtentsHeld, NotStored;
    var ps := Ended(p.puts[id].claim);
    MayEnd(p.disks, p.objs, p.puts[id]);
    GateSame(p.gate, p.holder, p.puts, id, ps);
    HeldSame(p.disks, p.disks, p.puts, id, ps);
    MoveKeeps(p, Next(p, NoDisk(id)), id);
  }

  lemma BreakStreamKeeps(p: Pool, id: nat)
    requires PoolInv(p) && Enabled(p, BreakStream(id))
    ensures PoolInv(Next(p, BreakStream(id)))
  {
    hide DisksOk, Fids, HeaderOk, PutOk, GateOk, ExtentsHeld, NotStored;
    var ps := Failed(p.puts[id].claim, p.puts[id].disk, p.puts[id].iv);
    MayEnd(p.disks, p.objs, p.puts[id]);
    GateSame(p.gate, p.holder, p.puts, id, ps);
    HeldSame(p.disks, p.disks, p.puts, id, ps);
    MoveKeeps(p, Next(p, BreakStream(id)), id);
  }

  lemma ReleaseKeeps(p: Pool, id: nat)
    requires PoolInv(p) && Enabled(p, Release(id))
    ensures PoolInv(Next(p, Release(id)))
  {
    hide DisksOk, Fids, HeaderOk, PutOk, GateOk, ExtentsHeld;
    GateRelease(p.gate, p.holder, p.puts, id);
    HeldRemove(p.disks, p.puts, id);
    MoveKeeps(p, Next(p, Release(id)), id);
  }

  // ----- steps on a disk -----

  /** A change of the grid and the reservations only is unknown to Trim. */
  lemma SameTrim(d: Disk, d': Disk, objs: Objects, ts: TrimState)
    requires TrimInv(d, objs, ts) && d' == d.(grid := d'.grid, pending := d'.pending)
    ensures TrimInv(d', objs, ts)
  {
    hide TrimOk, D.Latest;
  }

  /** The Puts other than id hold none of the extent that id holds. */
  lemma HeldApart(p: Pool, id: nat)
    requires PoolInv(p) && id in p.puts && (p.puts[id].Streaming? || p.puts[id].Failed?)
    ensures p.puts[id].disk < |p.disks| && p.puts[id].iv in p.disks[p.puts[id].disk].pending
    ensures forall k, iv :: k in p.puts && k != id && HoldsExtent(p.puts[k], p.puts[id].disk, iv) ==>
              iv != p.puts[id].iv
  {
    hide DisksOk, GateOk, Landed, Extent, NotStored, HeaderOk;
    PutAt(p, id);
    assert HoldsExtent(p.puts[id], p.puts[id].disk, p.puts[id].iv);
  }

  lemma HoldersOk(p: Pool)
    requires PoolInv(p)
    ensures forall k :: k in p.puts && (p.puts[k].Streaming? || p.puts[k].Failed?) ==>
              p.puts[k].disk < |p.disks| && p.puts[k].iv in p.disks[p.puts[k].disk].pending
  {
    hide DisksOk, GateOk, Landed, Extent, NotStored, HeaderOk;
    forall k | k in p.puts && (p.puts[k].Streaming? || p.puts[k].Failed?)
      ensures p.puts[k].disk < |p.disks| && p.puts[k].iv in p.disks[p.puts[k].disk].pending
    {
      PutAt(p, k);
    }
  }

  lemma PendingSpared(d: Disk, d': Disk, own: set<Interval>)
    requires d'.slots == d.slots && d'.grid == d.grid && d.pending - own <= d'.pending
    ensures SparesOthers(d, d', own)
  {
    forall iv | iv in d.pending - own ensures SameIn(d.grid, d'.grid, iv) { SameInItself(d.grid, iv); }
  }

  lemma StartsStreaming(disks: seq<Disk>, objs: seq<Objects>, ps: PutState, i: nat, d: Disk, iv: Interval)
    requires PutOk(disks, objs, ps) && ps.Granted? && i < |disks| && iv in d.pending
    requires Extent(d.slots, ps.claim.fid, |ps.claim.data|) == Some(iv) && |d.grid| == d.slots * SLOT_SIZE
    ensures PutOk(disks[i := d], objs, Streaming(ps.claim, i, iv, 0))
  {
    assert Span(ps.claim, iv) && iv.end < d.slots;
    hide Extent, NotStored, Fids;
    PaddedLength(ps.claim, iv);
  }

  lemma PrepareStepKeeps(p: Pool, id: nat, i: nat)
    requires PoolInv(p) && Enabled(p, Prepare(id, i))
    ensures PoolInv(Next(p, Prepare(id, i)))
  {
    hide PoolInv, PutOk, GateOk, ExtentsHeld, DisksOk, D.PrepareWrite, D.Inv, TrimInv, Extent, Fids, Overlaps,
         SparesOthers, HoldsExtent, NotStored;
    Sizes(p);
    DiskAt(p, i);
    PutAt(p, id);
    HoldersOk(p);
    var c, d := p.puts[id].claim, p.disks[i];
    var (d', r) := D.PrepareWrite(d, c.fid, |c.data|);
    PrepareKeeps(d, p.objs[i], c.fid, |c.data|);
    ConfirmedKeys(d, p.objs[i]);
    SameTrim(d, d', p.objs[i], p.trims[i]);
    PendingSpared(d, d', {});
    HeldOf(p);
    if r.Ok? {
      StartsStreaming(p.disks, p.objs, p.puts[id], i, d', r.value);
      HeldReserve(p.disks, p.puts, id, c, i, d', r.value);
    } else {
      MayEnd(p.disks, p.objs, p.puts[id]);
      HeldPlain(p.disks, p.puts, id, Ended(c));
      assert p.disks[i := d'] == p.disks;
    }
    PutOnDiskKeeps(p, Next(p, Prepare(id, i)), id, i, {});
  }

  lemma HeldOf(p: Pool)
    requires PoolInv(p)
    ensures ExtentsHeld(p.disks, p.puts)
  {}

  lemma HeldPlain(disks: seq<Disk>, puts: map<nat, PutState>, id: nat, ps: PutState)
    requires ExtentsHeld(disks, puts) && id in puts && !puts[id].Streaming? && !puts[id].Failed?
    requires !ps.Streaming? && !ps.Failed?
    ensures ExtentsHeld(disks, puts[id := ps])
  {
    hide ExtentsHeld;
    HeldSame(disks, disks, puts, id, ps);
  }

  lemma AbortStepKeeps(p: Pool, id: nat)
    requires PoolInv(p) && Enabled(p, AbortPut(id))
    ensures PoolInv(Next(p, AbortPut(id)))
  {
    hide PoolInv, PutOk, GateOk, ExtentsHeld, DisksOk, D.Inv, TrimInv, Extent, Fids, SparesOthers, HoldsExtent,
         NotStored;
    Sizes(p);
    var ps := p.puts[id];
    var i := ps.disk;
    DiskAt(p, i);
    PutAt(p, id);
    HeldOf(p);
    HeldApart(p, id);
    var d := p.disks[i];
    var d' := D.Abort(d, ps.iv);
    AbortKeeps(d, p.objs[i], ps.iv);
    SameTrim(d, d', p.objs[i], p.trims[i]);
    PendingSpared(d, d', {ps.iv});
    MayEnd(p.disks, p.objs, ps);
    EndedAnywhere(p.disks, p.disks[i := d'], p.objs, ps.claim);
    HeldDrop(p.disks, p.puts, id, d', Ended(ps.claim));
    PutOnDiskKeeps(p, Next(p, AbortPut(id)), id, i, {ps.iv});
  }

  lemma EndedAnywhere(disks: seq<Disk>, disks': seq<Disk>, objs: seq<Objects>, c: Claim)
    requires PutOk(disks, objs, Ended(c))
    ensures PutOk(disks', objs, Ended(c))
  {}

  /** One more piece of the payload is on the grid. */
  lemma LandsMore(grid: seq<byte>, c: Claim, iv: Interval, n: nat, more: nat)
    requires Landed(grid, c, iv, n) && n + more <= |Payload(c, iv)|
    ensures iv.start * SLOT_SIZE + n + more <= |grid|
    ensures Landed(D.Splice(grid, iv.start * SLOT_SIZE + n, Payload(c, iv)[n..n + more]), c, iv, n + more)
    ensures iv.start * SLOT_SIZE + n + more <= (iv.end + 1) * SLOT_SIZE
  {
    PaddedLength(c, iv);
    hide Payload;
    var payload, at := Payload(c, iv), iv.start * SLOT_SIZE;
    var grid' := D.Splice(grid, at + n, payload[n..n + more]);
    var now, before := grid'[at..at + n + more], grid[at..at + n];
    assert now[..n] == before;
    assert now == before + payload[n..n + more];
  }

  lemma OthersSpared(d: Disk, objs: Objects, iv: Interval, at: nat, bytes: seq<byte>)
    requires D.Inv(d, objs) && iv in d.pending
    requires iv.start * SLOT_SIZE <= at && at + |bytes| <= (iv.end + 1) * SLOT_SIZE && at + |bytes| <= |d.grid|
    ensures SparesOthers(d, D.StreamWrite(d, at, bytes), {iv})
  {
    hide D.Inv, Overlaps, SameIn, D.Splice;
    ConfirmedKeys(d, objs);
    PendingClear(d, objs, iv);
    forall other | other in d.pending - {iv} ensures SameIn(d.grid, D.Splice(d.grid, at, bytes), other) {
      PendingApart(d, objs, iv, other);
      WriteInside(d.grid, at, bytes, iv, other);
    }
  }

  /** A streamed write stays inside its own extent: no other Put, no object and no
      Trim notices it. */
  lemma StreamStepKeeps(p: Pool, id: nat, n: nat)
    requires PoolInv(p) && Enabled(p, Stream(id, n))
    ensures PoolInv(Next(p, Stream(id, n)))
  {
    hide PoolInv, PutOk, GateOk, ExtentsHeld, DisksOk, D.Inv, TrimInv, Extent, Fids, SparesOthers, HoldsExtent,
         NotStored, Landed, Payload, D.Splice, Overlaps;
    Sizes(p);
    var ps := p.puts[id];
    var i, iv := ps.disk, ps.iv;
    DiskAt(p, i);
    PutAt(p, id);
    StreamFits(p, id);
    HeldOf(p);
    HeldApart(p, id);
    var d := p.disks[i];
    var part, at := Payload(ps.claim, iv)[ps.written..ps.written + n], iv.start * SLOT_SIZE + ps.written;
    LandsMore(d.grid, ps.claim, iv, ps.written, n);
    PendingClear(d, p.objs[i], iv);
    GridWriteKeeps(d, p.objs[i], at, part, iv);
    OthersSpared(d, p.objs[i], iv, at, part);
    var d' := D.StreamWrite(d, at, part);
    SameTrim(d, d', p.objs[i], p.trims[i]);
    var ps' := ps.(written := ps.written + n);
    StreamedOn(p.disks, p.objs, ps, d', n);
    SameHolder(ps, ps');
    HeldSame(p.disks, p.disks[i := d'], p.puts, id, ps');
    PutOnDiskKeeps(p, Next(p, Stream(id, n)), id, i, {iv});
  }

  lemma SameHolder(ps: PutState, ps': PutState)
    requires (ps.Streaming? || ps.Failed?) && (ps'.Streaming? || ps'.Failed?) && ps'.disk == ps.disk && ps'.iv == ps.iv
    ensures forall i, iv :: HoldsExtent(ps', i, iv) <==> HoldsExtent(ps, i, iv)
  {}

  lemma StreamedOn(disks: seq<Disk>, objs: seq<Objects>, ps: PutState, d': Disk, n: nat)
    requires PutOk(disks, objs, ps) && ps.Streaming?
    requires d'.pending == disks[ps.disk].pending && d'.slots == disks[ps.disk].slots
    requires Landed(d'.grid, ps.claim, ps.iv, ps.written + n)
    ensures PutOk(disks[ps.disk := d'], objs, ps.(written := ps.written + n))
  {
    hide NotStored, Landed, Extent, HeaderOk;
  }

  /** Once the whole payload has landed, the extent reads as the declared data. */
  lemma LandedReads(slots: nat, grid: seq<byte>, c: Claim, iv: Interval)
    requires Extent(slots, c.fid, |c.data|) == Some(iv) && Landed(grid, c, iv, |Payload(c, iv)|)
    ensures ReadRef(slots, grid, PlainRef(c.fid, |c.data|)) == Ok(c.data)
  {
    hide Extent;
    PaddedLength(c, iv);
    hide Payload;
    var at, payload := iv.start * SLOT_SIZE, Payload(c, iv);
    assert payload[..|payload|] == payload;
    assert grid[at..at + |c.data|] == grid[at..at + |payload|][..|c.data|];
  }

  lemma CommitDisk(p: Pool, id: nat, io: D.CommitIO)
    requires PoolInv(p) && Enabled(p, CommitPut(id, io))
    ensures var ps := p.puts[id];
            && ps.disk < |p.disks| == |p.objs| && D.Shape(p.disks[ps.disk])
            && var d := p.disks[ps.disk];
            && DiskOk(d, p.objs[ps.disk], Idle) && ps.iv in d.pending
               && Extent(d.slots, ps.claim.fid, |ps.claim.data|) == Some(ps.iv)
            && ReadRef(d.slots, d.grid, PlainRef(ps.claim.fid, |ps.claim.data|)) == Ok(ps.claim.data)
            && NotStored(p.objs, ps.claim)
  {
    hide PoolInv, GateOk, ExtentsHeld, DisksOk, D.Inv, TrimInv, Extent, Fids, HoldsExtent,
         NotStored, Landed, Payload, ReadRef;
    Sizes(p);
    DiskAt(p, p.puts[id].disk);
    PutAt(p, id);
    LandedReads(p.disks[p.puts[id].disk].slots, p.disks[p.puts[id].disk].grid, p.puts[id].claim, p.puts[id].iv);
  }

  lemma CommitObjects(c: Claim)
    requires HeaderOk(c)
    ensures RecObjects(D.CommitRec(c.fid, |c.data|, c.alias), c.data).Keys == Fids(c)
  {}

  lemma IdleAgain(d: Disk, objs: Objects, d': Disk, objs': Objects)
    requires DiskOk(d, objs, Idle) && D.Inv(d', objs') && d'.diskID == d.diskID
    ensures DiskOk(d', objs', Idle)
  {
    hide D.Inv;
  }

  lemma CommitCases(d: Disk, fid: nat, size: nat, iv: Interval, alias: nat, io: D.CommitIO)
    requires |d.region| == MAX_ENTRIES && D.IOFits(io, if alias == 0 then 1 else 2)
    ensures var (d', r) := D.Commit(d, fid, size, iv, alias, io);
            && d'.slots == d.slots && d'.grid == d.grid && d'.diskID == d.diskID
            && d'.pending == if r.Ok? then d.pending - {iv} else d.pending
  {}

  lemma CommittedOn(disks: seq<Disk>, objs: seq<Objects>, disks': seq<Disk>, ps: PutState, more: Objects)
    requires PutOk(disks, objs, ps) && ps.Streaming? && ps.disk < |objs| && more.Keys == Fids(ps.claim)
    ensures PutOk(disks', objs[ps.disk := objs[ps.disk] + more], Committed(ps.claim, ps.disk))
  {
    hide NotStored, Landed, Extent, HeaderOk, Fids;
  }

  lemma FailedOn(disks: seq<Disk>, objs: seq<Objects>, ps: PutState, d': Disk)
    requires PutOk(disks, objs, ps) && ps.Streaming? && d'.pending == disks[ps.disk].pending
    ensures PutOk(disks[ps.disk := d'], objs, Failed(ps.claim, ps.disk, ps.iv))
  {
    hide NotStored, Landed, Extent, HeaderOk;
  }

  /** Committing stores exactly the claimed data under the Put's fids, or fails and
      stores nothing; either way every other Put and every object is untouched. */
  lemma CommitStepKeeps(p: Pool, id: nat, io: D.CommitIO)
    requires PoolInv(p) && Enabled(p, CommitPut(id, io))
    ensures PoolInv(Next(p, CommitPut(id, io)))
  {
    hide PoolInv, PutOk, GateOk, ExtentsHeld, DisksOk, DiskOk, D.Inv, TrimInv, Extent, Fids, SparesOthers, HoldsExtent,
         NotStored, Landed, Payload, ReadRef, D.Commit, RecObjects, HeaderOk, D.IOFits, D.CommitRec;
    var ps := p.puts[id];
    var c, i, iv := ps.claim, ps.disk, ps.iv;
    CommitDisk(p, id, io);
    PutAt(p, id);
    HeldOf(p);
    HeldApart(p, id);
    var d, objs := p.disks[i], p.objs[i];
    var (d', r) := D.Commit(d, c.fid, |c.data|, iv, c.alias, io);
    InvOf(d, objs);
    CommitKeeps(d, objs, c.fid, |c.data|, iv, c.alias, io, c.data);
    CommitCases(d, c.fid, |c.data|, iv, c.alias, io);
    PendingSpared(d, d', {iv});
    HeaderOf(p.disks, p.objs, ps);
    CommitObjects(c);
    var more := RecObjects(D.CommitRec(c.fid, |c.data|, c.alias), c.data);
    if r.Ok? {
      IdleAgain(d, objs, d', objs + more);
      CommittedOn(p.disks, p.objs, p.disks[i := d'], ps, more);
      HeldDrop(p.disks, p.puts, id, d', Committed(c, i));
    } else {
      IdleAgain(d, objs, d', objs);
      FailedOn(p.disks, p.objs, ps, d');
      SameHolder(ps, Failed(c, i, iv));
      HeldSame(p.disks, p.disks[i := d'], p.puts, id, Failed(c, i, iv));
    }
    PutOnDiskKeeps(p, Next(p, CommitPut(id, io)), id, i, {iv});
  }

  lemma InvOf(d: Disk, objs: Objects)
    requires DiskOk(d, objs, Idle)
    ensures D.Inv(d, objs)
  {}

  lemma HeaderOf(disks: seq<Disk>, objs: seq<Objects>, ps: PutState)
    requires PutOk(disks, objs, ps)
    ensures HeaderOk(ps.claim)
  {}

  // ----- steps of Trim -----

  /** Trim on disk i keeps the invariant if it only adds objects under fresh fids and
      leaves every reserved extent alone. */
  lemma TrimOnDiskKeeps(p: Pool, i: nat, d: Disk, objs: Objects, ts: TrimState)
    requires PoolInv(p) && i < |p.disks| == |p.objs| == |p.trims|
    requires DiskOk(d, objs, ts)
    requires p.disks[i].pending == d.pending && d.slots == p.disks[i].slots
             && SameOn(p.disks[i].grid, d.grid, d.pending)
    requires p.objs[i].Keys <= objs.Keys && forall f :: f in objs && f !in p.objs[i] ==> FreshFid(p, i, f)
    ensures PoolInv(TrimOnDisk(p, i, d, objs, ts))
  {
    hide PutOk, DiskOk, Fids, SameIn, GateOk, HoldsExtent;
    var p' := TrimOnDisk(p, i, d, objs, ts);
    DisksSet(p.disks, p.objs, p.trims, i, d, objs, ts);
    HeldDisks(p.disks, p'.disks, p.puts);
    forall id | id in p'.puts ensures PutOk(p'.disks, p'.objs, p'.puts[id]) {
      PutAt(p, id);
      OtherUndisturbed(p, p', id, i, {});
      PutKept(p.disks, p.objs, p'.disks, p'.objs, p.puts[id]);
    }
  }

  lemma HeldDisks(disks: seq<Disk>, disks': seq<Disk>, puts: map<nat, PutState>)
    requires ExtentsHeld(disks, puts) && |disks'| == |disks|
    requires forall i :: 0 <= i < |disks| ==> disks'[i].pending == disks[i].pending
    ensures ExtentsHeld(disks', puts)
  {
    hide HoldsExtent;
  }
}
