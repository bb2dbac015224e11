/** The pool: any number of Puts in progress over several disks, each in small
    steps that may interleave in any order with each other, with Trims, and with
    restarts at any point between two steps.

    A Put holds the gate's lock while it asks every disk for its fids; then it
    claims them, reserves an extent on a disk of any choice, streams into it
    without a lock, and commits or aborts under that disk's lock, which a running
    Trim holds. */
module Pool {
  import opened Layout
  import opened Store
  import opened StoreSteps
  import D = DiskState
  import opened TrimSteps
  import opened Trim
  import T = TrimRun

  type Disk = D.Disk

  /** What a Put declares in its header and will send. */
  datatype Claim = Claim(fid: nat, alias: nat, data: seq<byte>)

  function Fids(c: Claim): set<nat> { if c.alias == 0 then {c.fid} else {c.fid, c.alias} }

  /** The header checks made before the gate. */
  predicate HeaderOk(c: Claim) {
    c.data != [] && (c.alias != 0 ==> c.alias != c.fid && |c.data| >= 2)
  }

  datatype PutState =
    | Asking(claim: Claim, asked: set<(nat, nat)>)
    | Granted(claim: Claim)
    | Streaming(claim: Claim, disk: nat, iv: Interval, written: nat)
    | Failed(claim: Claim, disk: nat, iv: Interval)
    | Ended(claim: Claim)
    | Committed(claim: Claim, disk: nat)

  /** `objs` records what has been committed on each disk. */
  datatype Pool = Pool(
    disks: seq<Disk>,
    objs: seq<Objects>,
    trims: seq<TrimState>,
    gate: set<nat>,
    holder: Option<nat>,
    puts: map<nat, PutState>)

  datatype Step =
    | BeginPut(id: nat, claim: Claim)
    | Ask(id: nat, disk: nat, fid: nat)
    | Reject(id: nat)
    | Grant(id: nat)
    | NoDisk(id: nat)
    | Prepare(id: nat, disk: nat)
    | Stream(id: nat, count: nat)
    | BreakStream(id: nat)
    | CommitPut(id: nat, io: D.CommitIO)
    | AbortPut(id: nat)
    | Release(id: nat)
    | TrimBegin(disk: nat, cands: seq<nat>)
    | TrimContainer(disk: nat, fid: nat, tail: seq<byte>)
    | TrimTable(disk: nat, fid: nat, nonce: nat)
    | TrimAnchor(disk: nat)
    | TrimLoad(disk: nat)
    | TrimBury(disk: nat)
    | TrimCompact(disk: nat)
    | TrimStop(disk: nat)
    | Reopen

  // ----- when a step can happen -----

  /** The Put has been told, or has been let in because, disk i does not store f. */
  predicate Relies(ps: PutState, i: nat, f: nat) {
    match ps
    case Asking(_, asked) => (i, f) in asked
    case Committed(_, _) => false
    case _ => f in Fids(ps.claim)
  }

  /** A hash Trim chose that no other disk stores and no Put in progress relies on. */
  ghost predicate FreshFid(p: Pool, i: nat, fid: nat) {
    && fid < TWO_64
    && (forall j :: 0 <= j < |p.objs| && j != i ==> fid !in p.objs[j])
    && (forall id :: id in p.puts ==> !Relies(p.puts[id], i, fid))
  }

  predicate Span(c: Claim, iv: Interval) {
    iv.start <= iv.end && |c.data| <= (iv.end - iv.start + 1) * SLOT_SIZE
  }

  /** Everything the Put will write: its data, then zeros to the slot end. */
  function Payload(c: Claim, iv: Interval): seq<byte> {
    if Span(c, iv) then Padded(c.data, iv) else c.data
  }

  /** No Trim holds the lock of disk i. */
  predicate Unlocked(p: Pool, i: nat) { i < |p.trims| && p.trims[i].Idle? }

  /** Disk i exists, and so does the state of its Trim. */
  predicate Trimming(p: Pool, i: nat) { i < |p.disks| == |p.trims| == |p.objs| }

  ghost predicate Enabled(p: Pool, s: Step) {
    match s
    case BeginPut(id, c) => id !in p.puts && p.holder.None? && HeaderOk(c) && Fids(c) !! p.gate
    case Ask(id, i, f) => id in p.puts && p.puts[id].Asking? && i < |p.disks| && f in Fids(p.puts[id].claim)
    case Reject(id) => id in p.puts && p.puts[id].Asking?
    case Grant(id) =>
      && id in p.puts && p.puts[id].Asking?
      && forall i, f :: 0 <= i < |p.disks| && f in Fids(p.puts[id].claim) ==> (i, f) in p.puts[id].asked
    case NoDisk(id) => id in p.puts && p.puts[id].Granted?
    case Prepare(id, i) => id in p.puts && p.puts[id].Granted? && i < |p.disks| && Unlocked(p, i)
    case Stream(id, n) =>
      && id in p.puts && p.puts[id].Streaming?
      && p.puts[id].written + n <= |Payload(p.puts[id].claim, p.puts[id].iv)|
    case BreakStream(id) => id in p.puts && p.puts[id].Streaming?
    case CommitPut(id, io) =>
      && id in p.puts && p.puts[id].Streaming? && Unlocked(p, p.puts[id].disk)
      && p.puts[id].written == |Payload(p.puts[id].claim, p.puts[id].iv)|
      && D.IOFits(io, if p.puts[id].claim.alias == 0 then 1 else 2)
    case AbortPut(id) => id in p.puts && p.puts[id].Failed? && Unlocked(p, p.puts[id].disk)
    case Release(id) => id in p.puts && (p.puts[id].Ended? || p.puts[id].Committed?)
    case TrimBegin(i, cands) =>
      && Trimming(p, i) && p.trims[i].Idle? && !p.disks[i].fault
      && cands != [] && Waiting(D.Recs(p.disks[i]), p.objs[i], cands)
    case TrimContainer(i, fid, _) => Trimming(p, i) && p.trims[i].Built? && FreshFid(p, i, fid)
    case TrimTable(i, fid, nonce) =>
      Trimming(p, i) && p.trims[i].ContainerDone? && FreshFid(p, i, fid) && nonce < 256
    case TrimAnchor(i) => Trimming(p, i) && p.trims[i].TableDone? && p.trims[i].tableFid != 0
    case TrimLoad(i) => Trimming(p, i) && p.trims[i].Anchored?
    case TrimBury(i) =>
      && Trimming(p, i) && p.trims[i].Loaded? && p.trims[i].done < |p.trims[i].cands|
      && p.trims[i].cands[p.trims[i].done] != 0
    case TrimCompact(i) =>
      && Trimming(p, i) && p.trims[i].Loaded? && p.trims[i].done == |p.trims[i].cands|
      && D.ScansWhole(p.disks[i].region)
    case TrimStop(i) => i < |p.disks| == |p.trims|
    case Reopen => forall i :: 0 <= i < |p.disks| ==> !p.disks[i].fault
  }

  // ----- the invariant -----

  ghost predicate NotStored(objs: seq<Objects>, c: Claim) {
    forall i, f :: 0 <= i < |objs| && f in Fids(c) ==> f !in objs[i]
  }

  /** The first n bytes of the payload are on the grid. */
  predicate Landed(grid: seq<byte>, c: Claim, iv: Interval, n: nat) {
    Span(c, iv) &&
    var payload, at := Payload(c, iv), iv.start * SLOT_SIZE;
    && n <= |payload| && at + |payload| <= |grid|
    && grid[at..at + n] == payload[..n]
  }

  ghost predicate PutOk(disks: seq<Disk>, objs: seq<Objects>, ps: PutState) {
    HeaderOk(ps.claim) &&
    match ps
    case Asking(c, asked) => forall i, f :: (i, f) in asked ==> f in Fids(c) && (i < |objs| ==> f !in objs[i])
    case Granted(c) => NotStored(objs, c)
    case Streaming(c, i, iv, n) =>
      && NotStored(objs, c) && i < |disks| && iv in disks[i].pending
      && Extent(disks[i].slots, c.fid, |c.data|) == Some(iv) && Landed(disks[i].grid, c, iv, n)
    case Failed(c, i, iv) => NotStored(objs, c) && i < |disks| && iv in disks[i].pending
    case Ended(c) => NotStored(objs, c)
    case Committed(c, i) => i < |objs| && Fids(c) <= objs[i].Keys
  }

  predicate HoldsExtent(ps: PutState, i: nat, iv: Interval) {
    (ps.Streaming? || ps.Failed?) && ps.disk == i && ps.iv == iv
  }

  /** The gate's pending set is exactly the fids of the Puts past it, no two of
      which share one; at most one Put is asking, and it asks for unclaimed fids. */
  ghost predicate GateOk(gate: set<nat>, holder: Option<nat>, puts: map<nat, PutState>) {
    && (forall id :: id in puts && !puts[id].Asking? ==> Fids(puts[id].claim) <= gate)
    && (forall f :: f in gate ==> exists id :: id in puts && !puts[id].Asking? && f in Fids(puts[id].claim))
    && (forall a, b :: a in puts && b in puts && a != b && !puts[a].Asking? && !puts[b].Asking? ==>
          Fids(puts[a].claim) !! Fids(puts[b].claim))
    && (forall id :: id in puts && puts[id].Asking? ==> holder == Some(id) && Fids(puts[id].claim) !! gate)
    && (holder.Some? ==> holder.value in puts && puts[holder.value].Asking?)
  }

  /** Each disk's reservations are exactly those of the Puts that hold them. */
  ghost predicate ExtentsHeld(disks: seq<Disk>, puts: map<nat, PutState>) {
    && (forall i, iv :: 0 <= i < |disks| && iv in disks[i].pending ==>
         exists id :: id in puts && HoldsExtent(puts[id], i, iv))
    && (forall a, b, i, iv ::
          a in puts && b in puts && HoldsExtent(puts[a], i, iv) && HoldsExtent(puts[b], i, iv) ==> a == b)
  }

  ghost predicate DisksOk(disks: seq<Disk>, objs: seq<Objects>, trims: seq<TrimState>) {
    && |disks| == |objs| == |trims|
    && (forall i :: 0 <= i < |disks| ==> DiskOk(disks[i], objs[i], trims[i]))
    && (forall i, j, f :: 0 <= i < j < |objs| && f in objs[i] ==> f !in objs[j])
  }

  ghost predicate DiskOk(d: Disk, objs: Objects, ts: TrimState) {
    D.Inv(d, objs) && TrimInv(d, objs, ts) && d.diskID < TWO_64
  }

  ghost predicate PoolInv(p: Pool) {
    && DisksOk(p.disks, p.objs, p.trims)
    && GateOk(p.gate, p.holder, p.puts)
    && ExtentsHeld(p.disks, p.puts)
    && (forall id :: id in p.puts ==> PutOk(p.disks, p.objs, p.puts[id]))
  }

  // ----- what a step does -----

  function Rejected(p: Pool, id: nat): Pool { p.(holder := None, puts := p.puts - {id}) }

  function SetPut(p: Pool, id: nat, ps: PutState): Pool { p.(puts := p.puts[id := ps]) }

  /** Put id moves on and leaves disk i as d. */
  function PutOnDisk(p: Pool, id: nat, ps: PutState, i: nat, d: Disk): Pool
    requires i < |p.disks|
  {
    p.(disks := p.disks[i := d], puts := p.puts[id := ps])
  }

  function TrimOnDisk(p: Pool, i: nat, d: Disk, objs: Objects, ts: TrimState): Pool
    requires i < |p.disks| == |p.objs| == |p.trims|
  {
    p.(disks := p.disks[i := d], objs := p.objs[i := objs], trims := p.trims[i := ts])
  }

  function OpenAll(disks: seq<Disk>): (r: seq<Disk>)
    ensures |r| == |disks|
    ensures forall i :: 0 <= i < |disks| ==> r[i] == Opened(disks[i])
  {
    seq(|disks|, i requires 0 <= i < |disks| => Opened(disks[i]))
  }

  function AllIdle(n: nat): (r: seq<TrimState>)
    ensures |r| == n && forall i :: 0 <= i < n ==> r[i] == Idle
  {
    seq(n, i => Idle)
  }

  function Opened(d: Disk): Disk { if D.Open(d).Ok? then D.Open(d).value else d }

  lemma Sizes(p: Pool)
    requires PoolInv(p)
    ensures |p.disks| == |p.objs| == |p.trims|
    ensures forall i :: 0 <= i < |p.disks| ==> D.Shape(p.disks[i]) && |p.disks[i].region| == MAX_ENTRIES
    ensures forall id :: id in p.puts && (p.puts[id].Streaming? || p.puts[id].Failed?) ==> p.puts[id].disk < |p.disks|
  {
    forall i | 0 <= i < |p.disks| ensures D.Shape(p.disks[i]) && |p.disks[i].region| == MAX_ENTRIES {
      assert DiskOk(p.disks[i], p.objs[i], p.trims[i]);
    }
    forall id | id in p.puts && (p.puts[id].Streaming? || p.puts[id].Failed?) ensures p.puts[id].disk < |p.disks| {
      assert PutOk(p.disks, p.objs, p.puts[id]);
    }
  }

  lemma StreamFits(p: Pool, id: nat)
    requires PoolInv(p) && id in p.puts && p.puts[id].Streaming?
    ensures var ps := p.puts[id];
            ps.disk < |p.disks| && Landed(p.disks[ps.disk].grid, ps.claim, ps.iv, ps.written)
  {
    assert PutOk(p.disks, p.objs, p.puts[id]);
  }

  ghost function Next(p: Pool, s: Step): Pool
    requires PoolInv(p) && Enabled(p, s)
  {
    if s.Reopen? then Pool(OpenAll(p.disks), p.objs, AllIdle(|p.disks|), {}, None, map[])
    else if OfTrim(s) then TrimNext(p, s)
    else PutNext(p, s)
  }

  predicate OfTrim(s: Step) {
    s.TrimBegin? || s.TrimContainer? || s.TrimTable? || s.TrimAnchor? || s.TrimLoad? || s.TrimBury? || s.TrimCompact?
    || s.TrimStop?
  }

  ghost function PutNext(p: Pool, s: Step): Pool
    requires PoolInv(p) && Enabled(p, s) && !OfTrim(s) && !s.Reopen?
  {
    hide PoolInv, DisksOk, GateOk, PutOk, D.Shape;
    Sizes(p);
    match s
    case BeginPut(id, c) => p.(holder := Some(id), puts := p.puts[id := Asking(c, {})])
    case Ask(id, i, f) =>
      if D.Lookup(p.disks[i], f) == Err(NotFound)
      then SetPut(p, id, Asking(p.puts[id].claim, p.puts[id].asked + {(i, f)}))
      else Rejected(p, id)
    case Reject(id) => Rejected(p, id)
    case Grant(id) =>
      p.(holder := None, gate := p.gate + Fids(p.puts[id].claim), puts := p.puts[id := Granted(p.puts[id].claim)])
    case NoDisk(id) => SetPut(p, id, Ended(p.puts[id].claim))
    case Prepare(id, i) =>
      var c := p.puts[id].claim;
      var (d, r) := D.PrepareWrite(p.disks[i], c.fid, |c.data|);
      PutOnDisk(p, id, if r.Ok? then Streaming(c, i, r.value, 0) else Ended(c), i, d)
    case Stream(id, n) => StreamNext(p, id, n)
    case BreakStream(id) => SetPut(p, id, Failed(p.puts[id].claim, p.puts[id].disk, p.puts[id].iv))
    case CommitPut(id, io) => CommitNext(p, id, io)
    case AbortPut(id) =>
      var ps := p.puts[id];
      PutOnDisk(p, id, Ended(ps.claim), ps.disk, D.Abort(p.disks[ps.disk], ps.iv))
    case Release(id) => p.(gate := p.gate - Fids(p.puts[id].claim), puts := p.puts - {id})
  }

  ghost function TrimNext(p: Pool, s: Step): Pool
    requires PoolInv(p) && Enabled(p, s) && OfTrim(s)
  {
    hide PoolInv, DisksOk, GateOk, PutOk, FreshFid, Waiting, D.Shape, D.ScansWhole, T.Begin, T.WriteContainer,
         T.WriteTable, T.Anchor, T.Load, T.Bury, T.TableBlob, T.NewTable, D.CompactIndex, TrimOnDisk;
    Sizes(p);
    match s
    case TrimBegin(i, cands) => TrimOnDisk(p, i, p.disks[i], p.objs[i], T.Begin(p.disks[i], cands))
    case TrimContainer(i, fid, tail) =>
      var (d, ts) := T.WriteContainer(p.disks[i], p.trims[i], fid, tail);
      TrimOnDisk(p, i, d, if ts.ContainerDone? then p.objs[i][fid := p.trims[i].data + tail] else p.objs[i], ts)
    case TrimTable(i, fid, nonce) =>
      var (d, ts) := T.WriteTable(p.disks[i], p.trims[i], fid, nonce);
      TrimOnDisk(p, i, d,
                 if ts.TableDone?
                 then p.objs[i][fid := T.TableBlob(T.NewTable(p.disks[i], p.trims[i], nonce))]
                 else p.objs[i],
                 ts)
    case TrimAnchor(i) =>
      var (d, ts) := T.Anchor(p.disks[i], p.trims[i]);
      TrimOnDisk(p, i, d, p.objs[i], ts)
    case TrimLoad(i) =>
      var (d, ts) := T.Load(p.disks[i], p.trims[i]);
      TrimOnDisk(p, i, d, p.objs[i], ts)
    case TrimBury(i) =>
      var (d, ts) := T.Bury(p.disks[i], p.trims[i]);
      TrimOnDisk(p, i, d, p.objs[i], ts)
    case TrimCompact(i) => TrimOnDisk(p, i, D.CompactIndex(p.disks[i]).0, p.objs[i], Idle)
    case TrimStop(i) => TrimOnDisk(p, i, p.disks[i], p.objs[i], Idle)
  }

  ghost function StreamNext(p: Pool, id: nat, n: nat): Pool
    requires PoolInv(p) && Enabled(p, Stream(id, n))
  {
    StreamFits(p, id);
    var ps := p.puts[id];
    var part := Payload(ps.claim, ps.iv)[ps.written..ps.written + n];
    PutOnDisk(p, id, ps.(written := ps.written + n), ps.disk,
              D.StreamWrite(p.disks[ps.disk], ps.iv.start * SLOT_SIZE + ps.written, part))
  }

  ghost function CommitNext(p: Pool, id: nat, io: D.CommitIO): Pool
    requires PoolInv(p) && Enabled(p, CommitPut(id, io))
  {
    Sizes(p);
    var ps := p.puts[id];
    var c, i := ps.claim, ps.disk;
    var (d, r) := D.Commit(p.disks[i], c.fid, |c.data|, ps.iv, c.alias, io);
    if r.Ok?
    then PutOnDisk(p, id, Committed(c, i), i, d)
         .(objs := p.objs[i := p.objs[i] + RecObjects(D.CommitRec(c.fid, |c.data|, c.alias), c.data)])
    else PutOnDisk(p, id, Failed(c, i, ps.iv), i, d)
  }
}
