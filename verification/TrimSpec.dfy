/** What one Trim does to a disk, as a function: the choice of the candidates, the
    container, the table, the anchor, the tombstones and the compaction, with the
    nonces after conflicts and the points at which Trim may stop. Nothing is assumed
    of the disk; tables and candidates are read through its memory. */
module TrimSpec {
  import opened Layout
  import opened IndexEntry
  import opened IndexLog
  import opened PackedTable
  import opened IndexScan
  import opened DiskState
  import opened Trim
  import T = TrimRun

  datatype Candidate = Candidate(fid: nat, size: nat)

  function FidsOf(cands: seq<Candidate>): (fids: seq<nat>)
    ensures |fids| == |cands| && forall i :: 0 <= i < |cands| ==> fids[i] == cands[i].fid
  {
    seq(|cands|, i requires 0 <= i < |cands| => cands[i].fid)
  }

  function SizesOf(cands: seq<Candidate>): (sizes: seq<nat>)
    ensures |sizes| == |cands| && forall i :: 0 <= i < |cands| ==> sizes[i] == cands[i].size
  {
    seq(|cands|, i requires 0 <= i < |cands| => cands[i].size)
  }

  datatype FailPoint =
    | Nowhere | AfterBackup | AfterContainerBuild | AfterContainerWrite | AfterTableWrite | AfterAnchorAppend
    | AfterDelete

  type Hash = seq<byte> -> uint64

  /** What decides a Trim besides the disk. */
  datatype Config = Config(hash: Hash, threshold: nat, batchLimit: nat, trigger: bool, failPoint: FailPoint)

  predicate Sized(d: Disk) { |d.region| == MAX_ENTRIES && |d.grid| == d.slots * SLOT_SIZE }

  // ----- the candidates -----

  /** The records the scan of the region delivers. */
  function Scanned(d: Disk): Result<seq<Rec>> {
    var cs := Collect(d.region[..ScanEnd(d.region)]);
    if cs.Err? then Err(cs.error)
    else if |WriteLog(cs.value.recs)| > MAX_ENTRIES then Err(BadLog("compacted index too large"))
    else Ok(cs.value.recs)
  }

  function Targets(recs: seq<Rec>): set<nat> {
    if recs == [] then {}
    else
      var last := recs[|recs| - 1];
      Targets(recs[..|recs| - 1]) + (if last.Jump? then {last.target} else {})
  }

  function TableFids(recs: seq<Rec>): set<nat> {
    if recs == [] then {}
    else
      var last := recs[|recs| - 1];
      TableFids(recs[..|recs| - 1]) + (if last.Table? then {last.fid} else {})
  }

  /** The container of the table stored under fid. */
  function ContainerOf(d: Disk, fid: nat): Result<nat> {
    var blob := Read(d, fid);
    if blob.Err? then Err(blob.error)
    else if DecodeTable(blob.value).Err? then Err(DecodeTable(blob.value).error)
    else Ok(DecodeTable(blob.value).value.header.containerFid)
  }

  /** The containers of the tables among the records, when all of them can be read. */
  function Containers(d: Disk, recs: seq<Rec>): Result<set<nat>> {
    if recs == [] then Ok({})
    else
      var front, last := Containers(d, recs[..|recs| - 1]), recs[|recs| - 1];
      if front.Err? || !last.Table? then front
      else if ContainerOf(d, last.fid).Err? then Err(ContainerOf(d, last.fid).error)
      else Ok(front.value + {ContainerOf(d, last.fid).value})
  }

  /** The plain records whose fid is not among the excluded ones. */
  function PlainOnes(recs: seq<Rec>, excluded: set<nat>): seq<Candidate> {
    if recs == [] then []
    else
      var front, last := PlainOnes(recs[..|recs| - 1], excluded), recs[|recs| - 1];
      if last.Plain? && last.fid !in excluded then front + [Candidate(last.fid, last.size)] else front
  }

  function EligibleOn(d: Disk): Result<seq<Candidate>> {
    var recs := Scanned(d);
    if recs.Err? then Err(recs.error)
    else
      var containers := Containers(d, recs.value);
      if containers.Err? then Err(containers.error)
      else Ok(PlainOnes(recs.value, Targets(recs.value) + TableFids(recs.value) + containers.value))
  }

  function SumOf(cands: seq<Candidate>): nat {
    if cands == [] then 0 else SumOf(cands[..|cands| - 1]) + cands[|cands| - 1].size
  }

  function Small(cands: seq<Candidate>, threshold: nat): seq<Candidate> {
    if cands == [] then []
    else
      var front, last := Small(cands[..|cands| - 1], threshold), cands[|cands| - 1];
      if last.size < threshold then front + [last] else front
  }

  /** The batch is as many of the small objects, from the oldest on, as fit the limit,
      and at least one. */
  ghost predicate IsBatch(small: seq<Candidate>, limit: nat, cands: seq<Candidate>) {
    && cands <= small
    && (SumOf(cands) <= limit || |cands| == 1)
    && (cands == [] ==> small == [])
    && (|cands| < |small| ==> SumOf(small[..|cands| + 1]) > limit)
  }

  function Batch(small: seq<Candidate>, limit: nat): seq<Candidate> {
    if small == [] then []
    else
      var before, front, last := Batch(small[..|small| - 1], limit), small[..|small| - 1], small[|small| - 1];
      if before == front && (front == [] || SumOf(front) + last.size <= limit) then small else before
  }

  function CandidatesOn(d: Disk, cfg: Config): Result<seq<Candidate>> {
    var eligible := EligibleOn(d);
    if eligible.Err? then eligible else Ok(Batch(Small(eligible.value, cfg.threshold), cfg.batchLimit))
  }

  // ----- container and table -----

  const NONCES := 256

  /** What n failed attempts have appended to the container. */
  function NonceTail(n: nat): seq<byte> {
    if n == 0 then [] else NonceTail(n - 1) + LittleEndian(n, 8)
  }

  /** The tail is the numbers from 1 to n, eight bytes each, low byte first. */
  lemma {:induction false} NonceTailIs(n: nat)
    ensures |NonceTail(n)| == 8 * n
    ensures forall k :: 0 <= k < n ==> NonceTail(n)[8 * k..8 * k + 8] == LittleEndian(k + 1, 8)
  {
    if n > 0 {
      NonceTailIs(n - 1);
      hide LittleEndian;
      LittleEndianLength(n);
      var front, last := NonceTail(n - 1), LittleEndian(n, 8);
      assert (front + last)[8 * (n - 1)..8 * (n - 1) + 8] == last;
      forall k | 0 <= k < n - 1 ensures (front + last)[8 * k..8 * k + 8] == front[8 * k..8 * k + 8] {}
    }
  }

  lemma LittleEndianLength(v: nat)
    ensures |LittleEndian(v, 8)| == 8
  {}

  /** Where the attempts to write an object ended: the disk, what was written, and the
      number of the last attempt. */
  datatype Attempt = Attempt(disk: Disk, written: Result<Candidate>, nonce: nat)

  /** Attempt n and those after it: the container with n nonces appended, written under
      its hash; a conflict is followed by the next attempt, up to 256 in all. */
  function ContainerFrom(d: Disk, hash: Hash, data0: seq<byte>, n: nat): Attempt
    requires Sized(d) && n < NONCES
    decreases NONCES - n
  {
    var data := data0 + NonceTail(n);
    var (d', r) := WriteObject(d, hash(data), data);
    if r.Ok? then Attempt(d', Ok(Candidate(hash(data), |data|)), n)
    else if r.error == Conflict && n + 1 < NONCES then ContainerFrom(d, hash, data0, n + 1)
    else Attempt(d', Err(r.error), n)
  }

  /** The same for the table, whose nonce is a header field. */
  function TableFrom(d: Disk, hash: Hash, header: Header, entries: seq<TableEntry>, n: nat): Attempt
    requires Sized(d) && n < NONCES
    decreases NONCES - n
  {
    var blob := EncodeTable(header.(reserved := n), entries);
    var (d', r) := WriteObject(d, hash(blob), blob);
    if r.Ok? then Attempt(d', Ok(Candidate(hash(blob), |blob|)), n)
    else if r.error == Conflict && n + 1 < NONCES then TableFrom(d, hash, header, entries, n + 1)
    else Attempt(d', Err(r.error), n)
  }

  function HeaderFor(d: Disk, container: Candidate, entries: seq<TableEntry>): Header {
    Header(d.diskID, container.fid, container.size, |entries|, 0)
  }

  /** Writing an object keeps the disk's shape; a conflict is found before anything is
      written, so the next attempt starts from the same disk. */
  lemma WriteKeepsSize(d: Disk, fid: nat, data: seq<byte>)
    requires Sized(d)
    ensures var (d', r) := WriteObject(d, fid, data);
            Sized(d') && d'.slots == d.slots && d'.diskID == d.diskID && (r == Err(Conflict) ==> d' == d)
  {
    hide AnyOverlap, Zeros;
  }

  /** The bytes cannot be written under their hash: it is taken, or its extent is. */
  predicate Clashes(d: Disk, hash: Hash, data: seq<byte>)
    requires Sized(d)
  {
    WriteObject(d, hash(data), data).1 == Err(Conflict)
  }

  /** The attempts end at the first that does not clash, or at the last there may be. */
  lemma {:induction false} ContainerAttempt(d: Disk, hash: Hash, data0: seq<byte>, n: nat)
    requires Sized(d) && n < NONCES
    ensures var a := ContainerFrom(d, hash, data0, n);
            && Sized(a.disk) && a.nonce < NONCES
            && var data := data0 + NonceTail(a.nonce);
               var (d', r) := WriteObject(d, hash(data), data);
               a.disk == d' && a.written == (if r.Ok? then Ok(Candidate(hash(data), |data|)) else Err(r.error))
    ensures var a := ContainerFrom(d, hash, data0, n);
            && n <= a.nonce && (forall k :: n <= k < a.nonce ==> Clashes(d, hash, data0 + NonceTail(k)))
            && (a.written == Err(Conflict) ==> a.nonce == NONCES - 1)
    decreases NONCES - n
  {
    hide WriteObject, NonceTail;
    var data := data0 + NonceTail(n);
    WriteKeepsSize(d, hash(data), data);
    if WriteObject(d, hash(data), data).1 == Err(Conflict) && n + 1 < NONCES {
      ContainerAttempt(d, hash, data0, n + 1);
    }
  }

  lemma {:induction false} TableAttempt(d: Disk, hash: Hash, header: Header, entries: seq<TableEntry>, n: nat)
    requires Sized(d) && n < NONCES
    ensures var a := TableFrom(d, hash, header, entries, n);
            && Sized(a.disk) && a.nonce < NONCES
            && var blob := EncodeTable(header.(reserved := a.nonce), entries);
               var (d', r) := WriteObject(d, hash(blob), blob);
               a.disk == d' && a.written == (if r.Ok? then Ok(Candidate(hash(blob), |blob|)) else Err(r.error))
    ensures var a := TableFrom(d, hash, header, entries, n);
            && n <= a.nonce && (forall k :: n <= k < a.nonce ==>
                                   Clashes(d, hash, EncodeTable(header.(reserved := k), entries)))
            && (a.written == Err(Conflict) ==> a.nonce == NONCES - 1)
    decreases NONCES - n
  {
    hide WriteObject, EncodeTable;
    var blob := EncodeTable(header.(reserved := n), entries);
    WriteKeepsSize(d, hash(blob), blob);
    if WriteObject(d, hash(blob), blob).1 == Err(Conflict) && n + 1 < NONCES {
      TableAttempt(d, hash, header, entries, n + 1);
    }
  }

  // ----- the switch to the table -----

  /** The tombstones of the fids from the i-th on, until one does not fit. */
  function BuryAll(d: Disk, fids: seq<nat>, i: nat): (r: (Disk, Result<()>))
    requires |d.region| == MAX_ENTRIES && i <= |fids|
    ensures |r.0.region| == MAX_ENTRIES
    decreases |fids| - i
  {
    if i == |fids| then (d, Ok(()))
    else
      var (d', r) := AppendTombstone(d, fids[i]);
      if r.Err? then (d', r) else BuryAll(d', fids, i + 1)
  }

  /** From the anchor on. */
  function Switch(d: Disk, cands: seq<Candidate>, table: Candidate, failPoint: FailPoint): (Disk, Result<()>)
    requires |d.region| == MAX_ENTRIES
  {
    var (d1, r1) := AppendAnchor(d, table.fid, table.size);
    if r1.Err? then (d1, r1)
    else if failPoint == AfterAnchorAppend then (d1, Err(Stopped))
    else
      var (d2, r2) := LoadPackedTable(d1, table.fid);
      if r2.Err? then (d2, r2)
      else if !T.VerifyPacked(d2, FidsOf(cands), SizesOf(cands)) then (d2, Err(BadTable("verify packed candidates")))
      else
        var (d3, r3) := BuryAll(d2, FidsOf(cands), 0);
        if r3.Err? then (d3, r3)
        else if failPoint == AfterDelete then (d3, Err(Stopped))
        else CompactIndex(d3)
  }

  /** From the table on. */
  function PackTable(d: Disk, hash: Hash, cands: seq<Candidate>, entries: seq<TableEntry>, container: Candidate,
                     failPoint: FailPoint): (Disk, Result<()>)
    requires Sized(d)
  {
    TableAttempt(d, hash, HeaderFor(d, container, entries), entries, 0);
    var t := TableFrom(d, hash, HeaderFor(d, container, entries), entries, 0);
    if t.written.Err? then (t.disk, Err(t.written.error))
    else if failPoint == AfterTableWrite then (t.disk, Err(Stopped))
    else Switch(t.disk, cands, t.written.value, failPoint)
  }

  /** From the container on. */
  function Repack(d: Disk, hash: Hash, cands: seq<Candidate>, failPoint: FailPoint): (Disk, Result<()>)
    requires Sized(d)
  {
    var built := BuildContainer(d, FidsOf(cands));
    if built.Err? then (d, Err(built.error))
    else if failPoint == AfterContainerBuild then (d, Err(Stopped))
    else
      ContainerAttempt(d, hash, built.value.data, 0);
      var c := ContainerFrom(d, hash, built.value.data, 0);
      if c.written.Err? then (c.disk, Err(c.written.error))
      else if failPoint == AfterContainerWrite then (c.disk, Err(Stopped))
      else PackTable(c.disk, hash, cands, built.value.entries, c.written.value, failPoint)
  }

  /** The whole of Trim. */
  function Trimmed(d: Disk, cfg: Config): (Disk, Result<()>)
    requires Sized(d)
  {
    var cands := CandidatesOn(d, cfg);
    if cands.Err? then (d, Err(cands.error))
    else if cands.value == [] || !cfg.trigger then (d, Ok(()))
    else if cfg.failPoint == AfterBackup then (d, Err(Stopped))
    else Repack(d, cfg.hash, cands.value, cfg.failPoint)
  }

  // ----- what a Trim of these candidates writes -----

  /** The container, if it gets written. */
  function ContainerMade(d: Disk, hash: Hash, cands: seq<Candidate>): Option<Candidate>
    requires Sized(d)
  {
    var built := BuildContainer(d, FidsOf(cands));
    if built.Err? then None
    else
      var c := ContainerFrom(d, hash, built.value.data, 0);
      if c.written.Err? then None else Some(c.written.value)
  }

  /** The table, if it gets written. */
  function TableMade(d: Disk, hash: Hash, cands: seq<Candidate>): Option<Candidate>
    requires Sized(d)
  {
    var built := BuildContainer(d, FidsOf(cands));
    if built.Err? then None
    else
      ContainerAttempt(d, hash, built.value.data, 0);
      var c := ContainerFrom(d, hash, built.value.data, 0);
      if c.written.Err? then None
      else
        var entries := built.value.entries;
        var t := TableFrom(c.disk, hash, HeaderFor(c.disk, c.written.value, entries), entries, 0);
        if t.written.Err? then None else Some(t.written.value)
  }

  /** How many candidates come before fid 0. */
  function ZeroAt(fids: seq<nat>): (k: nat)
    ensures k <= |fids| && (k < |fids| ==> fids[k] == 0)
    ensures forall i :: 0 <= i < k ==> fids[i] != 0
  {
    if fids == [] || fids[0] == 0 then 0
    else
      assert forall i :: 0 < i < |fids| ==> fids[i] == fids[1..][i - 1];
      1 + ZeroAt(fids[1..])
  }
}
