/** Trim as the engine runs it on an open device, step by step under the device's
    lock, with its nonce loops and the points at which it may stop. Each method moves
    the state exactly as `TrimSpec` says, whatever state it starts from. */
module DeviceTrim {
  import opened Layout
  import opened IndexEntry
  import opened IndexLog
  import opened PackedTable
  import opened Replay
  import opened IndexScan
  import D = DiskState
  import opened Trim
  import T = TrimRun
  import opened IndexState
  import opened Device
  import opened StreamWriter
  import Compaction
  import opened TrimSpec
  import opened TrimSelection
  import opened TrimOutcome
  import opened TrimResult

  // ----- single steps, each tied to the model of the disk -----

  method PutBytes(grid: array<byte>, at: nat, bytes: seq<byte>)
    requires at + |bytes| <= grid.Length
    modifies grid
    ensures grid[..] == D.Splice(old(grid[..]), at, bytes)
  {
    for i := 0 to |bytes|
      invariant forall k :: 0 <= k < grid.Length ==> grid[k] == if at <= k < at + i then bytes[k - at] else old(grid[k])
    {
      grid[at + i] := bytes[i];
    }
  }

  /** Writing a container or a table under its hash. */
  method WriteObject(s: DeviceState, fid: uint64, data: seq<byte>) returns (r: Result<()>)
    requires s.Formed()
    modifies s, s.grid, s.region
    ensures s.Formed() && s.objs == old(s.objs)
    ensures (s.Model(), r) == D.WriteObject(old(s.Model()), fid, data)
  {
    hide D.Splice, Extent, D.AnyOverlap;
    if data == [] { return Err(EmptyObject); }
    if s.indexErr { return Err(Fault); }
    if fid in s.confirmed { return Err(Conflict); }
    var place := Extent(s.Slots(), fid, |data|);
    if place.None? { return Err(OutOfRange); }
    var iv := place.value;
    var taken := AnyOverlapIn(s.intervals, iv);
    if taken { return Err(Conflict); }
    taken := AnyOverlapIn(s.pendingIntervals, iv);
    if taken { return Err(Conflict); }
    ExtentFits(s.Slots(), fid, |data|);
    NotTaken(SetOf(s.pendingIntervals), iv);
    var at, pad := iv.start * SLOT_SIZE, (iv.end - iv.start + 1) * SLOT_SIZE - |data|;
    PutBytes(s.grid, at, data);
    PutBytes(s.grid, at + |data|, D.Zeros(pad));
    SpliceTwice(old(s.grid[..]), at, data, D.Zeros(pad));
    if |data| > JUMP_SENTINEL { return Err(BadEntry("size exceeds 56-bit limit")); }
    if s.indexEnd + INDEX_ENTRY_SIZE > GRID_START { return Err(IndexFull); }
    Record(s, fid, |data|, iv);
    return Ok(());
  }

  lemma ExtentFits(slots: nat, fid: nat, size: nat)
    ensures Extent(slots, fid, size).Some? ==>
      var iv := Extent(slots, fid, size).value;
      iv.start <= iv.end < slots && size <= (iv.end - iv.start + 1) * SLOT_SIZE
  {}

  lemma NotTaken(ivs: set<Interval>, iv: Interval)
    requires !D.AnyOverlap(ivs, iv) && iv.start <= iv.end
    ensures iv !in ivs
  {
    assert Overlaps(iv, iv);
  }

  /** The plain entry of an object, then memory. */
  method Record(s: DeviceState, fid: uint64, size: nat, iv: Interval)
    requires s.Formed() && size < TWO_56 && s.indexEnd + INDEX_ENTRY_SIZE <= GRID_START
    requires iv !in SetOf(s.pendingIntervals)
    modifies s, s.region
    ensures s.Formed() && s.objs == old(s.objs)
    ensures s.Model() == D.Appended(old(s.Model()), Plain(fid, size), iv)
  {
    hide D.Splice;
    s.WriteEntries((s.indexEnd - INDEX_START) / INDEX_ENTRY_SIZE, [Entry(fid, size, 0)]);
    s.confirmed := s.confirmed[fid := PlainRef(fid, size)];
    s.indexEnd := s.indexEnd + INDEX_ENTRY_SIZE;
    SetOfAppend(s.intervals, iv);
    s.intervals := s.intervals + [iv];
    assert SetOf(s.pendingIntervals) - {iv} == SetOf(s.pendingIntervals);
    assert s.confirmed == old(s.confirmed) + RecRefs(Plain(fid, size));
  }

  /** Up to 256 attempts at a hash that does not collide: each failed one appends its
      number to the container, and only the last attempt has any effect. */
  method WriteContainerObject(s: DeviceState, hash: Hash, data0: seq<byte>) returns (r: Result<Candidate>)
    requires s.Formed()
    modifies s, s.grid, s.region
    ensures s.Formed() && s.objs == old(s.objs) && Sized(old(s.Model()))
    ensures var a := ContainerFrom(old(s.Model()), hash, data0, 0); (s.Model(), r) == (a.disk, a.written)
  {
    hide D.WriteObject, NonceTail;
    var data := data0;
    NonceStep(data0, 0);
    ghost var m0 := s.Model();
    var nonce := 0;
    while nonce < NONCES
      invariant nonce <= NONCES && data == data0 + NonceTail(nonce) && s.Formed() && s.objs == old(s.objs)
      invariant s.Model() == m0
      invariant if nonce < NONCES then ContainerFrom(m0, hash, data0, 0) == ContainerFrom(m0, hash, data0, nonce)
                else ContainerFrom(m0, hash, data0, 0).disk == m0
                     && ContainerFrom(m0, hash, data0, 0).written == Err(Conflict)
    {
      var fid := hash(data);
      WriteKeepsSize(m0, fid, data);
      var written := WriteObject(s, fid, data);
      if written.Ok? { return Ok(Candidate(fid, |data|)); }
      if written.error != Conflict { return Err(written.error); }
      NonceStep(data0, nonce);
      data := data + LittleEndian(nonce + 1, 8);
      nonce := nonce + 1;
    }
    return Err(Conflict);
  }

  lemma NonceStep(data: seq<byte>, n: nat)
    ensures data + NonceTail(0) == data
    ensures (data + NonceTail(n)) + LittleEndian(n + 1, 8) == data + NonceTail(n + 1)
  {
    hide LittleEndian;
  }

  /** The same for the table, whose nonce is a header field. */
  method WritePackedTableObject(s: DeviceState, hash: Hash, header: Header, entries: seq<TableEntry>)
    returns (r: Result<Candidate>)
    requires s.Formed()
    modifies s, s.grid, s.region
    ensures s.Formed() && s.objs == old(s.objs) && Sized(old(s.Model()))
    ensures var a := TableFrom(old(s.Model()), hash, header, entries, 0); (s.Model(), r) == (a.disk, a.written)
  {
    hide D.WriteObject, EncodeTable;
    ghost var m0 := s.Model();
    var nonce := 0;
    while nonce < NONCES
      invariant nonce <= NONCES && s.Formed() && s.objs == old(s.objs)
      invariant s.Model() == m0
      invariant if nonce < NONCES
                then TableFrom(m0, hash, header, entries, 0) == TableFrom(m0, hash, header, entries, nonce)
                else TableFrom(m0, hash, header, entries, 0).disk == m0
                     && TableFrom(m0, hash, header, entries, 0).written == Err(Conflict)
    {
      var buf := EncodePackedTable(header.(reserved := nonce), entries);
      var blob := buf[..];
      var fid := hash(blob);
      WriteKeepsSize(m0, fid, blob);
      var written := WriteObject(s, fid, blob);
      if written.Ok? { return Ok(Candidate(fid, |blob|)); }
      if written.error != Conflict { return Err(written.error); }
      nonce := nonce + 1;
    }
    return Err(Conflict);
  }

  method AppendPackedAnchor(s: DeviceState, fid: uint64, size: nat) returns (r: Result<()>)
    requires s.Formed() && size < TWO_56
    modifies s, s.region
    ensures s.Formed() && s.objs == old(s.objs)
    ensures (s.Model(), r) == D.AppendAnchor(old(s.Model()), fid, size)
  {
    hide D.Splice;
    if s.indexEnd + 2 * INDEX_ENTRY_SIZE > GRID_START { return Err(IndexFull); }
    s.WriteEntries((s.indexEnd - INDEX_START) / INDEX_ENTRY_SIZE,
                   [Entry(fid, PACKED_SENTINEL, PACKED_ANCHOR_CODE), Entry(fid, size, 0)]);
    s.indexEnd := s.indexEnd + 2 * INDEX_ENTRY_SIZE;
    return Ok(());
  }

  method AppendTombstone(s: DeviceState, fid: uint64) returns (r: Result<()>)
    requires s.Formed()
    modifies s, s.region
    ensures s.Formed() && s.objs == old(s.objs)
    ensures (s.Model(), r) == D.AppendTombstone(old(s.Model()), fid)
  {
    hide D.Splice;
    if s.indexEnd + INDEX_ENTRY_SIZE > GRID_START { return Err(IndexFull); }
    s.WriteEntries((s.indexEnd - INDEX_START) / INDEX_ENTRY_SIZE, [Entry(fid, 0, 0)]);
    s.indexEnd := s.indexEnd + INDEX_ENTRY_SIZE;
    return Ok(());
  }

  method LoadPackedTable(s: DeviceState, fid: nat) returns (r: Result<()>)
    requires s.Formed()
    modifies s
    ensures s.Formed() && s.objs == old(s.objs)
    ensures (s.Model(), r) == D.LoadPackedTable(old(s.Model()), fid)
  {
    hide D.Inv, D.Read, DecodeTable, TableRefs, EntriesPacked;
    var blob := s.Get(fid);
    if blob.Err? { return Err(blob.error); }
    var t := DecodePackedTable(blob.value);
    if t.Err? { return Err(t.error); }
    if t.value.header.diskID != s.diskID { return Err(BadTable("disk_id mismatch")); }
    if t.value.header.containerSize == 0 { return Err(BadTable("zero container size")); }
    var refs, packed := ExpandEntries(s.confirmed, s.packed, t.value, fid, |blob.value|);
    s.confirmed, s.packed := refs, packed;
    return Ok(());
  }

  method VerifyPackedCandidates(s: DeviceState, cands: seq<Candidate>) returns (ok: bool)
    requires s.Formed()
    ensures ok <==> T.VerifyPacked(s.Model(), FidsOf(cands), SizesOf(cands))
  {
    hide Extent;
    for i := 0 to |cands|
      invariant forall k :: 0 <= k < i ==> T.PackedFine(s.Model(), cands[k].fid, cands[k].size)
    {
      var c := cands[i].fid;
      assert FidsOf(cands)[i] == c && SizesOf(cands)[i] == cands[i].size;
      if c !in s.packed { return false; }
      var record := s.packed[c];
      if c !in s.confirmed || !s.confirmed[c].packed { return false; }
      var place := Extent(s.Slots(), record.containerFid, record.containerSize);
      if place.None? { return false; }
      if record.logicSize > 0 && place.value.start * SLOT_SIZE + record.offset >= s.grid.Length { return false; }
      if record.logicSize != cands[i].size { return false; }
    }
    return true;
  }

  lemma ScanInside(region: seq<Entry>)
    ensures ScanEnd(region) <= |region|
  {
    hide CutAt, RegionBytes, EndOf;
  }

  ghost predicate Compactable(region: seq<Entry>, log: seq<Entry>) {
    && ScanEnd(region) <= |region|
    && var cs := Collect(region[..ScanEnd(region)]);
    cs.Ok? && log == WriteLog(cs.value.recs) && |log| <= MAX_ENTRIES && Validate(log).Ok?
  }

  lemma CompactCases(d: D.Disk)
    requires |d.region| == MAX_ENTRIES
    ensures (forall log :: !Compactable(d.region, log)) ==> D.CompactIndex(d).0 == d && D.CompactIndex(d).1.Err?
    ensures forall log :: Compactable(d.region, log) ==>
              |log| <= MAX_ENTRIES &&
              var d' := d.(region := log + D.ZeroEntries(MAX_ENTRIES - |log|));
              var rp := ReplayRegion(d.slots, d.grid, d'.region);
              if rp.Ok? then D.CompactIndex(d).0 == D.Rebuilt(d', rp.value) && D.CompactIndex(d).1.Ok?
              else D.CompactIndex(d).0 == d'.(fault := true) && D.CompactIndex(d).1.Err?
  {
    hide ScanEnd, Collect, WriteLog, Validate, ReplayRegion, EndOf;
    ScanInside(d.region);
    var cs := Collect(d.region[..ScanEnd(d.region)]);
    if cs.Ok? && !Compactable(d.region, WriteLog(cs.value.recs)) {
      assert |WriteLog(cs.value.recs)| > MAX_ENTRIES || Validate(WriteLog(cs.value.recs)).Err?;
    }
  }

  /** The latest records, written to a scratch index that then replaces the region. */
  method RewriteIndex(s: DeviceState) returns (r: Result<()>, ghost log: seq<Entry>)
    requires s.Formed()
    modifies s.region
    ensures r.Err? ==> s.region[..] == old(s.region[..]) && forall l :: !Compactable(old(s.region[..]), l)
    ensures r.Ok? ==> Compactable(old(s.region[..]), log) && s.region[..] == log + D.ZeroEntries(MAX_ENTRIES - |log|)
  {
    hide ScanEnd, Collect, WriteLog, Validate, D.Splice;
    log := [];
    ghost var region := s.region[..];
    ScanInside(region);
    var records := ScanRecords(s);
    if records.Err? { return Err(records.error), log; }
    var tmp := new Entry[MAX_ENTRIES](_ => ZERO);
    var count := Compaction.WriteLatestIndexRecords(tmp, records.value);
    log := tmp[..count];
    assert tmp[..] == log + D.ZeroEntries(MAX_ENTRIES - count);
    var valid := Compaction.ValidateCompacted(tmp[..count]);
    if valid.Err? { return Err(valid.error), log; }
    WrittenFits(records.value);
    s.WriteEntries(0, tmp[..]);
    SplicedWhole(region, tmp[..]);
    return Ok(()), log;
  }

  lemma SplicedWhole(region: seq<Entry>, all: seq<Entry>)
    requires |region| == |all|
    ensures D.Splice(region, 0, all) == all
  {}

  /** The rewritten index is replayed into memory. */
  method ReplayInto(s: DeviceState) returns (r: Result<()>)
    requires s.Formed()
    modifies s
    ensures s.Formed() && s.objs == old(s.objs)
    ensures var rp := ReplayRegion(old(s.Model()).slots, old(s.Model()).grid, old(s.Model()).region);
            if rp.Ok? then r.Ok? && s.Model() == D.Rebuilt(old(s.Model()), rp.value)
            else r.Err? && s.Model() == old(s.Model()).(fault := true)
  {
    hide ReplayRegion, EndOf;
    var replayed, ivs, end := ReplayIndex(s.Slots(), s.grid[..], s.region[..]);
    if replayed.Err? {
      s.indexErr := true;
      return Err(replayed.error);
    }
    s.confirmed, s.packed, s.intervals := replayed.value.refs, replayed.value.packed, ivs;
    s.indexEnd := INDEX_START + end * INDEX_ENTRY_SIZE;
    s.indexErr := false;
    return Ok(());
  }

  /** The index rewritten in place and replayed. */
  method CompactIndexLocked(s: DeviceState) returns (r: Result<()>)
    requires s.Formed()
    modifies s, s.region
    ensures s.Formed() && s.objs == old(s.objs)
    ensures s.Model() == D.CompactIndex(old(s.Model())).0 && (r.Ok? <==> D.CompactIndex(old(s.Model())).1.Ok?)
  {
    hide D.CompactIndex, Compactable, ReplayRegion, EndOf, D.ZeroEntries, D.Rebuilt;
    CompactCases(s.Model());
    ghost var log;
    r, log := RewriteIndex(s);
    if r.Err? { return; }
    r := ReplayInto(s);
  }

  // ----- choosing the candidates -----

  method GatherTables(s: DeviceState, records: seq<Rec>)
    returns (r: Result<()>, targets: set<nat>, tables: set<nat>, containers: set<nat>)
    requires s.Formed()
    ensures r.Ok? <==> Containers(s.Model(), records).Ok?
    ensures r.Ok? ==>
      targets == Targets(records) && tables == TableFids(records) && Containers(s.Model(), records) == Ok(containers)
  {
    hide DecodeTable, D.Read;
    targets, tables, containers := {}, {}, {};
    for i := 0 to |records|
      invariant targets == Targets(records[..i]) && tables == TableFids(records[..i])
      invariant Containers(s.Model(), records[..i]) == Ok(containers)
    {
      var record := records[i];
      assert records[..i + 1][..i] == records[..i];
      if record.Jump? {
        targets := targets + {record.target};
      } else if record.Table? {
        tables := tables + {record.fid};
        var blob := s.Get(record.fid);
        if blob.Ok? {
          var t := DecodePackedTable(blob.value);
          if t.Ok? {
            containers := containers + {t.value.header.containerFid};
            continue;
          }
        }
        ContainersFail(s.Model(), records, i + 1);
        return Err(BadTable("unreadable")), {}, {}, {};
      }
    }
    assert records[..|records|] == records;
    return Ok(()), targets, tables, containers;
  }

  lemma {:induction false} ContainersFail(d: D.Disk, recs: seq<Rec>, n: nat)
    requires n <= |recs| && Containers(d, recs[..n]).Err?
    ensures Containers(d, recs).Err?
    decreases |recs|
  {
    if n == |recs| {
      assert recs[..n] == recs;
    } else {
      hide ContainerOf;
      assert recs[..|recs| - 1][..n] == recs[..n];
      ContainersFail(d, recs[..|recs| - 1], n);
    }
  }

  /** The newest records of the region, as the scan of its bytes delivers them. */
  method ScanRecords(s: DeviceState) returns (r: Result<seq<Rec>>)
    requires s.Formed()
    ensures r.Ok? <==> Scanned(s.Model()).Ok?
    ensures r.Ok? ==> r.value == Scanned(s.Model()).value && Compaction.EntryCount(r.value) <= MAX_ENTRIES
    ensures r.Ok? ==> forall q :: q in r.value ==> RecFits(q)
  {
    hide ScanEnd, Collect, WriteLog, RegionBytes, Parsed, RecFits, EndOf, CutAt;
    ghost var region := s.region[..];
    forall e | e in region ensures Fits(e) {}
    ScannedRegion(region);
    var log := ScanIndexStream(RegionBytes(s.region[..]));
    if Collect(log).Ok? {
      CollectFits(log);
      Compaction.EntryCountIs(Collect(log).value.recs);
    }
    r := Compaction.CollectLatestIndexRecords(log);
  }

  method CollectEligible(s: DeviceState) returns (r: Result<seq<Candidate>>)
    requires s.Formed()
    ensures r.Ok? <==> EligibleOn(s.Model()).Ok?
    ensures r.Ok? ==> r.value == EligibleOn(s.Model()).value && forall c :: c in r.value ==> c.fid < TWO_64
    ensures s.Valid() && !s.indexErr && D.ScansWhole(s.region[..]) ==>
      && r.Ok? && OldestFirst(D.Recs(s.Model()), r.value)
      && forall c :: c in r.value <==> Eligible(D.Recs(s.Model()), s.objs, c)
  {
    hide Scanned, Containers, Targets, TableFids, D.Inv, D.Recs, Eligible, OldestFirst, D.ScansWhole;
    if s.Valid() && !s.indexErr && D.ScansWhole(s.region[..]) { EligibleExact(s.Model(), s.objs); }
    var records := ScanRecords(s);
    if records.Err? { return Err(records.error); }
    var gathered, targets, tables, containers := GatherTables(s, records.value);
    if gathered.Err? { return Err(gathered.error); }
    ghost var excluded := targets + tables + containers;
    var eligible: seq<Candidate> := [];
    for i := 0 to |records.value|
      invariant eligible == PlainOnes(records.value[..i], excluded)
      invariant forall c :: c in eligible ==> c.fid < TWO_64
    {
      var record := records.value[i];
      assert records.value[..i + 1][..i] == records.value[..i];
      assert record in records.value;
      if record.Plain? && record.fid !in targets && record.fid !in tables && record.fid !in containers {
        eligible := eligible + [Candidate(record.fid, record.size)];
      }
    }
    assert records.value[..|records.value|] == records.value;
    return Ok(eligible);
  }

  method PickBatch(eligible: seq<Candidate>, threshold: nat, limit: nat) returns (cands: seq<Candidate>)
    ensures IsBatch(Small(eligible, threshold), limit, cands)
  {
    cands := [];
    var currentBatchSize := 0;
    for i := 0 to |eligible|
      invariant cands == Small(eligible[..i], threshold) && currentBatchSize == SumOf(cands)
      invariant currentBatchSize <= limit || |cands| == 1
      invariant |cands| > 0 || currentBatchSize == 0
    {
      var candidate := eligible[i];
      assert eligible[..i + 1][..i] == eligible[..i];
      SmallPrefix(eligible, threshold, i + 1);
      if candidate.size < threshold {
        assert (cands + [candidate])[..|cands|] == cands;
        if currentBatchSize + candidate.size > limit && |cands| > 0 {
          assert Small(eligible, threshold)[..|cands| + 1] == cands + [candidate];
          return;
        }
        cands := cands + [candidate];
        currentBatchSize := currentBatchSize + candidate.size;
      }
    }
    assert eligible[..|eligible|] == eligible;
  }

  lemma {:induction false} SmallPrefix(cands: seq<Candidate>, threshold: nat, n: nat)
    requires n <= |cands|
    ensures Small(cands[..n], threshold) <= Small(cands, threshold)
    decreases |cands|
  {
    if n == |cands| {
      assert cands[..n] == cands;
    } else {
      assert cands[..|cands| - 1][..n] == cands[..n];
      SmallPrefix(cands[..|cands| - 1], threshold, n);
    }
  }

  // ----- the whole of Trim -----

  method BuildContainerFile(s: DeviceState, cands: seq<Candidate>) returns (r: Result<Container>)
    requires s.Formed()
    ensures r == BuildContainer(s.Model(), FidsOf(cands))
  {
    hide D.Inv, D.Read;
    var entries: seq<TableEntry>, data: seq<byte> := [], [];
    ghost var fids := FidsOf(cands);
    for i := 0 to |cands|
      invariant BuildContainer(s.Model(), fids[..i]) == Ok(Container(entries, data))
    {
      assert fids[..i + 1][..i] == fids[..i];
      var bytes := s.Get(cands[i].fid);
      if bytes.Err? {
        BuildFails(s.Model(), fids, i + 1);
        return Err(bytes.error);
      }
      entries := entries + [TableEntry(cands[i].fid, |data|, |bytes.value|)];
      data := data + bytes.value;
    }
    assert fids[..|cands|] == fids;
    return Ok(Container(entries, data));
  }

  lemma {:induction false} BuildFails(d: D.Disk, fids: seq<nat>, n: nat)
    requires n <= |fids| && BuildContainer(d, fids[..n]).Err?
    ensures BuildContainer(d, fids) == BuildContainer(d, fids[..n])
    decreases |fids|
  {
    if n == |fids| {
      assert fids[..n] == fids;
    } else {
      hide D.Read;
      assert fids[..|fids| - 1][..n] == fids[..n];
      BuildFails(d, fids[..|fids| - 1], n);
    }
  }

  /** From the container on. */
  method RepackCandidates(s: DeviceState, hash: Hash, cands: seq<Candidate>, failPoint: FailPoint)
    returns (r: Result<()>)
    requires s.Formed() && forall c :: c in cands ==> c.fid < TWO_64
    modifies s, s.grid, s.region
    ensures s.Formed() && s.objs == old(s.objs) && Sized(old(s.Model()))
    ensures s.Model() == Repack(old(s.Model()), hash, cands, failPoint).0
    ensures r.Ok? <==> Repack(old(s.Model()), hash, cands, failPoint).1.Ok?
  {
    hide BuildContainer, ContainerFrom, TableFrom, TrimSpec.Switch;
    ghost var m0 := s.Model();
    var built := BuildContainerFile(s, cands);
    if built.Err? { return Err(built.error); }
    if failPoint == AfterContainerBuild { return Err(Stopped); }

    var container := WriteContainerObject(s, hash, built.value.data);
    if container.Err? { return Err(container.error); }
    if failPoint == AfterContainerWrite { return Err(Stopped); }

    ghost var m1 := s.Model();
    var entries := built.value.entries;
    var header := Header(s.diskID, container.value.fid, container.value.size, |entries|, 0);
    TableAttempt(m1, hash, header, entries, 0);
    TableFits(m1, hash, header, entries);
    var table := WritePackedTableObject(s, hash, header, entries);
    if table.Err? { return Err(table.error); }
    if failPoint == AfterTableWrite { return Err(Stopped); }

    r := SwitchToTable(s, cands, table.value, failPoint);
  }

  lemma TableFits(d: D.Disk, hash: Hash, header: Header, entries: seq<TableEntry>)
    requires Sized(d)
    ensures var t := TableFrom(d, hash, header, entries, 0);
            t.written.Ok? ==> t.written.value.fid < TWO_64 && t.written.value.size < TWO_56
  {
    hide EncodeTable, Extent, D.AnyOverlap, D.Splice, D.Appended, TableFrom;
    TableAttempt(d, hash, header, entries, 0);
  }

  /** From the anchor on: the log and memory switch to the table, the originals are
      buried, the log is compacted. */
  method SwitchToTable(s: DeviceState, cands: seq<Candidate>, table: Candidate, failPoint: FailPoint)
    returns (r: Result<()>)
    requires s.Formed() && table.fid < TWO_64 && table.size < TWO_56 && forall c :: c in cands ==> c.fid < TWO_64
    modifies s, s.region
    ensures s.Formed() && s.objs == old(s.objs)
    ensures s.Model() == Switch(old(s.Model()), cands, table, failPoint).0
    ensures r.Ok? <==> Switch(old(s.Model()), cands, table, failPoint).1.Ok?
  {
    hide D.AppendAnchor, D.LoadPackedTable, D.AppendTombstone, D.CompactIndex, T.VerifyPacked;
    AnchorKeepsSize(s.Model(), table.fid, table.size);
    r := AppendPackedAnchor(s, table.fid, table.size);
    if r.Err? { return; }
    if failPoint == AfterAnchorAppend { return Err(Stopped); }

    r := LoadPackedTable(s, table.fid);
    if r.Err? { return; }
    var verified := VerifyPackedCandidates(s, cands);
    if !verified { return Err(BadTable("verify packed candidates")); }
    ghost var m := s.Model();
    for i := 0 to |cands|
      invariant s.Formed() && s.objs == old(s.objs)
      invariant BuryAll(m, FidsOf(cands), 0) == BuryAll(s.Model(), FidsOf(cands), i)
    {
      assert cands[i] in cands && FidsOf(cands)[i] == cands[i].fid;
      r := AppendTombstone(s, cands[i].fid);
      if r.Err? { return; }
    }
    if failPoint == AfterDelete { return Err(Stopped); }

    r := CompactIndexLocked(s);
  }

  lemma AnchorKeepsSize(d: D.Disk, fid: nat, size: nat)
    requires |d.region| == MAX_ENTRIES
    ensures |D.AppendAnchor(d, fid, size).0.region| == MAX_ENTRIES
  {}

  /** Trim on one device, whatever its state: it moves exactly as the specification. On
      a device in order every object stored before is still stored with the same bytes
      wherever Trim stops, is read so now and after a restart, and no reservation has
      moved; the device is in order again unless Trim stopped behind a tombstone of fid
      0. What it moves are the oldest small objects in the order of the log; the container
      is their bytes in that order and its nonces, the table lists them so, and nothing
      else is stored. A finished Trim has freed exactly the extents of what it packed. */
  method MaybeTrim(s: DeviceState, cfg: Config) returns (r: Result<()>)
    requires s.Formed()
    modifies s, s.grid, s.region
    ensures s.Formed() && Sized(old(s.Model()))
    ensures s.Model() == Trimmed(old(s.Model()), cfg).0 && (r.Ok? <==> Trimmed(old(s.Model()), cfg).1.Ok?)
    ensures old(s.Valid()) && Clear(old(s.Model()), cfg) ==>
              && Kept(old(s.Model()), old(s.objs), s.Model(), s.objs)
              && (s.Valid() || (r.Err? && 0 in FidsOf(Chosen(old(s.Model()), cfg))))
    ensures old(s.Valid()) && Clear(old(s.Model()), cfg) && !old(s.indexErr) ==>
              Results(old(s.Model()), old(s.objs), cfg, s.Model(), s.objs, r.Ok?)
  {
    hide EligibleOn, Small, Batch, Repack, IsBatch, Clear, Kept, Results, D.Inv;
    ghost var m0, objs0 := s.Model(), s.objs;
    r := RunTrim(s, cfg);
    if D.Inv(m0, objs0) && Clear(m0, cfg) {
      forall e | e in m0.region ensures Fits(e) {}
      ghost var objs', v := TrimResults(m0, objs0, cfg);
      s.objs := objs';
    }
  }

  /** What Trim does with the device's fields. */
  method RunTrim(s: DeviceState, cfg: Config) returns (r: Result<()>)
    requires s.Formed()
    modifies s, s.grid, s.region
    ensures s.Formed() && s.objs == old(s.objs) && Sized(old(s.Model()))
    ensures s.Model() == Trimmed(old(s.Model()), cfg).0 && (r.Ok? <==> Trimmed(old(s.Model()), cfg).1.Ok?)
  {
    hide EligibleOn, Small, Batch, Repack, IsBatch;
    var eligible := CollectEligible(s);
    if eligible.Err? { return Err(eligible.error); }
    var cands := PickBatch(eligible.value, cfg.threshold, cfg.batchLimit);
    ghost var small := Small(eligible.value, cfg.threshold);
    BatchIs(small, cfg.batchLimit);
    BatchUnique(small, cfg.batchLimit, cands, Batch(small, cfg.batchLimit));
    if |cands| == 0 || !cfg.trigger { return Ok(()); }
    if cfg.failPoint == AfterBackup { return Err(Stopped); }
    forall c | c in cands ensures c.fid < TWO_64 { SmallMembers(eligible.value, cfg.threshold, c); }
    r := RepackCandidates(s, cfg.hash, cands, cfg.failPoint);
  }
}
