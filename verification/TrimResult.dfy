/** What a Trim chooses and stores, told by the records and the free space of the disk
    before it: the bytes of the container and of the table, under which attempt's hash
    each is stored, and when neither is. */
module TrimResult {
  import opened Layout
  import opened PackedTable
  import opened Store
  import D = DiskState
  import opened DiskSteps
  import opened TrimSteps
  import opened Trim
  import opened TrimSpec
  import opened TrimSelection
  import opened TrimOutcome

  type Attempts = nat -> seq<byte>

  /** The bytes of attempt n at a container: the candidates' bytes, then the numbers of
      the failed attempts. */
  function ContainerBytes(objs: Objects, cands: seq<Candidate>): Attempts {
    n => Joined(objs, cands) + NonceTail(n)
  }

  /** The bytes of attempt n at the table of container c. */
  function TableBytes(diskID: nat, c: Candidate, cands: seq<Candidate>): Attempts {
    n => EncodeTable(Header(diskID, c.fid, c.size, |cands|, n), Rows(cands))
  }

  /** Attempt n is the first that does not clash, and the disk takes it. */
  ghost predicate WrittenAt(d: Disk, hash: Hash, attempts: Attempts, n: nat) {
    && n < NONCES && Writable(d, hash(attempts(n)), |attempts(n)|)
    && forall k :: 0 <= k < n ==> Clashing(d, hash(attempts(k)), |attempts(k)|)
  }

  ghost predicate NeverWritten(d: Disk, hash: Hash, attempts: Attempts) {
    forall n :: 0 <= n < NONCES ==> !WrittenAt(d, hash, attempts, n)
  }

  /** What the attempts come to: the object of the first that does not clash, if the disk
      takes it. */
  ghost predicate Makes(d: Disk, hash: Hash, attempts: Attempts, made: Option<Candidate>) {
    && (made.None? <==> NeverWritten(d, hash, attempts))
    && (made.Some? ==>
          exists n :: WrittenAt(d, hash, attempts, n) && made.value == Candidate(hash(attempts(n)), |attempts(n)|))
  }

  /** The attempts, the last of which is n, end with what was written. */
  ghost predicate EndsAt(d: Disk, hash: Hash, attempts: Attempts, n: nat, written: Result<Candidate>)
    requires Sized(d)
  {
    && n < NONCES && (forall k :: 0 <= k < n ==> Clashes(d, hash, attempts(k)))
    && (written == Err(Conflict) ==> n == NONCES - 1)
    && var r := D.WriteObject(d, hash(attempts(n)), attempts(n)).1;
       written == if r.Ok? then Ok(Candidate(hash(attempts(n)), |attempts(n)|)) else Err(r.error)
  }

  lemma ClashesIs(d: Disk, hash: Hash, data: seq<byte>)
    requires Sized(d)
    ensures Clashes(d, hash, data) <==> Clashing(d, hash(data), |data|)
    ensures D.WriteObject(d, hash(data), data).1.Ok? <==> Writable(d, hash(data), |data|)
  {
    hide D.WriteObject, Writable, Clashing, D.Filled;
    WriteExactly(d, hash(data), data);
  }

  lemma EndsMakes(d: Disk, hash: Hash, attempts: Attempts, n: nat, written: Result<Candidate>)
    requires Sized(d) && EndsAt(d, hash, attempts, n, written)
    ensures Makes(d, hash, attempts, if written.Ok? then Some(written.value) else None)
    ensures written.Ok? ==> WrittenAt(d, hash, attempts, n)
  {
    hide D.WriteObject, Writable, Clashing, Clashes;
    forall k: nat ensures Clashes(d, hash, attempts(k)) <==> Clashing(d, hash(attempts(k)), |attempts(k)|) {
      ClashesIs(d, hash, attempts(k));
    }
    ClashesIs(d, hash, attempts(n));
    if written.Ok? {
      assert WrittenAt(d, hash, attempts, n);
    } else {
      forall m | 0 <= m < NONCES ensures !WrittenAt(d, hash, attempts, m) {
        WritableOrClashing(d, hash(attempts(m)), |attempts(m)|);
        if m > n && WrittenAt(d, hash, attempts, m) {
          assert Clashing(d, hash(attempts(n)), |attempts(n)|);
          ClashesConflict(d, hash, attempts(n));
        }
      }
    }
  }

  lemma WritableOrClashing(d: Disk, fid: nat, size: nat)
    ensures !(Writable(d, fid, size) && Clashing(d, fid, size))
  {}

  lemma ClashesConflict(d: Disk, hash: Hash, data: seq<byte>)
    requires Sized(d) && Clashes(d, hash, data)
    ensures D.WriteObject(d, hash(data), data).1 == Err(Conflict)
  {}

  lemma ContainerEnds(d: Disk, objs: Objects, hash: Hash, cands: seq<Candidate>)
    requires Sized(d)
    ensures var a := ContainerFrom(d, hash, Joined(objs, cands), 0);
            Sized(a.disk) && EndsAt(d, hash, ContainerBytes(objs, cands), a.nonce, a.written)
  {
    hide D.WriteObject, Clashes, NonceTail, Joined;
    ContainerAttempt(d, hash, Joined(objs, cands), 0);
    var bytes := ContainerBytes(objs, cands);
    forall k: nat ensures bytes(k) == Joined(objs, cands) + NonceTail(k) {}
  }

  lemma TableEnds(d: Disk, hash: Hash, c: Candidate, cands: seq<Candidate>)
    requires Sized(d)
    ensures var a := TableFrom(d, hash, HeaderFor(d, c, Rows(cands)), Rows(cands), 0);
            Sized(a.disk) && EndsAt(d, hash, TableBytes(d.diskID, c, cands), a.nonce, a.written)
  {
    hide D.WriteObject, Clashes, EncodeTable, Rows;
    RowsLength(cands);
    TableAttempt(d, hash, HeaderFor(d, c, Rows(cands)), Rows(cands), 0);
    var blobs := TableBytes(d.diskID, c, cands);
    forall k: nat
      ensures blobs(k) == EncodeTable(HeaderFor(d, c, Rows(cands)).(reserved := k), Rows(cands))
    {}
  }

  lemma {:induction false} RowsLength(cands: seq<Candidate>)
    ensures |Rows(cands)| == |cands|
  {
    if cands != [] { RowsLength(cands[..|cands| - 1]); }
  }

  /** The disk with the container written: by `WriteExactly`, its bytes are on the grid,
      its entry ends the log, and its extent is confirmed. */
  function Holding(d: Disk, hash: Hash, data: seq<byte>): Disk
    requires Sized(d)
  {
    D.WriteObject(d, hash(data), data).0
  }

  /** What is stored after a Trim stopped there: the container and the table are new
      objects under the hashes of their bytes, if they get written, and nothing else
      changes. */
  ghost predicate Stores(d: Disk, objs: Objects, hash: Hash, cands: seq<Candidate>, failPoint: FailPoint,
                         objs': Objects)
    requires Sized(d)
  {
    var bytes := ContainerBytes(objs, cands);
    if failPoint == AfterBackup || failPoint == AfterContainerBuild || NeverWritten(d, hash, bytes) then objs' == objs
    else
      exists n ::
        WrittenAt(d, hash, bytes, n) && hash(bytes(n)) !in objs
        && StoresTable(d, objs[hash(bytes(n)) := bytes(n)], hash, bytes(n), cands, failPoint, objs')
  }

  /** The same once the container, these bytes, is stored. */
  ghost predicate StoresTable(d: Disk, objs: Objects, hash: Hash, data: seq<byte>, cands: seq<Candidate>,
                              failPoint: FailPoint, objs': Objects)
    requires Sized(d)
  {
    var blobs := TableBytes(d.diskID, Candidate(hash(data), |data|), cands);
    var d1 := Holding(d, hash, data);
    if failPoint == AfterContainerWrite || NeverWritten(d1, hash, blobs) then objs' == objs
    else
      exists k ::
        WrittenAt(d1, hash, blobs, k) && hash(blobs(k)) !in objs && objs' == objs[hash(blobs(k)) := blobs(k)]
  }

  lemma TableStores(d: Disk, objs: Objects, hash: Hash, data: seq<byte>, cands: seq<Candidate>, failPoint: FailPoint)
    requires Sized(d) && D.WriteObject(d, hash(data), data).1.Ok? && objs.Keys == d.confirmed.Keys
    ensures Sized(Holding(d, hash, data)) && Holding(d, hash, data).diskID == d.diskID
    ensures var c, objs1 := Candidate(hash(data), |data|), objs[hash(data) := data];
            StoresTable(d, objs1, hash, data, cands, failPoint,
                        if failPoint == AfterContainerWrite then objs1
                        else WithTable(Holding(d, hash, data), objs1, hash, c, Rows(cands)))
  {
    hide D.WriteObject, Rows, EncodeTable, WrittenAt, TableBytes, TableFrom, EndsAt, Makes;
    var c, d1 := Candidate(hash(data), |data|), Holding(d, hash, data);
    HoldingIs(d, hash, data);
    TableEnds(d1, hash, c, cands);
    RowsLength(cands);
    var a := TableFrom(d1, hash, HeaderFor(d1, c, Rows(cands)), Rows(cands), 0);
    var blobs := TableBytes(d.diskID, c, cands);
    TableBytesIs(d1, c, cands, a.nonce);
    EndsWritten(d1, hash, blobs, a.nonce, a.written);
  }

  lemma TableBytesIs(d: Disk, c: Candidate, cands: seq<Candidate>, n: nat)
    ensures TableBytes(d.diskID, c, cands)(n) == EncodeTable(HeaderFor(d, c, Rows(cands)).(reserved := n), Rows(cands))
  {
    hide EncodeTable, Rows;
    RowsLength(cands);
  }

  lemma HoldingIs(d: Disk, hash: Hash, data: seq<byte>)
    requires Sized(d) && D.WriteObject(d, hash(data), data).1.Ok?
    ensures var d1 := Holding(d, hash, data);
            Sized(d1) && d1.diskID == d.diskID && d1.confirmed.Keys == d.confirmed.Keys + {hash(data)}
  {
    hide D.WriteObject, Writable, Clashing, D.Filled;
    WriteExactly(d, hash(data), data);
    WritableMeans(d, hash(data), |data|);
    WriteKeepsSize(d, hash(data), data);
  }

  lemma WritableMeans(d: Disk, fid: nat, size: nat)
    requires Writable(d, fid, size)
    ensures Reservable(d, fid, size) && fid !in d.confirmed
  {}

  /** Attempts that end in a write store a new object under the hash of its bytes. */
  lemma EndsWritten(d: Disk, hash: Hash, attempts: Attempts, n: nat, written: Result<Candidate>)
    requires Sized(d) && EndsAt(d, hash, attempts, n, written)
    ensures written.Ok? <==> !NeverWritten(d, hash, attempts)
    ensures written.Ok? ==> WrittenAt(d, hash, attempts, n) && hash(attempts(n)) !in d.confirmed
    ensures written.Ok? ==> written.value == Candidate(hash(attempts(n)), |attempts(n)|)
                            && D.WriteObject(d, hash(attempts(n)), attempts(n)).1.Ok?
  {
    hide D.WriteObject, Writable, Clashing, Clashes;
    EndsMakes(d, hash, attempts, n, written);
    if written.Ok? { WritableMeans(d, hash(attempts(n)), |attempts(n)|); }
  }

  /** A Trim of these candidates stores exactly that. */
  lemma TrimStores(d: Disk, objs: Objects, hash: Hash, cands: seq<Candidate>, failPoint: FailPoint)
    requires D.Inv(d, objs) && !d.fault && Sized(d) && SizesRight(objs, cands)
    ensures Stores(d, objs, hash, cands, failPoint, StoredBy(d, objs, hash, cands, failPoint))
  {
    hide D.Inv, D.WriteObject, Rows, Joined, WrittenAt, ContainerBytes, ContainerFrom, EndsAt, BuildContainer,
         WithTable, StoresTable, NonceTail, SizesRight;
    BuiltIs(d, objs, cands);
    ConfirmedKeys(d, objs);
    ContainerEnds(d, objs, hash, cands);
    ContainerAttempt(d, hash, Joined(objs, cands), 0);
    var a := ContainerFrom(d, hash, Joined(objs, cands), 0);
    var bytes := ContainerBytes(objs, cands);
    ContainerBytesIs(objs, cands, a.nonce);
    EndsWritten(d, hash, bytes, a.nonce, a.written);
    if a.written.Ok? {
      TableStores(d, objs, hash, bytes(a.nonce), cands, failPoint);
    }
  }

  lemma ContainerBytesIs(objs: Objects, cands: seq<Candidate>, n: nat)
    ensures ContainerBytes(objs, cands)(n) == Joined(objs, cands) + NonceTail(n)
  {}

  /** Whether container and table get written, by the disk before Trim alone. */
  ghost predicate MakesBoth(d: Disk, objs: Objects, hash: Hash, cands: seq<Candidate>, c: Option<Candidate>,
                            t: Option<Candidate>)
    requires Sized(d)
  {
    var bytes := ContainerBytes(objs, cands);
    && Makes(d, hash, bytes, c)
    && (c.None? ==> t.None?)
    && (c.Some? ==>
          exists n ::
            && WrittenAt(d, hash, bytes, n) && c.value == Candidate(hash(bytes(n)), |bytes(n)|)
            && Makes(Holding(d, hash, bytes(n)), hash, TableBytes(d.diskID, c.value, cands), t))
  }

  lemma MadeIs(d: Disk, objs: Objects, hash: Hash, cands: seq<Candidate>)
    requires D.Inv(d, objs) && !d.fault && Sized(d) && SizesRight(objs, cands)
    ensures MakesBoth(d, objs, hash, cands, ContainerMade(d, hash, cands), TableMade(d, hash, cands))
  {
    hide D.Inv, D.WriteObject, Rows, Joined, WrittenAt, ContainerBytes, ContainerFrom, TableFrom, EndsAt,
         BuildContainer, NonceTail, SizesRight, TableBytes, Makes;
    BuiltIs(d, objs, cands);
    ContainerEnds(d, objs, hash, cands);
    ContainerAttempt(d, hash, Joined(objs, cands), 0);
    var a := ContainerFrom(d, hash, Joined(objs, cands), 0);
    var bytes := ContainerBytes(objs, cands);
    ContainerBytesIs(objs, cands, a.nonce);
    EndsWritten(d, hash, bytes, a.nonce, a.written);
    EndsMakes(d, hash, bytes, a.nonce, a.written);
    if a.written.Ok? {
      var c := a.written.value;
      HoldingIs(d, hash, bytes(a.nonce));
      RowsLength(cands);
      TableEnds(a.disk, hash, c, cands);
      var b := TableFrom(a.disk, hash, HeaderFor(a.disk, c, Rows(cands)), Rows(cands), 0);
      EndsMakes(a.disk, hash, TableBytes(d.diskID, c, cands), b.nonce, b.written);
    }
  }

  /** The objects Trim moves are the oldest small eligible ones, in the order of the log. */
  ghost predicate ChoosesOldest(d: Disk, objs: Objects, cfg: Config) {
    if cfg.trigger && cfg.failPoint != AfterBackup
    then Oldest(D.Recs(d), objs, cfg.threshold, cfg.batchLimit, Chosen(d, cfg))
    else Chosen(d, cfg) == []
  }

  /** What a Trim of a disk in order chooses, stores and comes to. */
  ghost predicate Results(d: Disk, objs: Objects, cfg: Config, d': Disk, objs': Objects, finished: bool)
    requires Sized(d)
  {
    var cands := Chosen(d, cfg);
    && ChoosesOldest(d, objs, cfg)
    && (if cands == [] then d' == d && objs' == objs
        else
          && Stores(d, objs, cfg.hash, cands, cfg.failPoint, objs')
          && MakesBoth(d, objs, cfg.hash, cands, ContainerMade(d, cfg.hash, cands), TableMade(d, cfg.hash, cands))
          && Finishes(d, cfg, d', finished))
  }

  lemma TrimResults(d: Disk, objs: Objects, cfg: Config) returns (objs': Objects, v: Disk)
    requires D.Inv(d, objs) && d.diskID < TWO_64 && RegionFits(d) && Sized(d) && Clear(d, cfg)
    ensures var (d', r) := Trimmed(d, cfg);
            && Kept(d, objs, d', objs') && D.Inv(v, objs')
            && (d' == v || (Shadow(d', v) && r.Err? && 0 in FidsOf(Chosen(d, cfg))))
            && (!d.fault ==> Results(d, objs, cfg, d', objs', r.Ok?))
  {
    hide D.Inv, Kept, Repack, D.ScansWhole, Shadow, RegionFits, D.Recs, ContainerMade, TableMade, StoredBy, Oldest,
         Stores, MakesBoth, Finishes, SizesRight, CandidatesOn, Careful, Waiting;
    objs', v := TrimKeepsObjects(d, objs, cfg);
    if !d.fault {
      CandidatesWait(d, objs, cfg);
      var cands := Chosen(d, cfg);
      if cands != [] {
        TrimStores(d, objs, cfg.hash, cands, cfg.failPoint);
        MadeIs(d, objs, cfg.hash, cands);
      }
    }
  }
}
