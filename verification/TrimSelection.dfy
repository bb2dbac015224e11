/** The candidates of a Trim: on a disk in order exactly the small plain objects that are
    nobody's container, from the oldest on, as many as fit the limit. */
module TrimSelection {
  import opened Layout
  import opened IndexEntry
  import opened IndexLog
  import opened LogOrder
  import opened PackedTable
  import opened Replay
  import opened IndexScan
  import opened Store
  import D = DiskState
  import opened DiskSteps
  import opened TrimSteps
  import opened Trim
  import T = TrimRun
  import opened TrimSpec

  type Disk = D.Disk

  // ----- the candidates -----

  /** A plain object that is nobody's container. */
  ghost predicate Eligible(recs: seq<Rec>, objs: Objects, c: Candidate) {
    Plain(c.fid, c.size) in recs && HoldsNone(recs, objs, c.fid)
  }

  /** The object of a was recorded before that of b. */
  ghost predicate Before(recs: seq<Rec>, a: Candidate, b: Candidate) {
    exists p, q :: 0 <= p < q < |recs| && recs[p] == Plain(a.fid, a.size) && recs[q] == Plain(b.fid, b.size)
  }

  ghost predicate OldestFirst(recs: seq<Rec>, cands: seq<Candidate>) {
    forall i, j :: 0 <= i < j < |cands| ==> Before(recs, cands[i], cands[j])
  }

  /** The scan of a disk without fault that reaches the end of the log delivers its records. */
  lemma RecordsScanned(d: Disk, objs: Objects)
    requires D.Inv(d, objs) && !d.fault && D.ScansWhole(d.region)
    ensures Scanned(d) == Ok(D.Recs(d))
  {
    hide D.Inv, D.Recs, ScanEnd, EndOf, Collect, WriteLog, D.TailClean, Validate, Engine;
    TailOf(d, objs);
    CompactedRegion(d, objs, D.Recs(d));
    ConfirmedKeys(d, objs);
  }

  lemma TableReadable(d: Disk, objs: Objects, r: Rec)
    requires D.Inv(d, objs) && !d.fault && r in D.Recs(d) && r.Table?
    ensures r.fid in objs && DecodeTable(objs[r.fid]).Ok?
    ensures ContainerOf(d, r.fid) == Ok(DecodeTable(objs[r.fid]).value.header.containerFid)
  {
    assert TableOk(d.slots, d.grid, D.Recs(d), r);
    hide D.Inv, D.Recs, DecodeTable, TableOf, D.Read;
    TableIsBlob(d, objs, r);
    ReadsObjects(d, objs, r.fid);
  }

  lemma {:induction false} TargetsMember(recs: seq<Rec>, f: nat)
    ensures f in Targets(recs) <==> exists r :: r in recs && r.Jump? && r.target == f
  {
    if recs != [] {
      TargetsMember(recs[..|recs| - 1], f);
      assert recs == recs[..|recs| - 1] + [recs[|recs| - 1]];
    }
  }

  lemma {:induction false} TableFidsMember(recs: seq<Rec>, f: nat)
    ensures f in TableFids(recs) <==> exists r :: r in recs && r.Table? && r.fid == f
  {
    if recs != [] {
      TableFidsMember(recs[..|recs| - 1], f);
      assert recs == recs[..|recs| - 1] + [recs[|recs| - 1]];
    }
  }

  lemma {:induction false} ContainersMember(d: Disk, recs: seq<Rec>)
    requires forall r :: r in recs && r.Table? ==> ContainerOf(d, r.fid).Ok?
    ensures Containers(d, recs).Ok?
    ensures forall f ::
              f in Containers(d, recs).value <==> exists r :: r in recs && r.Table? && ContainerOf(d, r.fid) == Ok(f)
  {
    hide ContainerOf;
    if recs != [] {
      var front, last := recs[..|recs| - 1], recs[|recs| - 1];
      assert recs == front + [last];
      ContainersMember(d, front);
      forall f
        ensures f in Containers(d, recs).value
                <==> exists r :: r in recs && r.Table? && ContainerOf(d, r.fid) == Ok(f)
      {
        if last.Table? && ContainerOf(d, last.fid) == Ok(f) { assert last in recs; }
        if f in Containers(d, front).value {
          var r :| r in front && r.Table? && ContainerOf(d, r.fid) == Ok(f);
          assert r in recs;
        }
      }
    }
  }

  lemma {:induction false} PlainOnesMember(recs: seq<Rec>, excluded: set<nat>, c: Candidate)
    ensures c in PlainOnes(recs, excluded) <==> Plain(c.fid, c.size) in recs && c.fid !in excluded
  {
    if recs != [] {
      PlainOnesMember(recs[..|recs| - 1], excluded, c);
      assert recs == recs[..|recs| - 1] + [recs[|recs| - 1]];
    }
  }

  lemma {:induction false} PlainOnesDistinct(slots: nat, recs: seq<Rec>, excluded: set<nat>)
    requires RecsOk(slots, recs)
    ensures Distinct(FidsOf(PlainOnes(recs, excluded)))
  {
    if recs != [] {
      hide RecOk;
      var front, last := recs[..|recs| - 1], recs[|recs| - 1];
      PlainOnesDistinct(slots, front, excluded);
      var ones := PlainOnes(front, excluded);
      forall i | 0 <= i < |ones| ensures ones[i].fid != last.fid {
        assert ones[i] in ones;
        PlainOnesMember(front, excluded, ones[i]);
        KeysContain(front, Plain(ones[i].fid, ones[i].size));
      }
      assert forall i :: 0 <= i < |ones| ==> FidsOf(ones)[i] == ones[i].fid;
    }
  }

  /** The order of the records is that of the entries in the log. */
  lemma BeforeInLog(d: Disk, objs: Objects, a: Candidate, b: Candidate)
    requires D.Inv(d, objs) && Before(D.Recs(d), a, b)
    ensures Follows(D.Log(d), Plain(a.fid, a.size), Plain(b.fid, b.size))
  {
    hide Holds, D.Space, D.TailClean, D.PackedOk, Follows, LastWord, Engine, Collect, D.Log;
    CollectExactly(D.Log(d));
  }

  lemma BeforeGrows(recs: seq<Rec>, r: Rec, a: Candidate, b: Candidate)
    ensures Before(recs, a, b) ==> Before(recs + [r], a, b)
    ensures Plain(a.fid, a.size) in recs && r == Plain(b.fid, b.size) ==> Before(recs + [r], a, b)
  {
    var recs' := recs + [r];
    if Before(recs, a, b) {
      var p, q :| 0 <= p < q < |recs| && recs[p] == Plain(a.fid, a.size) && recs[q] == Plain(b.fid, b.size);
      assert recs'[p] == recs[p] && recs'[q] == recs[q];
    }
    if Plain(a.fid, a.size) in recs && r == Plain(b.fid, b.size) {
      var p :| 0 <= p < |recs| && recs[p] == Plain(a.fid, a.size);
      assert recs'[p] == recs[p] && recs'[|recs|] == r;
    }
  }

  lemma {:induction false} PlainOnesOrdered(recs: seq<Rec>, excluded: set<nat>)
    ensures OldestFirst(recs, PlainOnes(recs, excluded))
  {
    if recs != [] {
      hide Before;
      var front, last := recs[..|recs| - 1], recs[|recs| - 1];
      assert recs == front + [last];
      PlainOnesOrdered(front, excluded);
      var all, ones := PlainOnes(recs, excluded), PlainOnes(front, excluded);
      forall i, j | 0 <= i < j < |all| ensures Before(recs, all[i], all[j]) {
        assert all[i] == ones[i] && ones[i] in ones;
        PlainOnesMember(front, excluded, ones[i]);
        BeforeGrows(front, last, all[i], all[j]);
      }
    }
  }

  /** The three exclusions leave exactly the eligible objects: a plain record is never
      an alias target or an anchored table. */
  lemma ExclusionsExact(d: Disk, objs: Objects, r: Rec)
    requires D.Inv(d, objs) && !d.fault && r in D.Recs(d) && r.Plain?
    ensures Containers(d, D.Recs(d)).Ok?
    ensures r.fid !in Targets(D.Recs(d)) && r.fid !in TableFids(D.Recs(d))
    ensures r.fid !in Containers(d, D.Recs(d)).value <==> HoldsNone(D.Recs(d), objs, r.fid)
  {
    hide RecsOk, Targets, TableFids, Containers, ContainerOf, D.Inv, D.Recs, DecodeTable;
    var recs := D.Recs(d);
    RecsAreOk(d, objs);
    forall q | q in recs && q.Table?
      ensures q.fid in objs && DecodeTable(objs[q.fid]).Ok?
      ensures ContainerOf(d, q.fid) == Ok(DecodeTable(objs[q.fid]).value.header.containerFid)
    {
      TableReadable(d, objs, q);
    }
    TargetsMember(recs, r.fid);
    TableFidsMember(recs, r.fid);
    ContainersMember(d, recs);
    if r.fid in Targets(recs) {
      var q :| q in recs && q.Jump? && q.target == r.fid;
      RecsUnique(d.slots, recs, r, q, r.fid);
    }
    if r.fid in TableFids(recs) {
      var q :| q in recs && q.Table? && q.fid == r.fid;
      RecsUnique(d.slots, recs, r, q, r.fid);
    }
  }

  lemma ContainersReadable(d: Disk, objs: Objects)
    requires D.Inv(d, objs) && !d.fault
    ensures Containers(d, D.Recs(d)).Ok?
  {
    hide Containers, ContainerOf, D.Inv, D.Recs, DecodeTable;
    forall q | q in D.Recs(d) && q.Table? ensures ContainerOf(d, q.fid).Ok? { TableReadable(d, objs, q); }
    ContainersMember(d, D.Recs(d));
  }

  /** The selection finds exactly the eligible objects, each once, from the oldest on. */
  lemma EligibleExact(d: Disk, objs: Objects)
    requires D.Inv(d, objs) && !d.fault && D.ScansWhole(d.region)
    ensures EligibleOn(d).Ok? && Distinct(FidsOf(EligibleOn(d).value))
    ensures OldestFirst(D.Recs(d), EligibleOn(d).value)
    ensures forall c :: c in EligibleOn(d).value <==> Eligible(D.Recs(d), objs, c)
  {
    hide D.Inv, D.Recs, Targets, TableFids, Containers, Scanned, HoldsNone, D.ScansWhole, RecsOk, Before;
    RecordsScanned(d, objs);
    RecsAreOk(d, objs);
    ContainersReadable(d, objs);
    var recs := D.Recs(d);
    var excluded := Targets(recs) + TableFids(recs) + Containers(d, recs).value;
    PlainOnesDistinct(d.slots, recs, excluded);
    PlainOnesOrdered(recs, excluded);
    forall c ensures c in PlainOnes(recs, excluded) <==> Eligible(recs, objs, c) {
      PlainOnesMember(recs, excluded, c);
      if Plain(c.fid, c.size) in recs { ExclusionsExact(d, objs, Plain(c.fid, c.size)); }
    }
  }

  // ----- the batch -----

  lemma {:induction false} SumFront(cands: seq<Candidate>, n: nat)
    requires n <= |cands|
    ensures SumOf(cands[..n]) <= SumOf(cands)
    decreases |cands|
  {
    if n == |cands| {
      assert cands[..n] == cands;
    } else {
      assert cands[..|cands| - 1][..n] == cands[..n];
      SumFront(cands[..|cands| - 1], n);
    }
  }

  lemma {:induction false} BatchIs(small: seq<Candidate>, limit: nat)
    ensures IsBatch(small, limit, Batch(small, limit))
  {
    if small != [] {
      var front := small[..|small| - 1];
      BatchIs(front, limit);
      var b := Batch(front, limit);
      if b == front { assert small[..|b| + 1] == small; } else { assert small[..|b| + 1] == front[..|b| + 1]; }
    }
  }

  /** There is only one such batch. */
  lemma BatchUnique(small: seq<Candidate>, limit: nat, a: seq<Candidate>, b: seq<Candidate>)
    requires IsBatch(small, limit, a) && IsBatch(small, limit, b)
    ensures a == b
  {
    assert a == small[..|a|] && b == small[..|b|];
    if |a| < |b| { ShorterBatch(small, limit, a, b); }
    if |b| < |a| { ShorterBatch(small, limit, b, a); }
  }

  lemma ShorterBatch(small: seq<Candidate>, limit: nat, a: seq<Candidate>, b: seq<Candidate>)
    requires a <= b <= small && |a| < |b| && SumOf(small[..|a| + 1]) > limit
    requires SumOf(b) <= limit || |b| == 1
    ensures a == [] && small != []
  {
    SumFront(b, |a| + 1);
    assert b[..|a| + 1] == small[..|a| + 1];
  }

  lemma {:induction false} SmallMembers(cands: seq<Candidate>, threshold: nat, c: Candidate)
    ensures c in Small(cands, threshold) <==> c in cands && c.size < threshold
  {
    if cands != [] {
      SmallMembers(cands[..|cands| - 1], threshold, c);
      assert cands == cands[..|cands| - 1] + [cands[|cands| - 1]];
    }
  }

  lemma {:induction false} SmallDistinct(cands: seq<Candidate>, threshold: nat)
    requires Distinct(FidsOf(cands))
    ensures Distinct(FidsOf(Small(cands, threshold)))
  {
    if cands != [] {
      var front, last := cands[..|cands| - 1], cands[|cands| - 1];
      assert forall i :: 0 <= i < |front| ==> FidsOf(front)[i] == FidsOf(cands)[i];
      SmallDistinct(front, threshold);
      var small := Small(front, threshold);
      forall k | 0 <= k < |small| ensures small[k].fid != last.fid {
        assert small[k] in small;
        SmallMembers(front, threshold, small[k]);
        var j :| 0 <= j < |front| && front[j] == small[k];
        assert FidsOf(cands)[j] != FidsOf(cands)[|front|];
      }
    }
  }

  lemma {:induction false} SmallOrdered(recs: seq<Rec>, cands: seq<Candidate>, threshold: nat)
    requires OldestFirst(recs, cands)
    ensures OldestFirst(recs, Small(cands, threshold))
  {
    if cands != [] {
      hide Before;
      var front, last := cands[..|cands| - 1], cands[|cands| - 1];
      SmallOrdered(recs, front, threshold);
      hide OldestFirst;
      var small := Small(front, threshold);
      forall c | c in small ensures Before(recs, c, last) {
        SmallMembers(front, threshold, c);
        LastIsNewest(recs, cands, c);
      }
      OrderedAppend(recs, small, last);
    }
  }

  lemma LastIsNewest(recs: seq<Rec>, cands: seq<Candidate>, c: Candidate)
    requires cands != [] && OldestFirst(recs, cands) && c in cands[..|cands| - 1]
    ensures Before(recs, c, cands[|cands| - 1])
  {
    hide Before;
    var j :| 0 <= j < |cands| - 1 && cands[j] == c;
  }

  lemma OrderedAppend(recs: seq<Rec>, cands: seq<Candidate>, last: Candidate)
    requires OldestFirst(recs, cands) && forall c :: c in cands ==> Before(recs, c, last)
    ensures OldestFirst(recs, cands + [last])
  {
    hide Before;
  }

  /** The bytes of the candidates, one after the other. */
  function Joined(objs: Objects, cands: seq<Candidate>): seq<byte> {
    if cands == [] then []
    else Joined(objs, cands[..|cands| - 1]) + Blob(objs, cands[|cands| - 1].fid)
  }

  /** What the table says about the candidates: each with its size, where it starts. */
  function Rows(cands: seq<Candidate>): seq<TableEntry> {
    if cands == [] then []
    else
      var front, last := cands[..|cands| - 1], cands[|cands| - 1];
      Rows(front) + [TableEntry(last.fid, SumOf(front), last.size)]
  }

  /** The container is built of exactly these bytes and rows. */
  lemma {:induction false} BuiltIs(d: Disk, objs: Objects, cands: seq<Candidate>)
    requires D.Inv(d, objs) && !d.fault && SizesRight(objs, cands)
    ensures BuildContainer(d, FidsOf(cands)) == Ok(Container(Rows(cands), Joined(objs, cands)))
  {
    hide BuildContainer, Rows, Joined, D.Inv, D.Read, SumOf, SizesRight, FidsOf;
    if cands == [] {
      NoneBuilt(d, objs);
    } else {
      var front, last := cands[..|cands| - 1], cands[|cands| - 1];
      assert cands == front + [last];
      NextBuilt(d, objs, front, last);
      SizesFront(objs, cands);
      BuiltIs(d, objs, front);
      SumIsJoined(objs, front);
      ReadsObjects(d, objs, last.fid);
    }
  }

  lemma SizesFront(objs: Objects, cands: seq<Candidate>)
    requires cands != [] && SizesRight(objs, cands)
    ensures SizesRight(objs, cands[..|cands| - 1])
    ensures var last := cands[|cands| - 1]; last.fid in objs && |objs[last.fid]| == last.size
  {}

  lemma NoneBuilt(d: Disk, objs: Objects)
    ensures BuildContainer(d, FidsOf([])) == Ok(Container([], [])) && Rows([]) == [] && Joined(objs, []) == []
  {}

  lemma NextBuilt(d: Disk, objs: Objects, front: seq<Candidate>, last: Candidate)
    ensures var before, bytes := BuildContainer(d, FidsOf(front)), D.Read(d, last.fid);
            BuildContainer(d, FidsOf(front + [last]))
            == if before.Err? then before
               else if bytes.Err? then Err(bytes.error)
               else Ok(Container(before.value.entries + [TableEntry(last.fid, |before.value.data|, |bytes.value|)],
                                 before.value.data + bytes.value))
    ensures Rows(front + [last]) == Rows(front) + [TableEntry(last.fid, SumOf(front), last.size)]
    ensures Joined(objs, front + [last]) == Joined(objs, front) + Blob(objs, last.fid)
    ensures last.fid in objs ==> Blob(objs, last.fid) == objs[last.fid]
  {
    hide D.Read;
    assert (front + [last])[..|front|] == front;
    assert FidsOf(front + [last])[..|front|] == FidsOf(front);
  }

  lemma {:induction false} SumIsJoined(objs: Objects, cands: seq<Candidate>)
    requires SizesRight(objs, cands)
    ensures SumOf(cands) == |Joined(objs, cands)|
  {
    if cands != [] { SumIsJoined(objs, cands[..|cands| - 1]); }
  }

  ghost predicate SizesRight(objs: Objects, cands: seq<Candidate>) {
    forall i :: 0 <= i < |cands| ==> cands[i].fid in objs && |objs[cands[i].fid]| == cands[i].size
  }

  ghost predicate SmallEligible(recs: seq<Rec>, objs: Objects, threshold: nat, c: Candidate) {
    Eligible(recs, objs, c) && c.size < threshold
  }

  /** The candidates are the oldest of the small eligible objects, in the order of the
      records, and as many as fit the limit, but at least one: each that is left out was
      recorded after all of them, and with the oldest left out they would not fit. */
  ghost predicate Oldest(recs: seq<Rec>, objs: Objects, threshold: nat, limit: nat, cands: seq<Candidate>) {
    && OldestFirst(recs, cands) && SizesRight(objs, cands)
    && (forall c :: c in cands ==> SmallEligible(recs, objs, threshold, c))
    && (|Joined(objs, cands)| <= limit || |cands| == 1)
    && (forall b :: SmallEligible(recs, objs, threshold, b) && b !in cands ==>
          && cands != [] && (forall a :: a in cands ==> Before(recs, a, b))
          && exists next ::
               && SmallEligible(recs, objs, threshold, next) && next !in cands
               && (next == b || Before(recs, next, b)) && |Joined(objs, cands)| + next.size > limit)
  }

  /** A batch of all small eligible objects, oldest first, is the oldest of them. */
  lemma BatchOldest(recs: seq<Rec>, objs: Objects, threshold: nat, limit: nat, small: seq<Candidate>,
                    cands: seq<Candidate>)
    requires OldestFirst(recs, small) && Distinct(FidsOf(small)) && SizesRight(objs, small)
    requires forall c :: c in small <==> SmallEligible(recs, objs, threshold, c)
    requires IsBatch(small, limit, cands)
    ensures Oldest(recs, objs, threshold, limit, cands)
  {
    hide Before, SmallEligible, SumOf, Joined;
    assert forall i :: 0 <= i < |cands| ==> cands[i] == small[i] && small[i] in small;
    SumIsJoined(objs, cands);
    forall b | SmallEligible(recs, objs, threshold, b) && b !in cands
      ensures cands != [] && (forall a :: a in cands ==> Before(recs, a, b))
      ensures exists next ::
               && SmallEligible(recs, objs, threshold, next) && next !in cands
               && (next == b || Before(recs, next, b)) && |Joined(objs, cands)| + next.size > limit
    {
      LeftOut(small, cands, b);
      var next := small[|cands|];
      assert next in small;
      SumNext(small, |cands|);
      assert small[..|cands|] == cands;
      assert next == b || Before(recs, next, b);
      assert SmallEligible(recs, objs, threshold, next) && |Joined(objs, cands)| + next.size > limit;
    }
  }

  /** One left out stands behind all that are taken; the first such is not taken itself. */
  lemma LeftOut(small: seq<Candidate>, cands: seq<Candidate>, b: Candidate)
    requires cands <= small && Distinct(FidsOf(small)) && b in small && b !in cands
    ensures |cands| < |small| && small[|cands|] !in cands
    ensures exists k :: |cands| <= k < |small| && small[k] == b
  {
    var k :| 0 <= k < |small| && small[k] == b;
    forall j | 0 <= j < |cands| ensures cands[j] == small[j] && cands[j] in cands {}
    forall j | 0 <= j < |cands| && |cands| < |small| ensures small[j] != small[|cands|] {
      assert FidsOf(small)[j] != FidsOf(small)[|cands|];
    }
  }

  lemma SumNext(small: seq<Candidate>, n: nat)
    requires n < |small|
    ensures SumOf(small[..n + 1]) == SumOf(small[..n]) + small[n].size
  {
    assert small[..n + 1][..n] == small[..n];
  }

  ghost predicate RegionFits(d: Disk) { forall e :: e in d.region ==> Fits(e) }

  lemma PlainFidFits(d: Disk, objs: Objects, r: Rec)
    requires D.Inv(d, objs) && RegionFits(d) && r in D.Recs(d)
    ensures r.fid < TWO_64
  {
    hide Collect, RecsOk, Holds, D.TailClean;
    CollectFits(D.Log(d));
  }

  /** The candidates: the oldest small eligible objects that fit the limit, and in order
      for the steps of Trim. */
  lemma CandidatesWait(d: Disk, objs: Objects, cfg: Config)
    requires D.Inv(d, objs) && !d.fault && D.ScansWhole(d.region) && RegionFits(d)
    ensures CandidatesOn(d, cfg).Ok?
    ensures var cands := CandidatesOn(d, cfg).value;
            && Oldest(D.Recs(d), objs, cfg.threshold, cfg.batchLimit, cands)
            && Waiting(D.Recs(d), objs, FidsOf(cands)) && SizesRight(objs, cands)
  {
    hide D.Inv, D.Recs, HoldsNone, RecsOk, Small, EligibleOn, Batch, D.ScansWhole, RegionFits, HasPlain, Oldest,
         OldestFirst, IsBatch;
    EligibleExact(d, objs);
    var eligible := EligibleOn(d).value;
    var small := Small(eligible, cfg.threshold);
    var cands := Batch(small, cfg.batchLimit);
    BatchIs(small, cfg.batchLimit);
    SmallDistinct(eligible, cfg.threshold);
    SmallOrdered(D.Recs(d), eligible, cfg.threshold);
    forall c ensures c in small <==> SmallEligible(D.Recs(d), objs, cfg.threshold, c) {
      SmallMembers(eligible, cfg.threshold, c);
    }
    forall i | 0 <= i < |small|
      ensures Movable(D.Recs(d), objs, FidsOf(small)[i])
      ensures small[i].fid in objs && |objs[small[i].fid]| == small[i].size
    {
      assert small[i] in small;
      EligibleMoves(d, objs, small[i]);
    }
    BatchOldest(D.Recs(d), objs, cfg.threshold, cfg.batchLimit, small, cands);
    BatchFront(D.Recs(d), objs, small, cfg.batchLimit, cands);
  }

  lemma BatchFront(recs: seq<Rec>, objs: Objects, small: seq<Candidate>, limit: nat, cands: seq<Candidate>)
    requires IsBatch(small, limit, cands) && Waiting(recs, objs, FidsOf(small)) && SizesRight(objs, small)
    ensures Waiting(recs, objs, FidsOf(cands)) && SizesRight(objs, cands)
  {
    hide Movable, SumOf;
    forall i | 0 <= i < |cands| ensures FidsOf(cands)[i] == FidsOf(small)[i] && cands[i] == small[i] {}
  }

  lemma EligibleMoves(d: Disk, objs: Objects, c: Candidate)
    requires D.Inv(d, objs) && RegionFits(d) && Eligible(D.Recs(d), objs, c)
    ensures Movable(D.Recs(d), objs, c.fid) && |objs[c.fid]| == c.size
  {
    hide D.Inv, D.Recs, HoldsNone, DecodeTable, TableOf, RegionFits;
    PlainFidFits(d, objs, Plain(c.fid, c.size));
    TableIsBlob(d, objs, Plain(c.fid, c.size));
    T.PlainFits(d, objs, c.fid, c.size);
  }
}
