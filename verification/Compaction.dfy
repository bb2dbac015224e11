/** Compaction as the engine runs it: one pass that keeps the newest record of every
    fid in a map with sequence numbers, a sort, and a second pass that writes the
    records back, each tied to the list specification of the log. */
module Compaction {
  import opened Layout
  import opened IndexEntry
  import opened IndexLog
  import opened Sorting

  /** A record as the map holds it: `seq` tells when its first entry was seen. */
  datatype CompactRecord = CompactRecord(rec: Rec, order: nat)

  ghost predicate Ordered(rs: seq<CompactRecord>) { Ascending(rs, OrderOf) }

  function OrderOf(r: CompactRecord): nat { r.order }

  predicate OncePerFid(rs: seq<CompactRecord>) {
    forall i, j :: 0 <= i < j < |rs| ==> rs[i].rec.fid != rs[j].rec.fid
  }

  /** The map files exactly the records of the list, each under its fid. */
  ghost predicate Files(m: map<nat, CompactRecord>, rs: seq<CompactRecord>) {
    && (forall i :: 0 <= i < |rs| ==> rs[i].rec.fid in m && m[rs[i].rec.fid] == rs[i])
    && (forall f :: f in m ==> m[f].rec.fid == f && m[f] in rs)
  }

  function Plainly(rs: seq<CompactRecord>): (recs: seq<Rec>)
    ensures |recs| == |rs| && forall i :: 0 <= i < |rs| ==> recs[i] == rs[i].rec
  {
    seq(|rs|, i requires 0 <= i < |rs| => rs[i].rec)
  }

  // ----- the list the map stands for -----

  ghost function Without(rs: seq<CompactRecord>, fid: nat): (out: seq<CompactRecord>)
    ensures |out| <= |rs|
    ensures forall r :: r in out <==> r in rs && r.rec.fid != fid
  {
    if rs == [] then []
    else
      var n := |rs| - 1;
      assert rs == rs[..n] + [rs[n]];
      if rs[n].rec.fid == fid then Without(rs[..n], fid) else Without(rs[..n], fid) + [rs[n]]
  }

  lemma Append(rs: seq<CompactRecord>, r: CompactRecord)
    requires Ordered(rs) && OncePerFid(rs) && forall q :: q in rs ==> q.order < r.order && q.rec.fid != r.rec.fid
    ensures Ordered(rs + [r]) && OncePerFid(rs + [r]) && Plainly(rs + [r]) == Plainly(rs) + [r.rec]
  {}

  lemma Front(rs: seq<CompactRecord>)
    requires rs != [] && Ordered(rs) && OncePerFid(rs)
    ensures var n := |rs| - 1;
            && Ordered(rs[..n]) && OncePerFid(rs[..n]) && Plainly(rs)[..n] == Plainly(rs[..n])
            && (forall q :: q in rs[..n] ==> q.order < rs[n].order && q.rec.fid != rs[n].rec.fid)
  {}

  lemma {:induction false} WithoutKeeps(rs: seq<CompactRecord>, fid: nat)
    requires Ordered(rs) && OncePerFid(rs)
    ensures Ordered(Without(rs, fid)) && OncePerFid(Without(rs, fid))
    ensures Plainly(Without(rs, fid)) == Remove(Plainly(rs), fid)
  {
    hide Ordered, OncePerFid;
    if rs != [] {
      var n := |rs| - 1;
      Front(rs);
      WithoutKeeps(rs[..n], fid);
      if rs[n].rec.fid != fid { Append(Without(rs[..n], fid), rs[n]); }
    } else {
      assert Without(rs, fid) == rs && Plainly(rs) == [];
    }
  }

  lemma FilesWithout(m: map<nat, CompactRecord>, rs: seq<CompactRecord>, fid: nat)
    requires Files(m, rs)
    ensures Files(m - {fid}, Without(rs, fid))
  {
    var out := Without(rs, fid);
    forall i | 0 <= i < |out| ensures out[i].rec.fid in m - {fid} && (m - {fid})[out[i].rec.fid] == out[i] {
      assert out[i] in out;
      var k :| 0 <= k < |rs| && rs[k] == out[i];
    }
  }

  lemma FilesAppend(m: map<nat, CompactRecord>, rs: seq<CompactRecord>, r: CompactRecord)
    requires Files(m, rs) && forall q :: q in rs ==> q.rec.fid != r.rec.fid
    ensures Files(m[r.rec.fid := r], rs + [r])
  {
    var m', out := m[r.rec.fid := r], rs + [r];
    forall i | 0 <= i < |out| ensures out[i].rec.fid in m' && m'[out[i].rec.fid] == out[i] {
      if i < |rs| { assert rs[i] in rs; }
    }
  }

  predicate Below(rs: seq<CompactRecord>, n: nat) {
    forall q :: q in rs ==> q.order < n
  }

  /** Filing a newer record moves its fid to the end of the list. */
  lemma FilesUpsert(m: map<nat, CompactRecord>, rs: seq<CompactRecord>, r: CompactRecord)
    requires Files(m, rs) && Ordered(rs) && OncePerFid(rs) && Below(rs, r.order)
    ensures var out := Without(rs, r.rec.fid) + [r];
            && Files(m[r.rec.fid := r], out) && Ordered(out) && OncePerFid(out)
            && Plainly(out) == Upsert(Plainly(rs), r.rec)
            && Below(out, r.order + 1)
  {
    hide Files, Ordered, OncePerFid, Remove;
    var fid := r.rec.fid;
    WithoutKeeps(rs, fid);
    FilesWithout(m, rs, fid);
    var front := Without(rs, fid);
    FilesAppend(m - {fid}, front, r);
    assert m[fid := r] == (m - {fid})[fid := r];
    Append(front, r);
  }

  // ----- the collecting pass -----

  method CollectRecords(log: seq<Entry>) returns (r: Result<map<nat, CompactRecord>>, ghost rs: seq<CompactRecord>)
    ensures r.Ok? <==> Collect(log).Ok?
    ensures r.Ok? ==>
      Files(r.value, rs) && Ordered(rs) && OncePerFid(rs) && Plainly(rs) == Collect(log).value.recs
  {
    hide Files, Ordered, OncePerFid, Upsert, Remove, Without;
    var recordMap: map<nat, CompactRecord> := map[];
    var count := 0;
    var pending: Option<Entry> := None;
    var pendingSeq := 0;
    rs := [];
    EmptyFiles();
    for i := 0 to |log|
      invariant count == i && pendingSeq <= count && (pending.Some? ==> pendingSeq == count)
      invariant Files(recordMap, rs) && Ordered(rs) && OncePerFid(rs)
      invariant Below(rs, if pending.Some? then pendingSeq else count + 1)
      invariant Collect(log[..i]) == Ok(CollectState(Plainly(rs), pending))
    {
      var entry := log[i];
      assert log[..i + 1][..i] == log[..i];
      count := count + 1;
      if pending.Some? {
        if !(entry.code != 0 || entry.size == 0) {
          var record := CompactRecord(PairRecord(pending.value, entry), pendingSeq);
          FilesUpsert(recordMap, rs, record);
          recordMap := recordMap[pending.value.fid := record];
          rs := Without(rs, pending.value.fid) + [record];
        }
        pending := None;
      } else if IsJumpIndicator(entry) || IsPackedAnchor(entry) {
        pending, pendingSeq := Some(entry), count;
      } else if IsTombstone(entry) {
        WithoutKeeps(rs, entry.fid);
        FilesWithout(recordMap, rs, entry.fid);
        recordMap := recordMap - {entry.fid};
        rs := Without(rs, entry.fid);
      } else if entry.code != 0 {
        CollectFails(log, i + 1);
        return Err(BadLog("unexpected jumpcode")), [];
      } else {
        var record := CompactRecord(Plain(entry.fid, entry.size), count);
        FilesUpsert(recordMap, rs, record);
        recordMap := recordMap[entry.fid := record];
        rs := Without(rs, entry.fid) + [record];
      }
    }
    assert log[..|log|] == log;
    return Ok(recordMap), rs;
  }

  lemma EmptyFiles()
    ensures Files(map[], []) && Ordered([]) && OncePerFid([]) && Below([], 1)
  {}

  lemma {:induction false} CollectFails(log: seq<Entry>, n: nat)
    requires n <= |log| && Collect(log[..n]).Err?
    ensures Collect(log).Err?
    decreases |log|
  {
    if n == |log| {
      assert log[..n] == log;
    } else {
      assert log[..|log| - 1][..n] == log[..n];
      CollectFails(log[..|log| - 1], n);
    }
  }

  // ----- sorting by sequence number -----

  /** The newest record of every fid, in log order: the map and the sort deliver
      exactly the list of the specification, for every log. */
  method CollectLatestIndexRecords(log: seq<Entry>) returns (r: Result<seq<Rec>>)
    ensures r.Ok? <==> Collect(log).Ok? && EntryCount(Collect(log).value.recs) <= MAX_ENTRIES
    ensures r.Ok? ==> r.value == Collect(log).value.recs
  {
    hide Files, OncePerFid, Collect;
    ghost var rs;
    var m;
    m, rs := CollectRecords(log);
    if m.Err? { return Err(m.error); }
    var rest := m.value.Keys;
    var sorted: seq<CompactRecord> := [];
    while rest != {}
      invariant rest <= m.value.Keys && Ordered(sorted)
      invariant forall q :: q in sorted <==> exists f :: f in m.value.Keys - rest && m.value[f] == q
    {
      var fid :| fid in rest;
      FreshOrder(m.value, rs, sorted, fid, rest);
      ghost var before := sorted;
      sorted := Insert(sorted, m.value[fid], OrderOf);
      rest := rest - {fid};
      forall q ensures q in sorted <==> exists f :: f in m.value.Keys - rest && m.value[f] == q {
        GatheredOne(m.value, before, sorted, fid, rest, q);
      }
    }
    Gathered(m.value, rs, sorted);
    SortedUnique(sorted, rs, OrderOf);
    var recs := Plainly(sorted);
    if EntryCount(recs) > MAX_ENTRIES { return Err(BadLog("compacted index too large")); }
    return Ok(recs);
  }

  lemma GatheredOne(m: map<nat, CompactRecord>, before: seq<CompactRecord>, after: seq<CompactRecord>,
                    fid: nat, rest: set<nat>, q: CompactRecord)
    requires fid in m && fid !in rest && rest + {fid} <= m.Keys
    requires forall r :: r in before <==> exists f :: f in m.Keys - (rest + {fid}) && m[f] == r
    requires forall r :: r in after <==> r in before || r == m[fid]
    ensures q in after <==> exists f :: f in m.Keys - rest && m[f] == q
  {
    if q in after {
      if q in before {
        var f :| f in m.Keys - (rest + {fid}) && m[f] == q;
        assert f in m.Keys - rest;
      } else {
        assert fid in m.Keys - rest;
      }
    }
    if f :| f in m.Keys - rest && m[f] == q {
      if f != fid { assert f in m.Keys - (rest + {fid}); }
    }
  }

  lemma FreshOrder(m: map<nat, CompactRecord>, rs: seq<CompactRecord>, sorted: seq<CompactRecord>, fid: nat,
                   rest: set<nat>)
    requires Files(m, rs) && Ordered(rs) && fid in rest && rest <= m.Keys
    requires forall q :: q in sorted <==> exists f :: f in m.Keys - rest && m[f] == q
    ensures forall q :: q in sorted ==> q.order != m[fid].order
  {
    forall q | q in sorted ensures q.order != m[fid].order {
      var f :| f in m.Keys - rest && m[f] == q;
      var i :| 0 <= i < |rs| && rs[i] == m[f];
      var j :| 0 <= j < |rs| && rs[j] == m[fid];
    }
  }

  lemma Gathered(m: map<nat, CompactRecord>, rs: seq<CompactRecord>, sorted: seq<CompactRecord>)
    requires Files(m, rs) && forall q :: q in sorted <==> exists f :: f in m.Keys - {} && m[f] == q
    ensures forall r :: r in sorted <==> r in rs
  {
    forall r ensures r in sorted <==> r in rs {
      if r in rs {
        var i :| 0 <= i < |rs| && rs[i] == r;
        assert r.rec.fid in m.Keys - {} && m[r.rec.fid] == r;
      }
    }
  }

  /** How many entries the records take. */
  function EntryCount(recs: seq<Rec>): nat {
    if recs == [] then 0 else EntryCount(recs[..|recs| - 1]) + (if recs[|recs| - 1].Plain? then 1 else 2)
  }

  lemma {:induction false} EntryCountIs(recs: seq<Rec>)
    ensures EntryCount(recs) == |WriteLog(recs)|
  {
    if recs != [] { EntryCountIs(recs[..|recs| - 1]); }
  }

  lemma {:induction false} WriteLogGrows(recs: seq<Rec>, i: nat)
    requires i <= |recs|
    ensures |WriteLog(recs[..i])| <= |WriteLog(recs)|
    decreases |recs|
  {
    if i < |recs| {
      assert recs[..|recs| - 1][..i] == recs[..i];
      WriteLogGrows(recs[..|recs| - 1], i);
    } else {
      assert recs[..i] == recs;
    }
  }

  // ----- the writing and the validating pass -----

  method WriteLatestIndexRecords(w: array<Entry>, records: seq<Rec>) returns (count: nat)
    requires EntryCount(records) <= w.Length
    modifies w
    ensures count == |WriteLog(records)| <= w.Length && w[..count] == WriteLog(records)
    ensures forall k :: count <= k < w.Length ==> w[k] == old(w[k])
  {
    hide WriteLog, EntryCount;
    EntryCountIs(records);
    count := 0;
    WriteLogStep(records, 0);
    for i := 0 to |records|
      invariant count == |WriteLog(records[..i])| <= |WriteLog(records)| && w[..count] == WriteLog(records[..i])
      invariant forall k :: count <= k < w.Length ==> w[k] == old(w[k])
    {
      var record := records[i];
      WriteLogStep(records, i);
      WriteLogGrows(records, i + 1);
      ghost var done := w[..count];
      match record {
      case Plain(fid, size) =>
        w[count] := Entry(fid, size, 0);
        count := count + 1;
      case Jump(fid, target, size, code) =>
        w[count] := Entry(fid, JUMP_SENTINEL, code);
        w[count + 1] := Entry(target, size, 0);
        count := count + 2;
      case Table(fid, target, size) =>
        w[count] := Entry(fid, PACKED_SENTINEL, PACKED_ANCHOR_CODE);
        w[count + 1] := Entry(target, size, 0);
        count := count + 2;
      }
      assert w[..count] == done + RecEntries(record);
    }
    assert records[..|records|] == records;
  }

  lemma WriteLogStep(recs: seq<Rec>, i: nat)
    requires i <= |recs|
    ensures WriteLog(recs[..0]) == []
    ensures i < |recs| ==> WriteLog(recs[..i + 1]) == WriteLog(recs[..i]) + RecEntries(recs[i])
  {
    if i < |recs| { assert recs[..i + 1][..i] == recs[..i]; }
  }

  method ValidateCompacted(log: seq<Entry>) returns (r: Result<()>)
    ensures r.Ok? <==> Validate(log).Ok?
  {
    var seen: set<nat> := {};
    var pending: Option<Entry> := None;
    for i := 0 to |log|
      invariant Validate(log[..i]) == Ok(ValidateState(seen, pending))
    {
      var entry := log[i];
      assert log[..i + 1][..i] == log[..i];
      var step := ValidateStep(ValidateState(seen, pending), entry);
      if step.Err? { ValidateFails(log, i + 1); }
      if pending.Some? {
        if entry.code != 0 || entry.size == 0 { return Err(BadLog("invalid pair")); }
        if pending.value.fid in seen { return Err(BadLog("duplicate fid")); }
        seen := seen + {pending.value.fid};
        pending := None;
      } else if IsJumpIndicator(entry) || IsPackedAnchor(entry) {
        pending := Some(entry);
      } else if IsTombstone(entry) {
        return Err(BadLog("zero size entry"));
      } else if entry.code != 0 {
        return Err(BadLog("invalid jumpcode"));
      } else {
        if entry.fid in seen { return Err(BadLog("duplicate fid")); }
        seen := seen + {entry.fid};
      }
    }
    assert log[..|log|] == log;
    return Ok(());
  }

  lemma {:induction false} ValidateFails(log: seq<Entry>, n: nat)
    requires n <= |log| && Validate(log[..n]).Err?
    ensures Validate(log).Err?
    decreases |log|
  {
    if n == |log| {
      assert log[..n] == log;
    } else {
      assert log[..|log| - 1][..n] == log[..n];
      ValidateFails(log[..|log| - 1], n);
    }
  }
}
