/** The index log and its compaction: collecting the latest records, writing
    them back as a shorter log, and validating the result.

    `Collect` is the specification of the scanning callback: an ordered list of
    records in which a newer record for a fid replaces the older one at the end. */
module IndexLog {
  import opened Layout
  import opened IndexEntry

  datatype Rec =
    | Plain(fid: nat, size: nat)
    | Jump(fid: nat, target: nat, size: nat, code: nat)
    | Table(fid: nat, target: nat, size: nat)

  /** The record without the one filed under fid. */
  function Remove(recs: seq<Rec>, fid: nat): (r: seq<Rec>)
    ensures |r| <= |recs|
  {
    if recs == [] then []
    else
      var n := |recs| - 1;
      if recs[n].fid == fid then Remove(recs[..n], fid) else Remove(recs[..n], fid) + [recs[n]]
  }

  function Upsert(recs: seq<Rec>, r: Rec): seq<Rec> { Remove(recs, r.fid) + [r] }

  datatype CollectState = CollectState(recs: seq<Rec>, pending: Option<Entry>)

  function PairRecord(p: Entry, e: Entry): Rec {
    if IsPackedAnchor(p) then Table(p.fid, e.fid, e.size) else Jump(p.fid, e.fid, e.size, p.code)
  }

  function CollectStep(cs: CollectState, e: Entry): Result<CollectState> {
    if cs.pending.Some? then
      if e.code != 0 || e.size == 0 then Ok(cs.(pending := None))
      else Ok(CollectState(Upsert(cs.recs, PairRecord(cs.pending.value, e)), None))
    else if IsJumpIndicator(e) || IsPackedAnchor(e) then Ok(cs.(pending := Some(e)))
    else if IsTombstone(e) then Ok(cs.(recs := Remove(cs.recs, e.fid)))
    else if e.code != 0 then Err(BadLog("unexpected jumpcode"))
    else Ok(cs.(recs := Upsert(cs.recs, Plain(e.fid, e.size))))
  }

  function Collect(log: seq<Entry>): Result<CollectState> {
    if log == [] then Ok(CollectState([], None))
    else
      var before := Collect(log[..|log| - 1]);
      if before.Err? then before else CollectStep(before.value, log[|log| - 1])
  }

  function RecEntries(r: Rec): seq<Entry> {
    match r
    case Plain(fid, size) => [Entry(fid, size, 0)]
    case Jump(fid, target, size, code) => [Entry(fid, JUMP_SENTINEL, code), Entry(target, size, 0)]
    case Table(fid, target, size) => [Entry(fid, PACKED_SENTINEL, PACKED_ANCHOR_CODE), Entry(target, size, 0)]
  }

  /** The compacted log that the records are written back as. */
  function WriteLog(recs: seq<Rec>): seq<Entry> {
    if recs == [] then []
    else WriteLog(recs[..|recs| - 1]) + RecEntries(recs[|recs| - 1])
  }

  datatype ValidateState = ValidateState(seen: set<nat>, pending: Option<Entry>)

  function ValidateStep(vs: ValidateState, e: Entry): Result<ValidateState> {
    if vs.pending.Some? then
      if e.code != 0 || e.size == 0 then Err(BadLog("invalid pair"))
      else if vs.pending.value.fid in vs.seen then Err(BadLog("duplicate fid"))
      else Ok(ValidateState(vs.seen + {vs.pending.value.fid}, None))
    else if IsJumpIndicator(e) || IsPackedAnchor(e) then Ok(vs.(pending := Some(e)))
    else if IsTombstone(e) then Err(BadLog("zero size entry"))
    else if e.code != 0 then Err(BadLog("invalid jumpcode"))
    else if e.fid in vs.seen then Err(BadLog("duplicate fid"))
    else Ok(vs.(seen := vs.seen + {e.fid}))
  }

  function Validate(log: seq<Entry>): Result<ValidateState> {
    if log == [] then Ok(ValidateState({}, None))
    else
      var before := Validate(log[..|log| - 1]);
      if before.Err? then before else ValidateStep(before.value, log[|log| - 1])
  }

  // ----- the logs the engine writes -----

  /** The fids a record answers for. */
  function RecKeys(r: Rec): set<nat> { if r.Jump? then {r.fid, r.target} else {r.fid} }

  function KeysOf(recs: seq<Rec>): set<nat> {
    if recs == [] then {} else KeysOf(recs[..|recs| - 1]) + RecKeys(recs[|recs| - 1])
  }

  function StorageFid(r: Rec): nat { if r.Plain? then r.fid else r.target }

  predicate RecOk(slots: nat, r: Rec) {
    && Extent(slots, StorageFid(r), r.size).Some?
    && (r.Jump? ==> r.fid != 0 && 0 < r.code < 256 && r.fid != r.target && r.size >= 2)
    && (r.Table? ==> r.fid != 0 && r.fid == r.target)
  }

  /** Every record is well formed and no fid is answered for twice. */
  predicate RecsOk(slots: nat, recs: seq<Rec>) {
    recs == []
    || (&& RecsOk(slots, recs[..|recs| - 1])
        && RecOk(slots, recs[|recs| - 1])
        && RecKeys(recs[|recs| - 1]) !! KeysOf(recs[..|recs| - 1]))
  }

  predicate HasPlain(recs: seq<Rec>, fid: nat) {
    exists r :: r in recs && r.Plain? && r.fid == fid
  }

  /** What the engine appends: new fids only; an anchor for a table that is new or
      already stored plainly with that size; tombstones of nonzero plain fids only. */
  predicate StepOk(slots: nat, cs: CollectState, e: Entry) {
    if cs.pending.Some? then
      var p := cs.pending.value;
      && e.code == 0
      && Extent(slots, e.fid, e.size).Some?
      && (if IsPackedAnchor(p)
          then e.fid == p.fid && (Plain(e.fid, e.size) in cs.recs || e.fid !in KeysOf(cs.recs))
          else e.fid != p.fid && e.fid !in KeysOf(cs.recs) && p.fid !in KeysOf(cs.recs) && e.size >= 2)
    else if IsPackedAnchor(e) then e.fid != 0
    else if IsJumpIndicator(e) then e.fid != 0 && e.code < 256 && e.fid !in KeysOf(cs.recs)
    else if IsTombstone(e) then e.fid != 0 && HasPlain(cs.recs, e.fid)
    else e.code == 0 && e.fid !in KeysOf(cs.recs) && Extent(slots, e.fid, e.size).Some?
  }

  predicate Engine(slots: nat, log: seq<Entry>) {
    log == []
    || (&& Engine(slots, log[..|log| - 1])
        && Collect(log[..|log| - 1]).Ok?
        && StepOk(slots, Collect(log[..|log| - 1]).value, log[|log| - 1]))
  }

  // ----- lemmas -----

  lemma CollectAppend(log: seq<Entry>, e: Entry)
    ensures Collect(log + [e]) == if Collect(log).Err? then Collect(log) else CollectStep(Collect(log).value, e)
  {
    assert (log + [e])[..|log|] == log;
  }

  lemma EngineAppend(slots: nat, log: seq<Entry>, e: Entry)
    requires Engine(slots, log) && Collect(log).Ok? && StepOk(slots, Collect(log).value, e)
    ensures Engine(slots, log + [e])
  {
    assert (log + [e])[..|log|] == log;
  }

  lemma {:induction false} KeysContain(recs: seq<Rec>, r: Rec)
    requires r in recs
    ensures RecKeys(r) <= KeysOf(recs)
  {
    var n := |recs| - 1;
    if r != recs[n] {
      assert r in recs[..n];
      KeysContain(recs[..n], r);
    }
  }

  lemma {:induction false} RecsOkMember(slots: nat, recs: seq<Rec>, r: Rec)
    requires RecsOk(slots, recs) && r in recs
    ensures RecOk(slots, r)
  {
    var n := |recs| - 1;
    if r != recs[n] {
      assert r in recs[..n];
      RecsOkMember(slots, recs[..n], r);
    }
  }

  /** Two records sharing a fid are one record. */
  lemma {:induction false} RecsUnique(slots: nat, recs: seq<Rec>, r: Rec, q: Rec, k: nat)
    requires RecsOk(slots, recs) && r in recs && q in recs && k in RecKeys(r) && k in RecKeys(q)
    ensures r == q
  {
    var n := |recs| - 1;
    if r != recs[n] { assert r in recs[..n]; KeysContain(recs[..n], r); }
    if q != recs[n] { assert q in recs[..n]; KeysContain(recs[..n], q); }
    if r != recs[n] && q != recs[n] {
      RecsUnique(slots, recs[..n], r, q, k);
    }
  }

  lemma {:induction false} KeyOwner(recs: seq<Rec>, k: nat) returns (r: Rec)
    requires k in KeysOf(recs)
    ensures r in recs && k in RecKeys(r)
  {
    var n := |recs| - 1;
    if k in RecKeys(recs[n]) { r := recs[n]; } else { r := KeyOwner(recs[..n], k); }
  }

  lemma {:induction false} RemoveAbsent(recs: seq<Rec>, fid: nat)
    requires fid !in KeysOf(recs)
    ensures Remove(recs, fid) == recs
  {
    if recs != [] {
      RemoveAbsent(recs[..|recs| - 1], fid);
    }
  }

  lemma {:induction false} RemoveMembers(recs: seq<Rec>, fid: nat, r: Rec)
    ensures r in Remove(recs, fid) <==> r in recs && r.fid != fid
  {
    if recs != [] {
      var n := |recs| - 1;
      RemoveMembers(recs[..n], fid, r);
      assert recs == recs[..n] + [recs[n]];
    }
  }

  /** Removing a plain record takes away its fid and nothing else. */
  lemma {:induction false} RemovePlain(slots: nat, recs: seq<Rec>, fid: nat)
    requires RecsOk(slots, recs) && HasPlain(recs, fid)
    ensures RecsOk(slots, Remove(recs, fid))
    ensures KeysOf(Remove(recs, fid)) == KeysOf(recs) - {fid}
  {
    var n := |recs| - 1;
    var front, last := recs[..n], recs[n];
    var r :| r in recs && r.Plain? && r.fid == fid;
    hide RecOk;
    if last.fid == fid {
      RecsUnique(slots, recs, r, last, fid);
      RemoveAbsent(front, fid);
    } else {
      assert r in front;
      assert HasPlain(front, fid);
      KeysContain(front, r);
      RemovePlain(slots, front, fid);
      AppendRec(slots, Remove(front, fid), last);
    }
  }

  /** What `Collect` holds after an engine log: well-formed records, and as
      pending at most a nonzero indicator of a fid not yet in use. */
  ghost predicate CollectOk(slots: nat, cs: CollectState) {
    && RecsOk(slots, cs.recs)
    && (cs.pending.Some? ==>
          var p := cs.pending.value;
          p.fid != 0 && (IsPackedAnchor(p) || (IsJumpIndicator(p) && p.code < 256)))
  }

  lemma AppendRec(slots: nat, recs: seq<Rec>, r: Rec)
    requires RecsOk(slots, recs) && RecOk(slots, r) && RecKeys(r) !! KeysOf(recs)
    ensures RecsOk(slots, recs + [r]) && KeysOf(recs + [r]) == KeysOf(recs) + RecKeys(r)
  {
    assert (recs + [r])[..|recs|] == recs;
  }

  lemma CollectStepOk(slots: nat, cs: CollectState, e: Entry)
    requires slots < SLOT_LIMIT
    requires CollectOk(slots, cs) && StepOk(slots, cs, e)
    ensures CollectStep(cs, e).Ok? && CollectOk(slots, CollectStep(cs, e).value)
  {
    hide RecsOk, KeysOf, Remove, Extent;
    if cs.pending.Some? {
      var p := cs.pending.value;
      var r := PairRecord(p, e);
      if IsPackedAnchor(p) && Plain(e.fid, e.size) in cs.recs {
        assert HasPlain(cs.recs, p.fid);
        RemovePlain(slots, cs.recs, p.fid);
      } else {
        RemoveAbsent(cs.recs, p.fid);
      }
      AppendRec(slots, Remove(cs.recs, p.fid), r);
    } else if IsPackedAnchor(e) || IsJumpIndicator(e) {
    } else if IsTombstone(e) {
      RemovePlain(slots, cs.recs, e.fid);
    } else {
      RemoveAbsent(cs.recs, e.fid);
      AppendRec(slots, cs.recs, Plain(e.fid, e.size));
    }
  }

  lemma {:induction false} EngineCollects(slots: nat, log: seq<Entry>)
    requires slots < SLOT_LIMIT && Engine(slots, log)
    ensures Collect(log).Ok? && CollectOk(slots, Collect(log).value)
  {
    if log != [] {
      EngineCollects(slots, log[..|log| - 1]);
      CollectStepOk(slots, Collect(log[..|log| - 1]).value, log[|log| - 1]);
    }
  }

  /** Writing one more record extends what is collected by just that record. */
  lemma WrittenRecord(slots: nat, log: seq<Entry>, recs: seq<Rec>, r: Rec)
    requires slots < SLOT_LIMIT
    requires Engine(slots, log) && Collect(log) == Ok(CollectState(recs, None))
    requires RecOk(slots, r) && RecKeys(r) !! KeysOf(recs)
    ensures Engine(slots, log + RecEntries(r))
    ensures Collect(log + RecEntries(r)) == Ok(CollectState(recs + [r], None))
  {
    RemoveAbsent(recs, r.fid);
    var es := RecEntries(r);
    EngineAppend(slots, log, es[0]);
    CollectAppend(log, es[0]);
    if r.Plain? {
      assert log + es == log + [es[0]];
    } else {
      EngineAppend(slots, log + [es[0]], es[1]);
      CollectAppend(log + [es[0]], es[1]);
      assert log + es == log + [es[0]] + [es[1]];
    }
  }

  /** The log written from well-formed records is an engine log whose latest
      records are those records again: compacting twice changes nothing. */
  lemma {:induction false} WrittenLogCollects(slots: nat, recs: seq<Rec>)
    requires slots < SLOT_LIMIT && RecsOk(slots, recs)
    ensures Engine(slots, WriteLog(recs))
    ensures Collect(WriteLog(recs)) == Ok(CollectState(recs, None))
  {
    if recs != [] {
      hide Engine, Collect, RecOk, RecEntries, RecKeys;
      var front, last := recs[..|recs| - 1], recs[|recs| - 1];
      assert recs == front + [last];
      assert RecsOk(slots, front) && RecOk(slots, last) && RecKeys(last) !! KeysOf(front);
      WrittenLogCollects(slots, front);
      assert WriteLog(recs) == WriteLog(front) + RecEntries(last);
      WrittenRecord(slots, WriteLog(front), front, last);
    }
  }

  lemma ValidateAppend(log: seq<Entry>, e: Entry)
    ensures Validate(log + [e]) == if Validate(log).Err? then Validate(log) else ValidateStep(Validate(log).value, e)
  {
    assert (log + [e])[..|log|] == log;
  }

  lemma WrittenRecordValidates(slots: nat, log: seq<Entry>, seen: set<nat>, r: Rec)
    requires slots < SLOT_LIMIT && RecOk(slots, r)
    requires Validate(log) == Ok(ValidateState(seen, None)) && r.fid !in seen
    ensures Validate(log + RecEntries(r)) == Ok(ValidateState(seen + {r.fid}, None))
  {
    hide Validate;
    var es := RecEntries(r);
    ValidateAppend(log, es[0]);
    if r.Plain? {
      assert log + es == log + [es[0]];
    } else {
      ValidateAppend(log + [es[0]], es[1]);
      assert log + es == log + [es[0]] + [es[1]];
    }
  }

  lemma {:induction false} WrittenLogValidates(slots: nat, recs: seq<Rec>)
    requires slots < SLOT_LIMIT && RecsOk(slots, recs)
    ensures Validate(WriteLog(recs)).Ok?
    ensures Validate(WriteLog(recs)).value.pending == None
    ensures Validate(WriteLog(recs)).value.seen <= KeysOf(recs)
  {
    if recs != [] {
      var n := |recs| - 1;
      WrittenLogValidates(slots, recs[..n]);
      var log := WriteLog(recs[..n]);
      WrittenRecordValidates(slots, log, Validate(log).value.seen, recs[n]);
    }
  }

  lemma {:induction false} WriteLogRemove(recs: seq<Rec>, fid: nat)
    ensures |WriteLog(Remove(recs, fid))| <= |WriteLog(recs)|
  {
    if recs != [] {
      var n := |recs| - 1;
      WriteLogRemove(recs[..n], fid);
      var rest := Remove(recs[..n], fid);
      assert (rest + [recs[n]])[..|rest|] == rest;
    }
  }

  lemma WriteLogAppend(recs: seq<Rec>, r: Rec)
    ensures WriteLog(recs + [r]) == WriteLog(recs) + RecEntries(r)
  {
    assert (recs + [r])[..|recs|] == recs;
  }

  lemma UpsertLength(recs: seq<Rec>, r: Rec)
    ensures |WriteLog(Upsert(recs, r))| <= |WriteLog(recs)| + (if r.Plain? then 1 else 2)
  {
    WriteLogRemove(recs, r.fid);
    WriteLogAppend(Remove(recs, r.fid), r);
  }

  // ----- field widths -----

  predicate RecFits(r: Rec) {
    r.fid < TWO_64 && StorageFid(r) < TWO_64 && r.size < TWO_56 && (r.Jump? ==> r.code < 256)
  }

  /** What is collected from entries that fit their bytes fits them again. */
  lemma {:induction false} CollectFits(log: seq<Entry>)
    requires Collect(log).Ok? && forall e :: e in log ==> Fits(e)
    ensures forall r :: r in Collect(log).value.recs ==> RecFits(r)
    ensures Collect(log).value.pending.Some? ==> Fits(Collect(log).value.pending.value)
  {
    hide RecFits, Fits, CollectStep;
    if log != [] {
      CollectFits(log[..|log| - 1]);
      StepFits(Collect(log[..|log| - 1]).value, log[|log| - 1]);
    }
  }

  lemma StepFits(cs: CollectState, e: Entry)
    requires CollectStep(cs, e).Ok? && Fits(e)
    requires (forall r :: r in cs.recs ==> RecFits(r)) && (cs.pending.Some? ==> Fits(cs.pending.value))
    ensures forall r :: r in CollectStep(cs, e).value.recs ==> RecFits(r)
    ensures CollectStep(cs, e).value.pending.Some? ==> Fits(CollectStep(cs, e).value.pending.value)
  {
    hide Remove;
    var fid := if cs.pending.Some? then cs.pending.value.fid else e.fid;
    forall r | r in Remove(cs.recs, fid) ensures r in cs.recs { RemoveMembers(cs.recs, fid, r); }
  }

  lemma {:induction false} WrittenFits(recs: seq<Rec>)
    requires forall r :: r in recs ==> RecFits(r)
    ensures forall e :: e in WriteLog(recs) ==> Fits(e)
  {
    if recs != [] {
      assert recs[|recs| - 1] in recs && forall r :: r in recs[..|recs| - 1] ==> r in recs;
      WrittenFits(recs[..|recs| - 1]);
    }
  }

  function Pending(cs: CollectState): nat { if cs.pending.Some? then 1 else 0 }

  lemma NeverLongerStep(cs: CollectState, e: Entry)
    requires CollectStep(cs, e).Ok?
    ensures var cs' := CollectStep(cs, e).value;
            |WriteLog(cs'.recs)| + Pending(cs') <= |WriteLog(cs.recs)| + Pending(cs) + 1
  {
    hide WriteLog, Remove, RecEntries, Upsert, IsJumpIndicator, IsPackedAnchor, IsTombstone;
    if cs.pending.Some? {
      UpsertLength(cs.recs, PairRecord(cs.pending.value, e));
    } else {
      WriteLogRemove(cs.recs, e.fid);
      UpsertLength(cs.recs, Plain(e.fid, e.size));
    }
  }

  /** A compacted log is never longer than the log it came from, whatever that
      log holds. */
  lemma {:induction false} CompactionNeverLonger(log: seq<Entry>)
    requires Collect(log).Ok?
    ensures |WriteLog(Collect(log).value.recs)| + Pending(Collect(log).value) <= |log|
  {
    if log != [] {
      hide CollectStep;
      CompactionNeverLonger(log[..|log| - 1]);
      NeverLongerStep(Collect(log[..|log| - 1]).value, log[|log| - 1]);
    }
  }
}
