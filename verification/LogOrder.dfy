/** Which records a log leaves and in which order, told by positions in the log: an
    entry starts a record unless it is the second of a pair, the last word on a fid
    counts, and the records stand in the order of the entries that start them. */
module LogOrder {
  import opened Layout
  import opened IndexEntry
  import opened IndexLog
  import opened Sorting

  /** The entry is the first of a pair. */
  predicate Opens(e: Entry) { IsJumpIndicator(e) || IsPackedAnchor(e) }

  /** Entry p is not the second of a pair. */
  predicate Starts(log: seq<Entry>, p: nat)
    requires p <= |log|
  {
    p == 0 || !Starts(log, p - 1) || !Opens(log[p - 1])
  }

  /** What the entry at a position, with the one behind it, says about its fid. */
  datatype Item = Nothing | Puts(r: Rec) | Drops(fid: nat)

  function ItemAt(log: seq<Entry>, p: nat): Item {
    if p >= |log| || !Starts(log, p) then Nothing
    else
      var e := log[p];
      if Opens(e) then
        if p + 1 == |log| || log[p + 1].code != 0 || log[p + 1].size == 0 then Nothing
        else if IsPackedAnchor(e) then Puts(Table(e.fid, log[p + 1].fid, log[p + 1].size))
        else Puts(Jump(e.fid, log[p + 1].fid, log[p + 1].size, e.code))
      else if e.code != 0 then Nothing
      else if e.size == 0 then Drops(e.fid)
      else Puts(Plain(e.fid, e.size))
  }

  predicate About(it: Item, fid: nat) {
    (it.Puts? && it.r.fid == fid) || (it.Drops? && it.fid == fid)
  }

  /** The record is put at p, and nothing behind p is about its fid. */
  ghost predicate LastWord(log: seq<Entry>, p: nat, r: Rec) {
    ItemAt(log, p) == Puts(r) && forall q :: q > p ==> !About(ItemAt(log, q), r.fid)
  }

  /** Two records whose last words stand in this order. */
  ghost predicate Follows(log: seq<Entry>, a: Rec, b: Rec) {
    exists p, q :: p < q && LastWord(log, p, a) && LastWord(log, q, b)
  }

  /** The records are exactly the last words of the log, each once, in its order. */
  ghost predicate LastWords(log: seq<Entry>, recs: seq<Rec>) {
    && (forall r :: r in recs <==> exists p :: LastWord(log, p, r))
    && forall i, j :: 0 <= i < j < |recs| ==> Follows(log, recs[i], recs[j]) && recs[i].fid != recs[j].fid
  }

  /** A jump code on an entry that is not an indicator. */
  predicate Stray(log: seq<Entry>, p: nat)
    requires p < |log|
  {
    Starts(log, p) && !Opens(log[p]) && log[p].code != 0
  }

  ghost predicate NoStray(log: seq<Entry>) { forall p :: 0 <= p < |log| ==> !Stray(log, p) }

  // ----- one more entry -----

  lemma {:induction false} StartsFront(log: seq<Entry>, e: Entry, p: nat)
    requires p <= |log|
    ensures Starts(log + [e], p) == Starts(log, p)
  {
    hide Opens;
    if p > 0 {
      StartsFront(log, e, p - 1);
      assert (log + [e])[p - 1] == log[p - 1];
    }
  }

  /** The log grows by an entry that completes the item at position `at`. */
  ghost predicate Grows(log: seq<Entry>, log': seq<Entry>, at: nat) {
    && ItemAt(log, at) == Nothing
    && (forall p :: p != at ==> ItemAt(log', p) == ItemAt(log, p))
    && (forall p :: p > at ==> ItemAt(log', p) == Nothing)
  }

  lemma OneEntry(log: seq<Entry>, e: Entry)
    ensures Grows(log, log + [e], if Starts(log, |log|) then |log| else |log| - 1)
  {
    hide Opens, Starts, IsPackedAnchor;
    var log' := log + [e];
    StartsFront(log, e, |log|);
    if |log| > 0 { StartsAfter(log); }
    StartsZero(log);
    forall p | 0 <= p < |log| ensures Starts(log', p) == Starts(log, p) && log'[p] == log[p] { StartsFront(log, e, p); }
    assert log'[|log|] == e;
  }

  lemma StartsZero(log: seq<Entry>)
    ensures Starts(log, 0)
  {}

  lemma StartsAfter(log: seq<Entry>)
    requires log != []
    ensures Starts(log, |log|) <==> !Starts(log, |log| - 1) || !Opens(log[|log| - 1])
  {}

  // ----- what becomes of the records -----

  lemma {:induction false} RemoveOrder(recs: seq<Rec>, fid: nat, i: nat, j: nat) returns (a: nat, b: nat)
    requires i < j < |Remove(recs, fid)|
    ensures a < b < |recs| && recs[a] == Remove(recs, fid)[i] && recs[b] == Remove(recs, fid)[j]
  {
    var n := |recs| - 1;
    var rest := Remove(recs[..n], fid);
    if j < |rest| {
      a, b := RemoveOrder(recs[..n], fid, i, j);
    } else {
      b := n;
      RemoveMembers(recs[..n], fid, rest[i]);
      a :| 0 <= a < n && recs[..n][a] == rest[i];
    }
  }

  lemma WordStays(log: seq<Entry>, log': seq<Entry>, at: nat, p: nat, r: Rec)
    requires Grows(log, log', at)
    ensures LastWord(log', p, r) <==> if p == at then ItemAt(log', at) == Puts(r)
                                      else LastWord(log, p, r) && !About(ItemAt(log', at), r.fid)
  {
    hide ItemAt;
    if LastWord(log', p, r) && p != at {
      forall q | q > p ensures !About(ItemAt(log, q), r.fid) {
        if q != at { assert ItemAt(log', q) == ItemAt(log, q); }
      }
    }
    if LastWord(log, p, r) && p != at && !About(ItemAt(log', at), r.fid) {
      forall q | q > p ensures !About(ItemAt(log', q), r.fid) {
        if q != at { assert ItemAt(log', q) == ItemAt(log, q); }
      }
    }
  }

  function Applied(recs: seq<Rec>, it: Item): seq<Rec> {
    match it
    case Nothing => recs
    case Puts(r) => Upsert(recs, r)
    case Drops(fid) => Remove(recs, fid)
  }

  lemma WordsMembers(log: seq<Entry>, log': seq<Entry>, at: nat, recs: seq<Rec>, r: Rec)
    requires Grows(log, log', at) && LastWords(log, recs)
    ensures r in Applied(recs, ItemAt(log', at)) <==> exists p :: LastWord(log', p, r)
  {
    hide ItemAt, LastWord, Grows, Remove;
    var it := ItemAt(log', at);
    var fid := match it case Nothing => 0 case Puts(q) => q.fid case Drops(f) => f;
    RemoveMembers(recs, fid, r);
    WordStays(log, log', at, at, r);
    if r in recs && !About(it, r.fid) {
      var p :| LastWord(log, p, r);
      WordStays(log, log', at, p, r);
      NotNew(log, log', at, p, r);
    }
    if p :| LastWord(log', p, r) {
      WordStays(log, log', at, p, r);
    }
  }

  lemma NotNew(log: seq<Entry>, log': seq<Entry>, at: nat, p: nat, r: Rec)
    requires Grows(log, log', at) && LastWord(log, p, r)
    ensures p < at
  {
    hide ItemAt;
    assert ItemAt(log, p) == Puts(r);
  }

  lemma WordsOrder(log: seq<Entry>, log': seq<Entry>, at: nat, recs: seq<Rec>, i: nat, j: nat)
    requires Grows(log, log', at) && LastWords(log, recs)
    requires i < j < |Applied(recs, ItemAt(log', at))|
    ensures var recs' := Applied(recs, ItemAt(log', at));
            Follows(log', recs'[i], recs'[j]) && recs'[i].fid != recs'[j].fid
  {
    hide ItemAt, LastWord, Grows, Remove;
    var it := ItemAt(log', at);
    var recs' := Applied(recs, it);
    var fid := match it case Nothing => 0 case Puts(q) => q.fid case Drops(f) => f;
    var rest := if it.Nothing? then recs else Remove(recs, fid);
    assert forall k :: 0 <= k < |rest| ==> recs'[k] == rest[k];
    if !it.Nothing? { RemoveMembers(recs, fid, recs'[i]); }
    assert recs'[i] in rest && recs'[i] in recs && !About(it, recs'[i].fid);
    if j < |rest| {
      var a, b := i, j;
      if !it.Nothing? {
        RemoveMembers(recs, fid, recs'[j]);
        assert recs'[j] in rest;
        a, b := RemoveOrder(recs, fid, i, j);
      }
      assert Follows(log, recs[a], recs[b]);
      var p, q :| p < q && LastWord(log, p, recs[a]) && LastWord(log, q, recs[b]);
      NotNew(log, log', at, p, recs[a]);
      NotNew(log, log', at, q, recs[b]);
      WordStays(log, log', at, p, recs[a]);
      WordStays(log, log', at, q, recs[b]);
    } else {
      assert it.Puts? && recs'[j] == it.r;
      var p :| LastWord(log, p, recs'[i]);
      NotNew(log, log', at, p, recs'[i]);
      WordStays(log, log', at, p, recs'[i]);
      WordStays(log, log', at, at, it.r);
    }
  }

  lemma WordsGrow(log: seq<Entry>, log': seq<Entry>, at: nat, recs: seq<Rec>)
    requires Grows(log, log', at) && LastWords(log, recs)
    ensures LastWords(log', Applied(recs, ItemAt(log', at)))
  {
    hide ItemAt, LastWord, Grows, Remove, LastWords, Follows, Applied;
    var recs' := Applied(recs, ItemAt(log', at));
    forall r ensures r in recs' <==> exists p :: LastWord(log', p, r) { WordsMembers(log, log', at, recs, r); }
    forall i, j | 0 <= i < j < |recs'| ensures Follows(log', recs'[i], recs'[j]) && recs'[i].fid != recs'[j].fid {
      WordsOrder(log, log', at, recs, i, j);
    }
    WordsAre(log', recs');
  }

  lemma WordsAre(log: seq<Entry>, recs: seq<Rec>)
    requires forall r :: r in recs <==> exists p :: LastWord(log, p, r)
    requires forall i, j :: 0 <= i < j < |recs| ==> Follows(log, recs[i], recs[j]) && recs[i].fid != recs[j].fid
    ensures LastWords(log, recs)
  {}

  // ----- collecting -----

  /** The last entry is the first of a pair. */
  predicate Open(log: seq<Entry>) { log != [] && Starts(log, |log| - 1) && Opens(log[|log| - 1]) }

  ghost predicate StepIs(log: seq<Entry>, e: Entry, cs: CollectState, at: nat) {
    var log', r := log + [e], CollectStep(cs, e);
    && (r.Ok? <==> !Stray(log', |log|))
    && (r.Ok? ==> r.value.recs == Applied(cs.recs, ItemAt(log', at)))
    && (r.Ok? ==> r.value.pending == if Open(log') then Some(e) else None)
  }

  lemma SecondApplies(log: seq<Entry>, e: Entry, cs: CollectState)
    requires log != [] && Open(log) && cs.pending == Some(log[|log| - 1])
    ensures StepIs(log, e, cs, |log| - 1)
  {
    hide Remove;
    StartsFront(log, e, |log|);
    StartsFront(log, e, |log| - 1);
    assert (log + [e])[|log| - 1] == log[|log| - 1];
  }

  lemma FirstApplies(log: seq<Entry>, e: Entry, cs: CollectState)
    requires !Open(log) && cs.pending.None?
    ensures StepIs(log, e, cs, |log|)
  {
    hide Remove;
    StartsFront(log, e, |log|);
    assert (log + [e])[|log|] == e;
  }

  /** One step of the scan applies the item that the entry completes. */
  lemma StepApplies(log: seq<Entry>, e: Entry, cs: CollectState)
    requires cs.pending == if Open(log) then Some(log[|log| - 1]) else None
    ensures StepIs(log, e, cs, if Starts(log, |log|) then |log| else |log| - 1)
  {
    hide StepIs, Opens;
    if Open(log) { SecondApplies(log, e, cs); } else { FirstApplies(log, e, cs); }
  }

  lemma StrayFront(log: seq<Entry>, e: Entry)
    ensures NoStray(log + [e]) <==> NoStray(log) && !Stray(log + [e], |log|)
  {
    hide Opens, Starts;
    var log' := log + [e];
    forall p | 0 <= p < |log| ensures Stray(log', p) == Stray(log, p) {
      StartsFront(log, e, p);
      assert log'[p] == log[p];
    }
    assert |log'| == |log| + 1;
    if NoStray(log') { forall p | 0 <= p < |log| ensures !Stray(log, p) { assert !Stray(log', p); } }
  }

  /** On every log, whatever it holds: collecting fails exactly if some entry carries a
      stray jump code, and otherwise delivers exactly the last words of the log, one
      record for each fid, in the order of the log. */
  lemma {:induction false} CollectExactly(log: seq<Entry>)
    ensures Collect(log).Ok? <==> NoStray(log)
    ensures Collect(log).Ok? ==> LastWords(log, Collect(log).value.recs)
    ensures Collect(log).Ok? ==> Collect(log).value.pending == if Open(log) then Some(log[|log| - 1]) else None
  {
    if log == [] {
    } else {
      hide CollectStep, LastWords, NoStray, Open, Starts, Stray, Grows, ItemAt, Applied;
      var front, e := log[..|log| - 1], log[|log| - 1];
      assert front + [e] == log;
      CollectExactly(front);
      StrayFront(front, e);
      if Collect(front).Ok? {
        OneEntry(front, e);
        StepApplies(front, e, Collect(front).value);
        if Collect(log).Ok? {
          WordsGrow(front, log, if Starts(front, |front|) then |front| else |front| - 1, Collect(front).value.recs);
        }
      }
    }
  }

  ghost function Place(log: seq<Entry>, r: Rec): nat {
    if exists p :: LastWord(log, p, r) then var p: nat :| LastWord(log, p, r); p else 0
  }

  lemma PlaceIs(log: seq<Entry>, p: nat, r: Rec)
    requires LastWord(log, p, r)
    ensures Place(log, r) == p
  {
    hide ItemAt;
    var q := Place(log, r);
    assert LastWord(log, q, r);
    assert About(ItemAt(log, p), r.fid) && About(ItemAt(log, q), r.fid);
  }

  lemma WordsAscend(log: seq<Entry>, recs: seq<Rec>)
    requires LastWords(log, recs)
    ensures Ascending(recs, r => Place(log, r))
  {
    hide LastWord, Place;
    forall i, j | 0 <= i < j < |recs| ensures Place(log, recs[i]) < Place(log, recs[j]) {
      assert Follows(log, recs[i], recs[j]);
      var p, q :| p < q && LastWord(log, p, recs[i]) && LastWord(log, q, recs[j]);
      PlaceIs(log, p, recs[i]);
      PlaceIs(log, q, recs[j]);
    }
  }

  /** A log has only one list of last words. */
  lemma WordsUnique(log: seq<Entry>, a: seq<Rec>, b: seq<Rec>)
    requires LastWords(log, a) && LastWords(log, b)
    ensures a == b
  {
    hide LastWord, Follows;
    var key := r => Place(log, r);
    WordsAscend(log, a);
    WordsAscend(log, b);
    SortedUnique(a, b, key);
  }

  /** Compacting an engine's log keeps its last words, in their order, puts each once and
      writes nothing else. */
  lemma CompactionKeepsWords(slots: nat, log: seq<Entry>)
    requires slots < SLOT_LIMIT && Engine(slots, log)
    ensures Collect(log).Ok?
    ensures var recs := Collect(log).value.recs;
            LastWords(log, recs) && LastWords(WriteLog(recs), recs) && PutOnce(WriteLog(recs))
  {
    hide Engine, LastWords, PutOnce, Collect, WriteLog, Validate;
    EngineCollects(slots, log);
    var recs := Collect(log).value.recs;
    WrittenLogCollects(slots, recs);
    WrittenLogValidates(slots, recs);
    CollectExactly(log);
    CollectExactly(WriteLog(recs));
    ValidatesExactly(WriteLog(recs));
  }

  // ----- validating -----

  /** Every record is put whole, and no fid twice; a first entry may stand alone at the
      end. */
  ghost predicate PutOnce(log: seq<Entry>) {
    && (forall p :: 0 <= p < |log| && Starts(log, p) ==>
          ItemAt(log, p).Puts? || (p + 1 == |log| && Opens(log[p])))
    && forall p, q :: 0 <= p < q && ItemAt(log, p).Puts? && ItemAt(log, q).Puts? ==>
         ItemAt(log, p).r.fid != ItemAt(log, q).r.fid
  }

  ghost predicate SeenIs(log: seq<Entry>, vs: ValidateState) {
    && (vs.pending == if Open(log) then Some(log[|log| - 1]) else None)
    && forall f :: f in vs.seen <==> exists p :: ItemAt(log, p).Puts? && ItemAt(log, p).r.fid == f
  }

  /** The step at which an item is completed: what it asks of the log so far. */
  ghost predicate StepValid(log: seq<Entry>, e: Entry, vs: ValidateState, at: nat) {
    var it, r := ItemAt(log + [e], at), ValidateStep(vs, e);
    && (r.Ok? <==> if at == |log| && Opens(e) then true else it.Puts? && it.r.fid !in vs.seen)
    && (r.Ok? ==> r.value.pending == if Open(log + [e]) then Some(e) else None)
    && (r.Ok? ==> r.value.seen == if it.Puts? then vs.seen + {it.r.fid} else vs.seen)
  }

  lemma SecondValid(log: seq<Entry>, e: Entry, vs: ValidateState)
    requires log != [] && Open(log) && vs.pending == Some(log[|log| - 1])
    ensures StepValid(log, e, vs, |log| - 1)
  {
    StartsFront(log, e, |log|);
    StartsFront(log, e, |log| - 1);
    assert (log + [e])[|log| - 1] == log[|log| - 1];
  }

  lemma FirstValid(log: seq<Entry>, e: Entry, vs: ValidateState)
    requires !Open(log) && vs.pending.None?
    ensures StepValid(log, e, vs, |log|)
  {
    StartsFront(log, e, |log|);
    assert (log + [e])[|log|] == e;
  }

  lemma SeenGrows(log: seq<Entry>, log': seq<Entry>, at: nat, vs: ValidateState, vs': ValidateState)
    requires Grows(log, log', at) && SeenIs(log, vs)
    requires var it := ItemAt(log', at); vs'.seen == if it.Puts? then vs.seen + {it.r.fid} else vs.seen
    requires vs'.pending == if Open(log') then Some(log'[|log'| - 1]) else None
    ensures SeenIs(log', vs')
  {
    hide ItemAt, Open;
    var it := ItemAt(log', at);
    forall f ensures f in vs'.seen <==> exists p :: ItemAt(log', p).Puts? && ItemAt(log', p).r.fid == f {
      if f in vs.seen {
        var p :| ItemAt(log, p).Puts? && ItemAt(log, p).r.fid == f;
        assert p != at && ItemAt(log', p) == ItemAt(log, p);
      }
      if p :| ItemAt(log', p).Puts? && ItemAt(log', p).r.fid == f {
        if p != at { assert ItemAt(log, p) == ItemAt(log', p); }
      }
    }
  }

  lemma PutOnceGrows(log: seq<Entry>, e: Entry, at: nat, vs: ValidateState)
    requires Grows(log, log + [e], at) && SeenIs(log, vs) && at == (if Open(log) then |log| - 1 else |log|)
    ensures PutOnce(log + [e])
            <==> PutOnce(log) && if at == |log| && Opens(e) then true
                                 else ItemAt(log + [e], at).Puts? && ItemAt(log + [e], at).r.fid !in vs.seen
  {
    hide ItemAt, Opens, Starts;
    var log' := log + [e];
    StartsAll(log, e, at);
    if PutOnce(log') {
      OnceBefore(log, e, at, vs);
    }
    var ok := if at == |log| && Opens(e) then true else ItemAt(log', at).Puts? && ItemAt(log', at).r.fid !in vs.seen;
    if PutOnce(log) && ok {
      OnceAfter(log, e, at, vs);
    }
  }

  lemma StartsAll(log: seq<Entry>, e: Entry, at: nat)
    requires at == if Open(log) then |log| - 1 else |log|
    ensures forall p :: 0 <= p <= |log| ==> Starts(log + [e], p) == Starts(log, p)
    ensures forall p :: 0 <= p < |log| ==> (log + [e])[p] == log[p]
    ensures Starts(log, at) && (at < |log| ==> !Starts(log, |log|) && Opens(log[at]))
    ensures Opens(e) && at == |log| ==> ItemAt(log + [e], at).Nothing?
  {
    forall p | 0 <= p <= |log| ensures Starts(log + [e], p) == Starts(log, p) { StartsFront(log, e, p); }
  }

  lemma FrontOnce(log: seq<Entry>, e: Entry, at: nat)
    requires Grows(log, log + [e], at) && at == (if Open(log) then |log| - 1 else |log|) && PutOnce(log + [e])
    ensures PutOnce(log)
  {
    hide ItemAt, Opens, Starts;
    var log' := log + [e];
    StartsAll(log, e, at);
    forall p | 0 <= p < |log| && Starts(log, p)
      ensures ItemAt(log, p).Puts? || (p + 1 == |log| && Opens(log[p]))
    {
      assert Starts(log', p) && log'[p] == log[p];
      if p != at { assert ItemAt(log', p) == ItemAt(log, p); }
    }
    forall p, q | 0 <= p < q && ItemAt(log, p).Puts? && ItemAt(log, q).Puts?
      ensures ItemAt(log, p).r.fid != ItemAt(log, q).r.fid
    {
      assert ItemAt(log', p) == ItemAt(log, p) && ItemAt(log', q) == ItemAt(log, q);
    }
  }

  lemma OnceBefore(log: seq<Entry>, e: Entry, at: nat, vs: ValidateState)
    requires Grows(log, log + [e], at) && SeenIs(log, vs) && at == (if Open(log) then |log| - 1 else |log|)
    requires PutOnce(log + [e])
    ensures PutOnce(log)
    ensures (at == |log| && Opens(e))
            || (ItemAt(log + [e], at).Puts? && ItemAt(log + [e], at).r.fid !in vs.seen)
  {
    hide ItemAt, Opens, Starts;
    FrontOnce(log, e, at);
    StartsAll(log, e, at);
    var it := ItemAt(log + [e], at);
    assert Starts(log + [e], at);
    if it.Puts? && it.r.fid in vs.seen {
      var p :| ItemAt(log, p).Puts? && ItemAt(log, p).r.fid == it.r.fid;
      SameItem(log, log + [e], at, p);
      assert false;
    }
  }

  lemma SameItem(log: seq<Entry>, log': seq<Entry>, at: nat, p: nat)
    requires Grows(log, log', at) && ItemAt(log, p).Puts?
    ensures p < at && ItemAt(log', p) == ItemAt(log, p)
  {
    hide ItemAt;
  }

  lemma OnceAfter(log: seq<Entry>, e: Entry, at: nat, vs: ValidateState)
    requires Grows(log, log + [e], at) && SeenIs(log, vs) && at == (if Open(log) then |log| - 1 else |log|)
    requires PutOnce(log)
    requires (at == |log| && Opens(e))
             || (ItemAt(log + [e], at).Puts? && ItemAt(log + [e], at).r.fid !in vs.seen)
    ensures PutOnce(log + [e])
  {
    hide ItemAt, Opens, Starts;
    var log' := log + [e];
    StartsAll(log, e, at);
    forall p | 0 <= p < |log'| && Starts(log', p)
      ensures ItemAt(log', p).Puts? || (p + 1 == |log'| && Opens(log'[p]))
    {
      if p != at { assert p < |log| && ItemAt(log', p) == ItemAt(log, p); }
    }
    forall p, q | 0 <= p < q && ItemAt(log', p).Puts? && ItemAt(log', q).Puts?
      ensures ItemAt(log', p).r.fid != ItemAt(log', q).r.fid
    {
      if p != at { assert ItemAt(log', p) == ItemAt(log, p); }
      if q != at { assert ItemAt(log', q) == ItemAt(log, q); }
    }
  }

  /** Validation accepts exactly the logs that put every record whole and no fid twice. */
  lemma {:induction false} ValidatesExactly(log: seq<Entry>)
    ensures Validate(log).Ok? <==> PutOnce(log)
    ensures Validate(log).Ok? ==> SeenIs(log, Validate(log).value)
  {
    if log == [] {
    } else {
      hide ValidateStep, PutOnce, SeenIs, Open, Starts, Grows, ItemAt;
      var front, e := log[..|log| - 1], log[|log| - 1];
      assert front + [e] == log;
      ValidatesExactly(front);
      var at := if Open(front) then |front| - 1 else |front|;
      OneEntry(front, e);
      OpenStarts(front);
      if Validate(front).Ok? {
        PutOnceGrows(front, e, at, Validate(front).value);
        ValidStep(front, e, Validate(front).value);
        if Validate(log).Ok? { SeenGrows(front, log, at, Validate(front).value, Validate(log).value); }
      } else if PutOnce(log) {
        FrontOnce(front, e, at);
      }
    }
  }

  lemma OpenStarts(log: seq<Entry>)
    ensures Open(log) ==> log != []
    ensures Starts(log, |log|) <==> !Open(log)
  {}

  lemma ValidStep(log: seq<Entry>, e: Entry, vs: ValidateState)
    requires SeenIs(log, vs)
    ensures StepValid(log, e, vs, if Open(log) then |log| - 1 else |log|)
  {
    hide StepValid, Opens, ItemAt;
    if Open(log) { SecondValid(log, e, vs); } else { FirstValid(log, e, vs); }
  }
}
