/** What the replay of a log accepts and what it gives, said of the entries themselves,
    for every log whatever wrote it. */
module ReplayRules {
  import opened Layout
  import opened IndexEntry
  import opened Replay

  // ----- what an entry does -----

  /** Entry n is the table behind a packed anchor. */
  predicate BehindAnchor(log: seq<Entry>, n: nat)
    requires n <= |log|
  {
    n > 0 && IsPackedAnchor(log[n - 1])
  }

  /** The jump indicator that still waits for its target before entry n; only tombstones
      may come in between. */
  function Waits(log: seq<Entry>, n: nat): Option<Entry>
    requires n <= |log|
  {
    if n == 0 then None
    else if IsJumpIndicator(log[n - 1]) then Some(log[n - 1])
    else if IsTombstone(log[n - 1]) then Waits(log, n - 1)
    else None
  }

  /** Entry i records fid f: as the fid of its object, or as the alias that waits for it. */
  predicate Sets(log: seq<Entry>, i: nat, f: nat)
    requires i < |log|
  {
    && !IsPackedAnchor(log[i]) && !IsJumpIndicator(log[i]) && !IsTombstone(log[i])
    && (log[i].fid == f || (Waits(log, i).Some? && Waits(log, i).value.fid == f))
  }

  predicate Clears(log: seq<Entry>, i: nat, f: nat)
    requires i < |log|
  {
    IsTombstone(log[i]) && log[i].fid == f
  }

  /** Entry i is the last before n that says anything about f, and it records it. */
  predicate Newest(log: seq<Entry>, n: nat, f: nat, i: nat)
    requires n <= |log|
  {
    i < n && Sets(log, i, f) && forall j :: i < j < n ==> !Sets(log, j, f) && !Clears(log, j, f)
  }

  /** The fid is recorded before entry n. */
  predicate Live(log: seq<Entry>, n: nat, f: nat)
    requires n <= |log|
  {
    exists i :: 0 <= i < n && Newest(log, n, f, i)
  }

  /** What entry i records for f: the object, or without its last byte under the alias. */
  function RecordedRef(log: seq<Entry>, i: nat, f: nat): Ref
    requires i < |log|
  {
    var e := log[i];
    if e.fid == f || e.size == 0 then Ref(f, e.size, e.size, 0, false) else Ref(e.fid, e.size, e.size - 1, 0, false)
  }

  /** Entry i is the last before n that says where f itself is stored. */
  predicate Places(log: seq<Entry>, n: nat, f: nat, i: nat)
    requires n <= |log|
  {
    && i < n && Sets(log, i, f) && log[i].fid == f
    && forall j :: i < j < n ==> !(Sets(log, j, f) && log[j].fid == f) && !Clears(log, j, f)
  }

  /** The tables behind the anchors, in order. */
  function AnchoredFids(log: seq<Entry>, n: nat): seq<nat>
    requires n <= |log|
  {
    if n == 0 then []
    else AnchoredFids(log, n - 1) + (if BehindAnchor(log, n - 1) then [log[n - 1].fid] else [])
  }

  /** Entry i may stand where it stands. */
  predicate Allowed(slots: nat, log: seq<Entry>, i: nat)
    requires i < |log|
  {
    var e, alias := log[i], Waits(log, i);
    if BehindAnchor(log, i) then e.code == 0 && 0 < e.size <= slots * SLOT_SIZE
    else if IsPackedAnchor(e) then e.fid != 0 && alias.None?
    else if IsJumpIndicator(e) then e.fid != 0 && alias.None? && !Live(log, i, e.fid)
    else if IsTombstone(e) then true
    else
      && e.code == 0 && 0 < e.size <= slots * SLOT_SIZE && e.size < PACKED_SENTINEL && !Live(log, i, e.fid)
      && (alias.Some? ==> alias.value.fid != e.fid && e.size >= 2)
  }

  predicate AllAllowed(slots: nat, log: seq<Entry>) { forall i :: 0 <= i < |log| ==> Allowed(slots, log, i) }

  // ----- one more entry -----

  lemma {:induction false} WaitsFront(log: seq<Entry>, e: Entry, n: nat)
    requires n <= |log|
    ensures Waits(log + [e], n) == Waits(log, n)
  {
    hide IsJumpIndicator, IsTombstone;
    if n > 0 {
      assert (log + [e])[n - 1] == log[n - 1];
      WaitsFront(log, e, n - 1);
    }
  }

  lemma {:induction false} AnchoredFront(log: seq<Entry>, e: Entry, n: nat)
    requires n <= |log|
    ensures AnchoredFids(log + [e], n) == AnchoredFids(log, n)
  {
    hide IsPackedAnchor;
    if n > 0 {
      assert (log + [e])[n - 1] == log[n - 1] && (n > 1 ==> (log + [e])[n - 2] == log[n - 2]);
      AnchoredFront(log, e, n - 1);
    }
  }

  lemma FrontSays(log: seq<Entry>, e: Entry, f: nat)
    ensures forall i :: 0 <= i < |log| ==>
              Sets(log + [e], i, f) == Sets(log, i, f) && Clears(log + [e], i, f) == Clears(log, i, f)
  {
    hide IsJumpIndicator, IsTombstone, IsPackedAnchor;
    forall i | 0 <= i < |log|
      ensures Sets(log + [e], i, f) == Sets(log, i, f) && Clears(log + [e], i, f) == Clears(log, i, f)
    {
      assert (log + [e])[i] == log[i];
      WaitsFront(log, e, i);
    }
  }

  lemma NewestFront(log: seq<Entry>, e: Entry, n: nat, f: nat, i: nat)
    requires n <= |log|
    ensures Newest(log + [e], n, f, i) == Newest(log, n, f, i)
    ensures Live(log + [e], n, f) == Live(log, n, f)
  {
    hide Sets, Clears;
    FrontSays(log, e, f);
    forall k | 0 <= k < n ensures Newest(log + [e], n, f, k) == Newest(log, n, f, k) {}
    if Live(log, n, f) {
      var k :| 0 <= k < n && Newest(log, n, f, k);
      assert Newest(log + [e], n, f, k);
    }
    if Live(log + [e], n, f) {
      var k :| 0 <= k < n && Newest(log + [e], n, f, k);
      assert Newest(log, n, f, k);
    }
  }

  lemma NewestNext(log: seq<Entry>, e: Entry, f: nat, i: nat)
    ensures Newest(log + [e], |log| + 1, f, i)
            <==> if i == |log| then Sets(log + [e], |log|, f)
                 else Newest(log, |log|, f, i) && !Sets(log + [e], |log|, f) && !Clears(log + [e], |log|, f)
  {
    hide Sets, Clears;
    FrontSays(log, e, f);
  }

  lemma AllowedFront(slots: nat, log: seq<Entry>, e: Entry, i: nat)
    requires i < |log|
    ensures Allowed(slots, log + [e], i) == Allowed(slots, log, i)
  {
    hide IsJumpIndicator, IsTombstone, IsPackedAnchor, Live;
    assert (log + [e])[i] == log[i] && (i > 0 ==> (log + [e])[i - 1] == log[i - 1]);
    WaitsFront(log, e, i);
    NewestFront(log, e, i, log[i].fid, 0);
  }

  lemma AllAllowedNext(slots: nat, log: seq<Entry>, e: Entry)
    ensures AllAllowed(slots, log + [e]) <==> AllAllowed(slots, log) && Allowed(slots, log + [e], |log|)
  {
    hide Allowed;
    forall i | 0 <= i < |log| ensures Allowed(slots, log + [e], i) == Allowed(slots, log, i) {
      AllowedFront(slots, log, e, i);
    }
    if AllAllowed(slots, log + [e]) {
      forall i | 0 <= i < |log| ensures Allowed(slots, log, i) { assert Allowed(slots, log + [e], i); }
    }
  }

  predicate Placed(log: seq<Entry>, n: nat, f: nat)
    requires n <= |log|
  {
    exists i :: 0 <= i < n && Places(log, n, f, i)
  }

  lemma PlacesNext(log: seq<Entry>, e: Entry, f: nat, i: nat)
    ensures var own := Sets(log + [e], |log|, f) && e.fid == f;
            Places(log + [e], |log| + 1, f, i)
            <==> if i == |log| then own else Places(log, |log|, f, i) && !own && !Clears(log + [e], |log|, f)
  {
    hide Sets, Clears;
    FrontSays(log, e, f);
    forall j | 0 <= j < |log| ensures (log + [e])[j] == log[j] {}
  }

  // ----- the replay follows the rules -----

  /** The replayed state is what the entries say. */
  ghost predicate StateIs(slots: nat, log: seq<Entry>, st: ReplayState) {
    && st.alias == Waits(log, |log|)
    && st.anchor == (if BehindAnchor(log, |log|) then Some(log[|log| - 1]) else None)
    && st.tables == AnchoredFids(log, |log|)
    && RefsAre(log, st.refs) && ExtentsAre(slots, log, st.extents)
  }

  ghost predicate RefsAre(log: seq<Entry>, refs: map<nat, Ref>) {
    && (forall f :: f in refs <==> Live(log, |log|, f))
    && (forall f, i :: 0 <= i < |log| && Newest(log, |log|, f, i) ==> f in refs && refs[f] == RecordedRef(log, i, f))
  }

  ghost predicate ExtentsAre(slots: nat, log: seq<Entry>, extents: map<nat, Interval>) {
    && (forall f :: f in extents <==> Placed(log, |log|, f))
    && (forall f, i :: 0 <= i < |log| && Places(log, |log|, f, i) ==>
          f in extents && Some(extents[f]) == Extent(slots, f, log[i].size))
  }

  lemma StepAllowed(slots: nat, log: seq<Entry>, st: ReplayState, e: Entry)
    requires StateIs(slots, log, st)
    ensures ReplayStep(slots, st, e).Ok? <==> Allowed(slots, log + [e], |log|)
  {
    hide Live, Newest, ExtentsAre, Waits;
    assert (log + [e])[|log|] == e && (log != [] ==> (log + [e])[|log| - 1] == log[|log| - 1]);
    WaitsFront(log, e, |log|);
    NewestFront(log, e, |log|, e.fid, 0);
  }

  /** The references after one more entry: what it sets, and the rest without what it
      clears. */
  lemma RefsNext(log: seq<Entry>, e: Entry, refs: map<nat, Ref>, refs': map<nat, Ref>)
    requires RefsAre(log, refs)
    requires forall f :: f in refs' <==> Sets(log + [e], |log|, f) || (f in refs && !Clears(log + [e], |log|, f))
    requires forall f :: f in refs' ==>
               refs'[f] == if Sets(log + [e], |log|, f) then RecordedRef(log + [e], |log|, f) else refs[f]
    ensures RefsAre(log + [e], refs')
  {
    hide Sets, Clears, Newest, RecordedRef;
    var log', n := log + [e], |log|;
    forall f, i | 0 <= i < n + 1 && Newest(log', n + 1, f, i)
      ensures f in refs' && refs'[f] == RecordedRef(log', i, f)
    {
      NewestNext(log, e, f, i);
      if i != n {
        RecordedFront(log, e, f, i);
        assert Live(log, n, f);
      }
    }
    forall f ensures f in refs' <==> Live(log', n + 1, f) {
      if f in refs' {
        if Sets(log', n, f) {
          NewestNext(log, e, f, n);
          assert Newest(log', n + 1, f, n);
        } else {
          assert Live(log, n, f);
          var i :| 0 <= i < n && Newest(log, n, f, i);
          NewestNext(log, e, f, i);
          assert Newest(log', n + 1, f, i);
        }
      } else if Live(log', n + 1, f) {
        var i :| 0 <= i < n + 1 && Newest(log', n + 1, f, i);
        NewestNext(log, e, f, i);
      }
    }
  }

  lemma RecordedFront(log: seq<Entry>, e: Entry, f: nat, i: nat)
    ensures i < |log| ==> RecordedRef(log + [e], i, f) == RecordedRef(log, i, f)
  {}

  lemma ExtentsNext(slots: nat, log: seq<Entry>, e: Entry, extents: map<nat, Interval>, extents': map<nat, Interval>)
    requires ExtentsAre(slots, log, extents)
    requires forall f :: f in extents' <==>
               (Sets(log + [e], |log|, f) && e.fid == f) || (f in extents && !Clears(log + [e], |log|, f))
    requires forall f :: f in extents' ==>
               if Sets(log + [e], |log|, f) && e.fid == f then Some(extents'[f]) == Extent(slots, f, e.size)
               else f in extents && extents'[f] == extents[f]
    ensures ExtentsAre(slots, log + [e], extents')
  {
    hide Sets, Clears, Places, Extent;
    var log', n := log + [e], |log|;
    forall f, i | 0 <= i < n + 1 && Places(log', n + 1, f, i)
      ensures f in extents' && Some(extents'[f]) == Extent(slots, f, log'[i].size)
    {
      PlacesNext(log, e, f, i);
      if i != n {
        assert log'[i] == log[i];
        assert Placed(log, n, f);
      }
    }
    forall f ensures f in extents' <==> Placed(log', n + 1, f) {
      if f in extents' {
        if Sets(log', n, f) && e.fid == f {
          PlacesNext(log, e, f, n);
          assert Places(log', n + 1, f, n);
        } else {
          assert Placed(log, n, f);
          var i :| 0 <= i < n && Places(log, n, f, i);
          PlacesNext(log, e, f, i);
          assert Places(log', n + 1, f, i);
        }
      } else if Placed(log', n + 1, f) {
        var i :| 0 <= i < n + 1 && Places(log', n + 1, f, i);
        PlacesNext(log, e, f, i);
      }
    }
  }

  lemma StateNext(slots: nat, log: seq<Entry>, st: ReplayState, e: Entry)
    requires StateIs(slots, log, st) && ReplayStep(slots, st, e).Ok?
    ensures StateIs(slots, log + [e], ReplayStep(slots, st, e).value)
  {
    hide RefsAre, ExtentsAre, Extent;
    var log', n, st' := log + [e], |log|, ReplayStep(slots, st, e).value;
    assert log'[n] == e && (n > 0 ==> log'[n - 1] == log[n - 1]);
    WaitsFront(log, e, n);
    AnchoredFront(log, e, n);
    RefsNext(log, e, st.refs, st'.refs);
    ExtentsNext(slots, log, e, st.extents, st'.extents);
  }

  /** The replay accepts a log exactly if every entry may stand where it stands, and then
      its references and extents are those of the newest entries of every fid. */
  lemma {:induction false} ReplayFollows(slots: nat, log: seq<Entry>)
    ensures ReplayLog(slots, log).Ok? <==> AllAllowed(slots, log)
    ensures ReplayLog(slots, log).Ok? ==> StateIs(slots, log, ReplayLog(slots, log).value)
  {
    if log != [] {
      hide AllAllowed, Allowed, StateIs, ReplayStep;
      var front, e := log[..|log| - 1], log[|log| - 1];
      assert front + [e] == log;
      ReplayFollows(slots, front);
      AllAllowedNext(slots, front, e);
      if ReplayLog(slots, front).Ok? {
        var st := ReplayLog(slots, front).value;
        StepAllowed(slots, front, st, e);
        if ReplayStep(slots, st, e).Ok? { StateNext(slots, front, st, e); }
      }
    }
  }

  // ----- opening -----

  /** Two fids are stored on extents that share a slot. */
  ghost predicate Clash(slots: nat, log: seq<Entry>, f: nat, g: nat) {
    exists i, j :: 0 <= i < |log| && 0 <= j < |log| && Places(log, |log|, f, i) && Places(log, |log|, g, j)
                   && Share(Extent(slots, f, log[i].size), Extent(slots, g, log[j].size))
  }

  predicate Share(a: Option<Interval>, b: Option<Interval>) { a.Some? && b.Some? && Overlaps(a.value, b.value) }

  lemma ClashIs(slots: nat, log: seq<Entry>, extents: map<nat, Interval>)
    requires ExtentsAre(slots, log, extents)
    ensures DisjointExtents(extents) <==> forall f, g :: f != g ==> !Clash(slots, log, f, g)
  {
    hide Places, Extent, Overlaps;
    forall f, g ensures Clash(slots, log, f, g) <==> f in extents && g in extents && Overlaps(extents[f], extents[g]) {
      if f in extents && g in extents && Overlaps(extents[f], extents[g]) {
        assert Placed(log, |log|, f) && Placed(log, |log|, g);
        var i :| 0 <= i < |log| && Places(log, |log|, f, i);
        var j :| 0 <= j < |log| && Places(log, |log|, g, j);
        assert Share(Extent(slots, f, log[i].size), Extent(slots, g, log[j].size));
      }
      if Clash(slots, log, f, g) {
        var i, j :| 0 <= i < |log| && 0 <= j < |log| && Places(log, |log|, f, i) && Places(log, |log|, g, j)
                    && Share(Extent(slots, f, log[i].size), Extent(slots, g, log[j].size));
      }
    }
  }

  /** A log opens exactly if every entry may stand where it stands, no indicator waits at
      its end, its tables can be expanded, and no two fids are stored on extents that
      share a slot. Without anchors the references are then those of the newest entries. */
  lemma OpensExactly(slots: nat, grid: seq<byte>, log: seq<Entry>)
    ensures ReplayEntries(slots, grid, log).Ok? <==>
      && AllAllowed(slots, log) && Waits(log, |log|).None? && !BehindAnchor(log, |log|)
      && (forall f, g :: f != g ==> !Clash(slots, log, f, g))
      && ReplayLog(slots, log).Ok?
      && ExpandTables(slots, grid, Index(ReplayLog(slots, log).value.refs, map[]), AnchoredFids(log, |log|)).Ok?
    ensures ReplayEntries(slots, grid, log).Ok? && AnchoredFids(log, |log|) == [] ==>
      RefsAre(log, ReplayEntries(slots, grid, log).value.refs) && ReplayEntries(slots, grid, log).value.packed == map[]
  {
    hide AllAllowed, RefsAre, ExtentsAre, Clash, Waits, AnchoredFids, BehindAnchor, ReplayLog, DisjointExtents;
    ReplayFollows(slots, log);
    if ReplayLog(slots, log).Ok? { ClashIs(slots, log, ReplayLog(slots, log).value.extents); }
  }
}
