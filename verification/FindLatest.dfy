/** Looking one fid up by scanning the index, the last entry winning, against the
    replay that builds the whole in-memory index. */
module FindLatest {
  import opened Layout
  import opened IndexEntry
  import opened Replay

  /** `found`, `jump` and the sizes are the scan's variables. */
  datatype FindState = FindState(
    logicSize: nat, actualFid: nat, actualSize: nat, found: bool, jump: bool, pending: Option<Entry>)

  const START := FindState(0, 0, 0, false, false, None)

  /** The pending indicator, if any, is resolved by entry e. */
  function Resolve(st: FindState, fid: nat, e: Entry): Result<FindState> {
    if st.pending.None? then Ok(st)
    else if e.code != 0 || e.size == 0 then Err(BadLog("invalid jump pair"))
    else if st.pending.value.fid == fid then Ok(FindState(e.size - 1, e.fid, e.size, true, true, None))
    else Ok(st.(pending := None))
  }

  function Take(st: FindState, fid: nat, e: Entry): FindState {
    if IsJumpIndicator(e) then st.(pending := Some(e))
    else if e.fid != fid then st
    else if IsTombstone(e) then FindState(0, 0, 0, true, false, st.pending)
    else FindState(e.size, e.fid, e.size, true, false, st.pending)
  }

  function FindStep(st: FindState, fid: nat, e: Entry): Result<FindState> {
    var r := Resolve(st, fid, e);
    if r.Err? then r else Ok(Take(r.value, fid, e))
  }

  function FindLog(log: seq<Entry>, fid: nat): Result<FindState> {
    if log == [] then Ok(START)
    else
      var before := FindLog(log[..|log| - 1], fid);
      if before.Err? then before else FindStep(before.value, fid, log[|log| - 1])
  }

  datatype Found = Found(logicSize: nat, actualFid: nat, actualSize: nat, jump: bool)

  /** The answer: nothing, or the target, its stored and logical sizes, and whether
      the fid is an alias. */
  function FindLatestIndexEntry(log: seq<Entry>, fid: nat): Result<Option<Found>> {
    var st := FindLog(log, fid);
    if st.Err? then Err(st.error) else Ok(Answer(st.value))
  }

  function Answer(st: FindState): Option<Found> {
    if !st.found || st.logicSize == 0 then None
    else Some(Found(st.logicSize, st.actualFid, st.actualSize, st.jump))
  }

  /** The scan over the region, entry by entry up to the first all-zero one. */
  method FindLatestInRegion(region: seq<Entry>, fid: nat) returns (r: Result<Option<Found>>)
    ensures r == FindLatestIndexEntry(region[..EndOf(region)], fid)
  {
    hide EndOf;
    var logicSize: nat, actualFid: nat, actualSize: nat := 0, 0, 0;
    var found, jump := false, false;
    var pending: Option<Entry> := None;
    var i := 0;
    ghost var log := region[..EndOf(region)];
    while i < |region| && region[i] != ZERO
      invariant i <= EndOf(region)
      invariant FindLog(log[..i], fid) == Ok(FindState(logicSize, actualFid, actualSize, found, jump, pending))
    {
      var e := region[i];
      assert i < |log| && log[..i + 1][..i] == log[..i];
      if pending.Some? {
        if e.code != 0 || e.size == 0 {
          FindFails(log, fid, i + 1);
          return Err(BadLog("invalid jump pair"));
        }
        if pending.value.fid == fid {
          logicSize, actualFid, actualSize, found, jump := e.size - 1, e.fid, e.size, true, true;
        }
        pending := None;
      }
      if IsJumpIndicator(e) {
        pending := Some(e);
      } else if e.fid == fid {
        found, jump := true, false;
        if IsTombstone(e) {
          logicSize, actualFid, actualSize := 0, 0, 0;
        } else {
          logicSize, actualFid, actualSize := e.size, e.fid, e.size;
        }
      }
      i := i + 1;
    }
    assert log[..i] == log;
    if !found || logicSize == 0 { return Ok(None); }
    return Ok(Some(Found(logicSize, actualFid, actualSize, jump)));
  }

  lemma {:induction false} FindFails(log: seq<Entry>, fid: nat, n: nat)
    requires n <= |log| && FindLog(log[..n], fid).Err?
    ensures FindLog(log, fid) == FindLog(log[..n], fid)
    decreases |log|
  {
    if n == |log| {
      assert log[..n] == log;
    } else {
      assert log[..|log| - 1][..n] == log[..n];
      FindFails(log[..|log| - 1], fid, n);
    }
  }

  // ----- the last entry wins, on every log -----

  /** Entry i decides about fid: it is an entry of that fid, or the target behind a jump
      indicator of that fid. */
  predicate Decides(log: seq<Entry>, fid: nat, i: nat)
    requires i < |log|
  {
    (log[i].fid == fid && !IsJumpIndicator(log[i])) || (i > 0 && IsJumpIndicator(log[i - 1]) && log[i - 1].fid == fid)
  }

  /** What entry i says about fid: its own record, or the alias of the indicator before. */
  function Says(log: seq<Entry>, fid: nat, i: nat): Option<Found>
    requires i < |log|
  {
    var e := log[i];
    if e.fid == fid && !IsJumpIndicator(e)
    then (if e.size == 0 then None else Some(Found(e.size, e.fid, e.size, false)))
    else (if e.size <= 1 then None else Some(Found(e.size - 1, e.fid, e.size, true)))
  }

  /** Every indicator of a jump is followed by a target. */
  predicate PairsWhole(log: seq<Entry>) {
    forall i :: 0 < i < |log| && IsJumpIndicator(log[i - 1]) ==> log[i].code == 0 && log[i].size != 0
  }

  ghost predicate LastSays(log: seq<Entry>, fid: nat, st: FindState) {
    && st.pending == (if log != [] && IsJumpIndicator(log[|log| - 1]) then Some(log[|log| - 1]) else None)
    && ((forall i :: 0 <= i < |log| ==> !Decides(log, fid, i)) ==> !st.found)
    && forall i :: 0 <= i < |log| && Decides(log, fid, i) && (forall j :: i < j < |log| ==> !Decides(log, fid, j)) ==>
         Answer(st) == Says(log, fid, i)
  }

  lemma AnswerStep(st: FindState, fid: nat, e: Entry)
    requires FindStep(st, fid, e).Ok?
    ensures var st', own := FindStep(st, fid, e).value, e.fid == fid && !IsJumpIndicator(e);
            var alias := st.pending.Some? && st.pending.value.fid == fid;
            && st'.pending == (if IsJumpIndicator(e) then Some(e) else None)
            && (own ==>
                  && st'.found
                  && Answer(st') == if e.size == 0 then None else Some(Found(e.size, e.fid, e.size, false)))
            && (!own && alias ==>
                  && st'.found
                  && Answer(st') == if e.size <= 1 then None else Some(Found(e.size - 1, e.fid, e.size, true)))
            && (!own && !alias ==> Answer(st') == Answer(st) && st'.found == st.found)
  {}

  lemma LastSaysStep(log: seq<Entry>, fid: nat, st: FindState, e: Entry)
    requires LastSays(log, fid, st) && FindStep(st, fid, e).Ok?
    ensures LastSays(log + [e], fid, FindStep(st, fid, e).value)
  {
    hide FindStep, Answer, IsJumpIndicator, IsTombstone;
    AnswerStep(st, fid, e);
    var log', n := log + [e], |log|;
    forall i | 0 <= i < n
      ensures Decides(log', fid, i) == Decides(log, fid, i) && Says(log', fid, i) == Says(log, fid, i)
    {
      EarlierSays(log, fid, e, i);
    }
    assert log'[n] == e && (n > 0 ==> log'[n - 1] == log[n - 1]);
    hide Says;
    if Decides(log', fid, n) {
      SaysLast(log, fid, st, e);
    } else {
      forall i | 0 <= i < n + 1 && Decides(log', fid, i) && forall j :: i < j < n + 1 ==> !Decides(log', fid, j)
        ensures Answer(FindStep(st, fid, e).value) == Says(log', fid, i)
      {
        assert i < n && Decides(log, fid, i);
        forall j | i < j < n ensures !Decides(log, fid, j) { assert !Decides(log', fid, j); }
      }
      if forall i :: 0 <= i < n + 1 ==> !Decides(log', fid, i) {
        forall i | 0 <= i < n ensures !Decides(log, fid, i) { assert !Decides(log', fid, i); }
      }
    }
  }

  lemma EarlierSays(log: seq<Entry>, fid: nat, e: Entry, i: nat)
    requires i < |log|
    ensures Decides(log + [e], fid, i) == Decides(log, fid, i) && Says(log + [e], fid, i) == Says(log, fid, i)
  {
    hide IsJumpIndicator;
    assert (log + [e])[i] == log[i] && (i > 0 ==> (log + [e])[i - 1] == log[i - 1]);
  }

  lemma SaysLast(log: seq<Entry>, fid: nat, st: FindState, e: Entry)
    requires FindStep(st, fid, e).Ok? && Decides(log + [e], fid, |log|)
    requires st.pending == (if log != [] && IsJumpIndicator(log[|log| - 1]) then Some(log[|log| - 1]) else None)
    ensures Answer(FindStep(st, fid, e).value) == Says(log + [e], fid, |log|)
  {
    hide FindStep, Answer, IsJumpIndicator;
    AnswerStep(st, fid, e);
    assert (log + [e])[|log|] == e && (log != [] ==> (log + [e])[|log| - 1] == log[|log| - 1]);
  }

  lemma PairsAppend(log: seq<Entry>, e: Entry)
    ensures PairsWhole(log + [e])
            <==> PairsWhole(log)
                 && (log != [] && IsJumpIndicator(log[|log| - 1]) ==> e.code == 0 && e.size != 0)
  {
    hide IsJumpIndicator;
    var log' := log + [e];
    forall i | 0 <= i < |log| ensures log'[i] == log[i] {}
    if PairsWhole(log') && log != [] { assert log'[|log| - 1] == log[|log| - 1] && log'[|log|] == e; }
    if PairsWhole(log') {
      forall i | 0 < i < |log| && IsJumpIndicator(log[i - 1]) ensures log[i].code == 0 && log[i].size != 0 {
        assert log'[i - 1] == log[i - 1] && log'[i] == log[i];
      }
    }
  }

  /** On every log, whatever it holds, the scan fails exactly if an indicator is not
      followed by a target, and otherwise the last entry that decides about the fid, as
      its own record or as the target of its alias, is the answer. */
  lemma LastEntryWins(log: seq<Entry>, fid: nat)
    ensures FindLatestIndexEntry(log, fid).Ok? <==> PairsWhole(log)
    ensures PairsWhole(log) && (forall i :: 0 <= i < |log| ==> !Decides(log, fid, i)) ==>
              FindLatestIndexEntry(log, fid) == Ok(None)
    ensures PairsWhole(log) ==>
              forall i :: 0 <= i < |log| && Decides(log, fid, i)
                          && (forall j :: i < j < |log| ==> !Decides(log, fid, j)) ==>
                FindLatestIndexEntry(log, fid) == Ok(Says(log, fid, i))
  {
    hide FindLog, PairsWhole, Decides, Says;
    LastEntrySays(log, fid);
  }

  lemma {:induction false} LastEntrySays(log: seq<Entry>, fid: nat)
    ensures FindLog(log, fid).Ok? <==> PairsWhole(log)
    ensures FindLog(log, fid).Ok? ==> LastSays(log, fid, FindLog(log, fid).value)
  {
    if log != [] {
      hide FindStep, LastSays, PairsWhole;
      var front, e := log[..|log| - 1], log[|log| - 1];
      assert front + [e] == log;
      LastEntrySays(front, fid);
      PairsAppend(front, e);
      if FindLog(front, fid).Ok? {
        var st := FindLog(front, fid).value;
        StepAccepts(front, fid, st, e);
        if FindStep(st, fid, e).Ok? { LastSaysStep(front, fid, st, e); }
      }
    }
  }

  lemma StepAccepts(log: seq<Entry>, fid: nat, st: FindState, e: Entry)
    requires LastSays(log, fid, st)
    ensures FindStep(st, fid, e).Ok?
            <==> (log != [] && IsJumpIndicator(log[|log| - 1]) ==> e.code == 0 && e.size != 0)
  {
    hide Decides, Says;
  }

  // ----- agreement with the replay -----

  /** What the replayed reference of a fid looks like to the scan. */
  function Seen(ref: Ref, fid: nat): Found {
    Found(ref.size, ref.fid, ref.stored, ref.fid != fid)
  }

  /** The two scanners' states agree on fid. */
  predicate Agree(st: FindState, rs: ReplayState, fid: nat) {
    && st.pending == rs.alias
    && rs.anchor.None?
    && (fid in rs.refs ==>
          st.found && st.logicSize > 0
            && Found(st.logicSize, st.actualFid, st.actualSize, st.jump) == Seen(rs.refs[fid], fid))
    && (fid !in rs.refs ==> !st.found || st.logicSize == 0)
  }

  predicate NoAnchors(log: seq<Entry>) { forall i :: 0 <= i < |log| ==> !IsPackedAnchor(log[i]) }

  lemma AgreeStep(slots: nat, st: FindState, rs: ReplayState, fid: nat, e: Entry)
    requires Agree(st, rs, fid) && !IsPackedAnchor(e) && ReplayStep(slots, rs, e).Ok?
    ensures FindStep(st, fid, e).Err? <==> rs.alias.Some? && IsTombstone(e)
    ensures FindStep(st, fid, e).Ok? ==> Agree(FindStep(st, fid, e).value, ReplayStep(slots, rs, e).value, fid)
  {
    hide Extent;
  }

  /** On every log without anchors that both scanners accept, scanning for a fid finds
      exactly what the replayed index has for it: the same target, stored size,
      logical size and alias flag, and nothing exactly when the index has nothing. */
  lemma {:induction false} FindAgreesWithReplay(slots: nat, log: seq<Entry>, fid: nat)
    requires NoAnchors(log) && ReplayLog(slots, log).Ok? && FindLog(log, fid).Ok?
    ensures Agree(FindLog(log, fid).value, ReplayLog(slots, log).value, fid)
    ensures var refs := ReplayLog(slots, log).value.refs;
            FindLatestIndexEntry(log, fid) == Ok(if fid in refs then Some(Seen(refs[fid], fid)) else None)
  {
    if log != [] {
      var front, e := log[..|log| - 1], log[|log| - 1];
      hide ReplayStep, FindStep, Agree;
      FindAgreesWithReplay(slots, front, fid);
      AgreeStep(slots, FindLog(front, fid).value, ReplayLog(slots, front).value, fid, e);
      Answers(FindLog(log, fid).value, ReplayLog(slots, log).value, fid);
    }
  }

  lemma Answers(st: FindState, rs: ReplayState, fid: nat)
    requires Agree(st, rs, fid)
    ensures Answer(st) == if fid in rs.refs then Some(Seen(rs.refs[fid], fid)) else None
  {}

  predicate BrokenPair(log: seq<Entry>) {
    exists i :: 0 < i < |log| && IsTombstone(log[i]) && IsJumpIndicator(log[i - 1])
  }

  lemma BrokenPairAppend(log: seq<Entry>, e: Entry)
    ensures BrokenPair(log + [e])
            <==> BrokenPair(log) || (log != [] && IsTombstone(e) && IsJumpIndicator(log[|log| - 1]))
  {
    hide IsTombstone, IsJumpIndicator;
    var log' := log + [e];
    if BrokenPair(log) {
      var i :| 0 < i < |log| && IsTombstone(log[i]) && IsJumpIndicator(log[i - 1]);
      assert IsTombstone(log'[i]) && IsJumpIndicator(log'[i - 1]);
    }
    if log != [] && IsTombstone(e) && IsJumpIndicator(log[|log| - 1]) {
      assert IsTombstone(log'[|log|]) && IsJumpIndicator(log'[|log| - 1]);
    }
  }

  /** Of the logs the replay accepts, the scan refuses exactly those in which a
      tombstone follows an indicator directly, whatever fid it looks for. */
  lemma {:induction false} FindAccepts(slots: nat, log: seq<Entry>, fid: nat)
    requires NoAnchors(log) && ReplayLog(slots, log).Ok?
    ensures FindLog(log, fid).Err? <==> BrokenPair(log)
    ensures log != [] && FindLog(log, fid).Ok? ==>
      (ReplayLog(slots, log).value.alias.Some? <==> IsJumpIndicator(log[|log| - 1]))
  {
    if log != [] {
      var front, e := log[..|log| - 1], log[|log| - 1];
      hide FindStep, Agree, ReplayStep, BrokenPair, IsTombstone, IsJumpIndicator;
      FindAccepts(slots, front, fid);
      BrokenPairAppend(front, e);
      assert front + [e] == log;
      if FindLog(front, fid).Ok? {
        FindAgreesWithReplay(slots, front, fid);
        AgreeStep(slots, FindLog(front, fid).value, ReplayLog(slots, front).value, fid, e);
        PendingAfter(slots, FindLog(front, fid).value, ReplayLog(slots, front).value, fid, e);
      }
    }
  }

  lemma PendingAfter(slots: nat, st: FindState, rs: ReplayState, fid: nat, e: Entry)
    requires rs.anchor.None? && !IsPackedAnchor(e) && Agree(st, rs, fid)
    requires ReplayStep(slots, rs, e).Ok?
    ensures FindStep(st, fid, e).Ok? ==> (ReplayStep(slots, rs, e).value.alias.Some? <==> IsJumpIndicator(e))
  {
    hide Extent;
  }
}
