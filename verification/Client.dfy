/** The client's one-hop jump retry, for an arbitrary hash, any store contents and any
    answers of the server. */
module Client {
  import opened Layout
  import opened Store
  import opened StoreSteps
  import D = DiskState

  const MAX_JUMP_CODE := 255

  datatype PutError = Registered | ExtentReserved | Refused

  datatype PutResult = Done | Failed(error: PutError)

  /** How the pool takes a Put that it could accept. */
  datatype Answer = Accepts | InFlight | ExtentTaken | Breaks

  predicate IsConflict(e: PutError) { e.Registered? || e.ExtentReserved? }

  /** A Put that was made, and its answer. */
  datatype Call = Call(fid: nat, data: seq<byte>, alias: nat, result: PutResult)

  /** The pool as its clients see it: a Put stores its data, and under its alias the
      data without the last byte, or it stores nothing. */
  class PoolServer {
    var objs: Objects
    /** The Puts made so far. */
    ghost var calls: seq<Call>

    constructor (objs: Objects)
      ensures this.objs == objs && calls == []
    {
      this.objs, calls := objs, [];
    }

    method Put(fid: nat, data: seq<byte>, aliasFor: nat) returns (r: PutResult)
      modifies this
      ensures calls == old(calls) + [Call(fid, data, aliasFor, r)]
      ensures r.Done? ==>
        && data != [] && (aliasFor != 0 ==> aliasFor != fid && |data| >= 2)
        && fid !in old(objs) && (aliasFor != 0 ==> aliasFor !in old(objs))
        && objs == old(objs) + RecObjects(D.CommitRec(fid, |data|, aliasFor), data)
      ensures r.Failed? ==> objs == old(objs)
      ensures r == Failed(ExtentReserved) ==> fid !in objs
      ensures data != [] && aliasFor == 0 && fid in old(objs) ==> r == Failed(Registered)
    {
      var answer: Answer := *;
      r := Answered(fid, data, aliasFor, answer);
      calls := calls + [Call(fid, data, aliasFor, r)];
      if r.Done? { objs := objs + RecObjects(D.CommitRec(fid, |data|, aliasFor), data); }
    }

    function Answered(fid: nat, data: seq<byte>, aliasFor: nat, answer: Answer): PutResult
      reads this
    {
      if data == [] || (aliasFor != 0 && (aliasFor == fid || |data| < 2)) then Failed(Refused)
      else if fid in objs || (aliasFor != 0 && aliasFor in objs) then Failed(Registered)
      else
        match answer
        case InFlight => Failed(Registered)
        case ExtentTaken => Failed(ExtentReserved)
        case Breaks => Failed(Refused)
        case Accepts => Done
    }

    method Get(fid: nat) returns (r: Option<seq<byte>>)
      ensures r == if fid in objs then Some(objs[fid]) else None
    {
      return if fid in objs then Some(objs[fid]) else None;
    }
  }

  datatype JumpResult = JumpResult(fid: nat, targetFid: nat, jumpsTaken: nat, isDuplicate: bool)

  datatype Outcome = Stored(result: JumpResult) | JumpExhausted | NotStored(error: PutError)

  /** The logical object reads as data: Get returns it. */
  predicate Readable(objs: Objects, fid: nat, data: seq<byte>) {
    fid in objs && objs[fid] == data
  }

  /** The Puts of an upload: the data under its hash, and then, only if the answer was
      that the extent is taken, the data with jump code 1, 2 and so on under its hash
      with the data's hash as alias, each after a conflict. */
  ghost predicate Attempts(calls: seq<Call>, hash: seq<byte> -> nat, data: seq<byte>) {
    && calls != [] && calls[0].fid == hash(data) && calls[0].data == data && calls[0].alias == 0
    && (|calls| > 1 ==> calls[0].result == Failed(ExtentReserved))
    && (forall k :: 1 <= k < |calls| ==>
          k <= MAX_JUMP_CODE
          && calls[k].data == data + [k] && calls[k].fid == hash(data + [k]) && calls[k].alias == hash(data))
    && (forall k :: 1 <= k < |calls| - 1 ==>
          calls[k].result == Failed(Registered) || calls[k].result == Failed(ExtentReserved))
  }

  /** What an upload of these Puts answers: the last one decides. */
  ghost predicate Decided(calls: seq<Call>, fid: nat, maxJumps: nat, r: Outcome)
    requires calls != []
  {
    var k, last := |calls| - 1, calls[|calls| - 1];
    match last.result
    case Done => r == Stored(JumpResult(fid, last.fid, k, false))
    case Failed(Refused) => r == NotStored(Refused)
    case Failed(Registered) =>
      if k == 0 then r == Stored(JumpResult(fid, fid, 0, true)) else r == JumpExhausted && k == maxJumps
    case Failed(ExtentReserved) => r == JumpExhausted && k == maxJumps
  }

  /** The Puts an upload makes and what it answers are exactly as its attempts say: a
      duplicate comes exactly if the first Put was answered as registered, k jumps
      exactly if the extent was taken, the jumps before were conflicts and the k-th was
      accepted, and exhaustion exactly if every jump was a conflict. A success that is
      not a duplicate has stored the object so that its logical fid reads as exactly the
      data, without the jump byte; the one exception is a jump for a hash of 0, because
      an alias of 0 means none. Anything else has stored nothing. */
  method PutWithJumpRetry(server: PoolServer, hash: seq<byte> -> nat, data: seq<byte>, wantedJumps: nat)
    returns (r: Outcome)
    modifies server
    ensures old(server.calls) <= server.calls
    ensures var calls := server.calls[|old(server.calls)|..];
            var maxJumps := if wantedJumps == 0 || wantedJumps > 255 then 255 else wantedJumps;
            && Attempts(calls, hash, data) && |calls| <= maxJumps + 1 && Decided(calls, hash(data), maxJumps, r)
    ensures !r.Stored? || r.result.isDuplicate ==> server.objs == old(server.objs)
    ensures r.Stored? && !r.result.isDuplicate ==>
      && (Readable(server.objs, hash(data), data) <==> r.result.jumpsTaken == 0 || hash(data) != 0)
      && r.result.targetFid in server.objs
      && server.objs[r.result.targetFid] == Jumped(data, r.result.jumpsTaken)
      && forall k :: k in old(server.objs) ==> k in server.objs && server.objs[k] == old(server.objs)[k]
  {
    var maxJumps := MAX_JUMP_CODE;
    if wantedJumps > 0 { maxJumps := if wantedJumps < MAX_JUMP_CODE then wantedJumps else MAX_JUMP_CODE; }
    var fid := hash(data);
    var first := server.Put(fid, data, 0);
    if first.Done? { return Stored(JumpResult(fid, fid, 0, false)); }
    if !IsConflict(first.error) { return NotStored(first.error); }
    if first.error.Registered? { return Stored(JumpResult(fid, fid, 0, true)); }
    r := PutCollision(server, hash, data, fid, maxJumps);
  }

  /** What is stored physically: the data, and after a jump its code. */
  function Jumped(data: seq<byte>, jumps: nat): seq<byte>
  {
    if 0 < jumps <= MAX_JUMP_CODE then data + [jumps] else data
  }

  /** What an accepted jump leaves. */
  lemma JumpStored(objs: Objects, target: nat, fid: nat, data: seq<byte>, code: nat)
    requires 1 <= code <= MAX_JUMP_CODE && target !in objs && fid !in objs && (fid != 0 ==> fid != target)
    ensures var objs' := objs + RecObjects(D.CommitRec(target, |data + [code]|, fid), data + [code]);
            && target in objs' && objs'[target] == Jumped(data, code)
            && (Readable(objs', fid, data) <==> fid != 0)
            && forall k :: k in objs ==> k in objs' && objs'[k] == objs[k]
  {
    assert (data + [code])[..|data|] == data;
  }

  method PutCollision(server: PoolServer, hash: seq<byte> -> nat, data: seq<byte>, fid: nat, maxJumps: nat)
    returns (r: Outcome)
    requires 1 <= maxJumps <= MAX_JUMP_CODE && fid == hash(data) && fid !in server.objs
    requires server.calls != [] && server.calls[|server.calls| - 1] == Call(fid, data, 0, Failed(ExtentReserved))
    modifies server
    ensures old(server.calls) <= server.calls
    ensures var calls := server.calls[|old(server.calls)| - 1..];
            && Attempts(calls, hash, data) && |calls| <= maxJumps + 1
            && 1 < |calls| && Decided(calls, fid, maxJumps, r)
    ensures !r.Stored? ==> server.objs == old(server.objs)
    ensures r.Stored? ==>
      && !r.result.isDuplicate && 1 <= r.result.jumpsTaken <= maxJumps
      && r.result.targetFid in server.objs && server.objs[r.result.targetFid] == Jumped(data, r.result.jumpsTaken)
      && (Readable(server.objs, fid, data) <==> fid != 0)
      && forall k :: k in old(server.objs) ==> k in server.objs && server.objs[k] == old(server.objs)[k]
  {
    hide RecObjects, D.CommitRec, Attempts, Decided;
    ghost var n := |server.calls| - 1;
    FirstAttempt(server.calls[n..], hash, data);
    for jumpCode := 1 to maxJumps + 1
      invariant server.objs == old(server.objs) && old(server.calls) <= server.calls
      invariant |server.calls| == n + jumpCode && Attempts(server.calls[n..], hash, data)
      invariant jumpCode > 1 ==>
        server.calls[|server.calls| - 1].result == Failed(Registered)
        || server.calls[|server.calls| - 1].result == Failed(ExtentReserved)
    {
      var jumpData := data + [jumpCode];
      var jumpFid := hash(jumpData);
      ghost var before := server.calls[n..];
      var attempt := server.Put(jumpFid, jumpData, fid);
      assert server.calls[n..] == before + [Call(jumpFid, jumpData, fid, attempt)];
      OneMoreAttempt(before, hash, data, jumpCode, attempt);
      if attempt.Done? {
        JumpStored(old(server.objs), jumpFid, fid, data, jumpCode);
        Decides(server.calls[n..], fid, maxJumps, Stored(JumpResult(fid, jumpFid, jumpCode, false)));
        return Stored(JumpResult(fid, jumpFid, jumpCode, false));
      }
      if !IsConflict(attempt.error) {
        Decides(server.calls[n..], fid, maxJumps, NotStored(attempt.error));
        return NotStored(attempt.error);
      }
    }
    Decides(server.calls[n..], fid, maxJumps, JumpExhausted);
    return JumpExhausted;
  }

  lemma FirstAttempt(calls: seq<Call>, hash: seq<byte> -> nat, data: seq<byte>)
    requires calls == [Call(hash(data), data, 0, Failed(ExtentReserved))]
    ensures Attempts(calls, hash, data)
  {}

  lemma OneMoreAttempt(calls: seq<Call>, hash: seq<byte> -> nat, data: seq<byte>, code: nat, r: PutResult)
    requires Attempts(calls, hash, data) && |calls| == code <= MAX_JUMP_CODE
    requires calls[0].result == Failed(ExtentReserved)
    requires code > 1 ==>
      calls[code - 1].result == Failed(Registered) || calls[code - 1].result == Failed(ExtentReserved)
    ensures Attempts(calls + [Call(hash(data + [code]), data + [code], hash(data), r)], hash, data)
  {}

  lemma Decides(calls: seq<Call>, fid: nat, maxJumps: nat, r: Outcome)
    requires |calls| > 1
    requires var k, last := |calls| - 1, calls[|calls| - 1];
             match last.result
             case Done => r == Stored(JumpResult(fid, last.fid, k, false))
             case Failed(e) => if IsConflict(e) then r == JumpExhausted && k == maxJumps else r == NotStored(e)
    ensures Decided(calls, fid, maxJumps, r)
  {}
}
