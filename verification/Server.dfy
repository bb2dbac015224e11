/** The server's side of Put and Get: the gate as an object, one Put from gate to
    release with every way out, and the messages of a Get. */
module Server {
  import opened Layout
  import opened Replay
  import opened Store
  import opened StoreSteps
  import D = DiskState
  import opened IndexState
  import opened StreamWriter
  import opened Device
  import opened DiskSteps
  import opened TrimSteps

  function ClaimedFids(fid: nat, aliasFor: nat): (fids: seq<nat>)
    ensures fids == if aliasFor == 0 then [fid] else [fid, aliasFor]
  {
    [fid] + if aliasFor != 0 then [aliasFor] else []
  }

  /** The pool reports the fid, or answers with a conflict. */
  predicate Reports(confirmed: nat -> Result<bool>, f: nat) {
    confirmed(f) == Ok(true) || confirmed(f) == Err(Conflict)
  }

  /** A fid of the Put is claimed, or reported by the pool before it answers with an error. */
  predicate Spoken(pending: set<nat>, confirmed: nat -> Result<bool>, fid: nat, aliasFor: nat) {
    || fid in pending || (aliasFor != 0 && aliasFor in pending)
    || Reports(confirmed, fid) || (confirmed(fid) == Ok(false) && aliasFor != 0 && Reports(confirmed, aliasFor))
  }

  /** The pool-wide reservation of fids. */
  class PoolGate {
    var pending: set<nat>

    constructor ()
      ensures pending == {}
    {
      pending := {};
    }

    /** Both fids are reserved together, and only if neither is reserved already and
        the pool reports neither as confirmed. */
    method Reserve(fid: nat, aliasFor: nat, confirmed: nat -> Result<bool>) returns (r: Result<()>)
      modifies this
      ensures r.Ok? <==>
        && fid !in old(pending) && confirmed(fid) == Ok(false)
        && (aliasFor != 0 ==> aliasFor !in old(pending) && confirmed(aliasFor) == Ok(false))
      ensures pending == if r.Err? then old(pending)
                         else old(pending) + {fid} + (if aliasFor == 0 then {} else {aliasFor})
      ensures r == Err(Conflict) <==> Spoken(old(pending), confirmed, fid, aliasFor)
      ensures r.Err? && r.error != Conflict ==> r == Failed(confirmed(fid)) || r == Failed(confirmed(aliasFor))
    {
      var fids := ClaimedFids(fid, aliasFor);
      for i := 0 to |fids|
        invariant forall k :: 0 <= k < i ==> fids[k] !in pending
      {
        if fids[i] in pending { return Err(Conflict); }
      }
      assert fids[0] == fid && (aliasFor != 0 ==> fids[1] == aliasFor);
      for i := 0 to |fids|
        invariant forall k :: 0 <= k < i ==> confirmed(fids[k]) == Ok(false)
      {
        var found := confirmed(fids[i]);
        if found.Err? { return Err(found.error); }
        if found.value { return Err(Conflict); }
      }
      for i := 0 to |fids|
        invariant pending == old(pending) + SetOf(fids[..i])
      {
        SetOfAppend(fids[..i], fids[i]);
        assert fids[..i + 1] == fids[..i] + [fids[i]];
        pending := pending + {fids[i]};
      }
      assert fids[..|fids|] == fids;
      return Ok(());
    }

    method Release(fid: nat, aliasFor: nat)
      modifies this
      ensures pending == old(pending) - {fid} - (if aliasFor == 0 then {} else {aliasFor})
    {
      pending := pending - {fid};
      if aliasFor != 0 { pending := pending - {aliasFor}; }
    }
  }

  // ----- asking the pool -----

  /** The answers in order of arrival, folded: found wins, then the first failure. */
  method ConfirmedAnywhere(answers: seq<Result<bool>>) returns (r: Result<bool>)
    ensures r == Ok(true) <==> Ok(true) in answers
    ensures r == Ok(false) <==> forall a :: a in answers ==> a == Ok(false)
  {
    var firstErr: Option<Error> := None;
    for i := 0 to |answers|
      invariant Ok(true) !in answers[..i]
      invariant firstErr.None? ==> forall a :: a in answers[..i] ==> a == Ok(false)
      invariant firstErr.Some? ==> exists a :: a in answers[..i] && a.Err?
    {
      var a := answers[i];
      assert answers[..i + 1] == answers[..i] + [a];
      if a.Err? && firstErr.None? {
        firstErr := Some(a.error);
      } else if a.Ok? && a.value {
        return Ok(true);
      }
    }
    assert answers[..|answers|] == answers;
    return if firstErr.Some? then Err(firstErr.value) else Ok(false);
  }

  // ----- one Put -----

  /** The header is in order. */
  predicate HeaderFine(fid: nat, totalSize: nat, aliasFor: nat, maxPut: nat) {
    && totalSize != 0 && (aliasFor != 0 ==> aliasFor != fid && totalSize >= 2)
    && (maxPut == 0 || totalSize <= maxPut)
  }

  /** The gate lets the fids in: nobody claims them and nobody has confirmed them. */
  predicate LetIn(pending: set<nat>, confirmed: nat -> Result<bool>, fid: nat, aliasFor: nat) {
    && fid !in pending && confirmed(fid) == Ok(false)
    && (aliasFor != 0 ==> aliasFor !in pending && confirmed(aliasFor) == Ok(false))
  }

  /** What a Put is answered; the two conflicts differ by their message. */
  datatype PutAnswer = Accepted | InvalidArgument | Registered | ExtentReserved | NoDisk | Cancelled | Internal

  /** An object that fits finds its extent taken. */
  ghost predicate ExtentTaken(d: D.Disk, fid: nat, size: nat) {
    0 < size <= d.slots * SLOT_SIZE && !d.fault && !Reservable(d, fid, size)
  }

  /** The object is on the grid: only the commit is left. */
  ghost predicate StreamLands(d: D.Disk, fid: nat, totalSize: nat, s: Stream, direct: bool, pace: Pace) {
    && Reservable(d, fid, totalSize)
    && var iv := Extent(d.slots, fid, totalSize).value;
    && Exact(s, totalSize) && Takes(pace, direct, iv.start * SLOT_SIZE, totalSize, Capacity(iv))
  }

  /** The extent is free, the stream has the declared length, the device takes it and
      every write of the commit, and nothing stands in the way of the entries. */
  ghost predicate DiskTakes(d: D.Disk, fid: nat, totalSize: nat, aliasFor: nat, s: Stream, direct: bool, pace: Pace,
                            io: D.CommitIO)
  {
    StreamLands(d, fid, totalSize, s, direct, pace) && io.AllWell? && Committable(d, fid, totalSize, aliasFor)
  }

  /** What is stored with an object: its data, and under an alias the data without the
      last byte. */
  function WithObject(objs: Objects, fid: nat, data: seq<byte>, alias: nat): Objects {
    if alias == 0 || data == [] then objs[fid := data] else objs[fid := data][alias := data[..|data| - 1]]
  }

  lemma ObjectsOf(objs: Objects, fid: nat, data: seq<byte>, alias: nat)
    requires data != [] && (alias != 0 ==> alias != fid)
    ensures objs + RecObjects(D.CommitRec(fid, |data|, alias), data) == WithObject(objs, fid, data, alias)
  {}

  /** A Put to the disk that was chosen, or to none. It succeeds exactly if the header
      is in order, the gate lets it in, a disk is available and takes the stream, and it is not
      cancelled. It is answered that the fid is registered exactly if the gate knows one of
      its fids, and that the extent is reserved exactly if its extent on the chosen disk
      meets another. Whatever way it ends, the gate and the reservations are as before; if
      it succeeds exactly its data is stored, and under its alias the data without the
      last byte; if not, nothing is. */
  method Put(gate: PoolGate, disk: DeviceState, available: bool, confirmed: nat -> Result<bool>,
             fid: uint64, totalSize: uint64, aliasFor: uint64, maxPut: nat,
             s: Stream, direct: bool, pace: Pace, cancelled: bool, io: D.CommitIO)
    returns (r: PutAnswer)
    requires disk.Valid()
    requires D.IOFits(io, if aliasFor == 0 then 1 else 2)
    modifies gate, disk, disk.grid, disk.region
    ensures disk.Valid() && gate.pending == old(gate.pending)
    ensures SetOf(disk.pendingIntervals) == old(SetOf(disk.pendingIntervals))
    ensures r.InvalidArgument? <==> !HeaderFine(fid, totalSize, aliasFor, maxPut)
    ensures r.Registered? <==>
      HeaderFine(fid, totalSize, aliasFor, maxPut) && Spoken(old(gate.pending), confirmed, fid, aliasFor)
    ensures !r.Accepted? && HeaderFine(fid, totalSize, aliasFor, maxPut)
            && LetIn(old(gate.pending), confirmed, fid, aliasFor) ==>
      && (r.NoDisk? <==> !available)
      && (r.ExtentReserved? <==> available && old(ExtentTaken(disk.Model(), fid, totalSize)))
      && (r.Cancelled? <==>
            available && cancelled && old(StreamLands(disk.Model(), fid, totalSize, s, direct, pace)))
    ensures r.Accepted? <==>
      && HeaderFine(fid, totalSize, aliasFor, maxPut) && LetIn(old(gate.pending), confirmed, fid, aliasFor)
      && available && !cancelled && old(DiskTakes(disk.Model(), fid, totalSize, aliasFor, s, direct, pace, io))
    ensures disk.objs == if !r.Accepted? then old(disk.objs) else WithObject(old(disk.objs), fid, s.bytes, aliasFor)
  {
    hide D.Inv, ReadRef, Extent, RecObjects, D.Commit, D.PrepareWrite, SameIn, D.IOFits, D.CommitRec, DiskTakes,
         WithObject, ExtentTaken, StreamLands;
    if totalSize == 0 || (aliasFor != 0 && (aliasFor == fid || totalSize < 2)) { return InvalidArgument; }
    if maxPut > 0 && totalSize > maxPut { return InvalidArgument; }
    var reserved := gate.Reserve(fid, aliasFor, confirmed);
    if reserved.Err? { return if reserved.error == Conflict then Registered else Internal; }
    if !available {
      gate.Release(fid, aliasFor);
      return NoDisk;
    }
    r := PutOnDisk(disk, fid, totalSize, aliasFor, s, direct, pace, cancelled, io);
    gate.Release(fid, aliasFor);
  }

  method PutOnDisk(disk: DeviceState, fid: uint64, totalSize: uint64, aliasFor: uint64,
                   s: Stream, direct: bool, pace: Pace, cancelled: bool, io: D.CommitIO)
    returns (r: PutAnswer)
    requires disk.Valid() && 0 < totalSize
    requires D.IOFits(io, if aliasFor == 0 then 1 else 2)
    modifies disk, disk.grid, disk.region
    ensures disk.Valid()
    ensures SetOf(disk.pendingIntervals) == old(SetOf(disk.pendingIntervals))
    ensures r.Accepted? <==> !cancelled && old(DiskTakes(disk.Model(), fid, totalSize, aliasFor, s, direct, pace, io))
    ensures r.ExtentReserved? <==> old(ExtentTaken(disk.Model(), fid, totalSize))
    ensures r.Cancelled? <==> cancelled && old(StreamLands(disk.Model(), fid, totalSize, s, direct, pace))
    ensures r.Accepted? || r.ExtentReserved? || r.Cancelled? || r.Internal?
    ensures disk.objs == if !r.Accepted? then old(disk.objs) else WithObject(old(disk.objs), fid, s.bytes, aliasFor)
  {
    hide D.Inv, ReadRef, Extent, RecObjects, D.Commit, D.PrepareWrite, SameIn, D.IOFits, D.CommitRec, Takes, WithObject,
         Reservable, Committable, ExtentTaken;
    ghost var m := disk.Model();
    PrepareFrame(m, disk.objs, fid, totalSize);
    PrepareExactly(m, fid, totalSize);
    TakenIs(m, fid, totalSize);
    var prepared := disk.PrepareWrite(fid, totalSize);
    if prepared.Err? { return if prepared.error == Conflict then ExtentReserved else Internal; }
    var pw := prepared.value;
    var streamed := disk.WriteFrom(pw, s, direct, pace);
    if streamed.Err? {
      disk.Abort(pw);
      return Internal;
    }
    if cancelled {
      disk.Abort(pw);
      return Cancelled;
    }
    HeldIs(disk.Slots(), disk.grid[..], pw, s.bytes);
    CommitFrame(disk.Model(), disk.objs, pw.fid, pw.size, pw.iv, aliasFor, io);
    CommitSame(m, disk.Model(), pw.fid, pw.size, aliasFor);
    var committed := disk.Commit(pw, aliasFor, io);
    if committed.Err? {
      disk.Abort(pw);
      return Internal;
    }
    AliasApart(m, fid, totalSize, aliasFor);
    ObjectsOf(old(disk.objs), fid, s.bytes, aliasFor);
    return Accepted;
  }

  lemma TakenIs(d: D.Disk, fid: nat, size: nat)
    ensures ExtentTaken(d, fid, size) <==> D.PrepareWrite(d, fid, size).1 == Err(Conflict)
  {
    hide D.PrepareWrite, Reservable;
    PrepareExactly(d, fid, size);
    if ExtentTaken(d, fid, size) {
    } else if D.PrepareWrite(d, fid, size).1 == Err(Conflict) {
      RefusedEarly(d, fid, size);
    }
  }

  lemma RefusedEarly(d: D.Disk, fid: nat, size: nat)
    requires D.PrepareWrite(d, fid, size).1 == Err(Conflict)
    ensures 0 < size <= d.slots * SLOT_SIZE && !d.fault
  {
    hide D.AnyOverlap, Extent;
  }

  /** Neither the bytes on the grid nor the reservations decide a commit. */
  lemma CommitSame(d: D.Disk, d': D.Disk, fid: nat, size: nat, alias: nat)
    requires d' == d.(grid := d'.grid, pending := d'.pending)
    ensures Committable(d', fid, size, alias) == Committable(d, fid, size, alias)
  {}

  lemma AliasApart(d: D.Disk, fid: nat, size: nat, alias: nat)
    requires Committable(d, fid, size, alias)
    ensures alias != 0 ==> alias != fid && size >= 2
  {}

  lemma PrepareFrame(d: D.Disk, objs: Objects, fid: nat, size: nat)
    requires D.Inv(d, objs)
    ensures var (d', q) := D.PrepareWrite(d, fid, size);
            if q.Ok? then d'.pending == d.pending + {q.value} && q.value !in d.pending else d' == d
  {
    hide D.Inv, D.AnyOverlap, Extent, Packing;
    PrepareKeeps(d, objs, fid, size);
  }

  lemma CommitFrame(d: D.Disk, objs: Objects, fid: nat, size: nat, iv: Interval, alias: nat, io: D.CommitIO)
    requires D.Inv(d, objs) && D.IOFits(io, if alias == 0 then 1 else 2)
    ensures |d.region| == MAX_ENTRIES
    ensures var (d', q) := D.Commit(d, fid, size, iv, alias, io);
            && d'.pending == (if q.Ok? then d.pending - {iv} else d.pending)
            && (q.Ok? ==> fid !in objs)
  {
    hide D.Inv, D.TornRegion;
    ConfirmedKeys(d, objs);
  }

  lemma HeldIs(slots: nat, grid: seq<byte>, pw: PreparedWrite, bytes: seq<byte>)
    requires Extent(slots, pw.fid, pw.size) == Some(pw.iv)
    requires ReadRef(slots, grid, PlainRef(pw.fid, pw.size)) == Ok(bytes)
    ensures var at := pw.iv.start * SLOT_SIZE; at + pw.size <= |grid| && grid[at..at + pw.size] == bytes
  {
    hide Extent;
  }

  // ----- one Get -----

  const MESSAGE_BYTES := 0x10_0000

  datatype Message = Message(size: nat, start: nat, end: nat, data: seq<byte>)

  function Failed<T>(r: Result<T>): Result<()> { if r.Err? then Err(r.error) else Ok(()) }

  function Joined(messages: seq<Message>): seq<byte> {
    if messages == [] then [] else Joined(messages[..|messages| - 1]) + messages[|messages| - 1].data
  }

  /** The messages cover start to end without gap, each at most one MiB. */
  predicate Consecutive(messages: seq<Message>, start: nat, end: nat) {
    && messages != []
    && (forall i :: 0 <= i < |messages| ==>
          messages[i].start <= messages[i].end <= messages[i].start + MESSAGE_BYTES
          && |messages[i].data| == messages[i].end - messages[i].start)
    && messages[0].start == start && messages[|messages| - 1].end == end
    && (forall i :: 0 <= i < |messages| - 1 ==> messages[i].end == messages[i + 1].start)
  }

  /** The messages sent so far hold the object's bytes from start to pos. */
  predicate Sent(messages: seq<Message>, data: seq<byte>, start: nat, pos: nat) {
    && start <= pos <= |data|
    && (if messages == [] then pos == start else Consecutive(messages, start, pos))
    && Joined(messages) == data[start..pos]
    && forall i :: 0 <= i < |messages| ==> messages[i].size == |data|
  }

  lemma NothingSent(data: seq<byte>, start: nat)
    requires start <= |data|
    ensures Sent([], data, start, start)
  {}

  lemma ConsecutiveNext(messages: seq<Message>, start: nat, pos: nat, m: Message)
    requires if messages == [] then pos == start else Consecutive(messages, start, pos)
    requires m.start == pos <= m.end <= pos + MESSAGE_BYTES && |m.data| == m.end - m.start
    ensures Consecutive(messages + [m], start, m.end)
  {}

  lemma JoinedNext(messages: seq<Message>, data: seq<byte>, start: nat, pos: nat, m: Message)
    requires start <= pos <= m.end <= |data| && Joined(messages) == data[start..pos] && m.data == data[pos..m.end]
    ensures Joined(messages + [m]) == data[start..m.end]
  {
    assert (messages + [m])[..|messages|] == messages;
    SliceJoin(data, start, pos, m.end);
  }

  lemma SendNext(messages: seq<Message>, data: seq<byte>, start: nat, pos: nat, next: nat)
    requires Sent(messages, data, start, pos) && pos <= next <= |data| && next <= pos + MESSAGE_BYTES
    ensures var messages' := messages + [Message(|data|, pos, next, data[pos..next])];
            Sent(messages', data, start, next) && Consecutive(messages', start, next)
            && Joined(messages') == data[start..next]
            && forall i :: 0 <= i < |messages'| ==> messages'[i].size == |data|
  {
    hide Consecutive, Joined;
    var m := Message(|data|, pos, next, data[pos..next]);
    ConsecutiveNext(messages, start, pos, m);
    JoinedNext(messages, data, start, pos, m);
  }

  /** A message of a whole MiB. */
  predicate Full(m: Message) { m.end == m.start + MESSAGE_BYTES }

  /** The messages hold the object's bytes from start to end, all but the last a whole MiB
      and none empty unless the range is, or the range is refused because it starts past
      its end. */
  predicate Sends(r: Result<()>, messages: seq<Message>, data: seq<byte>, start: nat, end: nat)
    requires end <= |data|
  {
    if start > end then r == Err(InvalidRange) && messages == []
    else r.Ok? && Consecutive(messages, start, end) && Joined(messages) == data[start..end]
         && (forall i :: 0 <= i < |messages| ==> messages[i].size == |data|)
         && (forall i :: 0 <= i < |messages| - 1 ==> Full(messages[i]))
         && (start < end ==> messages[|messages| - 1].start < end)
  }

  /** A Get sends exactly the requested slice of the object, piece by piece: without a
      range all of it, with one from its start to its end, where an end of 0 or past the
      object means the object's end. */
  method Get(disk: DeviceState, fid: nat, hasRange: bool, rangeStart: nat, rangeEnd: nat)
    returns (r: Result<()>, messages: seq<Message>)
    requires disk.Valid()
    ensures disk.indexErr ==> r == Err(Fault)
    ensures !disk.indexErr && fid !in disk.objs ==> r == Err(NotFound)
    ensures !disk.indexErr && fid in disk.objs ==>
      var data := disk.objs[fid];
      && (!hasRange ==> Sends(r, messages, data, 0, |data|))
      && (hasRange && 0 < rangeEnd <= |data| ==> Sends(r, messages, data, rangeStart, rangeEnd))
      && (hasRange && (rangeEnd == 0 || rangeEnd > |data|) ==> Sends(r, messages, data, rangeStart, |data|))
  {
    hide D.Inv, ReadRef, D.Read, Sent, Consecutive, Joined;
    messages := [];
    ghost var model := disk.Model();
    Known(model, disk.objs, fid);
    var found := disk.Lookup(fid);
    if found.Err? { return Err(found.error), messages; }
    var ref := found.value;
    var size := ref.size;
    var start, end := 0, size;
    if hasRange {
      start, end := rangeStart, rangeEnd;
      if end == 0 || end > size { end := size; }
      if start > end { return Err(InvalidRange), messages; }
    }
    var pos := start;
    ghost var data := disk.objs[fid];
    NothingSent(data, start);
    while true
      invariant start <= pos <= end <= |data| && (pos == end ==> messages == [] && pos == start)
      invariant Sent(messages, data, start, pos)
      invariant forall i :: 0 <= i < |messages| ==> Full(messages[i])
      decreases end - pos, |messages| == 0
    {
      var next := if pos + MESSAGE_BYTES < end then pos + MESSAGE_BYTES else end;
      var part := disk.ReadRange(ref, pos, next);
      if part.Err? { return Failed(part), messages; }
      SendNext(messages, data, start, pos, next);
      messages := messages + [Message(size, pos, next, part.value)];
      if next == end { return Ok(()), messages; }
      pos := next;
    }
  }

  lemma Known(d: D.Disk, objs: Objects, fid: nat)
    requires D.Inv(d, objs)
    ensures fid in d.confirmed <==> fid in objs
    ensures fid in objs ==>
              ReadRef(d.slots, d.grid, d.confirmed[fid]) == Ok(objs[fid]) && |objs[fid]| == d.confirmed[fid].size
  {
    hide Backed, D.Recs, D.LogIs, TablesOk, MeaningOf, Packing, D.TailClean, Extent;
    if fid in objs {
      assert Backed(d.slots, d.grid, D.Recs(d), fid, d.confirmed[fid]);
    }
  }
}
