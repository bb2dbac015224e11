/** Streaming an object of declared size into its extent: the aligned writer that
    pads its last chunk, and the plain one that writes the data and then the zeros.
    Both leave the same bytes, and both refuse a stream of any other length. */
module StreamWriter {
  import opened Layout
  import opened DiskState

  const DIRECT_CHUNK_BYTES := 0x10_0000
  const CHUNK_SIZE := 0x40_0000

  /** What the reader yields: its bytes, then the end of the stream or a failure. */
  datatype Stream = Stream(bytes: seq<byte>, clean: bool)

  /** How far the device gets with one write of a given length at a given offset. */
  type Pace = (nat, nat) -> nat

  /** The stream ends properly after exactly n bytes. */
  predicate Exact(s: Stream, n: nat) { s.clean && |s.bytes| == n }

  /** The extent's bytes after an object is written: data, then zeros to the end. */
  function Laid(s: Stream, n: nat, total: nat): (p: seq<byte>)
    requires n <= total
    ensures |p| == total
  {
    var data := if |s.bytes| < n then s.bytes else s.bytes[..n];
    data + Zeros(total - |data|)
  }

  // ----- what the device takes -----

  /** One write never gets further than it is long. */
  function Advance(pace: Pace, off: nat, n: nat): (k: nat)
    ensures k <= n
  {
    if pace(off, n) < n then pace(off, n) else n
  }

  /** How far writing on after each partial write gets, until a write gets nowhere. */
  function Reach(pace: Pace, off: nat, n: nat): (k: nat)
    ensures k <= n
    decreases n
  {
    var k := Advance(pace, off, n);
    if k == 0 then 0 else k + Reach(pace, off + k, n - k)
  }

  function ChunkAt(total: nat, pos: nat, size: nat): nat
    requires pos <= total
  {
    if total - pos < size then total - pos else size
  }

  /** Every aligned chunk from pos on is written in the end. */
  predicate TakesDirect(pace: Pace, addr: nat, total: nat, pos: nat)
    requires pos <= total
    decreases total - pos
  {
    pos == total
    || (var n := ChunkAt(total, pos, DIRECT_CHUNK_BYTES);
        Reach(pace, addr + pos, n) == n && TakesDirect(pace, addr, total, pos + n))
  }

  /** Every plain chunk from pos on is written at the first attempt. */
  predicate TakesPlain(pace: Pace, addr: nat, total: nat, pos: nat)
    requires pos <= total
    decreases total - pos
  {
    pos == total
    || (var n := ChunkAt(total, pos, CHUNK_SIZE);
        Advance(pace, addr + pos, n) == n && TakesPlain(pace, addr, total, pos + n))
  }

  /** The device takes an object of the given size at addr by the writer in use. */
  predicate Takes(pace: Pace, direct: bool, addr: nat, realSize: nat, total: nat)
    requires realSize <= total
  {
    if direct then TakesDirect(pace, addr, total, 0)
    else TakesPlain(pace, addr, realSize, 0) && TakesPlain(pace, addr + realSize, total - realSize, 0)
  }

  /** One write at a, up to the end at most, gets to b. */
  predicate Moves(pace: Pace, end: nat, a: nat, b: nat) {
    a < b <= end && (b == a + pace(a, end - a) || (b == end && pace(a, end - a) >= end - a))
  }

  /** Positions from one write to the next, until the end is reached. */
  ghost predicate Path(pace: Pace, off: nat, end: nat, steps: seq<nat>) {
    && steps != [] && steps[0] == off && steps[|steps| - 1] == end
    && forall i :: 0 < i < |steps| ==> Moves(pace, end, steps[i - 1], steps[i])
  }

  /** From off the device gets to the end, however many writes it takes. */
  ghost predicate GetsTo(pace: Pace, off: nat, end: nat) {
    exists steps :: Path(pace, off, end, steps)
  }

  lemma MovesIs(pace: Pace, off: nat, n: nat, b: nat)
    ensures Moves(pace, off + n, off, b) <==> Advance(pace, off, n) > 0 && b == off + Advance(pace, off, n)
  {}

  lemma PathRest(pace: Pace, off: nat, end: nat, steps: seq<nat>)
    requires Path(pace, off, end, steps) && off != end
    ensures |steps| > 1 && Path(pace, steps[1], end, steps[1..]) && Moves(pace, end, off, steps[1])
  {
    hide Moves;
    var rest := steps[1..];
    forall i | 0 < i < |rest| ensures Moves(pace, end, rest[i - 1], rest[i]) {
      assert Moves(pace, end, steps[i + 1 - 1], steps[i + 1]);
    }
    assert Moves(pace, end, steps[1 - 1], steps[1]);
  }

  lemma PathMore(pace: Pace, off: nat, next: nat, end: nat, rest: seq<nat>)
    requires Path(pace, next, end, rest) && Moves(pace, end, off, next)
    ensures Path(pace, off, end, [off] + rest)
  {
    hide Moves;
    var steps := [off] + rest;
    forall i | 0 < i < |steps| ensures Moves(pace, end, steps[i - 1], steps[i]) {
      assert steps[i] == rest[i - 1];
      if i > 1 { assert steps[i - 1] == rest[i - 2]; }
    }
  }

  lemma PathStep(pace: Pace, off: nat, n: nat)
    requires n > 0
    ensures GetsTo(pace, off, off + n)
            <==> Advance(pace, off, n) > 0 && GetsTo(pace, off + Advance(pace, off, n), off + n)
  {
    hide Path, Moves, Advance;
    var next, end := off + Advance(pace, off, n), off + n;
    MovesIs(pace, off, n, next);
    if GetsTo(pace, off, end) {
      var steps :| Path(pace, off, end, steps);
      PathRest(pace, off, end, steps);
      MovesIs(pace, off, n, steps[1]);
    }
    if Advance(pace, off, n) > 0 && GetsTo(pace, next, end) {
      var rest :| Path(pace, next, end, rest);
      PathMore(pace, off, next, end, rest);
    }
  }

  lemma PathNone(pace: Pace, off: nat)
    ensures GetsTo(pace, off, off)
  {
    assert Path(pace, off, off, [off]);
  }

  lemma {:induction false} ReachGets(pace: Pace, off: nat, n: nat)
    ensures Reach(pace, off, n) == n <==> GetsTo(pace, off, off + n)
    decreases n
  {
    hide Advance, GetsTo;
    if n == 0 {
      PathNone(pace, off);
    } else {
      PathStep(pace, off, n);
      var k := Advance(pace, off, n);
      if k > 0 { ReachGets(pace, off + k, n - k); }
    }
  }

  /** A chunk starts at pos, a whole number of chunks from the start. */
  predicate ChunkStart(total: nat, size: nat, pos: nat) { pos < total && size > 0 && pos % size == 0 }

  /** The aligned writer is taken exactly if from the start of every chunk the device gets
      to its end. */
  lemma TakesDirectExactly(pace: Pace, addr: nat, total: nat)
    ensures TakesDirect(pace, addr, total, 0)
            <==> forall pos :: ChunkStart(total, DIRECT_CHUNK_BYTES, pos) ==>
                   GetsTo(pace, addr + pos, addr + pos + ChunkAt(total, pos, DIRECT_CHUNK_BYTES))
  {
    hide GetsTo;
    DirectFrom(pace, addr, total, 0);
  }

  lemma {:induction false} DirectFrom(pace: Pace, addr: nat, total: nat, from: nat)
    requires from <= total && (from % DIRECT_CHUNK_BYTES == 0 || from == total)
    ensures TakesDirect(pace, addr, total, from)
            <==> forall pos :: from <= pos && ChunkStart(total, DIRECT_CHUNK_BYTES, pos) ==>
                   GetsTo(pace, addr + pos, addr + pos + ChunkAt(total, pos, DIRECT_CHUNK_BYTES))
    decreases total - from
  {
    hide GetsTo, Reach;
    if from < total {
      var n := ChunkAt(total, from, DIRECT_CHUNK_BYTES);
      ReachGets(pace, addr + from, n);
      DirectFrom(pace, addr, total, from + n);
      assert ChunkStart(total, DIRECT_CHUNK_BYTES, from);
      forall pos | from < pos && ChunkStart(total, DIRECT_CHUNK_BYTES, pos) ensures from + n <= pos {
        NoChunkBetween(from, pos, DIRECT_CHUNK_BYTES);
      }
    }
  }

  lemma NoChunkBetween(a: nat, b: nat, size: nat)
    requires size > 0 && a % size == 0 && b % size == 0 && a < b
    ensures a + size <= b
  {
    var d := b / size - a / size;
    assert b == a + d * size;
    ProductFar(d, size);
    if d >= 1 { assert d * size >= size; }
  }

  /** The plain writer is taken exactly if the device writes every chunk at once. */
  lemma TakesPlainExactly(pace: Pace, addr: nat, total: nat)
    ensures TakesPlain(pace, addr, total, 0)
            <==> forall pos :: ChunkStart(total, CHUNK_SIZE, pos) ==>
                   pace(addr + pos, ChunkAt(total, pos, CHUNK_SIZE)) >= ChunkAt(total, pos, CHUNK_SIZE)
  {
    PlainFrom(pace, addr, total, 0);
  }

  lemma {:induction false} PlainFrom(pace: Pace, addr: nat, total: nat, from: nat)
    requires from <= total && (from % CHUNK_SIZE == 0 || from == total)
    ensures TakesPlain(pace, addr, total, from)
            <==> forall pos :: from <= pos && ChunkStart(total, CHUNK_SIZE, pos) ==>
                   pace(addr + pos, ChunkAt(total, pos, CHUNK_SIZE)) >= ChunkAt(total, pos, CHUNK_SIZE)
    decreases total - from
  {
    if from < total {
      var n := ChunkAt(total, from, CHUNK_SIZE);
      PlainFrom(pace, addr, total, from + n);
      assert ChunkStart(total, CHUNK_SIZE, from);
      forall pos | from < pos && ChunkStart(total, CHUNK_SIZE, pos) ensures from + n <= pos {
        NoChunkBetween(from, pos, CHUNK_SIZE);
      }
    }
  }

  /** A device that never writes short. */
  ghost predicate Full(pace: Pace) { forall off, n :: pace(off, n) >= n }

  lemma {:induction false} FullTakesDirect(pace: Pace, addr: nat, total: nat, pos: nat)
    requires Full(pace) && pos <= total
    ensures TakesDirect(pace, addr, total, pos)
    decreases total - pos
  {
    if pos < total {
      var n := ChunkAt(total, pos, DIRECT_CHUNK_BYTES);
      assert pace(addr + pos, n) >= n;
      assert Reach(pace, addr + pos + n, 0) == 0;
      FullTakesDirect(pace, addr, total, pos + n);
    }
  }

  lemma {:induction false} FullTakesPlain(pace: Pace, addr: nat, total: nat, pos: nat)
    requires Full(pace) && pos <= total
    ensures TakesPlain(pace, addr, total, pos)
    decreases total - pos
  {
    if pos < total {
      var n := ChunkAt(total, pos, CHUNK_SIZE);
      assert pace(addr + pos, n) >= n;
      FullTakesPlain(pace, addr, total, pos + n);
    }
  }

  /** On a device that never writes short both writers accept every object. */
  lemma FullTakes(pace: Pace, direct: bool, addr: nat, realSize: nat, total: nat)
    requires Full(pace) && realSize <= total
    ensures Takes(pace, direct, addr, realSize, total)
  {
    FullTakesDirect(pace, addr, total, 0);
    FullTakesPlain(pace, addr, realSize, 0);
    FullTakesPlain(pace, addr + realSize, total - realSize, 0);
  }

  // ----- splicing -----

  lemma SpliceTwice(file: seq<byte>, at: nat, a: seq<byte>, b: seq<byte>)
    requires at + |a| + |b| <= |file|
    ensures |Splice(file, at, a)| == |file|
    ensures Splice(Splice(file, at, a), at + |a|, b) == Splice(file, at, a + b)
  {}

  lemma SpliceNothing(file: seq<byte>, at: nat)
    requires at <= |file|
    ensures Splice(file, at, []) == file
  {}

  /** One more piece of p has been written. */
  lemma Extend(before: seq<byte>, file: seq<byte>, at: nat, p: seq<byte>, w: nat, n: nat)
    requires w + n <= |p| && at + w + n <= |file|
    requires before == Splice(file, at, p[..w])
    ensures Splice(before, at + w, p[w..w + n]) == Splice(file, at, p[..w + n])
  {
    SpliceTwice(file, at, p[..w], p[w..w + n]);
    assert p[..w] + p[w..w + n] == p[..w + n];
  }

  // ----- the device's writes -----

  method WriteAt(f: array<byte>, b: seq<byte>, off: nat, pace: Pace) returns (n: nat)
    requires off + |b| <= f.Length
    modifies f
    ensures n == Advance(pace, off, |b|) && f[..] == Splice(old(f[..]), off, b[..n])
  {
    n := Advance(pace, off, |b|);
    for i := 0 to n
      invariant forall k :: 0 <= k < f.Length ==> f[k] == if off <= k < off + i then b[k - off] else old(f[k])
    {
      f[off + i] := b[i];
    }
  }

  /** One aligned chunk, written on through partial writes until everything is written
      or the device makes no progress. The device demands the alignment. */
  method WriteAllAt(f: array<byte>, b: seq<byte>, off: nat, pace: Pace) returns (ok: bool)
    requires off + |b| <= f.Length && off % SLOT_SIZE == 0 && |b| % SLOT_SIZE == 0
    modifies f
    ensures ok <==> Reach(pace, off, |b|) == |b|
    ensures f[..] == Splice(old(f[..]), off, b[..Reach(pace, off, |b|)])
  {
    hide Splice, Advance;
    var rest, at := b, off;
    ghost var done := 0;
    SpliceNothing(f[..], off);
    while |rest| > 0
      invariant done <= |b| && rest == b[done..] && at == off + done
      invariant f[..] == Splice(old(f[..]), off, b[..done])
      invariant Reach(pace, off, |b|) == done + Reach(pace, at, |rest|)
      decreases |rest|
    {
      ghost var before := f[..];
      var n := WriteAt(f, rest, at, pace);
      Stalls(pace, at, |rest|);
      assert rest[..n] == b[done..done + n];
      Extend(before, old(f[..]), off, b, done, n);
      done := done + n;
      if n == 0 { return false; }
      at, rest := at + n, rest[n..];
    }
    Stalls(pace, at, 0);
    return true;
  }

  lemma Stalls(pace: Pace, off: nat, n: nat)
    ensures Advance(pace, off, n) <= n
    ensures Reach(pace, off, n) == if Advance(pace, off, n) == 0 then 0
                                   else Advance(pace, off, n) + Reach(pace, off + Advance(pace, off, n),
                                     n - Advance(pace, off, n))
  {}

  // ----- the aligned writer -----

  /** The aligned writer accepts exactly a stream of the declared length that the
      device takes, and then leaves the data and zeros to the extent's end; it never
      changes anything outside the extent, and writes aligned chunks only. */
  method WriteStreamDirect(f: array<byte>, addr: nat, realSize: nat, total: nat, s: Stream, pace: Pace)
    returns (r: Result<()>, ghost written: nat)
    requires 0 < realSize <= total && addr + total <= f.Length && addr % SLOT_SIZE == 0
    modifies f
    ensures r.Ok? <==> total % SLOT_SIZE == 0 && Exact(s, realSize) && TakesDirect(pace, addr, total, 0)
    ensures written <= total && f[..] == Splice(old(f[..]), addr, Laid(s, realSize, total)[..written])
    ensures r.Ok? ==> written == total && Filled(old(f[..]), f[..], addr, s.bytes, total)
  {
    hide Splice, Laid, Exact, Reach, Filled;
    written := 0;
    SpliceNothing(f[..], addr);
    if total % SLOT_SIZE != 0 { return Err(BadStream("size not aligned")), written; }
    var pos := 0;
    while pos < total
      invariant pos <= total && written == pos && pos % SLOT_SIZE == 0
      invariant if pos < realSize then pos <= |s.bytes| else Exact(s, realSize)
      invariant f[..] == Splice(old(f[..]), addr, Laid(s, realSize, total)[..written])
      invariant TakesDirect(pace, addr, total, 0) == TakesDirect(pace, addr, total, pos)
    {
      var chunkLen := ChunkAt(total, pos, DIRECT_CHUNK_BYTES);
      var chunk := ReadChunk(s, realSize, total, pos, chunkLen);
      if chunk.Err? { return Err(chunk.error), written; }
      var buf := chunk.value;
      NextChunk(addr, pos, total);
      ghost var before := f[..];
      var ok := WriteAllAt(f, buf, addr + pos, pace);
      ghost var done := Reached(pace, addr + pos, chunkLen);
      written := pos + done;
      assert buf[..done] == Laid(s, realSize, total)[pos..pos + done];
      Extend(before, old(f[..]), addr, Laid(s, realSize, total), pos, done);
      if !ok { return Err(SyncFailed), written; }
      pos := pos + chunkLen;
    }
    LaidFills(old(f[..]), addr, s, realSize, total);
    return Ok(()), written;
  }

  lemma NextChunk(addr: nat, pos: nat, total: nat)
    requires total % SLOT_SIZE == 0 && pos % SLOT_SIZE == 0 && pos < total && addr % SLOT_SIZE == 0
    ensures var n := ChunkAt(total, pos, DIRECT_CHUNK_BYTES);
            n > 0 && n % SLOT_SIZE == 0 && (pos + n) % SLOT_SIZE == 0 && (addr + pos) % SLOT_SIZE == 0
  {}

  lemma Reached(pace: Pace, off: nat, n: nat) returns (k: nat)
    ensures k == Reach(pace, off, n) <= n
  {
    k := Reach(pace, off, n);
  }

  /** Fills one chunk from the stream and clears its tail; the chunk with the last
      declared byte also checks that the stream is over. */
  method ReadChunk(s: Stream, realSize: nat, total: nat, pos: nat, chunkLen: nat) returns (r: Result<seq<byte>>)
    requires 0 < realSize <= total && 0 < chunkLen && pos + chunkLen <= total
    requires if pos < realSize then pos <= |s.bytes| else Exact(s, realSize)
    ensures r.Err? ==> !Exact(s, realSize)
    ensures r.Ok? ==> |r.value| == chunkLen && r.value == Laid(s, realSize, total)[pos..pos + chunkLen]
    ensures r.Ok? ==> if pos + chunkLen < realSize then pos + chunkLen <= |s.bytes| else Exact(s, realSize)
  {
    hide Laid;
    var buf: seq<byte> := [];
    if pos < realSize {
      var want := if realSize - pos > chunkLen then chunkLen else realSize - pos;
      if |s.bytes| - pos < want { return Err(BadStream("stream ended early")); }
      buf := s.bytes[pos..pos + want];
      if pos + want == realSize {
        if |s.bytes| > realSize { return Err(BadStream("stream too long")); }
        if !s.clean { return Err(BadStream("finish stream")); }
      }
    }
    buf := buf + Zeros(chunkLen - |buf|);
    ChunkIs(s, realSize, total, pos, chunkLen, buf);
    return Ok(buf);
  }

  /** A chunk, its tail cleared, is the matching piece of the padded object. */
  lemma ChunkIs(s: Stream, realSize: nat, total: nat, pos: nat, chunkLen: nat, buf: seq<byte>)
    requires realSize <= total && pos + chunkLen <= total && |buf| == chunkLen
    requires |s.bytes| >= realSize || pos + chunkLen <= |s.bytes|
    requires forall k :: 0 <= k < chunkLen ==>
               buf[k] == if pos + k < realSize && pos + k < |s.bytes| then s.bytes[pos + k] else 0
    ensures buf == Laid(s, realSize, total)[pos..pos + chunkLen]
  {}

  // ----- the plain writer -----

  /** The data: chunk by chunk, then one more read to see that the stream is over. */
  method WriteExact(f: array<byte>, addr: nat, total: nat, s: Stream, pace: Pace)
    returns (r: Result<()>, ghost written: nat)
    requires addr + total <= f.Length
    modifies f
    ensures r.Ok? <==> Exact(s, total) && TakesPlain(pace, addr, total, 0)
    ensures written <= total && written <= |s.bytes| && f[..] == Splice(old(f[..]), addr, s.bytes[..written])
    ensures r.Ok? ==> written == total
  {
    hide Splice, Advance;
    written := 0;
    SpliceNothing(f[..], addr);
    var pos: nat := 0;
    while pos < total
      invariant pos <= total && pos <= |s.bytes| && written == pos
      invariant f[..] == Splice(old(f[..]), addr, s.bytes[..written])
      invariant TakesPlain(pace, addr, total, 0) == TakesPlain(pace, addr, total, pos)
    {
      var want := ChunkAt(total, pos, CHUNK_SIZE);
      var got := if |s.bytes| - pos < want then |s.bytes| - pos else want;
      ghost var start := pos;
      if got > 0 {
        ghost var before := f[..];
        var n := WriteAt(f, s.bytes[pos..pos + got], addr + pos, pace);
        Stalls(pace, addr + pos, got);
        assert s.bytes[pos..pos + got][..n] == s.bytes[pos..pos + n];
        Extend(before, old(f[..]), addr, s.bytes, pos, n);
        written := pos + n;
        if n != got { return Err(SyncFailed), written; }
        pos := pos + got;
      }
      if got < want { return Err(BadStream("stream ended early")), written; }
      assert TakesPlain(pace, addr, total, start) == TakesPlain(pace, addr, total, pos);
    }
    if |s.bytes| > total { return Err(BadStream("stream too long")), written; }
    if !s.clean { return Err(BadStream("finish stream")), written; }
    return Ok(()), written;
  }

  method WriteZeros(f: array<byte>, addr: nat, length: nat, pace: Pace) returns (r: Result<()>, ghost written: nat)
    requires addr + length <= f.Length
    modifies f
    ensures r.Ok? <==> TakesPlain(pace, addr, length, 0)
    ensures written <= length && f[..] == Splice(old(f[..]), addr, Zeros(written))
    ensures r.Ok? ==> written == length
  {
    hide Splice, Zeros, Advance;
    written := 0;
    var pos := 0;
    ZerosJoin(0, 0);
    SpliceNothing(f[..], addr);
    while pos < length
      invariant pos <= length && written == pos && f[..] == Splice(old(f[..]), addr, Zeros(written))
      invariant TakesPlain(pace, addr, length, 0) == TakesPlain(pace, addr, length, pos)
    {
      var want := ChunkAt(length, pos, CHUNK_SIZE);
      ZerosJoin(0, want);
      var n := WriteAt(f, Zeros(want), addr + pos, pace);
      Stalls(pace, addr + pos, want);
      ZerosJoin(n, want - n);
      ZerosJoin(pos, n);
      SpliceTwice(old(f[..]), addr, Zeros(pos), Zeros(n));
      written := pos + n;
      if n != want { return Err(SyncFailed), written; }
      pos := pos + want;
    }
    return Ok(()), written;
  }

  lemma ZerosJoin(a: nat, b: nat)
    ensures |Zeros(a)| == a && |Zeros(b)| == b && Zeros(a) + Zeros(b) == Zeros(a + b) && Zeros(a + b)[..a] == Zeros(a)
    ensures Zeros(0) == []
  {}

  /** The plain writer as a whole: like the aligned one it accepts exactly a stream of
      the declared length that the device takes, and leaves the same bytes. */
  method WritePlainly(f: array<byte>, addr: nat, realSize: nat, total: nat, s: Stream, pace: Pace)
    returns (r: Result<()>, ghost written: nat)
    requires 0 < realSize <= total && addr + total <= f.Length
    modifies f
    ensures r.Ok? <==> Exact(s, realSize) && Takes(pace, false, addr, realSize, total)
    ensures written <= total && f[..] == Splice(old(f[..]), addr, Laid(s, realSize, total)[..written])
    ensures r.Ok? ==> written == total && Filled(old(f[..]), f[..], addr, s.bytes, total)
  {
    hide Splice, Zeros, Filled;
    r, written := WriteExact(f, addr, realSize, s, pace);
    LaidStarts(s, realSize, total, written);
    if r.Err? { return; }
    if total - realSize > 0 {
      ghost var pad := 0;
      r, pad := WriteZeros(f, addr + realSize, total - realSize, pace);
      LaidPads(s, realSize, total, pad);
      SpliceTwice(old(f[..]), addr, s.bytes[..realSize], Zeros(pad));
      written := realSize + pad;
    }
    if r.Ok? { LaidFills(old(f[..]), addr, s, realSize, total); }
  }

  /** The padded object in place: the data, zeros behind it, everything else as before. */
  lemma LaidFills(file: seq<byte>, addr: nat, s: Stream, realSize: nat, total: nat)
    requires realSize <= total && addr + total <= |file| && Exact(s, realSize)
    ensures Filled(file, Splice(file, addr, Laid(s, realSize, total)[..total]), addr, s.bytes, total)
  {}

  lemma LaidStarts(s: Stream, realSize: nat, total: nat, n: nat)
    requires realSize <= total && n <= realSize && n <= |s.bytes|
    ensures Laid(s, realSize, total)[..n] == s.bytes[..n]
  {}

  lemma LaidPads(s: Stream, realSize: nat, total: nat, pad: nat)
    requires realSize + pad <= total && |s.bytes| == realSize
    ensures Laid(s, realSize, total)[..realSize + pad] == s.bytes[..realSize] + Zeros(pad)
  {}
}
