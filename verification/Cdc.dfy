/** Chunked files: the descriptors collected in any order of completion, and the
    reassembly of any range from the chunks that overlap it. */
module Cdc {
  import opened Layout
  import opened Sorting
  import opened Store

  datatype Chunk = Chunk(fid: nat, offset: nat, size: nat)

  /** The chunks follow each other without gap and cover size bytes. */
  predicate Tile(chunks: seq<Chunk>, size: nat) {
    && (if chunks == [] then size == 0 else chunks[0].offset == 0 && End(chunks[|chunks| - 1]) == size)
    && (forall i :: 0 <= i < |chunks| ==> chunks[i].size > 0)
    && (forall i :: 0 <= i < |chunks| - 1 ==> chunks[i + 1].offset == End(chunks[i]))
  }

  function End(c: Chunk): nat { c.offset + c.size }

  ghost predicate ByOffset(chunks: seq<Chunk>) { Ascending(chunks, OffsetOf) }

  function OffsetOf(c: Chunk): nat { c.offset }

  lemma {:induction false} TileOrdered(chunks: seq<Chunk>, size: nat, i: nat, j: nat)
    requires Tile(chunks, size) && i < j < |chunks|
    ensures End(chunks[i]) <= chunks[j].offset
    decreases j - i
  {
    if i + 1 < j { TileOrdered(chunks, size, i, j - 1); }
  }

  // ----- collecting the descriptors -----

  datatype ChunkResult = ChunkResult(desc: Chunk, isDup: bool)

  function Descs(results: seq<ChunkResult>): (d: seq<Chunk>)
    ensures |d| == |results| && forall i :: 0 <= i < |d| ==> d[i] == results[i].desc
  {
    seq(|results|, i requires 0 <= i < |results| => results[i].desc)
  }

  function TotalSize(chunks: seq<Chunk>): nat {
    if chunks == [] then 0 else TotalSize(chunks[..|chunks| - 1]) + chunks[|chunks| - 1].size
  }

  lemma {:induction false} TileTotal(chunks: seq<Chunk>, size: nat)
    requires Tile(chunks, size)
    ensures TotalSize(chunks) == size
  {
    if chunks != [] {
      var front, last := chunks[..|chunks| - 1], chunks[|chunks| - 1];
      if front != [] { assert front[|front| - 1] == chunks[|front| - 1]; }
      TileTotal(front, last.offset);
    }
  }

  lemma SameMembers(a: seq<Chunk>, b: seq<Chunk>)
    requires multiset(a) == multiset(b)
    ensures forall c :: c in a <==> c in b
  {
    forall c ensures c in a <==> c in b { assert c in multiset(a) <==> c in multiset(b); }
  }

  lemma MultisetLength(a: seq<Chunk>, b: seq<Chunk>)
    requires multiset(a) == multiset(b)
    ensures |a| == |b|
  {
    assert |multiset(a)| == |a| && |multiset(b)| == |b|;
  }

  /** The first n results that were, or were not, duplicates. */
  function Those(results: seq<ChunkResult>, n: nat, dup: bool): set<nat>
    requires n <= |results|
  {
    set i: nat | i < n && results[i].isDup == dup
  }

  lemma OneMore(results: seq<ChunkResult>, n: nat, dup: bool)
    requires n < |results|
    ensures |Those(results, n + 1, dup)| == |Those(results, n, dup)| + (if results[n].isDup == dup then 1 else 0)
  {
    var before, after := Those(results, n, dup), Those(results, n + 1, dup);
    assert after == if results[n].isDup == dup then before + {n} else before;
  }

  lemma NoneThose(results: seq<ChunkResult>)
    ensures |Those(results, 0, true)| == 0 && |Those(results, 0, false)| == 0
  {
    assert Those(results, 0, true) == {} && Those(results, 0, false) == {};
  }

  /** Whatever the order in which the uploads finish, sorting restores the list of the
      chunks, so the manifest's chunks tile the file; every chunk is counted
      once, as a duplicate or as an upload. */
  method CollectDescriptors(arrived: seq<ChunkResult>, ghost chunks: seq<Chunk>, ghost size: nat)
    returns (results: seq<Chunk>, total: nat, dedupCount: nat, uploadCount: nat)
    requires Tile(chunks, size) && multiset(Descs(arrived)) == multiset(chunks)
    ensures results == chunks && total == size && dedupCount + uploadCount == |chunks|
    ensures dedupCount == |Those(arrived, |arrived|, true)| && uploadCount == |Those(arrived, |arrived|, false)|
  {
    hide Tile, Those, Ascending, TotalSize;
    NoneYet();
    TileByOffset(chunks, size);
    NoneThose(arrived);
    results, dedupCount, uploadCount := [], 0, 0;
    for i := 0 to |arrived|
      invariant ByOffset(results) && multiset(results) == multiset(Descs(arrived)[..i])
      invariant dedupCount + uploadCount == i
      invariant dedupCount == |Those(arrived, i, true)| && uploadCount == |Those(arrived, i, false)|
    {
      assert Descs(arrived)[..i + 1] == Descs(arrived)[..i] + [arrived[i].desc];
      NotYetThere(Descs(arrived), i, chunks);
      OneMore(arrived, i, true);
      OneMore(arrived, i, false);
      forall q | q in results ensures q.offset != arrived[i].desc.offset {
        assert q in multiset(results);
        assert q in Descs(arrived)[..i];
      }
      results := Insert(results, arrived[i].desc, OffsetOf);
      if arrived[i].isDup { dedupCount := dedupCount + 1; } else { uploadCount := uploadCount + 1; }
    }
    assert Descs(arrived)[..|arrived|] == Descs(arrived);
    SameMembers(results, chunks);
    SortedUnique(results, chunks, OffsetOf);
    MultisetLength(Descs(arrived), chunks);
    total := SumSizes(results);
    TileTotal(chunks, size);
  }

  method SumSizes(chunks: seq<Chunk>) returns (total: nat)
    ensures total == TotalSize(chunks)
  {
    total := 0;
    for i := 0 to |chunks|
      invariant total == TotalSize(chunks[..i])
    {
      assert chunks[..i + 1][..i] == chunks[..i];
      total := total + chunks[i].size;
    }
    assert chunks[..|chunks|] == chunks;
  }

  lemma NoneYet()
    ensures Ascending([], OffsetOf)
  {}

  lemma TileByOffset(chunks: seq<Chunk>, size: nat)
    requires Tile(chunks, size)
    ensures ByOffset(chunks)
  {
    forall i, j | 0 <= i < j < |chunks| ensures chunks[i].offset < chunks[j].offset {
      TileOrdered(chunks, size, i, j);
    }
  }

  /** Each chunk arrives once: no earlier arrival has its offset. */
  lemma NotYetThere(arrived: seq<Chunk>, n: nat, chunks: seq<Chunk>)
    requires n < |arrived| && multiset(arrived) == multiset(chunks) && ByOffset(chunks)
    ensures forall q :: q in arrived[..n] ==> q.offset != arrived[n].offset
  {
    forall q | q in arrived[..n] ensures q.offset != arrived[n].offset {
      if q.offset == arrived[n].offset {
        var x := arrived[n];
        assert q in multiset(arrived) && x in multiset(arrived);
        assert q in multiset(chunks) && x in multiset(chunks);
        var i :| 0 <= i < |chunks| && chunks[i] == q;
        var j :| 0 <= j < |chunks| && chunks[j] == x;
        assert q == x;
        assert arrived == arrived[..n] + [x] + arrived[n + 1..];
        assert multiset(arrived)[x] >= 2;
        Once(chunks, x);
      }
    }
  }

  lemma {:induction false} Once(chunks: seq<Chunk>, c: Chunk)
    requires ByOffset(chunks)
    ensures multiset(chunks)[c] <= 1
  {
    if chunks != [] {
      var front, last := chunks[..|chunks| - 1], chunks[|chunks| - 1];
      assert chunks == front + [last];
      Once(front, c);
      if c == last { assert c !in front; }
    }
  }

  // ----- reassembly -----

  /** A chunk that can be fetched yields its bytes of the file. */
  ghost predicate ContentStored(chunks: seq<Chunk>, store: Objects, file: seq<byte>) {
    forall i :: 0 <= i < |chunks| ==>
      && End(chunks[i]) <= |file|
      && (chunks[i].fid in store ==> store[chunks[i].fid] == file[chunks[i].offset..End(chunks[i])])
  }

  predicate OverlapsRange(c: Chunk, start: nat, end: nat) { End(c) > start && c.offset < end }

  /** The part of [start, end) that lies before position n. */
  function Upto(file: seq<byte>, start: nat, end: nat, n: nat): seq<byte>
    requires end <= |file|
  {
    var stop := if n < end then n else end;
    if start < stop then file[start..stop] else []
  }

  /** A range read writes exactly that slice of the file, an end of 0 or beyond the file
      meaning its end, and fetches exactly the chunks that overlap it; it fails exactly if
      one of those cannot be fetched. */
  method GetCDC(chunks: seq<Chunk>, totalSize: nat, store: Objects, hasRange: bool, wantStart: nat, wantEnd: nat,
                ghost file: seq<byte>)
    returns (r: Option<seq<byte>>, fetched: seq<nat>)
    requires Tile(chunks, totalSize) && |file| == totalSize && ContentStored(chunks, store, file)
    ensures var end := if !hasRange || wantEnd == 0 || wantEnd > totalSize then totalSize else wantEnd;
            var start := if hasRange then wantStart else 0;
            && (r.Some? <==> start >= end || forall i :: 0 <= i < |chunks| && OverlapsRange(chunks[i], start, end) ==>
                               chunks[i].fid in store)
            && (r.Some? ==>
                  && r == Some(if start < end then file[start..end] else [])
                  && forall i :: i in fetched <==>
                       start < end && 0 <= i < |chunks| && OverlapsRange(chunks[i], start, end))
  {
    var rangeStart, rangeEnd := 0, totalSize;
    fetched := [];
    if hasRange {
      rangeStart, rangeEnd := wantStart, if wantEnd == 0 || wantEnd > totalSize then totalSize else wantEnd;
      if rangeStart >= rangeEnd { return Some([]), fetched; }
    }
    var out: seq<byte> := [];
    for i := 0 to |chunks|
      invariant out == Upto(file, rangeStart, rangeEnd, Reached(chunks, i))
      invariant forall k :: k in fetched <==> 0 <= k < i && OverlapsRange(chunks[k], rangeStart, rangeEnd)
      invariant forall k :: 0 <= k < i && OverlapsRange(chunks[k], rangeStart, rangeEnd) ==> chunks[k].fid in store
    {
      var ch := chunks[i];
      assert Reached(chunks, i) == ch.offset;
      if !(End(ch) <= rangeStart || ch.offset >= rangeEnd) {
        if ch.fid !in store { return None, fetched; }
        fetched := fetched + [i];
        var chunkData := store[ch.fid];
        var sliceStart := if rangeStart > ch.offset then rangeStart - ch.offset else 0;
        var sliceEnd := if rangeEnd < End(ch) then rangeEnd - ch.offset else ch.size;
        if sliceStart < sliceEnd && sliceEnd <= |chunkData| {
          WindowIs(file, ch, rangeStart, rangeEnd, sliceStart, sliceEnd);
          out := out + chunkData[sliceStart..sliceEnd];
        }
      }
    }
    return Some(out), fetched;
  }

  /** How far into the file the first n chunks reach. */
  function Reached(chunks: seq<Chunk>, n: nat): nat
    requires n <= |chunks|
  {
    if n == 0 then 0 else End(chunks[n - 1])
  }

  lemma WindowIs(file: seq<byte>, ch: Chunk, start: nat, end: nat, a: nat, b: nat)
    requires End(ch) <= |file| && end <= |file| && a < b <= ch.size
    requires a == if start > ch.offset then start - ch.offset else 0
    requires b == if end < End(ch) then end - ch.offset else ch.size
    requires OverlapsRange(ch, start, end)
    ensures Upto(file, start, end, ch.offset) + file[ch.offset..End(ch)][a..b] == Upto(file, start, end, End(ch))
  {
    SliceOfSlice(file, ch.offset, End(ch), a, b);
  }
}
