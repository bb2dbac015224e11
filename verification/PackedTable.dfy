/** The packed table: the object that lists which slices of a container hold
    which packed objects. Two readers exist, the decoder and the scrub validator. */
module PackedTable {
  import opened Layout
  import opened IndexEntry

  const MAGIC: seq<byte> := [78, 66, 80, 84]
  const VERSION := 1
  const TABLE_HEADER_SIZE := 48
  const TABLE_ENTRY_SIZE := 24

  datatype Header = Header(diskID: nat, containerFid: nat, containerSize: nat, entryCount: nat, reserved: nat)

  datatype TableEntry = TableEntry(fid: nat, offset: nat, size: nat)

  predicate HeaderFits(h: Header) {
    h.diskID < TWO_64 && h.containerFid < TWO_64 && h.containerSize < TWO_64 && h.reserved < TWO_64
  }

  predicate EntryFits(e: TableEntry) { e.fid < TWO_64 && e.offset < TWO_64 && e.size < TWO_64 }

  function EncodeHeader(h: Header, count: nat): (s: seq<byte>)
    ensures |s| == TABLE_HEADER_SIZE
  {
    MAGIC + LittleEndian(VERSION, 2) + LittleEndian(TABLE_HEADER_SIZE, 2)
    + LittleEndian(h.diskID, 8) + LittleEndian(h.containerFid, 8) + LittleEndian(h.containerSize, 8)
    + LittleEndian(count, 8) + LittleEndian(h.reserved, 8)
  }

  function EncodeTableEntry(e: TableEntry): (s: seq<byte>)
    ensures |s| == TABLE_ENTRY_SIZE
  {
    LittleEndian(e.fid, 8) + LittleEndian(e.offset, 8) + LittleEndian(e.size, 8)
  }

  function EncodeEntries(es: seq<TableEntry>): (s: seq<byte>)
    ensures |s| == TABLE_ENTRY_SIZE * |es|
  {
    if es == [] then [] else EncodeEntries(es[..|es| - 1]) + EncodeTableEntry(es[|es| - 1])
  }

  function EncodeTable(h: Header, es: seq<TableEntry>): (s: seq<byte>)
    ensures |s| == TABLE_HEADER_SIZE + TABLE_ENTRY_SIZE * |es|
  {
    EncodeHeader(h, |es|) + EncodeEntries(es)
  }

  function DecodeHeader(blob: seq<byte>): Header
    requires |blob| >= TABLE_HEADER_SIZE
  {
    Header(FromLittleEndian(blob[8..16]), FromLittleEndian(blob[16..24]), FromLittleEndian(blob[24..32]),
           FromLittleEndian(blob[32..40]), FromLittleEndian(blob[40..48]))
  }

  predicate HeaderMarked(blob: seq<byte>)
    requires |blob| >= TABLE_HEADER_SIZE
  {
    && blob[..4] == MAGIC
    && FromLittleEndian(blob[4..6]) == VERSION
    && FromLittleEndian(blob[6..8]) == TABLE_HEADER_SIZE
  }

  function EntryAt(blob: seq<byte>, i: nat): TableEntry
    requires TABLE_HEADER_SIZE + TABLE_ENTRY_SIZE * (i + 1) <= |blob|
  {
    var o := TABLE_HEADER_SIZE + TABLE_ENTRY_SIZE * i;
    TableEntry(FromLittleEndian(blob[o..o + 8]), FromLittleEndian(blob[o + 8..o + 16]),
               FromLittleEndian(blob[o + 16..o + 24]))
  }

  /** The range check of both readers, with the 64-bit wrap of the sum. */
  predicate EntryAccepted(e: TableEntry, containerSize: nat) {
    e.size != 0 && (e.offset + e.size) % TWO_64 <= containerSize
  }

  /** The first n entries, or the error at the first one refused. */
  function DecodeEntries(blob: seq<byte>, n: nat, containerSize: nat): Result<seq<TableEntry>>
    requires TABLE_HEADER_SIZE + TABLE_ENTRY_SIZE * n <= |blob|
  {
    if n == 0 then Ok([])
    else
      var before := DecodeEntries(blob, n - 1, containerSize);
      if before.Err? then before
      else
        var e := EntryAt(blob, n - 1);
        if EntryAccepted(e, containerSize) then Ok(before.value + [e]) else Err(BadTable("entry refused"))
  }

  datatype Table = DecodedTable(header: Header, entries: seq<TableEntry>)

  /** The length test compares with a 64-bit sum that may wrap; on a count that only
      matches by wrapping the allocation of the entries panics. */
  function DecodeTable(blob: seq<byte>): Result<Table> {
    if |blob| < TABLE_HEADER_SIZE then Err(BadTable("too small"))
    else if !HeaderMarked(blob) then Err(BadTable("magic, version or header size"))
    else
      var h := DecodeHeader(blob);
      var wanted := TABLE_HEADER_SIZE + h.entryCount * TABLE_ENTRY_SIZE;
      if |blob| != wanted % TWO_64 then Err(BadTable("length mismatch"))
      else if wanted >= TWO_64 then Err(Panics)
      else
        var es := DecodeEntries(blob, h.entryCount, h.containerSize);
        if es.Err? then Err(es.error) else Ok(DecodedTable(h, es.value))
  }

  // ----- round trips -----

  lemma Segments(a: seq<byte>, b: seq<byte>, c: seq<byte>, d: seq<byte>, e: seq<byte>, f: seq<byte>, g: seq<byte>,
                 h: seq<byte>)
    requires |a| == 4 && |b| == |c| == 2 && |d| == |e| == |f| == |g| == |h| == 8
    ensures var s := a + b + c + d + e + f + g + h;
            && s[..4] == a && s[4..6] == b && s[6..8] == c && s[8..16] == d
            && s[16..24] == e && s[24..32] == f && s[32..40] == g && s[40..48] == h
  {}

  lemma HeaderRoundTrip(h: Header, count: nat, rest: seq<byte>)
    requires HeaderFits(h) && count < TWO_64
    ensures HeaderMarked(EncodeHeader(h, count) + rest)
    ensures DecodeHeader(EncodeHeader(h, count) + rest) == h.(entryCount := count)
  {
    hide LittleEndian, FromLittleEndian, EncodeHeader, Pow256;
    var w := EncodeHeader(h, count);
    var s := w + rest;
    HeaderSlices(h, count);
    SliceOfConcat(w, rest, 0, 4);
    SliceOfConcat(w, rest, 4, 6);
    SliceOfConcat(w, rest, 6, 8);
    SliceOfConcat(w, rest, 8, 16);
    SliceOfConcat(w, rest, 16, 24);
    SliceOfConcat(w, rest, 24, 32);
    SliceOfConcat(w, rest, 32, 40);
    SliceOfConcat(w, rest, 40, 48);
    Pow256Values();
    LittleEndianRoundTrip(VERSION, 2);
    LittleEndianRoundTrip(TABLE_HEADER_SIZE, 2);
    LittleEndianRoundTrip(h.diskID, 8);
    LittleEndianRoundTrip(h.containerFid, 8);
    LittleEndianRoundTrip(h.containerSize, 8);
    LittleEndianRoundTrip(count, 8);
    LittleEndianRoundTrip(h.reserved, 8);
  }

  lemma HeaderSlices(h: Header, count: nat)
    ensures var w := EncodeHeader(h, count);
            && w[..4] == MAGIC && w[4..6] == LittleEndian(VERSION, 2) && w[6..8] == LittleEndian(TABLE_HEADER_SIZE, 2)
            && w[8..16] == LittleEndian(h.diskID, 8) && w[16..24] == LittleEndian(h.containerFid, 8)
            && w[24..32] == LittleEndian(h.containerSize, 8) && w[32..40] == LittleEndian(count, 8)
            && w[40..48] == LittleEndian(h.reserved, 8)
  {
    LittleEndianLengths(h, count);
    hide LittleEndian;
    Segments(MAGIC, LittleEndian(VERSION, 2), LittleEndian(TABLE_HEADER_SIZE, 2), LittleEndian(h.diskID, 8),
             LittleEndian(h.containerFid, 8), LittleEndian(h.containerSize, 8), LittleEndian(count, 8),
             LittleEndian(h.reserved, 8));
  }

  lemma LittleEndianLengths(h: Header, count: nat)
    ensures |LittleEndian(VERSION, 2)| == |LittleEndian(TABLE_HEADER_SIZE, 2)| == 2
    ensures |LittleEndian(h.diskID, 8)| == |LittleEndian(h.containerFid, 8)| == |LittleEndian(h.containerSize, 8)| == 8
    ensures |LittleEndian(count, 8)| == |LittleEndian(h.reserved, 8)| == 8
  {}

  lemma {:induction false} EncodedEntryAt(es: seq<TableEntry>, i: nat)
    requires i < |es|
    ensures EncodeEntries(es)[TABLE_ENTRY_SIZE * i..TABLE_ENTRY_SIZE * (i + 1)] == EncodeTableEntry(es[i])
  {
    hide EncodeTableEntry;
    var n := |es| - 1;
    SliceOfConcat(EncodeEntries(es[..n]), EncodeTableEntry(es[n]), TABLE_ENTRY_SIZE * i, TABLE_ENTRY_SIZE * (i + 1));
    if i < n {
      EncodedEntryAt(es[..n], i);
    }
  }

  lemma SliceOfEncoded(s: seq<byte>, o: nat, e: TableEntry)
    requires o + 24 <= |s| && s[o..o + 24] == EncodeTableEntry(e)
    ensures s[o..o + 8] == LittleEndian(e.fid, 8)
    ensures s[o + 8..o + 16] == LittleEndian(e.offset, 8)
    ensures s[o + 16..o + 24] == LittleEndian(e.size, 8)
  {
    hide LittleEndian;
    var w := s[o..o + 24];
    assert w[..8] == LittleEndian(e.fid, 8);
    assert w[8..16] == LittleEndian(e.offset, 8);
    assert w[16..24] == LittleEndian(e.size, 8);
    SliceOfSlice(s, o, o + 24, 0, 8);
    SliceOfSlice(s, o, o + 24, 8, 16);
    SliceOfSlice(s, o, o + 24, 16, 24);
  }

  lemma EntryAtEncoded(h: Header, es: seq<TableEntry>, i: nat)
    requires i < |es| && EntryFits(es[i])
    ensures EntryAt(EncodeTable(h, es), i) == es[i]
  {
    hide FromLittleEndian, LittleEndian;
    var e, s := es[i], EncodeTable(h, es);
    var o := TABLE_HEADER_SIZE + TABLE_ENTRY_SIZE * i;
    EncodedEntryAt(es, i);
    SliceOfEncoded(s, o, e);
    Pow256Values();
    LittleEndianRoundTrip(e.fid, 8);
    LittleEndianRoundTrip(e.offset, 8);
    LittleEndianRoundTrip(e.size, 8);
  }

  lemma {:induction false} DecodeEncodedEntries(h: Header, es: seq<TableEntry>, n: nat)
    requires n <= |es| && forall e :: e in es ==> EntryFits(e)
    ensures DecodeEntries(EncodeTable(h, es), n, h.containerSize).Ok?
            <==> forall i :: 0 <= i < n ==> EntryAccepted(es[i], h.containerSize)
    ensures DecodeEntries(EncodeTable(h, es), n, h.containerSize).Ok?
            ==> DecodeEntries(EncodeTable(h, es), n, h.containerSize).value == es[..n]
  {
    hide FromLittleEndian, LittleEndian;
    if n > 0 {
      DecodeEncodedEntries(h, es, n - 1);
      EntryAtEncoded(h, es, n - 1);
      assert es[..n] == es[..n - 1] + [es[n - 1]];
    }
  }

  /** Decoding an encoded table gives back its header and entries exactly when
      every entry passes the range check, and fails otherwise. */
  lemma DecodeAfterEncode(h: Header, es: seq<TableEntry>)
    requires HeaderFits(h) && |es| < 0x800_0000_0000_0000
    requires forall e :: e in es ==> EntryFits(e)
    ensures DecodeTable(EncodeTable(h, es)).Ok?
            <==> forall i :: 0 <= i < |es| ==> EntryAccepted(es[i], h.containerSize)
    ensures DecodeTable(EncodeTable(h, es)).Ok?
            ==> DecodeTable(EncodeTable(h, es)) == Ok(DecodedTable(h.(entryCount := |es|), es))
  {
    hide FromLittleEndian, LittleEndian;
    HeaderRoundTrip(h, |es|, EncodeEntries(es));
    DecodeEncodedEntries(h, es, |es|);
    assert es[..|es|] == es;
  }

  lemma EncodeEntryAt(blob: seq<byte>, i: nat)
    requires TABLE_HEADER_SIZE + TABLE_ENTRY_SIZE * (i + 1) <= |blob|
    ensures var o := TABLE_HEADER_SIZE + TABLE_ENTRY_SIZE * i;
            EncodeTableEntry(EntryAt(blob, i)) == blob[o..o + 24] && EntryFits(EntryAt(blob, i))
  {
    hide FromLittleEndian, LittleEndian;
    var o := TABLE_HEADER_SIZE + TABLE_ENTRY_SIZE * i;
    LittleEndianOnto(blob[o..o + 8]);
    LittleEndianOnto(blob[o + 8..o + 16]);
    LittleEndianOnto(blob[o + 16..o + 24]);
    Pow256Values();
  }

  lemma {:induction false} DecodedEntries(blob: seq<byte>, n: nat, containerSize: nat)
    requires TABLE_HEADER_SIZE + TABLE_ENTRY_SIZE * n <= |blob|
    requires DecodeEntries(blob, n, containerSize).Ok?
    ensures var es := DecodeEntries(blob, n, containerSize).value;
            && |es| == n
            && EncodeEntries(es) == blob[TABLE_HEADER_SIZE..TABLE_HEADER_SIZE + TABLE_ENTRY_SIZE * n]
            && forall e :: e in es ==> EntryFits(e) && EntryAccepted(e, containerSize)
  {
    hide FromLittleEndian, LittleEndian;
    if n > 0 {
      DecodedEntries(blob, n - 1, containerSize);
      var o := TABLE_HEADER_SIZE + TABLE_ENTRY_SIZE * (n - 1);
      var es, e := DecodeEntries(blob, n, containerSize).value, EntryAt(blob, n - 1);
      assert es[..n - 1] == DecodeEntries(blob, n - 1, containerSize).value;
      EncodeEntryAt(blob, n - 1);
      assert blob[TABLE_HEADER_SIZE..o] + blob[o..o + 24] == blob[TABLE_HEADER_SIZE..o + 24];
    }
  }

  /** Encoding what was decoded gives back the blob, byte for byte: the decoder
      accepts only blobs the encoder writes. */
  lemma EncodeAfterDecode(blob: seq<byte>)
    requires DecodeTable(blob).Ok?
    ensures var t := DecodeTable(blob).value;
            && EncodeTable(t.header, t.entries) == blob
            && t.header.entryCount == |t.entries|
            && HeaderFits(t.header)
            && forall e :: e in t.entries ==> EntryFits(e) && EntryAccepted(e, t.header.containerSize)
  {
    hide FromLittleEndian, LittleEndian, HeaderMarked, EncodeHeader, DecodeHeader, DecodeEntries;
    var h := DecodeHeader(blob);
    DecodedEntries(blob, h.entryCount, h.containerSize);
    EncodeHeaderAfterDecode(blob);
    assert blob == blob[..48] + blob[48..];
  }

  lemma EncodeHeaderAfterDecode(blob: seq<byte>)
    requires |blob| >= TABLE_HEADER_SIZE && HeaderMarked(blob)
    ensures var h := DecodeHeader(blob); EncodeHeader(h, h.entryCount) == blob[..48] && HeaderFits(h)
  {
    hide FromLittleEndian, LittleEndian;
    Pow256Values();
    LittleEndianOnto(blob[4..6]);
    LittleEndianOnto(blob[6..8]);
    DecodedHeaderFields(blob);
    assert blob[..48] == blob[..4] + blob[4..6] + blob[6..8] + blob[8..48];
  }

  lemma DecodedHeaderFields(blob: seq<byte>)
    requires |blob| >= TABLE_HEADER_SIZE
    ensures var h := DecodeHeader(blob);
            LittleEndian(h.diskID, 8) + LittleEndian(h.containerFid, 8) + LittleEndian(h.containerSize, 8)
            + LittleEndian(h.entryCount, 8) + LittleEndian(h.reserved, 8) == blob[8..48]
  {
    LittleEndianOnto(blob[8..16]);
    LittleEndianOnto(blob[16..24]);
    LittleEndianOnto(blob[24..32]);
    LittleEndianOnto(blob[32..40]);
    LittleEndianOnto(blob[40..48]);
  }

  /** The range check can be passed by wrapping: an accepted entry lies inside its
      container exactly when its offset and size do not sum past 64 bits. */
  lemma AcceptedEntryInside(e: TableEntry, containerSize: nat)
    requires EntryFits(e) && containerSize < TWO_64 && EntryAccepted(e, containerSize)
    ensures e.offset + e.size <= containerSize <==> e.offset + e.size < TWO_64
  {
    if e.offset + e.size < TWO_64 {
      assert (e.offset + e.size) % TWO_64 == e.offset + e.size;
    }
  }

  /** One entry of two bytes, starting at the last 64-bit offset of a one-byte
      container, is accepted. */
  lemma WrappedEntryIsAccepted()
    ensures var h, es := Header(0, 1, 1, 1, 0), [TableEntry(5, TWO_64 - 1, 2)];
            && DecodeTable(EncodeTable(h, es)) == Ok(DecodedTable(h, es))
            && es[0].offset + es[0].size > h.containerSize
  {
    DecodeAfterEncode(Header(0, 1, 1, 1, 0), [TableEntry(5, TWO_64 - 1, 2)]);
  }

  // ----- the procedures -----

  lemma {:induction false} LittleEndianAt(v: nat, n: nat, i: nat)
    requires i < n
    ensures LittleEndian(v, n)[..i] + LittleEndian(Shifted(v, i), n - i) == LittleEndian(v, n)
    ensures LittleEndian(v, n)[i] == Shifted(v, i) % 256
  {
    if i > 0 {
      LittleEndianAt(v / 256, n - 1, i - 1);
    }
  }

  /** v shifted right by i bytes. */
  function Shifted(v: nat, i: nat): nat { if i == 0 then v else Shifted(v / 256, i - 1) }

  lemma {:induction false} ShiftedStep(v: nat, i: nat)
    ensures Shifted(v, i + 1) == Shifted(v, i) / 256
  {
    if i > 0 { ShiftedStep(v / 256, i - 1); }
  }

  method PutLittleEndian(buf: array<byte>, at: nat, v: nat, n: nat)
    requires at + n <= buf.Length
    modifies buf
    ensures buf[..] == old(buf[..at]) + LittleEndian(v, n) + old(buf[at + n..])
  {
    hide LittleEndian, Shifted;
    var i, rest := 0, v;
    assert Shifted(v, 0) == v by { ShiftedZero(v); }
    while i < n
      invariant i <= n && rest == Shifted(v, i)
      invariant forall k :: 0 <= k < buf.Length ==>
                  buf[k] == if at <= k < at + i then LittleEndian(v, n)[k - at] else old(buf[k])
    {
      LittleEndianAt(v, n, i);
      ShiftedStep(v, i);
      buf[at + i] := rest % 256;
      i, rest := i + 1, rest / 256;
    }
  }

  lemma ShiftedZero(v: nat)
    ensures Shifted(v, 0) == v
  {}

  method EncodePackedTable(h: Header, es: seq<TableEntry>) returns (buf: array<byte>)
    ensures fresh(buf) && buf[..] == EncodeTable(h, es)
  {
    buf := new byte[TABLE_HEADER_SIZE + |es| * TABLE_ENTRY_SIZE];
    EncodeHeaderInto(buf, h, |es|);
    var offset := TABLE_HEADER_SIZE;
    for i := 0 to |es|
      invariant offset == TABLE_HEADER_SIZE + TABLE_ENTRY_SIZE * i
      invariant fresh(buf) && buf.Length == TABLE_HEADER_SIZE + TABLE_ENTRY_SIZE * |es|
      invariant buf[..offset] == EncodeHeader(h, |es|) + EncodeEntries(es[..i])
    {
      ghost var done := buf[..offset];
      EncodeEntryInto(buf, offset, es[i]);
      assert es[..i + 1][..i] == es[..i];
      offset := offset + TABLE_ENTRY_SIZE;
      assert buf[..offset] == done + EncodeTableEntry(es[i]);
    }
    assert es[..|es|] == es;
    assert buf[..] == buf[..offset];
  }

  method EncodeHeaderInto(buf: array<byte>, h: Header, count: nat)
    requires buf.Length >= TABLE_HEADER_SIZE
    modifies buf
    ensures buf[..TABLE_HEADER_SIZE] == EncodeHeader(h, count)
  {
    buf[0], buf[1], buf[2], buf[3] := 78, 66, 80, 84;
    assert buf[..4] == MAGIC;
    PutLittleEndian(buf, 4, VERSION, 2);
    PutLittleEndian(buf, 6, TABLE_HEADER_SIZE, 2);
    ghost var mark := MAGIC + LittleEndian(VERSION, 2) + LittleEndian(TABLE_HEADER_SIZE, 2);
    assert buf[..8] == mark;
    PutLittleEndian(buf, 8, h.diskID, 8);
    ghost var s1 := mark + LittleEndian(h.diskID, 8);
    assert buf[..16] == s1;
    PutLittleEndian(buf, 16, h.containerFid, 8);
    ghost var s2 := s1 + LittleEndian(h.containerFid, 8);
    assert buf[..24] == s2;
    PutLittleEndian(buf, 24, h.containerSize, 8);
    ghost var s3 := s2 + LittleEndian(h.containerSize, 8);
    assert buf[..32] == s3;
    PutLittleEndian(buf, 32, count, 8);
    ghost var s4 := s3 + LittleEndian(count, 8);
    assert buf[..40] == s4;
    PutLittleEndian(buf, 40, h.reserved, 8);
    assert buf[..48] == s4 + LittleEndian(h.reserved, 8);
  }

  method EncodeEntryInto(buf: array<byte>, at: nat, e: TableEntry)
    requires at + TABLE_ENTRY_SIZE <= buf.Length
    modifies buf
    ensures buf[..] == old(buf[..at]) + EncodeTableEntry(e) + old(buf[at + TABLE_ENTRY_SIZE..])
  {
    hide LittleEndian;
    ghost var s := buf[..];
    PutLittleEndian(buf, at, e.fid, 8);
    PutLittleEndian(buf, at + 8, e.offset, 8);
    PutLittleEndian(buf, at + 16, e.size, 8);
    ThreeParts(s, at, LittleEndian(e.fid, 8), LittleEndian(e.offset, 8), LittleEndian(e.size, 8));
  }

  lemma ThreeParts(s: seq<byte>, at: nat, a: seq<byte>, b: seq<byte>, c: seq<byte>)
    requires |a| == |b| == |c| == 8 && at + 24 <= |s|
    ensures var s1 := s[..at] + a + s[at + 8..];
            var s2 := s1[..at + 8] + b + s1[at + 16..];
            s2[..at + 16] + c + s2[at + 24..] == s[..at] + (a + b + c) + s[at + 24..]
  {
    var s1 := s[..at] + a + s[at + 8..];
    assert s1[..at + 8] == s[..at] + a && s1[at + 16..] == s[at + 16..];
    var s2 := s1[..at + 8] + b + s1[at + 16..];
    assert s2[..at + 16] == s[..at] + a + b && s2[at + 24..] == s[at + 24..];
    assert s[..at] + a + b + c == s[..at] + (a + b + c);
  }

  method DecodePackedTable(blob: seq<byte>) returns (r: Result<Table>)
    ensures r == DecodeTable(blob)
  {
    hide FromLittleEndian;
    if |blob| < TABLE_HEADER_SIZE { return Err(BadTable("too small")); }
    if !HeaderMarked(blob) { return Err(BadTable("magic, version or header size")); }
    var h := DecodeHeader(blob);
    var wanted := TABLE_HEADER_SIZE + h.entryCount * TABLE_ENTRY_SIZE;
    if |blob| != wanted % TWO_64 { return Err(BadTable("length mismatch")); }
    if wanted >= TWO_64 { return Err(Panics); }
    var entries := [];
    for i := 0 to h.entryCount
      invariant DecodeEntries(blob, i, h.containerSize) == Ok(entries)
    {
      var e := EntryAt(blob, i);
      if !EntryAccepted(e, h.containerSize) {
        RefusedStaysRefused(blob, i + 1, h.entryCount, h.containerSize);
        return Err(BadTable("entry refused"));
      }
      entries := entries + [e];
    }
    r := Ok(DecodedTable(h, entries));
  }

  lemma {:induction false} RefusedStaysRefused(blob: seq<byte>, i: nat, n: nat, containerSize: nat)
    requires i <= n && TABLE_HEADER_SIZE + TABLE_ENTRY_SIZE * n <= |blob|
    requires DecodeEntries(blob, i, containerSize).Err?
    ensures DecodeEntries(blob, n, containerSize) == DecodeEntries(blob, i, containerSize)
  {
    if i < n {
      RefusedStaysRefused(blob, i, n - 1, containerSize);
    }
  }

  /** A count that matches the length only by wrapping. */
  predicate Wraps(blob: seq<byte>)
    requires |blob| >= TABLE_HEADER_SIZE
  {
    var wanted := TABLE_HEADER_SIZE + DecodeHeader(blob).entryCount * TABLE_ENTRY_SIZE;
    |blob| == wanted % TWO_64 && wanted >= TWO_64
  }

  /** The whole entries that a blob has room for. */
  function Room(blob: seq<byte>): nat
    requires |blob| >= TABLE_HEADER_SIZE
  {
    (|blob| - TABLE_HEADER_SIZE) / TABLE_ENTRY_SIZE
  }

  /** The scrub validator, written apart from the decoder: it accepts a stored table
      exactly when the decoder does and the container size is not zero. On a count that
      matches only by wrapping it runs past the blob and panics, unless an entry before
      is refused. */
  method ScrubTable(blob: seq<byte>) returns (r: Result<()>)
    requires |blob| < TWO_64
    ensures r.Ok? <==> DecodeTable(blob).Ok? && DecodeTable(blob).value.header.containerSize != 0
    ensures r == Err(Panics) <==>
      && |blob| >= TABLE_HEADER_SIZE && HeaderMarked(blob) && DecodeHeader(blob).containerSize != 0 && Wraps(blob)
      && DecodeEntries(blob, Room(blob), DecodeHeader(blob).containerSize).Ok?
  {
    hide FromLittleEndian, DecodeEntries;
    if |blob| < TABLE_HEADER_SIZE { return Err(BadTable("too small")); }
    if blob[..4] != MAGIC { return Err(BadTable("magic")); }
    if FromLittleEndian(blob[4..6]) != VERSION { return Err(BadTable("version")); }
    if FromLittleEndian(blob[6..8]) != TABLE_HEADER_SIZE { return Err(BadTable("header size")); }
    var containerSize := FromLittleEndian(blob[24..32]);
    var entryCount := FromLittleEndian(blob[32..40]);
    if containerSize == 0 { return Err(BadTable("zero container size")); }
    if |blob| != (TABLE_HEADER_SIZE + entryCount * TABLE_ENTRY_SIZE) % TWO_64 { return Err(BadTable("size mismatch")); }
    r := ScrubEntries(blob, entryCount, containerSize);
  }

  method ScrubEntries(blob: seq<byte>, entryCount: nat, containerSize: nat) returns (r: Result<()>)
    requires TABLE_HEADER_SIZE <= |blob| < TWO_64
    requires |blob| == (TABLE_HEADER_SIZE + entryCount * TABLE_ENTRY_SIZE) % TWO_64
    ensures r.Ok? <==> && TABLE_HEADER_SIZE + entryCount * TABLE_ENTRY_SIZE < TWO_64
                       && DecodeEntries(blob, entryCount, containerSize).Ok?
    ensures r == Err(Panics) <==> && TABLE_HEADER_SIZE + entryCount * TABLE_ENTRY_SIZE >= TWO_64
                                  && DecodeEntries(blob, Room(blob), containerSize).Ok?
  {
    hide FromLittleEndian, EntryAt;
    ghost var honest := TABLE_HEADER_SIZE + entryCount * TABLE_ENTRY_SIZE < TWO_64;
    assert honest <==> |blob| == TABLE_HEADER_SIZE + entryCount * TABLE_ENTRY_SIZE;
    var offset, i := TABLE_HEADER_SIZE, 0;
    while i < entryCount
      invariant i <= entryCount && offset == TABLE_HEADER_SIZE + TABLE_ENTRY_SIZE * i
      invariant offset <= |blob| && i <= Room(blob)
      invariant DecodeEntries(blob, i, containerSize).Ok?
    {
      if offset + TABLE_ENTRY_SIZE > |blob| {
        assert i == Room(blob);
        return Err(Panics);
      }
      var e := EntryAt(blob, i);
      if e.size == 0 || (e.offset + e.size) % TWO_64 > containerSize {
        if honest { RefusedStaysRefused(blob, i + 1, entryCount, containerSize); }
        RefusedStaysRefused(blob, i + 1, Room(blob), containerSize);
        return Err(BadTable("entry refused"));
      }
      offset, i := offset + TABLE_ENTRY_SIZE, i + 1;
    }
    return Ok(());
  }
}
