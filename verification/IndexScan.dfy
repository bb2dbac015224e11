/** The byte-level scan of the index region that compaction reads with: 4 MiB chunks,
    a stop at the first all-zero entry, and a stop after any chunk by whose end
    sixteen zero bytes in a row have been seen, at whatever alignment. */
module IndexScan {
  import opened Layout
  import opened IndexEntry
  import opened Replay

  const CHUNK_BYTES := 0x40_0000
  const CHUNK_ENTRIES := 0x4_0000

  function RegionBytes(es: seq<Entry>): (s: seq<byte>)
    ensures |s| == INDEX_ENTRY_SIZE * |es|
  {
    if es == [] then [] else RegionBytes(es[..|es| - 1]) + EncodeEntry(es[|es| - 1])
  }

  /** The entries that a byte string of whole entries parses to. */
  function Parsed(bytes: seq<byte>): (es: seq<Entry>)
    ensures |es| == |bytes| / INDEX_ENTRY_SIZE
  {
    seq(|bytes| / INDEX_ENTRY_SIZE, i requires 0 <= i < |bytes| / INDEX_ENTRY_SIZE => ParsedAt(bytes, i))
  }

  function ParsedAt(bytes: seq<byte>, i: nat): Entry
    requires INDEX_ENTRY_SIZE * (i + 1) <= |bytes|
  {
    ParseIndexEntry(bytes[INDEX_ENTRY_SIZE * i..INDEX_ENTRY_SIZE * (i + 1)]).value
  }

  predicate ZeroesAt(bytes: seq<byte>, p: nat)
    requires p + INDEX_ENTRY_SIZE <= |bytes|
  {
    forall j :: p <= j < p + INDEX_ENTRY_SIZE ==> bytes[j] == 0
  }

  /** Sixteen zero bytes in a row end at or before position n. */
  predicate HasRun(bytes: seq<byte>, n: nat)
    requires n <= |bytes|
  {
    exists p :: 0 <= p <= n - INDEX_ENTRY_SIZE && ZeroesAt(bytes, p)
  }

  /** Where the scan stops that has come to chunk boundary b, with z entries before
      the first all-zero one. */
  function CutAt(bytes: seq<byte>, b: nat, z: nat): (n: nat)
    requires INDEX_ENTRY_SIZE * z <= |bytes|
    ensures n <= z
    decreases z - b
  {
    if b >= z then z
    else if HasRun(bytes, INDEX_ENTRY_SIZE * b) then b
    else CutAt(bytes, b + CHUNK_ENTRIES, z)
  }

  /** How many entries of the region the scan delivers. */
  function ScanEnd(region: seq<Entry>): nat {
    CutAt(RegionBytes(region), CHUNK_ENTRIES, EndOf(region))
  }

  // ----- the scan as the code runs it -----

  method IsZeroEntry(entry: seq<byte>) returns (zero: bool)
    ensures zero <==> AllZero(entry)
  {
    for j := 0 to |entry|
      invariant forall k :: 0 <= k < j ==> entry[k] == 0
    {
      if entry[j] != 0 { return false; }
    }
    return true;
  }

  /** What the callback receives, in order. */
  method ScanIndexStream(bytes: seq<byte>) returns (log: seq<Entry>)
    requires |bytes| % INDEX_ENTRY_SIZE == 0
    ensures INDEX_ENTRY_SIZE * EndOf(Parsed(bytes)) <= |bytes|
    ensures log == Parsed(bytes)[..CutAt(bytes, CHUNK_ENTRIES, EndOf(Parsed(bytes)))]
  {
    hide CutAt, HasRun, EndOf, Parsed, Trailing;
    ghost var es, z := Parsed(bytes), EndOf(Parsed(bytes));
    ghost var first := 0;
    var offset: nat, zeroRun: nat := 0, 0;
    log := [];
    Start(bytes, z);
    while offset < |bytes|
      invariant offset == INDEX_ENTRY_SIZE * first <= |bytes| && first <= z && log == es[..first]
      invariant Trailing(bytes, offset, zeroRun) && zeroRun < INDEX_ENTRY_SIZE && !HasRun(bytes, offset)
      invariant CutAt(bytes, CHUNK_ENTRIES, z)
                == if offset < |bytes| then CutAt(bytes, first + CHUNK_ENTRIES, z) else z
    {
      var n := if |bytes| - offset < CHUNK_BYTES then |bytes| - offset else CHUNK_BYTES;
      ghost var m := n / INDEX_ENTRY_SIZE;
      var stop;
      log, stop := ScanEntries(bytes, offset, n, log, first, m);
      if stop {
        CutPast(bytes, first + CHUNK_ENTRIES, z);
        return;
      }
      zeroRun, stop := CountZeros(bytes, offset, n, zeroRun);
      CutOn(bytes, first, m, z);
      if stop { return; }
      offset, first := offset + n, first + m;
    }
  }

  /** The whole entries of one chunk, up to an all-zero one. */
  method ScanEntries(bytes: seq<byte>, offset: nat, n: nat, before: seq<Entry>, ghost first: nat, ghost m: nat)
    returns (log: seq<Entry>, stop: bool)
    requires offset == INDEX_ENTRY_SIZE * first && n == INDEX_ENTRY_SIZE * m && offset + n <= |bytes|
    requires EndOf(Parsed(bytes)) >= first && before == Parsed(bytes)[..first]
    ensures var z := EndOf(Parsed(bytes));
            if stop then first <= z < first + m && log == Parsed(bytes)[..z]
            else z >= first + m && first + m <= |Parsed(bytes)| && log == Parsed(bytes)[..first + m]
  {
    hide EndOf, Parsed, ParseIndexEntry, AllZero;
    var i := 0;
    ghost var k := 0;
    log := before;
    while i + INDEX_ENTRY_SIZE <= n
      invariant i == INDEX_ENTRY_SIZE * k && k <= m
      invariant first + k <= EndOf(Parsed(bytes)) && log == Parsed(bytes)[..first + k]
    {
      var entry := bytes[offset + i..offset + i + INDEX_ENTRY_SIZE];
      var zero := IsZeroEntry(entry);
      EntryIs(bytes, first + k, entry);
      if zero { return log, true; }
      log := log + [ParseIndexEntry(entry).value];
      i, k := i + INDEX_ENTRY_SIZE, k + 1;
    }
    return log, false;
  }

  /** The zero-run count carried over one chunk. */
  method CountZeros(bytes: seq<byte>, offset: nat, n: nat, before: nat) returns (zeroRun: nat, stop: bool)
    requires offset + n <= |bytes| && Trailing(bytes, offset, before) && before < INDEX_ENTRY_SIZE
    requires !HasRun(bytes, offset)
    ensures stop <==> HasRun(bytes, offset + n)
    ensures !stop ==> Trailing(bytes, offset + n, zeroRun) && zeroRun < INDEX_ENTRY_SIZE
  {
    hide HasRun;
    var i := 0;
    zeroRun := before;
    while i < n
      invariant i <= n
      invariant Trailing(bytes, offset + i, zeroRun) && zeroRun < INDEX_ENTRY_SIZE && !HasRun(bytes, offset + i)
    {
      if bytes[offset + i] == 0 {
        zeroRun := zeroRun + 1;
        if zeroRun >= INDEX_ENTRY_SIZE {
          RunFound(bytes, offset + i + 1, zeroRun, offset + n);
          return zeroRun, true;
        }
      } else {
        zeroRun := 0;
      }
      NoRunGrows(bytes, offset + i, zeroRun);
      i := i + 1;
    }
    return zeroRun, false;
  }

  /** Exactly the last `run` bytes before position n are zero. */
  predicate Trailing(bytes: seq<byte>, n: nat, run: nat)
    requires n <= |bytes|
  {
    && run <= n
    && (forall j :: n - run <= j < n ==> bytes[j] == 0)
    && (run < n ==> bytes[n - run - 1] != 0)
  }

  lemma Start(bytes: seq<byte>, z: nat)
    requires z == EndOf(Parsed(bytes))
    ensures !HasRun(bytes, 0) && Trailing(bytes, 0, 0) && INDEX_ENTRY_SIZE * z <= |bytes|
    ensures bytes == [] ==> z == 0 && CutAt(bytes, CHUNK_ENTRIES, z) == 0
  {}

  lemma RunFound(bytes: seq<byte>, n: nat, run: nat, m: nat)
    requires n <= m <= |bytes| && Trailing(bytes, n, run) && run >= INDEX_ENTRY_SIZE
    ensures HasRun(bytes, m)
  {
    assert ZeroesAt(bytes, n - INDEX_ENTRY_SIZE);
  }

  lemma NoRunGrows(bytes: seq<byte>, n: nat, run: nat)
    requires n < |bytes| && !HasRun(bytes, n) && Trailing(bytes, n + 1, run) && run < INDEX_ENTRY_SIZE
    ensures !HasRun(bytes, n + 1)
  {
    forall p | 0 <= p <= n + 1 - INDEX_ENTRY_SIZE ensures !ZeroesAt(bytes, p) {
      if p == n + 1 - INDEX_ENTRY_SIZE { assert bytes[n - run] != 0; }
    }
  }

  lemma EntryIs(bytes: seq<byte>, k: nat, raw: seq<byte>)
    requires INDEX_ENTRY_SIZE * (k + 1) <= |bytes| && EndOf(Parsed(bytes)) >= k
    requires raw == bytes[INDEX_ENTRY_SIZE * k..INDEX_ENTRY_SIZE * (k + 1)]
    ensures k < |Parsed(bytes)|
    ensures Parsed(bytes)[k] == ParseIndexEntry(raw).value
    ensures AllZero(raw) <==> EndOf(Parsed(bytes)) == k
  {
    hide EndOf, ParseIndexEntry, EncodeEntry;
    ParseEncodeRoundTrip(raw);
  }

  predicate AllZero(raw: seq<byte>) { forall j :: 0 <= j < |raw| ==> raw[j] == 0 }

  lemma CutPast(bytes: seq<byte>, b: nat, z: nat)
    requires INDEX_ENTRY_SIZE * z <= |bytes| && b >= z
    ensures CutAt(bytes, b, z) == z
  {}

  /** After the chunk of m entries behind entry `first` the scan is cut there, or goes
      on to the next chunk, or has read everything. */
  lemma CutOn(bytes: seq<byte>, first: nat, m: nat, z: nat)
    requires INDEX_ENTRY_SIZE * z <= |bytes| && first + m <= z
    requires if INDEX_ENTRY_SIZE * (first + m) < |bytes| then m == CHUNK_ENTRIES
             else m <= CHUNK_ENTRIES && INDEX_ENTRY_SIZE * (first + m) == |bytes|
    ensures HasRun(bytes, INDEX_ENTRY_SIZE * (first + m)) ==> CutAt(bytes, first + CHUNK_ENTRIES, z) == first + m
    ensures !HasRun(bytes, INDEX_ENTRY_SIZE * (first + m)) ==>
      CutAt(bytes, first + CHUNK_ENTRIES, z)
      == if INDEX_ENTRY_SIZE * (first + m) < |bytes| then CutAt(bytes, first + m + CHUNK_ENTRIES, z) else z
  {}

  // ----- when the scan reads the whole log -----

  /** The last chunk boundary before entry z. */
  function LastBoundary(z: nat): nat {
    if z == 0 then 0 else (z - 1) / CHUNK_ENTRIES * CHUNK_ENTRIES
  }

  lemma {:induction false} CutIff(bytes: seq<byte>, b: nat, z: nat, m: nat)
    requires INDEX_ENTRY_SIZE * z <= |bytes|
    requires b + CHUNK_ENTRIES * m < z <= b + CHUNK_ENTRIES * m + CHUNK_ENTRIES
    ensures CutAt(bytes, b, z) == z <==> !HasRun(bytes, INDEX_ENTRY_SIZE * (b + CHUNK_ENTRIES * m))
    decreases m
  {
    hide HasRun;
    if m > 0 {
      if HasRun(bytes, INDEX_ENTRY_SIZE * b) {
        RunStays(bytes, INDEX_ENTRY_SIZE * b, INDEX_ENTRY_SIZE * (b + CHUNK_ENTRIES * m));
      } else {
        CutIff(bytes, b + CHUNK_ENTRIES, z, m - 1);
      }
    }
  }

  lemma RunStays(bytes: seq<byte>, n: nat, m: nat)
    requires n <= m <= |bytes| && HasRun(bytes, n)
    ensures HasRun(bytes, m)
  {
    var p :| 0 <= p <= n - INDEX_ENTRY_SIZE && ZeroesAt(bytes, p);
  }

  /** The scan delivers the whole log exactly if no sixteen zero bytes in a row lie
      before the last chunk boundary inside the log. */
  lemma ScanComplete(region: seq<Entry>)
    ensures ScanEnd(region) == EndOf(region)
            <==> !HasRun(RegionBytes(region), INDEX_ENTRY_SIZE * LastBoundary(EndOf(region)))
  {
    hide HasRun, RegionBytes, EndOf, CutAt;
    var bytes, z := RegionBytes(region), EndOf(region);
    if CHUNK_ENTRIES < z {
      CutIff(bytes, CHUNK_ENTRIES, z, (z - 1) / CHUNK_ENTRIES - 1);
    } else {
      CutPast(bytes, CHUNK_ENTRIES, z);
      Start0(bytes);
    }
  }

  lemma Start0(bytes: seq<byte>)
    ensures !HasRun(bytes, 0)
  {}

  /** A log of at most one chunk is always read to its end. */
  lemma ShortScan(region: seq<Entry>)
    requires EndOf(region) <= CHUNK_ENTRIES
    ensures ScanEnd(region) == EndOf(region)
  {
    hide EndOf, HasRun, RegionBytes;
  }

  // ----- what the scan depends on -----

  lemma {:induction false} FrontBytes(es: seq<Entry>, n: nat)
    requires n <= |es|
    ensures RegionBytes(es)[..INDEX_ENTRY_SIZE * n] == RegionBytes(es[..n])
    decreases |es|
  {
    hide EncodeEntry;
    if n == |es| {
      assert es[..n] == es;
    } else {
      var front := es[..|es| - 1];
      assert front[..n] == es[..n];
      FrontBytes(front, n);
    }
  }

  lemma {:induction false} CutSame(a: seq<byte>, b: seq<byte>, at: nat, z: nat)
    requires INDEX_ENTRY_SIZE * z <= |a| && INDEX_ENTRY_SIZE * z <= |b|
    requires a[..INDEX_ENTRY_SIZE * z] == b[..INDEX_ENTRY_SIZE * z]
    ensures CutAt(a, at, z) == CutAt(b, at, z)
    decreases z - at
  {
    if at < z {
      hide HasRun;
      RunSame(a, b, INDEX_ENTRY_SIZE * at, INDEX_ENTRY_SIZE * z);
      CutSame(a, b, at + CHUNK_ENTRIES, z);
    }
  }

  lemma RunSame(a: seq<byte>, b: seq<byte>, n: nat, m: nat)
    requires n <= m <= |a| && m <= |b| && a[..m] == b[..m]
    ensures HasRun(a, n) <==> HasRun(b, n)
  {
    forall i | 0 <= i < m ensures a[i] == b[i] { assert a[..m][i] == b[..m][i]; }
    if HasRun(a, n) {
      var p :| 0 <= p <= n - INDEX_ENTRY_SIZE && ZeroesAt(a, p);
      assert ZeroesAt(b, p);
    }
    if HasRun(b, n) {
      var p :| 0 <= p <= n - INDEX_ENTRY_SIZE && ZeroesAt(b, p);
      assert ZeroesAt(a, p);
    }
  }

  /** The scan depends only on the entries before the first all-zero one. */
  lemma ScanSame(region: seq<Entry>, region': seq<Entry>)
    requires EndOf(region) == EndOf(region') && region[..EndOf(region)] == region'[..EndOf(region')]
    ensures ScanEnd(region) == ScanEnd(region')
  {
    hide EndOf, CutAt, RegionBytes;
    var z := EndOf(region);
    ZInside(region);
    ZInside(region');
    FrontBytes(region, z);
    FrontBytes(region', z);
    BytesLength(region);
    BytesLength(region');
    CutSame(RegionBytes(region), RegionBytes(region'), CHUNK_ENTRIES, z);
  }

  lemma ZInside(region: seq<Entry>)
    ensures EndOf(region) <= |region|
  {}

  lemma BytesLength(es: seq<Entry>)
    ensures |RegionBytes(es)| == INDEX_ENTRY_SIZE * |es|
  {}

  // ----- zero bytes across entries -----

  lemma {:induction false} RegionByte(es: seq<Entry>, k: nat, j: nat)
    requires k < |es| && j < INDEX_ENTRY_SIZE
    ensures RegionBytes(es)[INDEX_ENTRY_SIZE * k + j] == EncodeEntry(es[k])[j]
  {
    hide EncodeEntry;
    var n := |es| - 1;
    if k < n { RegionByte(es[..n], k, j); }
  }

  /** From byte o of e to byte o of its successor everything is zero. */
  predicate SeamAt(e: Entry, next: Entry, o: nat) {
    && o <= INDEX_ENTRY_SIZE
    && (forall j :: o <= j < INDEX_ENTRY_SIZE ==> EncodeEntry(e)[j] == 0)
    && (forall j :: 0 <= j < o ==> EncodeEntry(next)[j] == 0)
  }

  predicate Seam(e: Entry, next: Entry) {
    exists o :: 0 < o < INDEX_ENTRY_SIZE && SeamAt(e, next, o)
  }

  predicate HasSeam(es: seq<Entry>, n: nat)
    requires n <= |es|
  {
    exists k :: 0 <= k && k + 1 < n && Seam(es[k], es[k + 1])
  }

  lemma SeamIsRun(es: seq<Entry>, k: nat, o: nat)
    requires 0 < o < INDEX_ENTRY_SIZE && k + 1 < |es|
    ensures ZeroesAt(RegionBytes(es), INDEX_ENTRY_SIZE * k + o) <==> SeamAt(es[k], es[k + 1], o)
  {
    hide EncodeEntry, RegionBytes;
    var bytes, p, s, t := RegionBytes(es), INDEX_ENTRY_SIZE * k, EncodeEntry(es[k]), EncodeEntry(es[k + 1]);
    forall j | 0 <= j < INDEX_ENTRY_SIZE ensures bytes[p + j] == s[j] && bytes[p + INDEX_ENTRY_SIZE + j] == t[j] {
      RegionByte(es, k, j);
      RegionByte(es, k + 1, j);
    }
    if ZeroesAt(bytes, p + o) {
      forall j | o <= j < INDEX_ENTRY_SIZE ensures s[j] == 0 { assert bytes[p + j] == 0; }
      forall j | 0 <= j < o ensures t[j] == 0 { assert bytes[p + INDEX_ENTRY_SIZE + j] == 0; }
    }
    if SeamAt(es[k], es[k + 1], o) {
      forall i | p + o <= i < p + o + INDEX_ENTRY_SIZE ensures bytes[i] == 0 {
        if i < p + INDEX_ENTRY_SIZE {
          assert bytes[p + (i - p)] == s[i - p];
        } else {
          assert bytes[p + INDEX_ENTRY_SIZE + (i - p - INDEX_ENTRY_SIZE)] == t[i - p - INDEX_ENTRY_SIZE];
        }
      }
    }
  }

  lemma EntryNotZero(es: seq<Entry>, k: nat)
    requires k < |es| && Fits(es[k]) && es[k] != ZERO
    ensures !ZeroesAt(RegionBytes(es), INDEX_ENTRY_SIZE * k)
  {
    hide EncodeEntry, ParseIndexEntry, RegionBytes;
    var bytes := RegionBytes(es);
    forall j | 0 <= j < INDEX_ENTRY_SIZE ensures bytes[INDEX_ENTRY_SIZE * k + j] == EncodeEntry(es[k])[j] {
      RegionByte(es, k, j);
    }
    ParseOfEncode(es[k]);
    ParseEncodeRoundTrip(EncodeEntry(es[k]));
    var j :| 0 <= j < INDEX_ENTRY_SIZE && EncodeEntry(es[k])[j] != 0;
    assert bytes[INDEX_ENTRY_SIZE * k + j] != 0;
  }

  /** Entries that fit their bytes are read back from them. */
  lemma ParsedRegion(es: seq<Entry>)
    requires forall e :: e in es ==> Fits(e)
    ensures Parsed(RegionBytes(es)) == es
  {
    hide EncodeEntry, ParseIndexEntry, RegionBytes;
    var bytes := RegionBytes(es);
    forall k | 0 <= k < |es| ensures Parsed(bytes)[k] == es[k] {
      var raw := bytes[INDEX_ENTRY_SIZE * k..INDEX_ENTRY_SIZE * (k + 1)];
      forall j | 0 <= j < INDEX_ENTRY_SIZE ensures raw[j] == EncodeEntry(es[k])[j] { RegionByte(es, k, j); }
      assert raw == EncodeEntry(es[k]);
      ParseOfEncode(es[k]);
    }
  }

  /** Run over the bytes of a region, the loops deliver the front of the region that
      `ScanEnd` names. */
  lemma ScannedRegion(es: seq<Entry>)
    requires forall e :: e in es ==> Fits(e)
    ensures ScanEnd(es) <= |es|
    ensures Parsed(RegionBytes(es))[..CutAt(RegionBytes(es), CHUNK_ENTRIES, EndOf(Parsed(RegionBytes(es))))]
            == es[..ScanEnd(es)]
  {
    hide CutAt, EndOf, Parsed, RegionBytes;
    ParsedRegion(es);
  }

  lemma ParseOfEncode(e: Entry)
    requires Fits(e)
    ensures ParseIndexEntry(EncodeEntry(e)) == Ok(e)
  {
    Pow256Values();
    LittleEndianRoundTrip(e.fid, 8);
    LittleEndianRoundTrip(e.size, 7);
    var raw := EncodeEntry(e);
    assert raw[..8] == LittleEndian(e.fid, 8);
    assert raw[8..15] == LittleEndian(e.size, 7);
  }

  /** Among nonzero entries sixteen zero bytes in a row can only lie across the seam
      of two neighbours. */
  lemma RunIsSeam(es: seq<Entry>, n: nat)
    requires n <= |es| && forall k :: 0 <= k < n ==> Fits(es[k]) && es[k] != ZERO
    ensures HasRun(RegionBytes(es), INDEX_ENTRY_SIZE * n) <==> HasSeam(es, n)
  {
    hide RegionBytes, ZeroesAt, SeamAt, EncodeEntry;
    var bytes := RegionBytes(es);
    if HasRun(bytes, INDEX_ENTRY_SIZE * n) {
      var p :| 0 <= p <= INDEX_ENTRY_SIZE * n - INDEX_ENTRY_SIZE && ZeroesAt(bytes, p);
      var k, o := p / INDEX_ENTRY_SIZE, p % INDEX_ENTRY_SIZE;
      if o == 0 {
        EntryNotZero(es, k);
      } else {
        SeamIsRun(es, k, o);
        assert Seam(es[k], es[k + 1]);
      }
    }
    if HasSeam(es, n) {
      var k :| 0 <= k && k + 1 < n && Seam(es[k], es[k + 1]);
      var o :| 0 < o < INDEX_ENTRY_SIZE && SeamAt(es[k], es[k + 1], o);
      SeamIsRun(es, k, o);
      assert ZeroesAt(bytes, INDEX_ENTRY_SIZE * k + o);
    }
  }

  // ----- which neighbours make a seam -----

  lemma ModSplit(v: nat, m: nat)
    requires m > 0
    ensures v % (256 * m) == 256 * ((v / 256) % m) + v % 256
  {
    var q, r := v / 256, v % 256;
    var a, b := q / m, q % m;
    assert v == 256 * (m * a + b) + r == (256 * m) * a + (256 * b + r);
    ModUnique(v, 256 * m, a, 256 * b + r);
  }

  lemma ModUnique(v: nat, m: nat, a: nat, x: nat)
    requires v == m * a + x && x < m
    ensures v % m == x
  {
    var d := v / m - a;
    assert m * d == x - v % m;
    MulBound(m, d);
  }

  lemma MulBound(m: nat, d: int)
    ensures d >= 1 ==> m * d >= m
    ensures d <= -1 ==> m * d <= -(m as int)
  {}

  predicate Zeroes(s: seq<byte>, a: nat, b: nat)
    requires b <= |s|
  {
    forall j :: a <= j < b ==> s[j] == 0
  }

  lemma ZeroesShift(x: byte, rest: seq<byte>, a: nat, b: nat)
    requires 0 < b <= |rest| + 1
    ensures a > 0 ==> (Zeroes([x] + rest, a, b) <==> Zeroes(rest, a - 1, b - 1))
    ensures Zeroes([x] + rest, 0, b) <==> x == 0 && Zeroes(rest, 0, b - 1)
  {
    var s := [x] + rest;
    assert s[0] == x && forall j :: 0 <= j < |rest| ==> rest[j] == s[j + 1];
    if Zeroes(s, 0, b) { assert s[0] == 0; }
  }

  lemma {:induction false} HighZeros(v: nat, n: nat, o: nat)
    requires o <= n && v < Pow256(n)
    ensures Zeroes(LittleEndian(v, n), o, n) <==> v < Pow256(o)
  {
    if o == 0 {
      FromZeros(LittleEndian(v, n));
      LittleEndianRoundTrip(v, n);
      assert Pow256(0) == 1;
    } else {
      hide Zeroes;
      HighZeros(v / 256, n - 1, o - 1);
      ZeroesShift(v % 256, LittleEndian(v / 256, n - 1), o, n);
    }
  }

  lemma {:induction false} LowZeros(v: nat, n: nat, o: nat)
    requires o <= n
    ensures Zeroes(LittleEndian(v, n), 0, o) <==> v % Pow256(o) == 0
  {
    if o > 0 {
      hide Zeroes;
      LowZeros(v / 256, n - 1, o - 1);
      ModSplit(v, Pow256(o - 1));
      ZeroesShift(v % 256, LittleEndian(v / 256, n - 1), 0, o);
    }
  }

  /** In front of a nonzero fid only a tombstone makes a seam, and it does exactly if
      for some number of bytes its fid is no longer and the next fid is divisible by
      that power of 256. */
  lemma SeamExactly(e: Entry, next: Entry)
    requires Fits(e) && Fits(next) && next.fid != 0
    ensures Seam(e, next) <==>
              IsTombstone(e) && exists o :: 0 < o <= 8 && e.fid < Pow256(o) && next.fid % Pow256(o) == 0
  {
    hide Pow256, SeamAt;
    forall o | 0 < o < INDEX_ENTRY_SIZE
      ensures SeamAt(e, next, o) <==> o <= 8 && IsTombstone(e) && e.fid < Pow256(o) && next.fid % Pow256(o) == 0
    {
      SeamAtExactly(e, next, o);
    }
    if Seam(e, next) {
      var o :| 0 < o < INDEX_ENTRY_SIZE && SeamAt(e, next, o);
      assert o <= 8 && e.fid < Pow256(o) && next.fid % Pow256(o) == 0;
    }
    if IsTombstone(e) && exists o :: 0 < o <= 8 && e.fid < Pow256(o) && next.fid % Pow256(o) == 0 {
      var o :| 0 < o <= 8 && e.fid < Pow256(o) && next.fid % Pow256(o) == 0;
      assert SeamAt(e, next, o);
    }
  }

  lemma EntryParts(e: Entry)
    requires Fits(e)
    ensures var s, f, z := EncodeEntry(e), LittleEndian(e.fid, 8), LittleEndian(e.size, 7);
            && (forall j :: 0 <= j < 8 ==> s[j] == f[j])
            && (forall j :: 8 <= j < 15 ==> s[j] == z[j - 8])
            && (forall j :: 0 <= j < 7 ==> z[j] == s[j + 8])
            && s[15] == e.code
  {
    hide LittleEndian;
  }

  lemma SeamAtExactly(e: Entry, next: Entry, o: nat)
    requires Fits(e) && Fits(next) && next.fid != 0 && 0 < o < INDEX_ENTRY_SIZE
    ensures SeamAt(e, next, o) <==> o <= 8 && IsTombstone(e) && e.fid < Pow256(o) && next.fid % Pow256(o) == 0
  {
    hide LittleEndian, EncodeEntry, Pow256;
    Pow256Values();
    EntryParts(e);
    EntryParts(next);
    var s, t := EncodeEntry(e), EncodeEntry(next);
    var f, z, f' := LittleEndian(e.fid, 8), LittleEndian(e.size, 7), LittleEndian(next.fid, 8);
    if o <= 8 {
      HighZeros(e.fid, 8, o);
      FromZeros(z);
      LittleEndianRoundTrip(e.size, 7);
      LowZeros(next.fid, 8, o);
      if SeamAt(e, next, o) {
        forall j | 0 <= j < 7 ensures z[j] == 0 { assert s[j + 8] == 0; }
        forall j | o <= j < 8 ensures f[j] == 0 { assert s[j] == 0; }
        forall j | 0 <= j < o ensures f'[j] == 0 { assert t[j] == 0; }
      }
    } else if SeamAt(e, next, o) {
      FromZeros(f');
      LittleEndianRoundTrip(next.fid, 8);
      forall j | 0 <= j < 8 ensures f'[j] == 0 { assert t[j] == 0; }
    }
  }

  /** In front of fid 0 any plain entry makes a seam whose size fits the low bytes by
      which the next size is divisible; a tombstone always does. */
  lemma SeamBeforeZero(e: Entry, next: Entry)
    requires Fits(e) && Fits(next) && next.fid == 0
    ensures Seam(e, next) <==>
              e.code == 0 && exists j :: 0 <= j <= 7 && e.size < Pow256(j) && next.size % Pow256(j) == 0
  {
    hide Pow256, SeamAt;
    forall o | 0 < o < INDEX_ENTRY_SIZE
      ensures o >= 8 ==>
                (SeamAt(e, next, o) <==> e.code == 0 && e.size < Pow256(o - 8) && next.size % Pow256(o - 8) == 0)
      ensures o < 8 && SeamAt(e, next, o) ==> SeamAt(e, next, 8)
    {
      if o >= 8 { SeamAtZero(e, next, o); } else if SeamAt(e, next, o) { SeamWithin(e, next, o); }
    }
    if Seam(e, next) {
      var o :| 0 < o < INDEX_ENTRY_SIZE && SeamAt(e, next, o);
      var at := if o < 8 then 8 else o;
      assert SeamAt(e, next, at);
      assert e.size < Pow256(at - 8) && next.size % Pow256(at - 8) == 0;
    }
    if e.code == 0 && exists j :: 0 <= j <= 7 && e.size < Pow256(j) && next.size % Pow256(j) == 0 {
      var j :| 0 <= j <= 7 && e.size < Pow256(j) && next.size % Pow256(j) == 0;
      assert Pow256((j + 8) - 8) == Pow256(j);
      assert SeamAt(e, next, j + 8);
    }
  }

  lemma SeamWithin(e: Entry, next: Entry, o: nat)
    requires Fits(next) && next.fid == 0 && 0 < o < 8 && SeamAt(e, next, o)
    ensures SeamAt(e, next, 8)
  {
    hide LittleEndian, EncodeEntry;
    EntryParts(next);
    var f := LittleEndian(next.fid, 8);
    FromZeros(f);
    Pow256Values();
    LittleEndianRoundTrip(next.fid, 8);
  }

  lemma SeamAtZero(e: Entry, next: Entry, o: nat)
    requires Fits(e) && Fits(next) && next.fid == 0 && 8 <= o < INDEX_ENTRY_SIZE
    ensures SeamAt(e, next, o) <==> e.code == 0 && e.size < Pow256(o - 8) && next.size % Pow256(o - 8) == 0
  {
    hide LittleEndian, EncodeEntry, Pow256;
    Pow256Values();
    EntryParts(e);
    EntryParts(next);
    var s, t := EncodeEntry(e), EncodeEntry(next);
    var z, z', f' := LittleEndian(e.size, 7), LittleEndian(next.size, 7), LittleEndian(next.fid, 8);
    FromZeros(f');
    LittleEndianRoundTrip(next.fid, 8);
    HighZeros(e.size, 7, o - 8);
    LowZeros(next.size, 7, o - 8);
    if SeamAt(e, next, o) {
      forall j | o - 8 <= j < 7 ensures z[j] == 0 { assert s[j + 8] == 0; }
      forall j | 0 <= j < o - 8 ensures z'[j] == 0 { assert t[j + 8] == 0; }
      assert s[15] == 0;
    }
    if e.code == 0 && e.size < Pow256(o - 8) && next.size % Pow256(o - 8) == 0 {
      forall j | o <= j < INDEX_ENTRY_SIZE ensures s[j] == 0 { if j < 15 { assert z[j - 8] == 0; } }
      forall j | 0 <= j < o ensures t[j] == 0 { if j >= 8 { assert z'[j - 8] == 0; } }
    }
  }

  /** A log without tombstones and without fid 0 is read to its end, however long. */
  predicate Clean(e: Entry) { Fits(e) && e.fid != 0 && e.size != 0 }

  lemma CleanScan(region: seq<Entry>)
    requires forall k :: 0 <= k < EndOf(region) ==> Clean(region[k])
    ensures ScanEnd(region) == EndOf(region)
  {
    hide EndOf, Seam, HasRun, RegionBytes;
    var n := LastBoundary(EndOf(region));
    ScanComplete(region);
    RunIsSeam(region, n);
    forall k | 0 <= k && k + 1 < n ensures !Seam(region[k], region[k + 1]) {
      SeamExactly(region[k], region[k + 1]);
    }
  }

  /** One tombstone of a small fid in front of an entry whose fid is divisible by 256,
      anywhere before the last chunk boundary, cuts a longer log short. */
  lemma TombstoneCutsScan(region: seq<Entry>, k: nat)
    requires forall i :: 0 <= i < EndOf(region) ==> Fits(region[i])
    requires k + 1 < LastBoundary(EndOf(region))
    requires IsTombstone(region[k]) && region[k].fid < 256 && region[k + 1].fid % 256 == 0 && region[k + 1].fid != 0
    ensures ScanEnd(region) < EndOf(region)
  {
    hide EndOf, Seam, HasRun, RegionBytes;
    var n := LastBoundary(EndOf(region));
    ScanComplete(region);
    RunIsSeam(region, n);
    assert Pow256(1) == 256;
    SeamExactly(region[k], region[k + 1]);
    assert Seam(region[k], region[k + 1]);
  }
}
