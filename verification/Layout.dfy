/** Constants of the on-disk format, slot intervals and slot addressing. */
module Layout {

  const SLOT_SIZE := 4096
  const HEADER_BYTES := 4096
  const GRID_START := 0x1000_0000
  const INDEX_START := HEADER_BYTES
  const INDEX_BYTES := GRID_START - HEADER_BYTES
  const INDEX_ENTRY_SIZE := 16
  /** How many 16-byte entries the index region holds. */
  const MAX_ENTRIES := INDEX_BYTES / INDEX_ENTRY_SIZE
  const TWO_56 := 0x100_0000_0000_0000
  const TWO_64 := 0x1_0000_0000_0000_0000
  /** Disks are assumed smaller than 2^55 bytes, that is 2^43 slots. */
  const SLOT_LIMIT := 0x800_0000_0000

  type byte = b: int | 0 <= b < 256
  type uint64 = v: int | 0 <= v < TWO_64

  datatype Option<+T> = None | Some(value: T)

  datatype Error =
    | NotFound | Conflict | EmptyObject | OutOfRange | IndexFull | Fault
    | InvalidAlias | SyncFailed | CommitFailed | ReadFailed | BadLog(why: string)
    | BadTable(why: string) | BadEntry(why: string) | BadStream(why: string) | InvalidRange | Stopped
    | Panics  // the code does not return an error here, it panics

  datatype Result<+T> = Ok(value: T) | Err(error: Error)

  /** An inclusive range of slots on one disk's data grid. */
  datatype Interval = Interval(start: nat, end: nat)

  predicate Overlaps(a: Interval, b: Interval) {
    a.start <= b.end && b.start <= a.end
  }

  predicate Covers(iv: Interval, slot: nat) { iv.start <= slot <= iv.end }

  /** The bytes of the interval's slots. */
  function Capacity(iv: Interval): nat { if iv.start <= iv.end then (iv.end - iv.start + 1) * SLOT_SIZE else 0 }

  function SlotsNeeded(size: nat): nat {
    (size + SLOT_SIZE - 1) / SLOT_SIZE
  }

  /** The slots an object occupies on a grid of `slots` slots, if it fits at all. */
  function Extent(slots: nat, fid: nat, size: nat): (r: Option<Interval>)
    ensures r.Some? <==> 0 < size <= slots * SLOT_SIZE
    ensures r.Some? ==> r.value.start <= r.value.end < slots
    ensures r.Some? ==> size <= (r.value.end - r.value.start + 1) * SLOT_SIZE < size + SLOT_SIZE
  {
    var need := SlotsNeeded(size);
    if need == 0 || need > slots then None
    else
      var slot := fid % (slots - need + 1);
      Some(Interval(slot, slot + need - 1))
  }

  /** Every place that has room is some object's, fids up to the last of them start where
      they say, and from there on the places repeat. */
  lemma ExtentPlaces(slots: nat, fid: nat, size: nat)
    requires 0 < size <= slots * SLOT_SIZE
    ensures var need := (size + SLOT_SIZE - 1) / SLOT_SIZE;
            && need <= slots
            && (fid + need <= slots ==> Extent(slots, fid, size) == Some(Interval(fid, fid + need - 1)))
            && Extent(slots, fid + (slots - need + 1), size) == Extent(slots, fid, size)
  {
    var places := slots - (size + SLOT_SIZE - 1) / SLOT_SIZE + 1;
    ModRepeats(fid, places);
    if fid < places { ModSmall(fid, places); }
  }

  lemma ModSmall(a: nat, n: nat)
    requires a < n
    ensures a % n == a
  {}

  lemma ModRepeats(a: nat, n: nat)
    requires n > 0
    ensures (a + n) % n == a % n
  {
    var q, r := a / n, a % n;
    assert a + n == (q + 1) * n + r;
    var d := (a + n) / n - (q + 1);
    assert (a + n) % n == r - d * n;
    ProductFar(d, n);
  }

  lemma ProductFar(d: int, n: nat)
    ensures d >= 1 ==> d * n >= n
    ensures d <= -1 ==> d * n <= 0 - n
  {
    if d >= 1 { assert (d - 1) * n >= 0; }
  }

  /** Two intervals overlap exactly if they share a slot. */
  lemma OverlapShares(a: Interval, b: Interval)
    requires a.start <= a.end && b.start <= b.end
    ensures Overlaps(a, b) <==> exists k :: Covers(a, k) && Covers(b, k)
  {
    if Overlaps(a, b) {
      var k := if a.start < b.start then b.start else a.start;
      assert Covers(a, k) && Covers(b, k);
    }
  }

  datatype Address = Address(addr: nat, slot: nat, count: nat)

  /** Slot addressing with the 64-bit wrap of the rounding sum written out. */
  function AddrForFID(diskBytes: nat, fid: nat, size: nat): Result<Address>
    requires GRID_START <= diskBytes
  {
    var slots := (diskBytes - GRID_START) / SLOT_SIZE;
    if slots == 0 then Err(OutOfRange)
    else
      var need := ((size + SLOT_SIZE - 1) % TWO_64) / SLOT_SIZE;
      if need == 0 || need > slots then Err(OutOfRange)
      else
        var slot := fid % (slots - need + 1);
        if slot + need > slots then Err(OutOfRange)
        else Ok(Address(GRID_START + slot * SLOT_SIZE, slot, need))
  }

  /** For every 64-bit size the wrapped arithmetic accepts exactly the objects that
      fit, and places them on the slots of `Extent`, inside the disk. */
  lemma AddrForFIDIsExtent(diskBytes: nat, fid: nat, size: nat)
    requires GRID_START <= diskBytes < GRID_START + SLOT_LIMIT * SLOT_SIZE
    requires size < TWO_64
    ensures var slots := (diskBytes - GRID_START) / SLOT_SIZE;
            match Extent(slots, fid, size)
            case None => AddrForFID(diskBytes, fid, size) == Err(OutOfRange)
            case Some(iv) =>
              && AddrForFID(diskBytes, fid, size)
                 == Ok(Address(GRID_START + iv.start * SLOT_SIZE, iv.start, iv.end - iv.start + 1))
              && GRID_START + (iv.end + 1) * SLOT_SIZE <= diskBytes
  {
    if size + SLOT_SIZE - 1 < TWO_64 {
      assert (size + SLOT_SIZE - 1) % TWO_64 == size + SLOT_SIZE - 1;
    } else {
      assert (size + SLOT_SIZE - 1) % TWO_64 == size + SLOT_SIZE - 1 - TWO_64;
    }
  }

  /** All intervals of the set lie on the grid and no two of them share a slot. */
  ghost predicate Packing(slots: nat, ivs: set<Interval>) {
    && (forall a :: a in ivs ==> a.start <= a.end < slots)
    && (forall a, b :: a in ivs && b in ivs && a != b ==> !Overlaps(a, b))
  }

  // ----- sequence slices -----

  lemma SliceOfSlice<T>(s: seq<T>, a: nat, b: nat, c: nat, d: nat)
    requires a <= b <= |s| && c <= d <= b - a
    ensures s[a..b][c..d] == s[a + c..a + d]
  {
    forall i | 0 <= i < d - c ensures s[a..b][c..d][i] == s[a + c..a + d][i] {
      assert s[a..b][c + i] == s[a + c + i];
    }
  }

  lemma SliceOfConcat<T>(s: seq<T>, t: seq<T>, a: nat, b: nat)
    requires a <= b
    ensures b <= |s| ==> (s + t)[a..b] == s[a..b]
    ensures |s| <= a && b <= |s| + |t| ==> (s + t)[a..b] == t[a - |s|..b - |s|]
  {
    var st := s + t;
    if b <= |s| {
      forall i | 0 <= i < b - a ensures st[a..b][i] == s[a..b][i] { assert st[a + i] == s[a + i]; }
    }
    if |s| <= a && b <= |s| + |t| {
      forall i | 0 <= i < b - a ensures st[a..b][i] == t[a - |s|..b - |s|][i] {
        assert st[a + i] == t[a + i - |s|];
      }
    }
  }

  lemma SliceJoin<T>(s: seq<T>, a: nat, b: nat, c: nat)
    requires a <= b <= c <= |s|
    ensures s[a..b] + s[b..c] == s[a..c]
  {}

  lemma PutAgain<K, V>(m: map<K, V>, k: K, x: V)
    ensures (m[k := x] - {k})[k := x] == m[k := x]
  {}

  function InsertAt<T>(s: seq<T>, at: nat, x: T): (r: seq<T>)
    requires at <= |s|
    ensures |r| == |s| + 1
    ensures forall k :: 0 <= k < |r| ==> r[k] == if k < at then s[k] else if k == at then x else s[k - 1]
  {
    s[..at] + [x] + s[at..]
  }

  lemma InsertedMembers<T>(s: seq<T>, at: nat, x: T)
    requires at <= |s|
    ensures multiset(InsertAt(s, at, x)) == multiset(s) + multiset{x}
    ensures forall q :: q in InsertAt(s, at, x) <==> q in s || q == x
  {
    assert s == s[..at] + s[at..];
  }
}
