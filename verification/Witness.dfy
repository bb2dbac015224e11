/** Concrete disks in order, built one object at a time: small objects of zero bytes,
    each in the slot of its fid. */
module Witness {
  import opened Layout
  import opened IndexEntry
  import opened IndexLog
  import opened Replay
  import opened Store
  import opened StoreSteps
  import opened DiskState
  import opened DiskSteps
  import opened TrimSteps

  const WITNESS_SLOTS := 300000

  function BlankDisk(): Disk {
    Disk(WITNESS_SLOTS, 1, Zeros(WITNESS_SLOTS * SLOT_SIZE), ZeroEntries(MAX_ENTRIES), 0, map[], map[], {}, {}, false)
  }

  ghost predicate ZeroDisk(d: Disk, objs: Objects) {
    && Inv(d, objs) && !d.fault && d.slots == WITNESS_SLOTS && d.diskID == 1 && |d.region| == MAX_ENTRIES
    && d.grid == Zeros(WITNESS_SLOTS * SLOT_SIZE) && d.pending == {}
    && forall iv :: iv in d.intervals ==> iv.start == iv.end && iv.start in objs
  }

  lemma BlankIsZero()
    ensures ZeroDisk(BlankDisk(), map[]) && Recs(BlankDisk()) == []
  {
    var d := BlankDisk();
    assert Log(d) == [];
    hide LoadTable;
  }

  lemma OneSlot(fid: nat, size: nat)
    requires fid < WITNESS_SLOTS && 0 < size <= SLOT_SIZE
    ensures Extent(WITNESS_SLOTS, fid, size) == Some(Interval(fid, fid))
  {}

  lemma ZeroSlice(total: nat, at: nat, n: nat)
    requires at + n <= total
    ensures Zeros(total)[at..at + n] == Zeros(n)
  {}

  lemma PlacedZeros(d: Disk, objs: Objects, fid: nat, size: nat)
    requires ZeroDisk(d, objs) && fid < WITNESS_SLOTS && fid !in objs && 0 < size <= SLOT_SIZE
    ensures Placed(d, Plain(fid, size), Interval(fid, fid), Zeros(size))
  {
    hide Inv, Extent, Zeros;
    OneSlot(fid, size);
    ZeroSlice(WITNESS_SLOTS * SLOT_SIZE, fid * SLOT_SIZE, size);
  }

  /** One more object. */
  lemma StoreZeros(d: Disk, objs: Objects, fid: nat, size: nat) returns (d': Disk, objs': Objects)
    requires ZeroDisk(d, objs) && fid < WITNESS_SLOTS && fid !in objs && 0 < size <= SLOT_SIZE && d.end < MAX_ENTRIES
    ensures ZeroDisk(d', objs') && objs' == objs[fid := Zeros(size)]
    ensures d'.end == d.end + 1 && d'.region == Splice(d.region, d.end, [Entry(fid, size, 0)])
    ensures Recs(d') == Recs(d) + [Plain(fid, size)]
  {
    hide Inv, Placed, Zeros, Splice, Recs;
    var r, data, iv := Plain(fid, size), Zeros(size), Interval(fid, fid);
    PlacedZeros(d, objs, fid, size);
    AppendedKeeps(d, objs, r, iv, data);
    d', objs' := Appended(d, r, iv), objs + RecObjects(r, data);
    assert objs' == objs[fid := data];
    PlacedRec(d, r, iv, data);
    AppendedRecs(d, objs, r, iv);
    SpliceLength(d.region, d.end, [Entry(fid, size, 0)]);
  }

  lemma PlacedRec(d: Disk, r: Rec, iv: Interval, data: seq<byte>)
    requires Placed(d, r, iv, data)
    ensures RecOk(d.slots, r)
  {}
}
