/** The capacity estimate of a disk: the size found by a binary search at which
    enough sample placements avoid every occupied extent. */
module Chd {
  import opened Layout
  import D = DiskState
  import opened IndexState
  import opened Device

  const CHD_SAMPLES := 64

  /** How many of the samples must place; a target outside (0, 1] counts as 0.2. */
  function Required(targetP: real): (r: nat)
    ensures 1 <= r <= CHD_SAMPLES
  {
    var p := if targetP <= 0.0 || targetP > 1.0 then 0.2 else targetP;
    var f := (p * 64.0).Floor;
    if f as real == p * 64.0 then f else f + 1
  }

  /** Sample fid places an object of n slots among the occupied extents. */
  predicate Places(slots: nat, ivs: set<Interval>, fid: nat, n: nat) {
    var iv := Extent(slots, fid, n * SLOT_SIZE);
    iv.Some? && !D.AnyOverlap(ivs, iv.value)
  }

  function Count(slots: nat, ivs: set<Interval>, fids: seq<nat>, n: nat): (c: nat)
    ensures c <= |fids|
  {
    if fids == [] then 0
    else Count(slots, ivs, fids[..|fids| - 1], n) + (if Places(slots, ivs, fids[|fids| - 1], n) then 1 else 0)
  }

  predicate Enough(slots: nat, ivs: set<Interval>, fids: seq<nat>, n: nat, required: nat) {
    Count(slots, ivs, fids, n) >= required
  }

  /** The binary search as a recursion over its range. */
  function Search(slots: nat, ivs: set<Interval>, fids: seq<nat>, required: nat, lo: nat, hi: nat, best: nat): nat
    requires 1 <= lo <= hi + 1
    decreases hi + 1 - lo
  {
    if lo > hi then best
    else
      var mid := lo + (hi - lo) / 2;
      if Enough(slots, ivs, fids, mid, required) then Search(slots, ivs, fids, required, mid + 1, hi, mid)
      else Search(slots, ivs, fids, required, lo, mid - 1, best)
  }

  function CHD(slots: nat, ivs: set<Interval>, fids: seq<nat>, required: nat): nat {
    Search(slots, ivs, fids, required, 1, slots, 0) * SLOT_SIZE
  }

  // ----- the code -----

  method ChdSuccessRate(slots: nat, intervals: seq<Interval>, fids: seq<nat>, slotsNeeded: nat, required: nat)
    returns (r: bool)
    requires required >= 1 && slotsNeeded >= 1
    ensures r <==> Enough(slots, SetOf(intervals), fids, slotsNeeded, required)
  {
    hide Extent, D.AnyOverlap;
    var success := 0;
    for i := 0 to |fids|
      invariant success == Count(slots, SetOf(intervals), fids[..i], slotsNeeded) < required
    {
      assert fids[..i + 1][..i] == fids[..i];
      CountGrows(slots, SetOf(intervals), fids, slotsNeeded, i + 1);
      var place := Extent(slots, fids[i], slotsNeeded * SLOT_SIZE);
      if place.Some? {
        var taken := AnyOverlapIn(intervals, place.value);
        if !taken {
          success := success + 1;
          if success >= required { return true; }
        }
      }
    }
    assert fids[..|fids|] == fids;
    return false;
  }

  lemma {:induction false} CountGrows(slots: nat, ivs: set<Interval>, fids: seq<nat>, n: nat, k: nat)
    requires k <= |fids|
    ensures Count(slots, ivs, fids[..k], n) <= Count(slots, ivs, fids, n)
    decreases |fids|
  {
    if k == |fids| {
      assert fids[..k] == fids;
    } else {
      hide Places;
      assert fids[..|fids| - 1][..k] == fids[..k];
      CountGrows(slots, ivs, fids[..|fids| - 1], n, k);
    }
  }

  method ComputeCHD(diskBytes: nat, intervals: seq<Interval>, fids: seq<nat>, targetP: real) returns (capacity: nat)
    ensures capacity == if diskBytes <= GRID_START then 0
                        else CHD((diskBytes - GRID_START) / SLOT_SIZE, SetOf(intervals), fids, Required(targetP))
  {
    hide Enough, Required;
    RequiredPositive(targetP);
    if diskBytes <= GRID_START { return 0; }
    var totalSlots := (diskBytes - GRID_START) / SLOT_SIZE;
    if totalSlots == 0 { return 0; }
    var required := Required(targetP);
    var bestSlots: nat, lo: nat, hi: nat := 0, 1, totalSlots;
    while lo <= hi
      invariant 1 <= lo <= hi + 1 && hi <= totalSlots
      invariant Search(totalSlots, SetOf(intervals), fids, required, lo, hi, bestSlots)
                == Search(totalSlots, SetOf(intervals), fids, required, 1, totalSlots, 0)
      decreases hi + 1 - lo
    {
      var mid := lo + (hi - lo) / 2;
      var enough := ChdSuccessRate(totalSlots, intervals, fids, mid, required);
      if enough { bestSlots, lo := mid, mid + 1; } else { hi := mid - 1; }
    }
    return bestSlots * SLOT_SIZE;
  }

  lemma RequiredPositive(targetP: real)
    ensures 1 <= Required(targetP) <= CHD_SAMPLES
  {}

  // ----- its laws -----

  /** The share of the samples that must place: the least number that is not below it,
      where a target outside (0, 1] counts as a fifth. */
  lemma RequiredExactly(targetP: real)
    ensures var share := if 0.0 < targetP <= 1.0 then targetP * 64.0 else 12.8;
            (Required(targetP) - 1) as real < share <= Required(targetP) as real
  {}

  /** The samples whose extent of n slots shares no slot with an occupied one. */
  ghost function Placed(slots: nat, ivs: set<Interval>, fids: seq<nat>, n: nat): set<nat> {
    set i: nat | i < |fids| && 0 < n <= slots && Extent(slots, fids[i], n * SLOT_SIZE).Some?
                 && forall iv :: iv in ivs ==> !Overlaps(iv, Extent(slots, fids[i], n * SLOT_SIZE).value)
  }

  /** What is counted are those samples. */
  lemma {:induction false} CountIs(slots: nat, ivs: set<Interval>, fids: seq<nat>, n: nat)
    ensures Count(slots, ivs, fids, n) == |Placed(slots, ivs, fids, n)|
  {
    hide Extent, Overlaps;
    if fids == [] {
      assert Placed(slots, ivs, fids, n) == {};
    } else {
      var front, last := fids[..|fids| - 1], |fids| - 1;
      CountIs(slots, ivs, front, n);
      PlaceFits(slots, fids[last], n);
      assert Placed(slots, ivs, fids, n)
          == Placed(slots, ivs, front, n) + (if Places(slots, ivs, fids[last], n) then {last} else {});
    }
  }

  lemma PlaceFits(slots: nat, fid: nat, n: nat)
    ensures Extent(slots, fid, n * SLOT_SIZE).Some? ==> 0 < n <= slots
  {}

  lemma SlotsOf(n: nat)
    ensures n * SLOT_SIZE / SLOT_SIZE == n
  {}

  lemma SearchStep(slots: nat, ivs: set<Interval>, fids: seq<nat>, required: nat, lo: nat, hi: nat, best: nat)
    requires 1 <= lo <= hi + 1
    ensures var mid := lo + (hi - lo) / 2;
            Search(slots, ivs, fids, required, lo, hi, best)
            == if lo > hi then best
               else if Enough(slots, ivs, fids, mid, required) then Search(slots, ivs, fids, required, mid + 1, hi, mid)
               else Search(slots, ivs, fids, required, lo, mid - 1, best)
  {
    hide Enough;
  }

  lemma {:induction false} SearchEdge(slots: nat, ivs: set<Interval>, fids: seq<nat>, required: nat,
                                      lo: nat, hi: nat, best: nat)
    requires 1 <= lo <= hi + 1 && best == lo - 1 && hi <= slots
    requires hi < slots ==> !Enough(slots, ivs, fids, hi + 1, required)
    ensures var r := Search(slots, ivs, fids, required, lo, hi, best);
            r <= slots && (r < slots ==> !Enough(slots, ivs, fids, r + 1, required))
    decreases hi + 1 - lo
  {
    hide Enough, Search;
    SearchStep(slots, ivs, fids, required, lo, hi, best);
    if lo <= hi {
      var mid := lo + (hi - lo) / 2;
      if Enough(slots, ivs, fids, mid, required) {
        SearchEdge(slots, ivs, fids, required, mid + 1, hi, mid);
      } else {
        SearchEdge(slots, ivs, fids, required, lo, mid - 1, best);
      }
    }
  }

  /** The search bisects: of every range it comes to, it ends in the upper half exactly if
      enough samples place the middle size. */
  lemma SearchBisects(slots: nat, ivs: set<Interval>, fids: seq<nat>, required: nat, lo: nat, hi: nat, best: nat)
    requires 1 <= lo <= hi && best < lo
    ensures var mid := (lo + hi) / 2;
            Search(slots, ivs, fids, required, lo, hi, best) >= mid <==> |Placed(slots, ivs, fids, mid)| >= required
  {
    hide Placed, Search, Count;
    var mid := lo + (hi - lo) / 2;
    assert mid == (lo + hi) / 2;
    SearchStep(slots, ivs, fids, required, lo, hi, best);
    CountIs(slots, ivs, fids, mid);
    if Enough(slots, ivs, fids, mid, required) {
      SearchBounds(slots, ivs, fids, required, mid + 1, hi, mid);
    } else {
      SearchBounds(slots, ivs, fids, required, lo, mid - 1, best);
    }
  }

  /** The estimate cannot be raised by one slot: the next larger size is beyond the disk
      or is placed by too few samples. */
  lemma CHDLocallyBest(slots: nat, ivs: set<Interval>, fids: seq<nat>, required: nat)
    ensures var n := CHD(slots, ivs, fids, required) / SLOT_SIZE;
            n < slots ==> |Placed(slots, ivs, fids, n + 1)| < required
  {
    hide Placed, Search, Count;
    var n := Search(slots, ivs, fids, required, 1, slots, 0);
    SearchEdge(slots, ivs, fids, required, 1, slots, 0);
    SlotsOf(n);
    CountIs(slots, ivs, fids, n + 1);
  }

  lemma {:induction false} CountShrinks(slots: nat, ivs: set<Interval>, more: set<Interval>, fids: seq<nat>, n: nat)
    requires ivs <= more
    ensures Count(slots, more, fids, n) <= Count(slots, ivs, fids, n)
  {
    if fids != [] { CountShrinks(slots, ivs, more, fids[..|fids| - 1], n); }
  }

  lemma EnoughShrinks(slots: nat, ivs: set<Interval>, more: set<Interval>, fids: seq<nat>, n: nat, required: nat)
    requires ivs <= more
    ensures Enough(slots, more, fids, n, required) ==> Enough(slots, ivs, fids, n, required)
  {
    CountShrinks(slots, ivs, more, fids, n);
  }

  lemma {:induction false} SearchBounds(slots: nat, ivs: set<Interval>, fids: seq<nat>, required: nat,
                                        lo: nat, hi: nat, best: nat)
    requires 1 <= lo <= hi + 1 && best < lo
    ensures var r := Search(slots, ivs, fids, required, lo, hi, best);
            r == best || (lo <= r <= hi && Enough(slots, ivs, fids, r, required))
    decreases hi + 1 - lo
  {
    hide Enough;
    if lo <= hi {
      var mid := lo + (hi - lo) / 2;
      if Enough(slots, ivs, fids, mid, required) {
        SearchBounds(slots, ivs, fids, required, mid + 1, hi, mid);
      } else {
        SearchBounds(slots, ivs, fids, required, lo, mid - 1, best);
      }
    }
  }

  /** Occupying more never raises the outcome of the search, although the searched
      property is not monotone in the size: where the two searches part, the one with
      fewer extents has already done better. */
  lemma {:induction false} SearchAntitone(slots: nat, ivs: set<Interval>, more: set<Interval>, fids: seq<nat>,
                                          required: nat, lo: nat, hi: nat, best: nat)
    requires 1 <= lo <= hi + 1 && best < lo && ivs <= more
    ensures Search(slots, more, fids, required, lo, hi, best) <= Search(slots, ivs, fids, required, lo, hi, best)
    decreases hi + 1 - lo
  {
    hide Enough;
    if lo <= hi {
      var mid := lo + (hi - lo) / 2;
      EnoughShrinks(slots, ivs, more, fids, mid, required);
      if Enough(slots, more, fids, mid, required) {
        SearchAntitone(slots, ivs, more, fids, required, mid + 1, hi, mid);
      } else if Enough(slots, ivs, fids, mid, required) {
        SearchBounds(slots, more, fids, required, lo, mid - 1, best);
        SearchBounds(slots, ivs, fids, required, mid + 1, hi, mid);
      } else {
        SearchAntitone(slots, ivs, more, fids, required, lo, mid - 1, best);
      }
    }
  }

  /** Adding confirmed or reserved extents never raises the estimate. */
  lemma CHDAntitone(slots: nat, ivs: set<Interval>, more: set<Interval>, fids: seq<nat>, required: nat)
    requires ivs <= more
    ensures CHD(slots, more, fids, required) <= CHD(slots, ivs, fids, required)
  {
    SearchAntitone(slots, ivs, more, fids, required, 1, slots, 0);
  }

  /** A nonzero estimate is a size, within the disk, that enough samples place. */
  lemma CHDAchievable(slots: nat, ivs: set<Interval>, fids: seq<nat>, required: nat)
    ensures var n := CHD(slots, ivs, fids, required) / SLOT_SIZE;
            && CHD(slots, ivs, fids, required) == n * SLOT_SIZE
            && n <= slots && (n > 0 ==> |Placed(slots, ivs, fids, n)| >= required)
  {
    hide Placed, Search, Count;
    var n := Search(slots, ivs, fids, required, 1, slots, 0);
    SearchBounds(slots, ivs, fids, required, 1, slots, 0);
    SlotsOf(n);
    CountIs(slots, ivs, fids, n);
  }

  lemma {:induction false} AllPlace(slots: nat, fids: seq<nat>, n: nat)
    requires 1 <= n <= slots
    ensures Count(slots, {}, fids, n) == |fids|
  {
    if fids != [] { AllPlace(slots, fids[..|fids| - 1], n); }
  }

  lemma {:induction false} SearchFull(slots: nat, fids: seq<nat>, required: nat, lo: nat, best: nat)
    requires 1 <= lo <= slots + 1 && required <= |fids| && best == lo - 1
    ensures Search(slots, {}, fids, required, lo, slots, best) == slots
    decreases slots + 1 - lo
  {
    if lo <= slots {
      var mid := lo + (slots - lo) / 2;
      AllPlace(slots, fids, mid);
      SearchFull(slots, fids, required, mid + 1, mid);
    }
  }

  /** An empty disk has its full capacity. */
  lemma CHDEmpty(slots: nat, fids: seq<nat>, required: nat)
    requires required <= |fids|
    ensures CHD(slots, {}, fids, required) == slots * SLOT_SIZE
  {
    SearchFull(slots, fids, required, 1, 0);
  }

  predicate Taken(ivs: set<Interval>, slot: nat) {
    exists iv :: iv in ivs && iv.start <= slot <= iv.end
  }

  lemma {:induction false} NonePlaces(slots: nat, ivs: set<Interval>, fids: seq<nat>, n: nat)
    requires forall k :: 0 <= k < slots ==> Taken(ivs, k)
    ensures Count(slots, ivs, fids, n) == 0
  {
    if fids != [] {
      NonePlaces(slots, ivs, fids[..|fids| - 1], n);
      var place := Extent(slots, fids[|fids| - 1], n * SLOT_SIZE);
      if place.Some? {
        assert Taken(ivs, place.value.start);
        var iv :| iv in ivs && iv.start <= place.value.start <= iv.end;
        assert Overlaps(iv, place.value);
      }
    }
  }

  /** A full disk has none. */
  lemma CHDFull(slots: nat, ivs: set<Interval>, fids: seq<nat>, required: nat)
    requires required >= 1
    requires forall k :: 0 <= k < slots ==> Taken(ivs, k)
    ensures CHD(slots, ivs, fids, required) == 0
  {
    SearchBounds(slots, ivs, fids, required, 1, slots, 0);
    NonePlaces(slots, ivs, fids, Search(slots, ivs, fids, required, 1, slots, 0));
  }

  /** Placement is not monotone in the size: on four slots of which the last is taken,
      sample 2 fails with two slots and succeeds with three. */
  lemma PlacementNotMonotone()
    ensures !Enough(4, {Interval(3, 3)}, [2], 2, 1) && Enough(4, {Interval(3, 3)}, [2], 3, 1)
  {
    var ivs := {Interval(3, 3)};
    assert Extent(4, 2, 2 * SLOT_SIZE) == Some(Interval(2, 3)) && Overlaps(Interval(3, 3), Interval(2, 3));
    assert Extent(4, 2, 3 * SLOT_SIZE) == Some(Interval(0, 2));
    assert !Places(4, ivs, 2, 2) && Places(4, ivs, 2, 3);
    assert Count(4, ivs, [], 2) == 0 && Count(4, ivs, [], 3) == 0;
    assert [2][..0] == [];
  }
}
