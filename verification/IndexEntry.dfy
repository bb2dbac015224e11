/** The 16-byte index entry: little-endian codec, sentinels and classification. */
module IndexEntry {
  import opened Layout

  const JUMP_SENTINEL := TWO_56 - 1
  const PACKED_SENTINEL := TWO_56 - 2
  const PACKED_ANCHOR_CODE := 0xFF
  const ALIAS_JUMP_CODE := 1

  datatype Entry = Entry(fid: nat, size: nat, code: nat)

  /** The all-zero entry: both the end marker and a tombstone of fid 0. */
  const ZERO := Entry(0, 0, 0)

  predicate IsJumpIndicator(e: Entry) { e.code != 0 && e.size == JUMP_SENTINEL }
  predicate IsPackedAnchor(e: Entry) { e.code == PACKED_ANCHOR_CODE && e.size == PACKED_SENTINEL }
  predicate IsTombstone(e: Entry) { e.code == 0 && e.size == 0 }

  /** The values that fit the entry's fields. */
  predicate Fits(e: Entry) { e.fid < TWO_64 && e.size < TWO_56 && e.code < 256 }

  /** An entry as sixteen bytes hold it. */
  type RawEntry = e: Entry | Fits(e) witness ZERO

  function Pow256(n: nat): (p: nat)
    ensures p > 0
  {
    if n == 0 then 1 else 256 * Pow256(n - 1)
  }

  /** The n low-order bytes of v, least significant first. */
  function LittleEndian(v: nat, n: nat): (s: seq<byte>)
    ensures |s| == n
  {
    if n == 0 then [] else [v % 256] + LittleEndian(v / 256, n - 1)
  }

  function FromLittleEndian(s: seq<byte>): (v: nat)
    ensures v < Pow256(|s|)
  {
    if s == [] then 0 else s[0] + 256 * FromLittleEndian(s[1..])
  }

  lemma {:induction false} LittleEndianRoundTrip(v: nat, n: nat)
    requires v < Pow256(n)
    ensures FromLittleEndian(LittleEndian(v, n)) == v
  {
    if n > 0 {
      LittleEndianRoundTrip(v / 256, n - 1);
      assert LittleEndian(v, n)[1..] == LittleEndian(v / 256, n - 1);
    }
  }

  lemma {:induction false} LittleEndianOnto(s: seq<byte>)
    ensures LittleEndian(FromLittleEndian(s), |s|) == s
  {
    if s != [] {
      LittleEndianOnto(s[1..]);
      var v := FromLittleEndian(s);
      assert v % 256 == s[0] && v / 256 == FromLittleEndian(s[1..]);
      assert s == [s[0]] + s[1..];
    }
  }

  /** A zero byte string encodes zero and nothing else does. */
  lemma {:induction false} FromZeros(s: seq<byte>)
    ensures FromLittleEndian(s) == 0 <==> forall i :: 0 <= i < |s| ==> s[i] == 0
  {
    if s != [] {
      FromZeros(s[1..]);
      if forall i :: 0 <= i < |s[1..]| ==> s[1..][i] == 0 {
        assert forall i :: 0 < i < |s| ==> s[i] == s[1..][i - 1];
      } else {
        var i :| 0 <= i < |s[1..]| && s[1..][i] != 0;
        assert s[i + 1] != 0;
      }
    }
  }

  lemma Pow256Values()
    ensures Pow256(2) == 65536 && Pow256(7) == TWO_56 && Pow256(8) == TWO_64
  {
    assert Pow256(4) == 0x1_0000_0000 by { assert Pow256(2) == 65536; }
    assert Pow256(6) == 0x1_0000_0000_0000;
  }

  /** The entry's 16 bytes; a field too wide for its place keeps its low bytes. */
  function EncodeEntry(e: Entry): (s: seq<byte>)
    ensures |s| == INDEX_ENTRY_SIZE
  {
    LittleEndian(e.fid, 8) + LittleEndian(e.size, 7) + [e.code % 256]
  }

  function BuildIndexEntry(fid: nat, size: nat, code: byte): Result<seq<byte>> {
    if size > JUMP_SENTINEL then Err(BadEntry("size exceeds 56-bit limit"))
    else if code != 0 && size != JUMP_SENTINEL && !(code == PACKED_ANCHOR_CODE && size == PACKED_SENTINEL)
    then Err(BadEntry("non-zero jumpcode requires reserved sentinel"))
    else Ok(EncodeEntry(Entry(fid, size, code)))
  }

  function ParseIndexEntry(raw: seq<byte>): (r: Result<Entry>)
    ensures r.Ok? <==> |raw| >= INDEX_ENTRY_SIZE
    ensures r.Ok? ==> Fits(r.value)
  {
    if |raw| < INDEX_ENTRY_SIZE then Err(BadEntry("entry size"))
    else
      Pow256Values();
      Ok(Entry(FromLittleEndian(raw[..8]), FromLittleEndian(raw[8..15]), raw[15]))
  }

  /** Whatever is built parses back to the values it was built from; building
      refuses exactly sizes beyond 56 bits and unreserved jump codes. */
  lemma BuildParseRoundTrip(fid: nat, size: nat, code: byte)
    requires fid < TWO_64
    ensures var e := Entry(fid, size, code);
            var ok := size < TWO_56 && (code == 0 || IsJumpIndicator(e) || IsPackedAnchor(e));
            && (BuildIndexEntry(fid, size, code).Ok? <==> ok)
            && (ok ==> ParseIndexEntry(BuildIndexEntry(fid, size, code).value) == Ok(e))
  {
    if BuildIndexEntry(fid, size, code).Ok? {
      var raw := BuildIndexEntry(fid, size, code).value;
      Pow256Values();
      LittleEndianRoundTrip(fid, 8);
      LittleEndianRoundTrip(size, 7);
      assert raw[..8] == LittleEndian(fid, 8);
      assert raw[8..15] == LittleEndian(size, 7);
    }
  }

  /** Every 16-byte string is the encoding of what it parses to, so an entry is
      the end marker exactly when all of its bytes are zero. */
  lemma ParseEncodeRoundTrip(raw: seq<byte>)
    requires |raw| == INDEX_ENTRY_SIZE
    ensures EncodeEntry(ParseIndexEntry(raw).value) == raw
    ensures ParseIndexEntry(raw).value == ZERO <==> forall i :: 0 <= i < INDEX_ENTRY_SIZE ==> raw[i] == 0
  {
    hide LittleEndian, FromLittleEndian;
    var f, z := raw[..8], raw[8..15];
    LittleEndianOnto(f);
    LittleEndianOnto(z);
    assert raw == f + z + [raw[15]];
    FromZeros(f);
    FromZeros(z);
    if ParseIndexEntry(raw).value == ZERO {
      forall i | 0 <= i < INDEX_ENTRY_SIZE ensures raw[i] == 0 {
        if i < 8 { assert f[i] == 0; }
        else if i < 15 { assert z[i - 8] == 0; }
      }
    }
  }
}
