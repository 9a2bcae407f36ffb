/** One copy of a GUID partition table: a header block and an array of 128-byte entries
    (sections 5.3.2 and 5.3.3 of the UEFI Specification), the byte codecs of
    PartitionTableUpdate.h, and the checksums that make a copy valid. */
module Gpt {
  import opened Crc32

  const ENTRY_SIZE := 128
  const MAX_ENTRIES := 128
  const TABLE_SIZE := 16384
  const HEADER_SIZE := 92
  const HEADER_CRC_OFFSET := 16
  const PARTITION_COUNT_OFFSET := 80
  const ENTRY_SIZE_OFFSET := 84
  const PARTITION_CRC_OFFSET := 88
  const ATTRIBUTES_OFFSET := 48
  const GUID_SIZE := 16

  // ---------- Byte codecs ----------

  /** `s` with `data` stored over it from position `at`. */
  function Splice<T>(s: seq<T>, at: nat, data: seq<T>): (r: seq<T>)
    requires at + |data| <= |s|
    ensures |r| == |s|
  {
    s[..at] + data + s[at + |data|..]
  }

  lemma SpliceInside<T>(s: seq<T>, at: nat, data: seq<T>, lo: nat, hi: nat)
    requires at + |data| <= |s| && at <= lo <= hi <= at + |data|
    ensures Splice(s, at, data)[lo..hi] == data[lo - at..hi - at]
  {}

  lemma SpliceOutside<T>(s: seq<T>, at: nat, data: seq<T>, lo: nat, hi: nat)
    requires at + |data| <= |s| && lo <= hi <= |s| && (hi <= at || at + |data| <= lo)
    ensures Splice(s, at, data)[lo..hi] == s[lo..hi]
  {}

  lemma SpliceSame<T>(s: seq<T>, at: nat, n: nat)
    requires at + n <= |s|
    ensures Splice(s, at, s[at..at + n]) == s
  {}

  lemma SpliceTwice<T>(s: seq<T>, at: nat, a: seq<T>, b: seq<T>)
    requires at + |a| <= |s| && |a| == |b|
    ensures Splice(Splice(s, at, a), at, b) == Splice(s, at, b)
  {}

  /** GET_LWORD_FROM_BYTE. */
  function GetLong(s: seq<bv8>, at: nat): bv32
    requires at + 4 <= |s|
  {
    Word(s[at..at + 4])
  }

  /** The four bytes PUT_LONG stores. */
  function LongBytes(v: bv32): (s: seq<bv8>)
    ensures |s| == 4
  {
    LittleEndian(v, 4)
  }

  lemma GetAfterPut(s: seq<bv8>, at: nat, v: bv32)
    requires at + 4 <= |s|
    ensures GetLong(Splice(s, at, LongBytes(v)), at) == v
  {
    LittleEndianWord(v, 4);
  }

  function Join64(first: bv8, rest: bv64): bv64 { (first as bv64) | (rest << 8) }

  function First64(w: bv64): bv8 { (w & 0xFF) as bv8 }

  function Rest64(w: bv64): bv64 { w >> 8 }

  /** GET_LLWORD_FROM_BYTE of eight bytes. */
  function Word64(s: seq<bv8>): bv64
    decreases |s|
  {
    if s == [] then 0 else Join64(s[0], Word64(s[1..]))
  }

  function LittleEndian64(w: bv64, n: nat): (s: seq<bv8>)
    ensures |s| == n
    decreases n, w
  {
    if n == 0 then [] else [First64(w)] + LittleEndian64(Rest64(w), n - 1)
  }

  predicate FitsBytes64(w: bv64, n: nat)
    decreases n, w
  {
    if n == 0 then w == 0 else FitsBytes64(Rest64(w), n - 1)
  }

  lemma JoinParts64(w: bv64)
    ensures Join64(First64(w), Rest64(w)) == w
  {}

  lemma Rests64(w: bv64)
    ensures Rest64(Rest64(Rest64(Rest64(Rest64(Rest64(Rest64(Rest64(w)))))))) == 0
  {}

  lemma WordFits64(w: bv64)
    ensures FitsBytes64(w, 8)
  {
    Rests64(w);
    var w4 := Rest64(Rest64(Rest64(Rest64(w))));
    assert FitsBytes64(Rest64(Rest64(w4)), 2);
    assert FitsBytes64(w4, 4);
    assert FitsBytes64(Rest64(Rest64(w)), 6);
  }

  lemma {:induction false} LittleEndianWord64(w: bv64, n: nat)
    requires FitsBytes64(w, n)
    ensures Word64(LittleEndian64(w, n)) == w
    decreases n
  {
    if n > 0 {
      LittleEndianWord64(Rest64(w), n - 1);
      JoinParts64(w);
      assert LittleEndian64(w, n)[1..] == LittleEndian64(Rest64(w), n - 1);
    }
  }

  lemma JoinUnjoin64(b: bv8, tail: bv64)
    requires tail <= 0xFF_FFFF_FFFF_FFFF
    ensures First64(Join64(b, tail)) == b && Rest64(Join64(b, tail)) == tail
  {}

  lemma SevenBytes64(w: bv64)
    requires Rest64(Rest64(Rest64(Rest64(Rest64(Rest64(Rest64(w))))))) == 0
    ensures w <= 0xFF_FFFF_FFFF_FFFF
  {}

  lemma {:induction false} FitsFewer64(w: bv64, n: nat, m: nat)
    requires FitsBytes64(w, n) && n <= m
    ensures FitsBytes64(w, m)
    decreases m, w
  {
    if n > 0 {
      FitsFewer64(Rest64(w), n - 1, m - 1);
    } else if m > 0 {
      assert Rest64(0) == 0;
      FitsFewer64(0, 0, m - 1);
    }
  }

  lemma FitsSeven64(w: bv64, n: nat)
    requires n <= 7 && FitsBytes64(w, n)
    ensures w <= 0xFF_FFFF_FFFF_FFFF
  {
    FitsFewer64(w, n, 7);
    var w1 := Rest64(w);
    var w2 := Rest64(w1);
    var w3 := Rest64(w2);
    assert FitsBytes64(w1, 6) && FitsBytes64(w2, 5) && FitsBytes64(w3, 4);
    var w4 := Rest64(w3);
    var w5 := Rest64(w4);
    assert FitsBytes64(w4, 3) && FitsBytes64(w5, 2) && FitsBytes64(Rest64(w5), 1);
    assert FitsBytes64(Rest64(Rest64(w5)), 0);
    SevenBytes64(w);
  }

  lemma {:induction false} WordFitsBytes64(s: seq<bv8>)
    requires |s| <= 8
    ensures FitsBytes64(Word64(s), |s|) && LittleEndian64(Word64(s), |s|) == s
    decreases |s|
  {
    if s != [] {
      WordFitsBytes64(s[1..]);
      FitsSeven64(Word64(s[1..]), |s| - 1);
      JoinUnjoin64(s[0], Word64(s[1..]));
    }
  }

  /** The eight bytes PUT_LONG_LONG stores. */
  function LongLongBytes(v: bv64): (s: seq<bv8>)
    ensures |s| == 8
  {
    LittleEndian64(v, 8)
  }

  /** Eight stored bytes read as `v` exactly when they are the ones PUT_LONG_LONG stores for it. */
  lemma LongLongRoundTrip(s: seq<bv8>, v: bv64)
    requires |s| == 8
    ensures Word64(LongLongBytes(v)) == v
    ensures (Word64(s) == v) == (s == LongLongBytes(v))
  {
    WordFits64(v);
    LittleEndianWord64(v, 8);
    WordFitsBytes64(s);
  }

  // ---------- A copy and its checksums ----------

  datatype GptCopy = GptCopy(header: seq<bv8>, table: seq<bv8>)

  predicate WellSized(c: GptCopy) {
    |c.header| >= HEADER_SIZE && |c.table| == TABLE_SIZE
  }

  function LongValue(v: bv32): nat { v as nat }

  function Product(a: nat, b: nat): nat { a * b }

  /** The number of bytes the header's entry checksum covers. */
  function ArrayBytes(header: seq<bv8>): nat
    requires |header| >= HEADER_SIZE
  {
    Product(LongValue(GetLong(header, PARTITION_COUNT_OFFSET)), LongValue(GetLong(header, ENTRY_SIZE_OFFSET)))
  }

  predicate Checkable(header: seq<bv8>)
    requires |header| >= HEADER_SIZE
  {
    0 < ArrayBytes(header) <= TABLE_SIZE
  }

  /** A checksum as it is stored. */
  function Checksum(s: seq<bv8>): (r: seq<bv8>)
    ensures |r| == 4
  {
    LongBytes(Crc(s))
  }

  /** The header checksum is taken with its own field set to zero. */
  function HeaderChecksum(header: seq<bv8>): (r: seq<bv8>)
    requires |header| >= HEADER_SIZE
    ensures |r| == 4
  {
    Checksum(Splice(header, HEADER_CRC_OFFSET, LongBytes(0))[..HEADER_SIZE])
  }

  predicate CrcValid(c: GptCopy)
    requires WellSized(c)
  {
    && Checkable(c.header)
    && c.header[88..92] == Checksum(c.table[..ArrayBytes(c.header)])
    && c.header[16..20] == HeaderChecksum(c.header)
  }

  /** The copy with both checksums stored afresh: entries first, then the header. */
  function Seal(c: GptCopy): (r: GptCopy)
    requires WellSized(c) && Checkable(c.header)
    ensures WellSized(r) && |r.header| == |c.header|
  {
    var h := Splice(c.header, PARTITION_CRC_OFFSET, Checksum(c.table[..ArrayBytes(c.header)]));
    GptCopy(Splice(Splice(h, HEADER_CRC_OFFSET, LongBytes(0)), HEADER_CRC_OFFSET, HeaderChecksum(h)), c.table)
  }

  /** `r` differs from `h` in the two checksum fields at most. */
  predicate OnlyChecksums(h: seq<bv8>, r: seq<bv8>) {
    |h| == |r| && forall i :: 0 <= i < |h| && !(16 <= i < 20) && !(88 <= i < 92) ==> h[i] == r[i]
  }

  lemma SealIsValid(c: GptCopy)
    requires WellSized(c) && Checkable(c.header)
    ensures CrcValid(Seal(c)) && Seal(c).table == c.table && OnlyChecksums(c.header, Seal(c).header)
  {
    hide LongBytes, Checksum, Word, Splice;
    var ck := Checksum(c.table[..ArrayBytes(c.header)]);
    var h := Splice(c.header, PARTITION_CRC_OFFSET, ck);
    var hc := HeaderChecksum(h);
    SpliceTwice(h, HEADER_CRC_OFFSET, LongBytes(0), hc);
    var r := Splice(h, HEADER_CRC_OFFSET, hc);
    assert Seal(c) == GptCopy(r, c.table);
    SpliceTwice(h, HEADER_CRC_OFFSET, hc, LongBytes(0));
    SpliceInside(h, HEADER_CRC_OFFSET, hc, 16, 20);
    SpliceInside(c.header, PARTITION_CRC_OFFSET, ck, 88, 92);
    SpliceOutside(c.header, PARTITION_CRC_OFFSET, ck, 80, 84);
    SpliceOutside(c.header, PARTITION_CRC_OFFSET, ck, 84, 88);
    SpliceOutside(h, HEADER_CRC_OFFSET, hc, 80, 84);
    SpliceOutside(h, HEADER_CRC_OFFSET, hc, 84, 88);
    SpliceOutside(h, HEADER_CRC_OFFSET, hc, 88, 92);
    SealWrites(c.header, ck, hc);
  }

  lemma SealWrites(h: seq<bv8>, ck: seq<bv8>, hc: seq<bv8>)
    requires |h| >= HEADER_SIZE && |ck| == |hc| == 4
    ensures OnlyChecksums(h, Splice(Splice(h, PARTITION_CRC_OFFSET, ck), HEADER_CRC_OFFSET, hc))
  {}
}
