/** FixGptCRC32 of crc32.c: the two checksums of a primary GPT repaired in place. */
module FixGpt {
  import opened Crc32
  import opened Gpt

  /** The blocks of partition entries the repair takes the entry checksum over. */
  const ENTRY_BLOCKS := 3

  predicate Fixable(media: seq<bv8>, blk: nat) {
    HEADER_SIZE <= blk && (2 + ENTRY_BLOCKS) * blk <= |media|
  }

  function Header(media: seq<bv8>, blk: nat): (h: seq<bv8>)
    requires Fixable(media, blk)
    ensures |h| == HEADER_SIZE
  {
    media[blk..blk + HEADER_SIZE]
  }

  function Entries(media: seq<bv8>, blk: nat): seq<bv8>
    requires Fixable(media, blk)
  {
    media[2 * blk..2 * blk + ENTRY_BLOCKS * blk]
  }

  /** Both checksums are those of what is on disk. */
  predicate Consistent(media: seq<bv8>, blk: nat)
    requires Fixable(media, blk)
  {
    && Header(media, blk)[88..92] == Checksum(Entries(media, blk))
    && Header(media, blk)[16..20] == HeaderChecksum(Header(media, blk))
  }

  /** Nothing but the eight checksum bytes differs. */
  ghost predicate OnlyCrcFields(m: seq<bv8>, n: seq<bv8>, blk: nat) {
    |m| == |n| && forall i :: 0 <= i < |m| && !(blk + 16 <= i < blk + 20) && !(blk + 88 <= i < blk + 92) ==>
      m[i] == n[i]
  }

  function WithEntriesCrc(media: seq<bv8>, blk: nat): (r: seq<bv8>)
    requires Fixable(media, blk)
    ensures |r| == |media|
  {
    Splice(media, blk + PARTITION_CRC_OFFSET, Checksum(Entries(media, blk)))
  }

  function WithHeaderCrc(media: seq<bv8>, blk: nat): (r: seq<bv8>)
    requires Fixable(media, blk)
    ensures |r| == |media|
  {
    Splice(media, blk + HEADER_CRC_OFFSET, HeaderChecksum(Header(media, blk)))
  }

  function Fixed(media: seq<bv8>, blk: nat): (r: seq<bv8>)
    requires Fixable(media, blk)
    ensures |r| == |media|
  {
    WithHeaderCrc(WithEntriesCrc(media, blk), blk)
  }

  lemma HeaderSplice(media: seq<bv8>, blk: nat, at: nat, d: seq<bv8>)
    requires Fixable(media, blk) && at + |d| <= HEADER_SIZE
    ensures Header(Splice(media, blk + at, d), blk) == Splice(Header(media, blk), at, d)
    ensures Entries(Splice(media, blk + at, d), blk) == Entries(media, blk)
  {
    var r := Splice(media, blk + at, d);
    assert forall i :: 0 <= i < |media| && !(blk + at <= i < blk + at + |d|) ==> r[i] == media[i];
    assert forall i :: 0 <= i < |d| ==> r[blk + at + i] == d[i];
  }

  lemma SpliceTwice(s: seq<bv8>, at: nat, c: seq<bv8>, d: seq<bv8>)
    requires |c| == |d| && at + |d| <= |s|
    ensures Splice(Splice(s, at, c), at, d) == Splice(s, at, d)
  {}

  /** Storing the header checksum does not change what it is taken over. */
  lemma HeaderCrcStable(media: seq<bv8>, blk: nat)
    requires Fixable(media, blk)
    ensures var r := WithHeaderCrc(media, blk);
            && Header(r, blk)[16..20] == HeaderChecksum(Header(r, blk))
            && HeaderChecksum(Header(r, blk)) == HeaderChecksum(Header(media, blk))
            && Header(r, blk)[88..92] == Header(media, blk)[88..92] && Entries(r, blk) == Entries(media, blk)
  {
    hide Checksum, LongBytes, Splice, Entries, Header;
    var h := Header(media, blk);
    var d := HeaderChecksum(h);
    HeaderSplice(media, blk, HEADER_CRC_OFFSET, d);
    SpliceTwice(h, HEADER_CRC_OFFSET, d, LongBytes(0));
    SpliceInside(h, HEADER_CRC_OFFSET, d, 16, 20);
    SpliceOutside(h, HEADER_CRC_OFFSET, d, 88, 92);
  }

  /** The repair leaves both checksums right and touches nothing else. It depends on storing the
      entry checksum before the header is summed. */
  lemma FixedConsistent(media: seq<bv8>, blk: nat)
    requires Fixable(media, blk)
    ensures Consistent(Fixed(media, blk), blk) && OnlyCrcFields(media, Fixed(media, blk), blk)
  {
    hide Checksum, LongBytes, HeaderChecksum;
    var m := WithEntriesCrc(media, blk);
    var c := Checksum(Entries(media, blk));
    HeaderCrcStable(m, blk);
    HeaderSplice(media, blk, PARTITION_CRC_OFFSET, c);
    SpliceInside(Header(media, blk), PARTITION_CRC_OFFSET, c, 88, 92);
  }

  /** A disk is left alone exactly when its checksums are right already; so repairing twice is
      repairing once. */
  lemma FixedFixpoint(media: seq<bv8>, blk: nat)
    requires Fixable(media, blk)
    ensures Fixed(media, blk) == media <==> Consistent(media, blk)
    ensures Fixed(Fixed(media, blk), blk) == Fixed(media, blk)
  {
    hide Checksum, LongBytes, HeaderChecksum;
    FixedConsistent(media, blk);
    ConsistentUnchanged(media, blk);
    ConsistentUnchanged(Fixed(media, blk), blk);
  }

  lemma SliceOfHeader(media: seq<bv8>, blk: nat, at: nat)
    requires Fixable(media, blk) && at + 4 <= HEADER_SIZE
    ensures Header(media, blk)[at..at + 4] == media[blk + at..blk + at + 4]
  {
    var h, s := Header(media, blk)[at..at + 4], media[blk + at..blk + at + 4];
    forall i | 0 <= i < 4
      ensures h[i] == s[i]
    {
      assert Header(media, blk)[at + i] == media[blk + (at + i)];
    }
  }

  lemma ConsistentUnchanged(media: seq<bv8>, blk: nat)
    requires Fixable(media, blk)
    ensures Consistent(media, blk) ==> Fixed(media, blk) == media
  {
    hide Checksum, LongBytes, HeaderChecksum;
    var h := Header(media, blk);
    SliceOfHeader(media, blk, 88);
    SliceOfHeader(media, blk, 16);
    SpliceSame(media, blk + 88, 4);
    SpliceSame(media, blk + 16, 4);
  }

  /** The repaired header passes the checks of the slot engine when its entry array is exactly
      the three blocks summed here. */
  lemma FixedPassesGptCheck(media: seq<bv8>, blk: nat, table: seq<bv8>)
    requires Fixable(media, blk) && |table| == TABLE_SIZE && ENTRY_BLOCKS * blk <= TABLE_SIZE
    requires table[..ENTRY_BLOCKS * blk] == Entries(media, blk)
    requires ArrayBytes(Header(media, blk)) == ENTRY_BLOCKS * blk
    ensures CrcValid(GptCopy(Header(Fixed(media, blk), blk), table))
  {
    hide Checksum, LongBytes, HeaderChecksum, Splice, Product, Word, LongValue, Fixed;
    FixedConsistent(media, blk);
    var h, g := Header(media, blk), Header(Fixed(media, blk), blk);
    assert Entries(Fixed(media, blk), blk) == Entries(media, blk);
    assert forall i :: 80 <= i < 88 ==> g[i] == media[blk + i] == h[i];
    assert h[80..84] == g[80..84];
    assert h[84..88] == g[84..88];
  }

  /** The disk behind EFI_DISK_IO_PROTOCOL, and the boot services used with it; `faulted` says
      that one of their calls has failed. */
  class Disk {
    const blk: nat
    var media: seq<bv8>
    var faulted: bool

    constructor (blk: nat, media: seq<bv8>)
      ensures this.blk == blk && this.media == media && !faulted
    {
      this.blk, this.media, faulted := blk, media, false;
    }

    method ReadDisk(offset: nat, size: nat) returns (ok: bool, data: seq<bv8>)
      requires offset + size <= |media|
      modifies this`faulted
      ensures faulted == (old(faulted) || !ok)
      ensures ok ==> data == media[offset..offset + size]
    {
      ok := *;
      data := if ok then media[offset..offset + size] else [];
      faulted := faulted || !ok;
    }

    /** A write that fails may leave anything in its range. */
    method WriteDisk(offset: nat, data: seq<bv8>) returns (ok: bool)
      requires offset + |data| <= |media|
      modifies this
      ensures faulted == (old(faulted) || !ok)
      ensures ok ==> media == Splice(old(media), offset, data)
      ensures |media| == |old(media)|
      ensures forall i :: 0 <= i < |media| && !(offset <= i < offset + |data|) ==> media[i] == old(media)[i]
    {
      var junk: seq<bv8>;
      ok, junk := *, *;
      faulted := faulted || !ok;
      if ok {
        media := Splice(media, offset, data);
      } else if |junk| == |data| {
        media := Splice(media, offset, junk);
      }
    }

    /** AllocatePool and FreePool, which may fail. */
    method PoolService() returns (ok: bool)
      modifies this`faulted
      ensures faulted == (old(faulted) || !ok)
    {
      ok := *;
      faulted := faulted || !ok;
    }

    /** FixGptCRC32 succeeds unless a call fails; the disk is then repaired. After a failure only
        checksum bytes can have changed. */
    method FixGptCRC32() returns (ok: bool)
      requires Fixable(media, blk) && !faulted
      modifies this
      ensures ok == !faulted
      ensures ok ==> media == Fixed(old(media), blk)
      ensures OnlyCrcFields(old(media), media, blk)
    {
      hide LongBytes, Checksum, Crc;
      ok := PoolService();
      if !ok {
        return;
      }
      var bufGptEntry;
      ok, bufGptEntry := ReadDisk(2 * blk, ENTRY_BLOCKS * blk);
      if !ok {
        return;
      }
      var crc := CalculateCrc32(bufGptEntry);
      var crc32Entry := StoredChecksum(crc, bufGptEntry);
      ok := WriteDisk(blk + PARTITION_CRC_OFFSET, crc32Entry);
      if !ok {
        return;
      }
      ok := PoolService();
      if !ok {
        return;
      }
      var bufGptHeader;
      ok, bufGptHeader := ReadDisk(blk, HEADER_SIZE);
      if !ok {
        return;
      }
      bufGptHeader := ZeroCrcField(bufGptHeader);
      crc := CalculateCrc32(bufGptHeader);
      var crc32Header := StoredChecksum(crc, bufGptHeader);
      ok := WriteDisk(blk + HEADER_CRC_OFFSET, crc32Header);
      if !ok {
        return;
      }
      ok := PoolService();
    }
  }

  /** get_result_array of a computed CRC. */
  method StoredChecksum(crc: bv32, ghost data: seq<bv8>) returns (s: seq<bv8>)
    requires crc == Crc(data)
    ensures s == Checksum(data)
  {
    hide Crc;
    var res := GetResultArray(crc);
    s := res[..];
  }

  /** The loop that clears the header's checksum field before it is summed. */
  method ZeroCrcField(header: seq<bv8>) returns (h: seq<bv8>)
    requires |header| == HEADER_SIZE
    ensures h == Splice(header, HEADER_CRC_OFFSET, LongBytes(0))[..HEADER_SIZE]
  {
    h := header;
    for i := HEADER_CRC_OFFSET to HEADER_CRC_OFFSET + 4
      invariant |h| == HEADER_SIZE
      invariant forall k :: 0 <= k < HEADER_SIZE ==> h[k] == if HEADER_CRC_OFFSET <= k < i then 0 else header[k]
    {
      h := h[i := 0];
    }
    ZeroBytes();
  }

  lemma ZeroBytes()
    ensures LongBytes(0) == [0, 0, 0, 0]
  {
    assert First(0) == 0 && Rest(0) == 0;
    assert LittleEndian(0, 0) == [] && LittleEndian(0, 1) == [0] && LittleEndian(0, 2) == [0, 0]
           && LittleEndian(0, 3) == [0, 0, 0];
  }
}
