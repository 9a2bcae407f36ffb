/** UpdatePartitionAttributes: the in-place patching of a GPT buffer and its write-back. */
module GptWriter {
  import opened Crc32
  import opened Gpt
  import opened EntryWalk
  import opened GptDisk

  // ---------- The buffer of one pass ----------

  /** The two passes of the loop over copies. */
  datatype Which = PrimaryPass | BackupPass

  function TableAt(which: Which, blk: nat): nat { if which.PrimaryPass? then blk else 0 }

  function HeaderAt(which: Which): nat { if which.PrimaryPass? then 0 else TABLE_SIZE }

  function Layout(which: Which, c: GptCopy): (s: seq<bv8>)
    ensures |s| == |c.header| + |c.table|
  {
    if which.PrimaryPass? then c.header + c.table else c.table + c.header
  }

  function CopyOf(which: Which, l: LunImage): (c: GptCopy)
    requires WellFormed(l)
    ensures WellSized(c) && |c.header| == l.blk
  {
    if which.PrimaryPass? then Primary(l) else Backup(l)
  }

  function PutCopy(which: Which, l: LunImage, c: GptCopy): (r: LunImage)
    requires WellFormed(l) && WellSized(c) && |c.header| == l.blk
    ensures r.blk == l.blk && |r.media| == |l.media|
  {
    if which.PrimaryPass? then PutPrimary(l, c) else PutBackup(l, c)
  }

  function OffsetOf(which: Which, l: LunImage): nat
    requires WellFormed(l)
  {
    if which.PrimaryPass? then PrimaryOffset(l) else BackupOffset(l)
  }

  lemma SpliceFront(a: seq<bv8>, b: seq<bv8>, k: nat, data: seq<bv8>)
    requires k + |data| <= |a|
    ensures (a + b)[k..k + |data|] == a[k..k + |data|] && Splice(a + b, k, data) == Splice(a, k, data) + b
  {}

  lemma SpliceBack(a: seq<bv8>, b: seq<bv8>, k: nat, data: seq<bv8>)
    requires k + |data| <= |b|
    ensures (a + b)[|a| + k..|a| + k + |data|] == b[k..k + |data|]
    ensures Splice(a + b, |a| + k, data) == a + Splice(b, k, data)
  {
    assert (a + b)[|a| + k + |data|..] == b[k + |data|..] && (a + b)[..|a| + k] == a + b[..k];
  }

  lemma LayoutTable(which: Which, c: GptCopy, k: nat, data: seq<bv8>)
    requires WellSized(c) && k + |data| <= TABLE_SIZE
    ensures var at := TableAt(which, |c.header|) + k;
            && at + |data| <= |Layout(which, c)|
            && Layout(which, c)[at..at + |data|] == c.table[k..k + |data|]
            && Splice(Layout(which, c), at, data) == Layout(which, c.(table := Splice(c.table, k, data)))
  {
    hide Splice;
    SpliceBack(c.header, c.table, k, data);
    SpliceFront(c.table, c.header, k, data);
  }

  lemma LayoutHeader(which: Which, c: GptCopy, k: nat, data: seq<bv8>)
    requires WellSized(c) && k + |data| <= |c.header|
    ensures var at := HeaderAt(which) + k;
            && at + |data| <= |Layout(which, c)|
            && Layout(which, c)[at..at + |data|] == c.header[k..k + |data|]
            && Splice(Layout(which, c), at, data) == Layout(which, c.(header := Splice(c.header, k, data)))
  {
    hide Splice;
    SpliceFront(c.header, c.table, k, data);
    SpliceBack(c.table, c.header, k, data);
  }

  /** CopyMem, or the byte stores of PUT_LONG and PUT_LONG_LONG. */
  method Store(buf: array<bv8>, at: nat, data: seq<bv8>)
    requires at + |data| <= buf.Length
    modifies buf
    ensures buf[..] == Splice(old(buf[..]), at, data)
  {
    for k := 0 to |data|
      invariant forall i :: 0 <= i < buf.Length ==> buf[i] == if at <= i < at + k then data[i - at] else old(buf[i])
    {
      buf[at + k] := data[k];
    }
  }

  /** The type GUID of slot `p`, read from the buffer. */
  method LoadGuid(buf: array<bv8>, which: Which, ghost c: GptCopy, p: nat) returns (g: Guid)
    requires WellSized(c) && buf[..] == Layout(which, c) && p < MAX_ENTRIES
    ensures g == SlotGuid(c.table, p)
  {
    hide Layout, Splice;
    var at := TableAt(which, buf.Length - TABLE_SIZE) + ENTRY_SIZE * p;
    LayoutTable(which, c, ENTRY_SIZE * p, SlotGuid(c.table, p));
    g := buf[..][at..at + GUID_SIZE];
  }

  /** GET_LLWORD_FROM_BYTE of the attributes of slot `p`. */
  method LoadAttributes(buf: array<bv8>, which: Which, ghost c: GptCopy, p: nat) returns (attr: bv64)
    requires WellSized(c) && buf[..] == Layout(which, c) && p < MAX_ENTRIES
    ensures attr == Word64(AttributeBytes(c.table, p))
  {
    hide Layout, Splice, Word64;
    var at := TableAt(which, buf.Length - TABLE_SIZE) + ENTRY_SIZE * p + ATTRIBUTES_OFFSET;
    LayoutTable(which, c, ENTRY_SIZE * p + ATTRIBUTES_OFFSET, AttributeBytes(c.table, p));
    attr := Word64(buf[..][at..at + 8]);
  }

  /** CopyMem or PUT_LONG_LONG to byte `k` of the entry array. */
  method StoreInTable(buf: array<bv8>, which: Which, k: nat, data: seq<bv8>, ghost c: GptCopy)
    requires WellSized(c) && k + |data| <= TABLE_SIZE && buf[..] == Layout(which, c)
    modifies buf
    ensures buf[..] == Layout(which, c.(table := Splice(c.table, k, data)))
  {
    hide Layout, Splice;
    LayoutTable(which, c, k, data);
    Store(buf, TableAt(which, buf.Length - TABLE_SIZE) + k, data);
  }

  lemma HeaderLong(which: Which, c: GptCopy, k: nat)
    requires WellSized(c) && k + 4 <= |c.header|
    ensures HeaderAt(which) + k + 4 <= |Layout(which, c)|
    ensures GetLong(Layout(which, c), HeaderAt(which) + k) == GetLong(c.header, k)
  {
    LayoutHeader(which, c, k, c.header[k..k + 4]);
  }

  /** PUT_LONG into a header field of the buffer. */
  method PutHeaderLong(buf: array<bv8>, which: Which, k: nat, v: bv32, ghost c: GptCopy)
    requires WellSized(c) && k + 4 <= |c.header| && buf[..] == Layout(which, c)
    modifies buf
    ensures buf[..] == Layout(which, c.(header := Splice(c.header, k, LongBytes(v))))
  {
    LayoutHeader(which, c, k, LongBytes(v));
    Store(buf, HeaderAt(which) + k, LongBytes(v));
  }

  /** The bytes the entry checksum covers, read from the buffer. */
  method ReadArrayBytes(buf: array<bv8>, which: Which, ghost c: GptCopy) returns (bytes: nat)
    requires WellSized(c) && buf[..] == Layout(which, c)
    ensures bytes == ArrayBytes(c.header)
  {
    hide Word;
    HeaderLong(which, c, PARTITION_COUNT_OFFSET);
    HeaderLong(which, c, ENTRY_SIZE_OFFSET);
    var maxPtnCount := GetLong(buf[..], HeaderAt(which) + PARTITION_COUNT_OFFSET);
    var ptnEntrySz := GetLong(buf[..], HeaderAt(which) + ENTRY_SIZE_OFFSET);
    bytes := Product(LongValue(maxPtnCount), LongValue(ptnEntrySz));
  }

  /** The header checksum, taken with its own field cleared first. */
  method StoreHeaderChecksum(buf: array<bv8>, which: Which, ghost c: GptCopy)
    requires WellSized(c) && buf[..] == Layout(which, c)
    modifies buf
    ensures buf[..] == Layout(which, c.(header :=
      Splice(Splice(c.header, HEADER_CRC_OFFSET, LongBytes(0)), HEADER_CRC_OFFSET, HeaderChecksum(c.header))))
  {
    hide LongBytes, Splice, Crc;
    PutHeaderLong(buf, which, HEADER_CRC_OFFSET, 0, c);
    ghost var c2 := c.(header := Splice(c.header, HEADER_CRC_OFFSET, LongBytes(0)));
    LayoutHeader(which, c2, 0, c2.header[..HEADER_SIZE]);
    var crcVal := CalculateCrc32(buf[..][HeaderAt(which)..HeaderAt(which) + HEADER_SIZE]);
    PutHeaderLong(buf, which, HEADER_CRC_OFFSET, crcVal, c2);
  }

  method EntriesCrc(buf: array<bv8>, which: Which, bytes: nat, ghost c: GptCopy) returns (crcVal: bv32)
    requires WellSized(c) && buf[..] == Layout(which, c) && bytes <= TABLE_SIZE
    ensures crcVal == Crc(c.table[..bytes])
  {
    hide Layout, Splice, Crc;
    var tbl := TableAt(which, buf.Length - TABLE_SIZE);
    LayoutTable(which, c, 0, c.table[..bytes]);
    crcVal := CalculateCrc32(buf[..][tbl..tbl + bytes]);
  }

  /** The two checksums, entries first; false, with the buffer untouched, when the entry array
      is too large to hold or has no bytes to sum. */
  method StoreChecksums(buf: array<bv8>, which: Which, ghost c: GptCopy) returns (ok: bool)
    requires WellSized(c) && buf[..] == Layout(which, c)
    modifies buf
    ensures ok == Checkable(c.header)
    ensures buf[..] == if ok then Layout(which, Seal(c)) else old(buf[..])
  {
    hide LongBytes, Layout, Splice, Crc, HeaderChecksum, ArrayBytes;
    var bytes := ReadArrayBytes(buf, which, c);
    if bytes > TABLE_SIZE || bytes == 0 {
      return false;
    }
    var crcVal := EntriesCrc(buf, which, bytes, c);
    PutHeaderLong(buf, which, PARTITION_CRC_OFFSET, crcVal, c);
    StoreHeaderChecksum(buf, which, c.(header := Splice(c.header, PARTITION_CRC_OFFSET, LongBytes(crcVal))));
    return true;
  }
}
