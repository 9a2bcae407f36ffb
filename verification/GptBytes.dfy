/** The partition tables byte by byte: what the checks of a copy, the repair tool and a load say of the
    bytes on disk, by their positions. */
module GptBytes {
  import opened Crc32
  import opened Gpt
  import opened EntryWalk
  import opened GptDisk
  import opened FixGpt
  import opened Reload

  // ---------- The checksums ----------

  /** The 92 bytes of a header at byte `h`, its own checksum taken as zero, sum to what it stores. */
  predicate HeaderSums(m: seq<bv8>, h: nat) {
    h + 92 <= |m| && m[h + 16..h + 20] == LittleEndian(Crc(m[h..h + 16] + [0, 0, 0, 0] + m[h + 20..h + 92]), 4)
  }

  /** The word at byte `at`. */
  function Number(m: seq<bv8>, at: nat): nat {
    if at + 4 <= |m| then Word(m[at..at + 4]) as nat else 0
  }

  /** `n` bytes of entries at byte `t` sum to what the header at byte `h` stores. */
  predicate EntriesSum(m: seq<bv8>, h: nat, t: nat, n: nat) {
    h + 92 <= |m| && t + n <= |m| && m[h + 88..h + 92] == LittleEndian(Crc(m[t..t + n]), 4)
  }

  /** A header at byte `h` and an entry array at byte `t` that pass: the array is as long as the header
      says, up to 16384 bytes. */
  predicate Passes(m: seq<bv8>, h: nat, t: nat) {
    var n := Number(m, h + 80) * Number(m, h + 84);
    0 < n <= 16384 && EntriesSum(m, h, t, n) && HeaderSums(m, h)
  }

  lemma Slices(m: seq<bv8>, h: nat, n: nat, lo: nat, hi: nat)
    requires lo <= hi <= n && h + n <= |m|
    ensures m[h..h + n][lo..hi] == m[h + lo..h + hi]
  {
    var s := m[h..h + n][lo..hi];
    forall i | 0 <= i < hi - lo
      ensures s[i] == m[h + lo..h + hi][i]
    {
      assert s[i] == m[h..h + n][lo + i] == m[h + (lo + i)];
    }
  }

  lemma ClearedHeader(m: seq<bv8>, h: nat, n: nat)
    requires 92 <= n && h + n <= |m|
    ensures Splice(m[h..h + n], HEADER_CRC_OFFSET, LongBytes(0))[..HEADER_SIZE]
         == m[h..h + 16] + [0, 0, 0, 0] + m[h + 20..h + 92]
  {
    FixGpt.ZeroBytes();
    hide LongBytes;
    var s, t := m[h..h + n], m[h..h + 16] + [0, 0, 0, 0] + m[h + 20..h + 92];
    assert Splice(s, HEADER_CRC_OFFSET, LongBytes(0)) == s[..16] + [0, 0, 0, 0] + s[20..];
    Slices(m, h, n, 0, 16);
    Slices(m, h, n, 20, 92);
    assert (s[..16] + [0, 0, 0, 0] + s[20..])[..92] == s[0..16] + [0, 0, 0, 0] + s[20..92];
  }

  lemma PassesAt(m: seq<bv8>, h: nat, n: nat, t: nat)
    requires 92 <= n && h + n <= |m| && t + 16384 <= |m|
    ensures CrcValid(GptCopy(m[h..h + n], m[t..t + 16384])) == Passes(m, h, t)
  {
    hide Crc, LittleEndian, Word, Splice;
    ClearedHeader(m, h, n);
    Slices(m, h, n, 16, 20);
    Slices(m, h, n, 80, 84);
    Slices(m, h, n, 84, 88);
    Slices(m, h, n, 88, 92);
    var bytes := ArrayBytes(m[h..h + n]);
    if bytes <= 16384 {
      Slices(m, t, 16384, 0, bytes);
    }
  }

  /** The primary copy: header in the second block, entries behind it. */
  lemma PrimaryBytes(l: LunImage)
    requires WellFormed(l)
    ensures CrcValid(Primary(l)) == Passes(l.media, l.blk, 2 * l.blk)
  {
    hide CrcValid, Passes, WholeBlocks;
    PassesAt(l.media, l.blk, l.blk, 2 * l.blk);
  }

  /** The backup copy: header in the last block, entries in front of it. */
  lemma BackupBytes(l: LunImage)
    requires WellFormed(l)
    ensures CrcValid(Backup(l)) == Passes(l.media, |l.media| - l.blk, |l.media| - l.blk - 16384)
  {
    hide CrcValid, Passes, WholeBlocks;
    PassesAt(l.media, |l.media| - l.blk, l.blk, |l.media| - l.blk - 16384);
  }

  /** What the repair tool makes true: the header sums, and so do the three blocks behind it. */
  lemma ConsistentBytes(media: seq<bv8>, blk: nat)
    requires Fixable(media, blk)
    ensures Consistent(media, blk) == (HeaderSums(media, blk) && EntriesSum(media, blk, 2 * blk, 3 * blk))
  {
    hide Crc, LittleEndian, Splice;
    ClearedHeader(media, blk, 92);
    Slices(media, blk, 92, 16, 20);
    Slices(media, blk, 92, 88, 92);
  }

  // ---------- The entries ----------

  /** A UTF-16 character, low byte first. */
  function Char(low: bv8, high: bv8): bv16 { (low as bv16) | ((high as bv16) << 8) }

  /** A name is the field's characters from `i` on up to the first zero, or all of them. */
  lemma {:induction false} NameChars(bytes: seq<bv8>, i: nat)
    requires |bytes| % 2 == 0 && 2 * i <= |bytes|
    ensures var n := NameFrom(bytes, i);
            && 2 * (i + |n|) <= |bytes|
            && (forall k :: 0 <= k < |n| ==> n[k] == CharAt(bytes, i + k) && n[k] != 0)
            && (2 * (i + |n|) < |bytes| ==> CharAt(bytes, i + |n|) == 0)
    decreases |bytes| - 2 * i
  {
    hide CharAt;
    var n := NameFrom(bytes, i);
    if n != [] {
      NameChars(bytes, i + 1);
      forall k | 0 < k < |n|
        ensures n[k] == CharAt(bytes, i + k) && n[k] != 0
      {
        assert n[k] == NameFrom(bytes, i + 1)[k - 1];
      }
    }
  }

  /** A slot is blank if its first four bytes are zero, whatever follows. */
  lemma BlankBytes(table: seq<bv8>, p: nat)
    requires |table| == TABLE_SIZE && p < MAX_ENTRIES
    ensures Blank(SlotGuid(table, p)) <==> table[128 * p..128 * p + 4] == [0, 0, 0, 0]
  {
    var s := table[128 * p..128 * p + 4];
    assert s == [s[0], s[1], s[2], s[3]];
    assert forall i :: 0 <= i < 4 ==> SlotGuid(table, p)[i] == s[i];
  }

  /** An entry of 128 bytes: type GUID, unique GUID with first and last block, attributes with the A/B
      fields in byte 54, and the name in 36 characters. */
  lemma EntryBytes(table: seq<bv8>, p: nat, lun: nat)
    requires |table| == TABLE_SIZE && p < MAX_ENTRIES
    ensures var e, at := EntryAt(table, p, lun), 128 * p;
            && e.lun == lun && e.typeGuid == table[at..at + 16] && e.record == table[at + 16..at + 48]
            && LongLongBytes(e.attributes) == table[at + 48..at + 56]
            && (e.attributes >> 48) & 0xFF == table[at + 54] as bv64
            && |e.name| <= 36
            && (forall k :: 0 <= k < |e.name| ==>
                 e.name[k] == Char(table[at + 56 + 2 * k], table[at + 57 + 2 * k]) && e.name[k] != 0)
            && (|e.name| < 36 ==> Char(table[at + 56 + 2 * |e.name|], table[at + 57 + 2 * |e.name|]) == 0)
  {
    hide Word64, LittleEndian64;
    var e, at := EntryAt(table, p, lun), 128 * p;
    var field := table[at + 56..at + 128];
    LongLongRoundTrip(table[at + 48..at + 56], e.attributes);
    SixthByte(e.attributes);
    assert table[at + 48..at + 56][6] == table[at + 54];
    hide Char, NameFrom, CharAt;
    NameChars(field, 0);
    forall k: nat | k < 36
      ensures CharAt(field, k) == Char(table[at + 56 + 2 * k], table[at + 57 + 2 * k])
    {
      FieldChar(table, at + 56, field, k);
    }
  }

  lemma FieldChar(table: seq<bv8>, at: nat, field: seq<bv8>, k: nat)
    requires at + 72 <= |table| && field == table[at..at + 72] && k < 36
    ensures CharAt(field, k) == Char(table[at + 2 * k], table[at + 1 + 2 * k])
  {
    assert field[2 * k] == table[at + 2 * k] && field[2 * k + 1] == table[at + 1 + 2 * k];
  }

  /** Byte 6 of stored attributes has bits 48 to 55. */
  lemma SixthByte(a: bv64)
    ensures LongLongBytes(a)[6] as bv64 == (a >> 48) & 0xFF
  {
    SixRests(a);
    hide First64, Rest64;
    LaterByte(a, 8, 6);
    LaterByte(Rest64(a), 7, 5);
    LaterByte(Rest64(Rest64(a)), 6, 4);
    LaterByte(Rest64(Rest64(Rest64(a))), 5, 3);
    LaterByte(Rest64(Rest64(Rest64(Rest64(a)))), 4, 2);
    LaterByte(Rest64(Rest64(Rest64(Rest64(Rest64(a))))), 3, 1);
    LaterByte(Rest64(Rest64(Rest64(Rest64(Rest64(Rest64(a)))))), 2, 0);
  }

  lemma LaterByte(a: bv64, n: nat, k: nat)
    requires k < n
    ensures LittleEndian64(a, n)[k] == if k == 0 then First64(a) else LittleEndian64(Rest64(a), n - 1)[k - 1]
  {}

  lemma SixRests(a: bv64)
    ensures First64(Rest64(Rest64(Rest64(Rest64(Rest64(Rest64(a))))))) as bv64 == (a >> 48) & 0xFF
  {}
}
