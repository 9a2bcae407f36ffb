/** A LUN as a row of bytes with a primary GPT behind its first block and a backup GPT at its
    end, and what UpdatePartitionAttributes does to the two copies. */
module GptDisk {
  import opened Gpt
  import opened EntryWalk

  datatype LunImage = LunImage(blk: nat, media: seq<bv8>)

  /** Whole blocks, fewer than 2^32 of them, of which the entry array fills some exactly. */
  predicate WholeBlocks(blk: nat, size: nat) {
    blk > 0 && TABLE_SIZE % blk == 0 && size % blk == 0 && size / blk < 0x1_0000_0000
  }

  /** Room for a header block and the whole entry array at either end, without overlap. */
  predicate WellFormed(l: LunImage) {
    && HEADER_SIZE <= l.blk && WholeBlocks(l.blk, |l.media|)
    && |l.media| >= l.blk + 2 * (l.blk + TABLE_SIZE)
  }

  function RegionSize(l: LunImage): nat { l.blk + TABLE_SIZE }

  function PrimaryOffset(l: LunImage): nat { l.blk }

  function BackupOffset(l: LunImage): nat
    requires WellFormed(l)
  {
    |l.media| - RegionSize(l)
  }

  /** The primary copy: header, then entries. */
  function Primary(l: LunImage): (c: GptCopy)
    requires WellFormed(l)
    ensures WellSized(c) && |c.header| == l.blk
  {
    GptCopy(l.media[l.blk..2 * l.blk], l.media[2 * l.blk..2 * l.blk + TABLE_SIZE])
  }

  /** The backup copy: entries, then header. */
  function Backup(l: LunImage): (c: GptCopy)
    requires WellFormed(l)
    ensures WellSized(c) && |c.header| == l.blk
  {
    GptCopy(l.media[|l.media| - l.blk..|l.media|], l.media[BackupOffset(l)..|l.media| - l.blk])
  }

  function PutPrimary(l: LunImage, c: GptCopy): (r: LunImage)
    requires WellFormed(l) && WellSized(c) && |c.header| == l.blk
    ensures r.blk == l.blk && |r.media| == |l.media|
  {
    l.(media := Splice(l.media, PrimaryOffset(l), c.header + c.table))
  }

  function PutBackup(l: LunImage, c: GptCopy): (r: LunImage)
    requires WellFormed(l) && WellSized(c) && |c.header| == l.blk
    ensures r.blk == l.blk && |r.media| == |l.media|
  {
    l.(media := Splice(l.media, BackupOffset(l), c.table + c.header))
  }

  /** Two adjacent pieces stored at once. */
  lemma TwoPieces(m: seq<bv8>, at: nat, a: seq<bv8>, b: seq<bv8>)
    requires at + |a| + |b| <= |m|
    ensures Splice(m, at, a + b)[at..at + |a|] == a && Splice(m, at, a + b)[at + |a|..at + |a| + |b|] == b
    ensures m[at..at + |a|] + m[at + |a|..at + |a| + |b|] == m[at..at + |a| + |b|]
  {
    var data := a + b;
    SpliceInside(m, at, data, at, at + |a|);
    SpliceInside(m, at, data, at + |a|, at + |a| + |b|);
    assert data[..|a|] == a && data[|a|..] == b;
  }

  lemma PutPrimaryCopies(l: LunImage, c: GptCopy)
    requires WellFormed(l) && WellSized(c) && |c.header| == l.blk
    ensures WellFormed(PutPrimary(l, c))
    ensures Primary(PutPrimary(l, c)) == c && Backup(PutPrimary(l, c)) == Backup(l)
    ensures PutPrimary(l, Primary(l)) == l
  {
    hide Splice, WholeBlocks;
    var data, n := c.header + c.table, |l.media|;
    TwoPieces(l.media, l.blk, c.header, c.table);
    SpliceOutside(l.media, l.blk, data, n - l.blk, n);
    SpliceOutside(l.media, l.blk, data, BackupOffset(l), n - l.blk);
    SpliceSame(l.media, l.blk, RegionSize(l));
  }

  lemma PutBackupCopies(l: LunImage, c: GptCopy)
    requires WellFormed(l) && WellSized(c) && |c.header| == l.blk
    ensures WellFormed(PutBackup(l, c))
    ensures Backup(PutBackup(l, c)) == c && Primary(PutBackup(l, c)) == Primary(l)
    ensures PutBackup(l, Backup(l)) == l
  {
    hide Splice, WholeBlocks;
    var data, n, at := c.table + c.header, |l.media|, BackupOffset(l);
    TwoPieces(l.media, at, c.table, c.header);
    assert at + TABLE_SIZE == n - l.blk;
    SpliceOutside(l.media, at, data, l.blk, 2 * l.blk);
    SpliceOutside(l.media, at, data, 2 * l.blk, 2 * l.blk + TABLE_SIZE);
    SpliceSame(l.media, at, RegionSize(l));
  }

  // ---------- One pass over both copies ----------

  /** A copy after its pass: rewritten with fresh checksums if the walk changed it. */
  function FlushCopy(c: GptCopy, mem: seq<PartitionEntry>, lun: nat, kind: UpdateType): (r: GptCopy)
    requires WellSized(c) && |mem| <= MAX_ENTRIES && Checkable(c.header)
    ensures WellSized(r) && |r.header| == |c.header|
  {
    var w := Walk(c.table, mem, 0, lun, kind);
    if w.dirty then Seal(c.(table := w.table)) else c
  }

  predicate BothValid(l: LunImage) {
    WellFormed(l) && CrcValid(Primary(l)) && CrcValid(Backup(l))
  }

  predicate Recoverable(l: LunImage) {
    WellFormed(l) && (CrcValid(Primary(l)) || CrcValid(Backup(l)))
  }

  function FlushLun(l: LunImage, mem: seq<PartitionEntry>, lun: nat, kind: UpdateType): LunImage
    requires BothValid(l) && |mem| <= MAX_ENTRIES
  {
    var a := PutPrimary(l, FlushCopy(Primary(l), mem, lun, kind));
    PutPrimaryCopies(l, FlushCopy(Primary(l), mem, lun, kind));
    PutBackup(a, FlushCopy(Backup(l), mem, lun, kind))
  }

  /** A copy whose checksums match and whose slots agree with memory in GUIDs and attributes. */
  predicate CopyInStep(c: GptCopy, mem: seq<PartitionEntry>, lun: nat) {
    WellSized(c) && |mem| <= MAX_ENTRIES && CrcValid(c) && Agrees(c.table, mem, 0, lun, All)
  }

  predicate LunInStep(l: LunImage, mem: seq<PartitionEntry>, lun: nat) {
    WellFormed(l) && CopyInStep(Primary(l), mem, lun) && CopyInStep(Backup(l), mem, lun)
  }

  lemma FlushCopyValid(c: GptCopy, mem: seq<PartitionEntry>, lun: nat, kind: UpdateType)
    requires WellSized(c) && |mem| <= MAX_ENTRIES && CrcValid(c)
    ensures var r := FlushCopy(c, mem, lun, kind);
            && CrcValid(r) && OnlyChecksums(c.header, r.header) && OnlyFields(c.table, r.table, 0, kind)
            && r.table == Walk(c.table, mem, 0, lun, kind).table
  {
    hide Walk, Checksum;
    var w := Walk(c.table, mem, 0, lun, kind);
    WalkWrites(c.table, mem, 0, lun, kind);
    if w.dirty {
      SealIsValid(c.(table := w.table));
    }
  }

  /** A valid copy that is in step with the backup is, after the pass, in step with memory. */
  lemma FlushCopyInStep(c: GptCopy, bak: seq<PartitionEntry>, mem: seq<PartitionEntry>, lun: nat, kind: UpdateType)
    requires CopyInStep(c, bak, lun) && ChangedOnly(bak, mem, kind) && kind != All
    ensures CopyInStep(FlushCopy(c, mem, lun, kind), mem, lun)
  {
    hide Checksum, CrcValid, FlushCopy;
    FlushCopyValid(c, mem, lun, kind);
    WalkKeepsStep(c.table, bak, mem, lun, kind);
  }

  lemma FlushLunCopies(l: LunImage, mem: seq<PartitionEntry>, lun: nat, kind: UpdateType)
    requires BothValid(l) && |mem| <= MAX_ENTRIES
    ensures var r := FlushLun(l, mem, lun, kind);
            && BothValid(r) && r.blk == l.blk && |r.media| == |l.media|
            && Primary(r) == FlushCopy(Primary(l), mem, lun, kind)
            && Backup(r) == FlushCopy(Backup(l), mem, lun, kind)
  {
    hide Checksum, HeaderChecksum, FlushCopy, Primary, Backup, PutPrimary, PutBackup, WholeBlocks;
    var p, b := FlushCopy(Primary(l), mem, lun, kind), FlushCopy(Backup(l), mem, lun, kind);
    FlushCopyValid(Primary(l), mem, lun, kind);
    FlushCopyValid(Backup(l), mem, lun, kind);
    PutPrimaryCopies(l, p);
    PutBackupCopies(PutPrimary(l, p), b);
  }

  lemma FlushLunInStep(l: LunImage, bak: seq<PartitionEntry>, mem: seq<PartitionEntry>, lun: nat, kind: UpdateType)
    requires LunInStep(l, bak, lun) && ChangedOnly(bak, mem, kind) && kind != All
    ensures BothValid(l) && LunInStep(FlushLun(l, mem, lun, kind), mem, lun)
  {
    hide FlushLun, Primary, Backup, FlushCopy, Walk;
    FlushLunCopies(l, mem, lun, kind);
    FlushCopyInStep(Primary(l), bak, mem, lun, kind);
    FlushCopyInStep(Backup(l), bak, mem, lun, kind);
  }

  /** The same pass again finds nothing to write; what it left behind agrees with memory, if no
      slot refuses attributes written alone. */
  lemma FlushIdempotent(c: GptCopy, mem: seq<PartitionEntry>, lun: nat, kind: UpdateType)
    requires WellSized(c) && |mem| <= MAX_ENTRIES && CrcValid(c)
    ensures var r := FlushCopy(c, mem, lun, kind);
            && CrcValid(r) && !Walk(r.table, mem, 0, lun, kind).dirty && FlushCopy(r, mem, lun, kind) == r
            && ((kind.Attributes? ==> Admitted(c.table, mem, 0, lun)) ==> Agrees(r.table, mem, 0, lun, kind))
  {
    hide Checksum, HeaderChecksum, Walk;
    FlushCopyValid(c, mem, lun, kind);
    WalkTwice(c.table, mem, 0, lun, kind);
    if kind.Attributes? ==> Admitted(c.table, mem, 0, lun) {
      WalkSettles(c.table, mem, 0, lun, kind);
    }
  }
}
