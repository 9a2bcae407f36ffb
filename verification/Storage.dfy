/** The block devices and the boot-LUN register. Calls into the firmware's drivers may fail;
    `faulted` records that one did. A failed write leaves anything in the region it was to
    write, and every write is logged with the state it started from, so that the states a
    power cut can leave behind are known. */
module Storage {
  import opened Gpt
  import opened GptDisk

  /** A write of `len` bytes at byte `offset` of LUN `lun`, begun in state `before`; `ok` is what the
      driver reported in the end. */
  datatype DiskWrite = DiskWrite(before: seq<LunImage>, lun: nat, offset: nat, len: nat, ok: bool)

  ghost predicate AllRecoverable(luns: seq<LunImage>) {
    forall i :: 0 <= i < |luns| ==> Recoverable(luns[i])
  }

  ghost predicate AllValid(luns: seq<LunImage>) {
    forall i :: 0 <= i < |luns| ==> BothValid(luns[i])
  }

  /** A disk that a power cut during the write may leave: anything inside the region. */
  ghost predicate Torn(w: DiskWrite, after: seq<LunImage>) {
    && |after| == |w.before| && w.lun < |after|
    && (forall i :: 0 <= i < |after| && i != w.lun ==> after[i] == w.before[i])
    && after[w.lun].blk == w.before[w.lun].blk
    && |after[w.lun].media| == |w.before[w.lun].media|
    && forall k :: 0 <= k < |after[w.lun].media| && !(w.offset <= k < w.offset + w.len)
         ==> after[w.lun].media[k] == w.before[w.lun].media[k]
  }

  /** Wherever power fails during the write, every LUN keeps a copy that passes its checksums. */
  ghost predicate CrashSafe(w: DiskWrite) {
    forall after :: Torn(w, after) ==> AllRecoverable(after)
  }

  /** A copy overwritten with zeros passes no check. */
  lemma ZeroedInvalid(c: GptCopy)
    requires WellSized(c) && forall i :: 80 <= i < 84 ==> c.header[i] == 0
    ensures !CrcValid(c)
  {
    hide Checksum, HeaderChecksum;
    var word := c.header[PARTITION_COUNT_OFFSET..PARTITION_COUNT_OFFSET + 4];
    assert word == [0, 0, 0, 0] == LongBytes(0);
    GetAfterPut(c.header, PARTITION_COUNT_OFFSET, 0);
    assert Splice(c.header, PARTITION_COUNT_OFFSET, LongBytes(0)) == c.header;
  }

  /** The disk with zeros in the region the write was to fill: one that a power cut may leave. */
  function Zeroed(w: DiskWrite): (r: seq<LunImage>)
    requires w.lun < |w.before| && w.offset + w.len <= |w.before[w.lun].media|
  {
    w.before[w.lun := w.before[w.lun].(media := Splice(w.before[w.lun].media, w.offset, seq(w.len, _ => 0)))]
  }

  lemma ZeroedTorn(w: DiskWrite)
    requires w.lun < |w.before| && w.offset + w.len <= |w.before[w.lun].media|
    ensures Torn(w, Zeroed(w))
  {}

  lemma TornElsewhere(w: DiskWrite, after: seq<LunImage>)
    requires Torn(w, after)
    ensures |after| == |w.before| && w.lun < |after|
    ensures forall i :: 0 <= i < |after| && i != w.lun ==> after[i] == w.before[i]
  {}

  /** A write torn over one copy leaves the other as it was. */
  lemma TornBeside(w: DiskWrite, after: seq<LunImage>)
    requires Torn(w, after) && WellFormed(w.before[w.lun]) && w.len == RegionSize(w.before[w.lun])
    ensures WellFormed(after[w.lun])
    ensures w.offset == PrimaryOffset(w.before[w.lun]) ==> Backup(after[w.lun]) == Backup(w.before[w.lun])
    ensures w.offset == BackupOffset(w.before[w.lun]) ==> Primary(after[w.lun]) == Primary(w.before[w.lun])
  {
    hide WholeBlocks;
    var l, r := w.before[w.lun], after[w.lun];
    if w.offset == PrimaryOffset(l) {
      assert Backup(r).header == Backup(l).header && Backup(r).table == Backup(l).table;
    }
    if w.offset == BackupOffset(l) {
      assert Primary(r).header == Primary(l).header && Primary(r).table == Primary(l).table;
    }
  }

  /** A write confined to the primary copy is safe if and only if the backup is valid. */
  lemma PrimaryWriteSafe(w: DiskWrite)
    requires AllRecoverable(w.before) && w.lun < |w.before| && WellFormed(w.before[w.lun])
    requires w.offset == PrimaryOffset(w.before[w.lun]) && w.len == RegionSize(w.before[w.lun])
    ensures CrashSafe(w) <==> CrcValid(Backup(w.before[w.lun]))
  {
    hide CrcValid, WholeBlocks, Torn, Backup;
    if CrcValid(Backup(w.before[w.lun])) {
      forall after | Torn(w, after) ensures AllRecoverable(after) {
        TornBeside(w, after);
        TornElsewhere(w, after);
      }
    } else {
      ZeroedTorn(w);
      TornBeside(w, Zeroed(w));
      ZeroedInvalid(Primary(Zeroed(w)[w.lun]));
      assert !Recoverable(Zeroed(w)[w.lun]);
    }
  }

  /** A write confined to the backup copy is safe if and only if the primary is valid. */
  lemma BackupWriteSafe(w: DiskWrite)
    requires AllRecoverable(w.before) && w.lun < |w.before| && WellFormed(w.before[w.lun])
    requires w.offset == BackupOffset(w.before[w.lun]) && w.len == RegionSize(w.before[w.lun])
    ensures CrashSafe(w) <==> CrcValid(Primary(w.before[w.lun]))
  {
    hide CrcValid, WholeBlocks, Torn, Primary;
    if CrcValid(Primary(w.before[w.lun])) {
      forall after | Torn(w, after) ensures AllRecoverable(after) {
        TornBeside(w, after);
        TornElsewhere(w, after);
      }
    } else {
      ZeroedTorn(w);
      TornBeside(w, Zeroed(w));
      ZeroedInvalid(Backup(Zeroed(w)[w.lun]));
      assert !Recoverable(Zeroed(w)[w.lun]);
    }
  }

  class Device {
    /** UFS, as against eMMC. */
    const ufs: bool
    var luns: seq<LunImage>
    var bootLun: nat
    var faulted: bool
    ghost var log: seq<DiskWrite>

    constructor (ufs: bool, luns: seq<LunImage>, bootLun: nat)
      ensures this.ufs == ufs && this.luns == luns && this.bootLun == bootLun && !faulted && log == []
    {
      this.ufs, this.luns, this.bootLun, this.faulted, this.log := ufs, luns, bootLun, false, [];
    }

    ghost predicate WellFormedLuns()
      reads this
    {
      forall i :: 0 <= i < |luns| ==> WellFormed(luns[i])
    }

    /** GetStorageHandle: a lookup error, or the number of root handles found. */
    method GetStorageHandle(lun: nat) returns (ok: bool, maxHandles: nat)
      requires lun < |luns|
      modifies this`faulted
      ensures faulted == (old(faulted) || !ok || maxHandles != 1)
    {
      ok, maxHandles := *, *;
      if !ok || maxHandles != 1 {
        faulted := true;
      }
    }

    /** AllocateZeroPool, which may run out of memory. */
    method AllocateZeroPool(size: nat) returns (ok: bool, pool: array<bv8>)
      modifies this`faulted
      ensures faulted == (old(faulted) || !ok)
      ensures fresh(pool) && pool.Length == size
    {
      ok := *;
      if !ok {
        faulted := true;
      }
      pool := new bv8[size](_ => 0);
    }

    /** ReadBlocks into the whole of `pool`, from byte `offset`. */
    method ReadBlocks(lun: nat, offset: nat, pool: array<bv8>) returns (ok: bool)
      requires lun < |luns| && offset + pool.Length <= |luns[lun].media|
      modifies pool, this`faulted
      ensures faulted == (old(faulted) || !ok)
      ensures ok ==> pool[..] == luns[lun].media[offset..offset + pool.Length]
    {
      ok := *;
      if ok {
        forall i | 0 <= i < pool.Length {
          pool[i] := luns[lun].media[offset + i];
        }
      } else {
        faulted := true;
      }
    }

    /** WriteBlocks of the whole of `pool` at byte `offset`. */
    method WriteBlocks(lun: nat, offset: nat, pool: array<bv8>) returns (ok: bool)
      requires lun < |luns| && offset + pool.Length <= |luns[lun].media|
      modifies this`luns, this`faulted, this`log
      ensures faulted == (old(faulted) || !ok)
      ensures log == old(log) + [DiskWrite(old(luns), lun, offset, pool.Length, ok)]
      ensures ok ==>
        luns == old(luns)[lun := old(luns)[lun].(media := Splice(old(luns)[lun].media, offset, pool[..]))]
      ensures Torn(DiskWrite(old(luns), lun, offset, pool.Length, ok), luns)
    {
      var junk: seq<bv8>;
      ok, junk := *, *;
      log := log + [DiskWrite(luns, lun, offset, pool.Length, ok)];
      if ok {
        luns := luns[lun := luns[lun].(media := Splice(luns[lun].media, offset, pool[..]))];
      } else {
        faulted := true;
        if |junk| == pool.Length {
          luns := luns[lun := luns[lun].(media := Splice(luns[lun].media, offset, junk))];
        }
      }
    }

    /** UfsGetSetBootLun reading the register: a failed call leaves the caller's value. */
    method GetBootLun(current: nat) returns (lun: nat)
      modifies this`faulted
      ensures old(faulted) ==> faulted
      ensures !faulted ==> lun == bootLun
    {
      var ok: bool := *;
      if ok {
        lun := bootLun;
      } else {
        faulted, lun := true, current;
      }
    }

    /** UfsGetSetBootLun writing the register. */
    method SetBootLun(lun: nat)
      modifies this`faulted, this`bootLun
      ensures old(faulted) ==> faulted
      ensures !faulted ==> bootLun == lun
    {
      var ok: bool := *;
      if ok {
        bootLun := lun;
      } else {
        faulted := true;
      }
    }
  }
}
