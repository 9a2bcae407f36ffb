/** The in-memory partition table of PartitionTableUpdate.c and its write-back to disk. */
module PartitionTable {
  import opened Arithmetic
  import opened Gpt
  import opened EntryWalk
  import opened GptDisk
  import opened GptWriter
  import opened Storage
  import opened Survival

  lemma {:induction false} WalkNothing(table: seq<bv8>, mem: seq<PartitionEntry>, bak: seq<PartitionEntry>, p: nat,
                                       lun: nat, kind: UpdateType)
    requires |table| == TABLE_SIZE && p + |mem| <= MAX_ENTRIES && |bak| == |mem|
    requires forall i :: 0 <= i < |mem| ==> Skipped(mem[i], lun)
    ensures Walk(table, mem, p, lun, kind) == Walked(table, false)
    ensures WalkBackup(table, mem, bak, p, lun, kind) == bak
    decreases |mem|
  {
    if mem != [] {
      WalkNothing(table, mem[1..], bak[1..], p, lun, kind);
    }
  }

  lemma WalkSkip(table: seq<bv8>, mem: seq<PartitionEntry>, bak: seq<PartitionEntry>, i: nat, p: nat, lun: nat,
                 kind: UpdateType)
    requires |table| == TABLE_SIZE && i < |mem| == |bak| && p <= i && |mem| <= MAX_ENTRIES && Skipped(mem[i], lun)
    ensures Walk(table, mem[i..], p, lun, kind) == Walk(table, mem[i + 1..], p, lun, kind)
    ensures bak[..i] + WalkBackup(table, mem[i..], bak[i..], p, lun, kind)
         == bak[..i + 1] + WalkBackup(table, mem[i + 1..], bak[i + 1..], p, lun, kind)
  {
    hide Visit, Refresh;
    assert mem[i..][1..] == mem[i + 1..] && bak[i..][1..] == bak[i + 1..];
  }

  lemma WalkVisit(table: seq<bv8>, mem: seq<PartitionEntry>, bak: seq<PartitionEntry>, i: nat, p: nat, lun: nat,
                  kind: UpdateType)
    requires |table| == TABLE_SIZE && i < |mem| == |bak| && p <= i && |mem| <= MAX_ENTRIES && !Skipped(mem[i], lun)
    ensures var v := Visit(table, p, mem[i], kind);
            var q := if v.advance then p + 1 else p;
            var next := bak[i := Refresh(table, p, mem[i], bak[i], kind)];
            && Walk(table, mem[i..], p, lun, kind).table == Walk(v.table, mem[i + 1..], q, lun, kind).table
            && Walk(table, mem[i..], p, lun, kind).dirty == (v.dirty || Walk(v.table, mem[i + 1..], q, lun, kind).dirty)
            && bak[..i] + WalkBackup(table, mem[i..], bak[i..], p, lun, kind)
            == next[..i + 1] + WalkBackup(v.table, mem[i + 1..], next[i + 1..], q, lun, kind)
  {
    assert mem[i..][1..] == mem[i + 1..] && bak[i..][1..] == bak[i + 1..];
    WalkFirst(table, mem[i..], bak[i..], p, lun, kind);
    hide Visit, Refresh, Walk, WalkBackup, Skipped;
    var next := bak[i := Refresh(table, p, mem[i], bak[i], kind)];
    assert next[i + 1..] == bak[i + 1..] && next[..i + 1] == bak[..i] + [Refresh(table, p, mem[i], bak[i], kind)];
    var v := Visit(table, p, mem[i], kind);
    Regroup(bak[..i], [Refresh(table, p, mem[i], bak[i], kind)],
            WalkBackup(v.table, mem[i + 1..], bak[i + 1..], if v.advance then p + 1 else p, lun, kind));
  }

  lemma Regroup<T>(a: seq<T>, b: seq<T>, c: seq<T>)
    ensures a + b + c == a + (b + c)
  {}

  lemma WalkFirst(table: seq<bv8>, mem: seq<PartitionEntry>, bak: seq<PartitionEntry>, p: nat, lun: nat,
                  kind: UpdateType)
    requires |table| == TABLE_SIZE && p + |mem| <= MAX_ENTRIES && |bak| == |mem| > 0 && !Skipped(mem[0], lun)
    ensures var v := Visit(table, p, mem[0], kind);
            var q := if v.advance then p + 1 else p;
            && Walk(table, mem, p, lun, kind).table == Walk(v.table, mem[1..], q, lun, kind).table
            && Walk(table, mem, p, lun, kind).dirty == (v.dirty || Walk(v.table, mem[1..], q, lun, kind).dirty)
            && WalkBackup(table, mem, bak, p, lun, kind)
            == [Refresh(table, p, mem[0], bak[0], kind)] + WalkBackup(v.table, mem[1..], bak[1..], q, lun, kind)
  {
    hide Visit, Refresh;
  }

  lemma {:induction false} WalkBackupLuns(table: seq<bv8>, mem: seq<PartitionEntry>, bak: seq<PartitionEntry>, p: nat,
                                          lun: nat, kind: UpdateType)
    requires |table| == TABLE_SIZE && p + |mem| <= MAX_ENTRIES && SameLuns(mem, bak)
    ensures SameLuns(mem, WalkBackup(table, mem, bak, p, lun, kind))
    decreases |mem|
  {
    hide Visit, VisitGuid;
    if mem != [] {
      if Skipped(mem[0], lun) {
        WalkBackupLuns(table, mem[1..], bak[1..], p, lun, kind);
      } else {
        var v := Visit(table, p, mem[0], kind);
        WalkBackupLuns(v.table, mem[1..], bak[1..], if v.advance then p + 1 else p, lun, kind);
      }
    }
  }

  /** Entries as UpdatePartitionEntries lists them: LUN by LUN. */
  predicate ByLun(mem: seq<PartitionEntry>) {
    forall i, j :: 0 <= i < j < |mem| ==> mem[i].lun <= mem[j].lun
  }

  predicate SameLuns(mem: seq<PartitionEntry>, bak: seq<PartitionEntry>) {
    |mem| == |bak| && forall i :: 0 <= i < |mem| ==> mem[i].lun == bak[i].lun
  }

  // ---------- Block arithmetic ----------

  /** The block counts of the loop, in bytes. */
  lemma RegionBlocks(blk: nat, size: nat)
    requires WholeBlocks(blk, size) && size >= blk + TABLE_SIZE
    ensures (GPT_HDR_BLOCKS + TABLE_SIZE / blk) * blk == blk + TABLE_SIZE
    ensures size / blk >= (blk + TABLE_SIZE) / blk
    ensures (size / blk - (blk + TABLE_SIZE) / blk) * blk == size - (blk + TABLE_SIZE)
  {
    var q, n := TABLE_SIZE / blk, size / blk;
    assert TABLE_SIZE == q * blk && size == n * blk;
    assert blk + TABLE_SIZE == (1 + q) * blk;
    Quotient(blk + TABLE_SIZE, 1 + q, 0, blk);
    if n < 1 + q {
      MulGrows(n, 1 + q, blk);
    }
    assert (n - (1 + q)) * blk == n * blk - (1 + q) * blk;
  }

  const GPT_HDR_BLOCKS := 1
  const PRIMARY_HDR_LBA := 1

  /** Everything logged since `before` is crash safe. */
  ghost predicate SafeSince(before: seq<DiskWrite>, log: seq<DiskWrite>) {
    before <= log && forall i :: |before| <= i < |log| ==> CrashSafe(log[i])
  }

  ghost predicate SameGeometry(a: seq<LunImage>, b: seq<LunImage>) {
    |a| == |b| && forall i :: 0 <= i < |a| ==> a[i].blk == b[i].blk && |a[i].media| == |b[i].media|
  }

  /** How a pass over one copy may leave the disk and the log: untouched, or with one write of
      that copy's region begun. */
  ghost predicate PassOutcome(which: Which, lun: nat, before: seq<LunImage>, after: seq<LunImage>, log0: seq<DiskWrite>,
                              log1: seq<DiskWrite>, exit: bool)
    requires lun < |before| && WellFormed(before[lun])
  {
    var w := DiskWrite(before, lun, OffsetOf(which, before[lun]), RegionSize(before[lun]), !exit);
    (log1 == log0 && after == before) || (log1 == log0 + [w] && Torn(w, after))
  }

  /** What the pass over one copy leaves behind. It writes only a copy that has to change. It exits
      only if a driver failed or the header gives no array to sum; otherwise the copy is flushed,
      a write was begun if it had to change, and the backup is refreshed. */
  ghost predicate CopyOutcome(which: Which, lun: nat, kind: UpdateType, mem: seq<PartitionEntry>, before: seq<LunImage>,
                              after: seq<LunImage>, log0: seq<DiskWrite>, log1: seq<DiskWrite>,
                              bak0: seq<PartitionEntry>, bak1: seq<PartitionEntry>, exit: bool, faulted: bool)
    requires lun < |before| && WellFormed(before[lun]) && |mem| <= MAX_ENTRIES && |bak0| == |mem|
  {
    var c := CopyOf(which, before[lun]);
    && PassOutcome(which, lun, before, after, log0, log1, exit)
    && (log1 != log0 ==> Walk(c.table, mem, 0, lun, kind).dirty && Checkable(c.header))
    && (!exit ==> log1 != log0 || !Walk(c.table, mem, 0, lun, kind).dirty)
    && (if exit then faulted || (Walk(c.table, mem, 0, lun, kind).dirty && !Checkable(c.header))
        else Checkable(c.header) ==>
          && after == before[lun := PutCopy(which, before[lun], FlushCopy(c, mem, lun, kind))]
          && bak1 == WalkBackup(c.table, mem, bak0, 0, lun, kind))
  }

  /** A pass that begins no write. */
  lemma PassedOver(which: Which, lun: nat, kind: UpdateType, mem: seq<PartitionEntry>, before: seq<LunImage>,
                   log: seq<DiskWrite>, bak0: seq<PartitionEntry>, bak1: seq<PartitionEntry>, exit: bool, faulted: bool)
    requires lun < |before| && WellFormed(before[lun]) && |mem| <= MAX_ENTRIES && |bak0| == |mem|
    requires exit ==> faulted || (Walk(CopyOf(which, before[lun]).table, mem, 0, lun, kind).dirty
                                  && !Checkable(CopyOf(which, before[lun]).header))
    requires !exit ==> !Walk(CopyOf(which, before[lun]).table, mem, 0, lun, kind).dirty
    requires !exit ==> bak1 == WalkBackup(CopyOf(which, before[lun]).table, mem, bak0, 0, lun, kind)
    ensures CopyOutcome(which, lun, kind, mem, before, before, log, log, bak0, bak1, exit, faulted)
  {
    hide Walk, WalkBackup, Splice, WholeBlocks, Primary, Backup, PutPrimary, PutBackup;
    CopyLayout(which, before[lun]);
  }

  /** A pass that writes its copy back. */
  lemma PassedWriting(which: Which, lun: nat, kind: UpdateType, mem: seq<PartitionEntry>, before: seq<LunImage>,
                      after: seq<LunImage>, log: seq<DiskWrite>, bak0: seq<PartitionEntry>, bak1: seq<PartitionEntry>,
                      data: seq<bv8>, ok: bool, faulted: bool)
    requires lun < |before| && WellFormed(before[lun]) && |mem| <= MAX_ENTRIES && |bak0| == |mem|
    requires var c, l := CopyOf(which, before[lun]), before[lun];
             var w := Walk(c.table, mem, 0, lun, kind);
             && Checkable(c.header) && w.dirty && bak1 == WalkBackup(c.table, mem, bak0, 0, lun, kind)
             && data == Layout(which, Seal(c.(table := w.table)))
             && OffsetOf(which, l) + RegionSize(l) <= |l.media| && |data| == RegionSize(l)
             && Torn(DiskWrite(before, lun, OffsetOf(which, l), |data|, ok), after)
             && (if ok then after == before[lun := l.(media := Splice(l.media, OffsetOf(which, l), data))] else faulted)
    ensures CopyOutcome(which, lun, kind, mem, before, after, log,
                        log + [DiskWrite(before, lun, OffsetOf(which, before[lun]), RegionSize(before[lun]), ok)],
                        bak0, bak1, !ok, faulted)
  {
    hide Walk, WalkBackup, Seal, Splice, WholeBlocks, Primary, Backup, PutPrimary, PutBackup, Layout, Torn;
    CopyLayout(which, before[lun]);
  }

  /** A pass over one copy, as a stretch of a run. */
  lemma PassRuns(which: Which, lun: nat, kind: UpdateType, mem: seq<PartitionEntry>, before: seq<LunImage>,
                 after: seq<LunImage>, log0: seq<DiskWrite>, log1: seq<DiskWrite>, bak0: seq<PartitionEntry>,
                 bak1: seq<PartitionEntry>, exit: bool, faulted: bool)
    requires lun < |before| && WellFormed(before[lun]) && |mem| <= MAX_ENTRIES && |bak0| == |mem|
    requires CopyOutcome(which, lun, kind, mem, before, after, log0, log1, bak0, bak1, exit, faulted)
    ensures Running(before, log0, after, log1)
  {
    hide Walk, WalkBackup, WholeBlocks, Primary, Backup, PutPrimary, PutBackup, Seal, Running, CrcValid, AllKept;
    RunningStart(before, log0);
    if log1 != log0 {
      var w := DiskWrite(before, lun, OffsetOf(which, before[lun]), RegionSize(before[lun]), !exit);
      if AllValid(before) && !exit {
        FlushedCopyKept(which, before[lun], mem, lun, kind);
        OneLunKept(before, lun, after);
      }
      RunningWrite(before, log0, w, after);
    }
  }

  lemma OneLunKept(before: seq<LunImage>, lun: nat, after: seq<LunImage>)
    requires AllValid(before) && lun < |before| && |after| == |before| && Kept(before[lun], after[lun])
    requires after == before[lun := after[lun]]
    ensures AllKept(before, after)
  {
    hide Kept, BothValid;
    forall i | 0 <= i < |after| ensures Kept(before[i], after[i]) {
      if i != lun {
        KeptSelf(before[i]);
      }
    }
  }

  lemma FlushedCopyKept(which: Which, l: LunImage, mem: seq<PartitionEntry>, lun: nat, kind: UpdateType)
    requires BothValid(l) && |mem| <= MAX_ENTRIES
    ensures Checkable(CopyOf(which, l).header)
    ensures Kept(l, PutCopy(which, l, FlushCopy(CopyOf(which, l), mem, lun, kind)))
  {
    hide Walk, FlushCopy, WholeBlocks, Primary, Backup, PutPrimary, PutBackup, CrcValid, OnlyFields;
    CheckableCopies(l);
    var c := CopyOf(which, l);
    FlushCopyValid(c, mem, lun, kind);
    var d := FlushCopy(c, mem, lun, kind);
    FieldsOfAll(c.table, d.table, kind);
    OnlyFieldsNone(Primary(l).table, 0, All);
    OnlyFieldsNone(Backup(l).table, 0, All);
    PutPrimaryCopies(l, d);
    PutBackupCopies(l, d);
  }

  lemma FieldsOfAll(t: seq<bv8>, u: seq<bv8>, kind: UpdateType)
    requires OnlyFields(t, u, 0, kind)
    ensures OnlyFields(t, u, 0, All)
  {
    forall i | 0 <= i < |t| && !MayWrite(i, 0, All) ensures t[i] == u[i] {
      assert !MayWrite(i, 0, kind);
    }
  }

  lemma TornGeometry(w: DiskWrite, after: seq<LunImage>)
    requires Torn(w, after) && forall i :: 0 <= i < |w.before| ==> WellFormed(w.before[i])
    ensures SameGeometry(w.before, after) && forall i :: 0 <= i < |after| ==> WellFormed(after[i])
  {
    hide WholeBlocks;
    assert forall i :: 0 <= i < |after| && i != w.lun ==> after[i] == w.before[i];
  }

  lemma ExitAfterPrimary(lun: nat, kind: UpdateType, mem: seq<PartitionEntry>, before: seq<LunImage>,
                         after: seq<LunImage>, log0: seq<DiskWrite>, log1: seq<DiskWrite>, bak0: seq<PartitionEntry>,
                         bak1: seq<PartitionEntry>, faulted: bool)
    requires lun < |before| && WellFormed(before[lun]) && |mem| <= MAX_ENTRIES && |bak0| == |mem|
    requires CopyOutcome(PrimaryPass, lun, kind, mem, before, after, log0, log1, bak0, bak1, true, faulted)
    ensures LunOutcome(lun, kind, mem, before, after, log0, log1, bak0, bak1, true, faulted)
  {
    hide WholeBlocks, CrcValid, FlushLun, FlushCopy, Walk, WalkBackup, Merged, Agrees, Primary, Backup, SafeSince,
         AllRecoverable;
    if BothValid(before[lun]) {
      CheckableCopies(before[lun]);
    }
    if AllRecoverable(before) {
      PassSafe(PrimaryPass, lun, before, after, log0, log1, true);
    }
  }

  /** Exactly when both passes over a LUN begin safe writes only. */
  lemma TurnExact(lun: nat, kind: UpdateType, mem: seq<PartitionEntry>, before: seq<LunImage>, middle: seq<LunImage>,
                  after: seq<LunImage>, log0: seq<DiskWrite>, log1: seq<DiskWrite>, log2: seq<DiskWrite>,
                  bak0: seq<PartitionEntry>, bak1: seq<PartitionEntry>, bak2: seq<PartitionEntry>, exit: bool,
                  faulted1: bool, faulted: bool)
    requires lun < |before| && WellFormed(before[lun]) && |mem| <= MAX_ENTRIES && |bak0| == |bak1| == |mem|
    requires CopyOutcome(PrimaryPass, lun, kind, mem, before, middle, log0, log1, bak0, bak1, false, faulted1)
    requires lun < |middle| && WellFormed(middle[lun])
    requires CopyOutcome(BackupPass, lun, kind, mem, middle, after, log1, log2, bak1, bak2, exit, faulted)
    requires AllRecoverable(before)
    ensures TurnSafe(before[lun], mem, lun, kind) ==> SafeSince(log0, log2) && AllRecoverable(after)
    ensures !faulted && SafeSince(log0, log2) ==> TurnSafe(before[lun], mem, lun, kind)
  {
    hide WholeBlocks, CrcValid, Seal, Walk, WalkBackup, Primary, Backup, PutPrimary, PutBackup, SafeSince,
         AllRecoverable;
    var l := before[lun];
    PassSafe(PrimaryPass, lun, before, middle, log0, log1, false);
    if log1 != log0 {
      PutPrimaryCopies(l, FlushCopy(Primary(l), mem, lun, kind));
      SealIsValid(Primary(l).(table := Walk(Primary(l).table, mem, 0, lun, kind).table));
      if CrcValid(Backup(l)) {
        PassSafe(BackupPass, lun, middle, after, log1, log2, exit);
        SafeSinceTransitive(log0, log1, log2);
      } else {
        if SafeSince(log0, log2) {
          SafeSinceFewer(log0, log1, log2);
        }
      }
    } else {
      PassSafe(BackupPass, lun, middle, after, log1, log2, exit);
    }
  }

  /** Both passes leave the other LUNs alone, and a clean LUN too. */
  lemma BothConfined(lun: nat, kind: UpdateType, mem: seq<PartitionEntry>, before: seq<LunImage>, middle: seq<LunImage>,
                     after: seq<LunImage>, log0: seq<DiskWrite>, log1: seq<DiskWrite>, log2: seq<DiskWrite>,
                     bak0: seq<PartitionEntry>, bak1: seq<PartitionEntry>, bak2: seq<PartitionEntry>, exit: bool,
                     faulted1: bool, faulted: bool)
    requires lun < |before| && WellFormed(before[lun]) && |mem| <= MAX_ENTRIES && |bak0| == |bak1| == |mem|
    requires CopyOutcome(PrimaryPass, lun, kind, mem, before, middle, log0, log1, bak0, bak1, false, faulted1)
    requires lun < |middle| && WellFormed(middle[lun])
    requires CopyOutcome(BackupPass, lun, kind, mem, middle, after, log1, log2, bak1, bak2, exit, faulted)
    ensures |after| == |before| && forall i :: 0 <= i < |before| && i != lun ==> after[i] == before[i]
    ensures LunClean(before[lun], mem, lun, kind) ==> log2 == log0 && after == before
  {
    hide WholeBlocks, CrcValid, FlushCopy, Walk, WalkBackup, Primary, Backup, PutPrimary, PutBackup;
  }

  /** Both passes over a LUN of two valid copies. */
  lemma BothKept(lun: nat, kind: UpdateType, mem: seq<PartitionEntry>, before: seq<LunImage>, middle: seq<LunImage>,
                 after: seq<LunImage>, log0: seq<DiskWrite>, log1: seq<DiskWrite>, log2: seq<DiskWrite>,
                 bak0: seq<PartitionEntry>, bak1: seq<PartitionEntry>, bak2: seq<PartitionEntry>, exit: bool,
                 faulted1: bool, faulted: bool)
    requires lun < |before| && WellFormed(before[lun]) && |mem| <= MAX_ENTRIES && |bak0| == |bak1| == |mem|
    requires CopyOutcome(PrimaryPass, lun, kind, mem, before, middle, log0, log1, bak0, bak1, false, faulted1)
    requires lun < |middle| && WellFormed(middle[lun])
    requires CopyOutcome(BackupPass, lun, kind, mem, middle, after, log1, log2, bak1, bak2, exit, faulted)
    requires BothValid(before[lun])
    ensures |after| == |before| && if exit then faulted else BothValid(after[lun])
    ensures !faulted ==> after[lun] == FlushLun(before[lun], mem, lun, kind)
    ensures !faulted && LunInStep(before[lun], bak0, lun) && ChangedOnly(bak0, mem, kind) && kind != All ==>
      bak2 == Merged(bak0, mem, lun, kind)
  {
    hide WholeBlocks, CrcValid, FlushCopy, Walk, WalkBackup, Merged, Agrees, Primary, Backup, PutPrimary, PutBackup;
    var l := before[lun];
    CheckableCopies(l);
    FlushCopyValid(Primary(l), mem, lun, kind);
    PutPrimaryCopies(l, FlushCopy(Primary(l), mem, lun, kind));
    FlushLunCopies(l, mem, lun, kind);
    if LunInStep(l, bak0, lun) && ChangedOnly(bak0, mem, kind) && kind != All {
      PassesFlush(l, bak0, mem, lun, kind);
    }
  }

  lemma BothPasses(lun: nat, kind: UpdateType, mem: seq<PartitionEntry>, before: seq<LunImage>, middle: seq<LunImage>,
                   after: seq<LunImage>, log0: seq<DiskWrite>, log1: seq<DiskWrite>, log2: seq<DiskWrite>,
                   bak0: seq<PartitionEntry>, bak1: seq<PartitionEntry>, bak2: seq<PartitionEntry>, exit: bool,
                   faulted1: bool, faulted: bool)
    requires lun < |before| && WellFormed(before[lun]) && |mem| <= MAX_ENTRIES && |bak0| == |bak1| == |mem|
    requires CopyOutcome(PrimaryPass, lun, kind, mem, before, middle, log0, log1, bak0, bak1, false, faulted1)
    requires lun < |middle| && WellFormed(middle[lun])
    requires CopyOutcome(BackupPass, lun, kind, mem, middle, after, log1, log2, bak1, bak2, exit, faulted)
    ensures LunOutcome(lun, kind, mem, before, after, log0, log2, bak0, bak2, exit, faulted)
  {
    BothConfined(lun, kind, mem, before, middle, after, log0, log1, log2, bak0, bak1, bak2, exit, faulted1, faulted);
    StepIsValid(before[lun], bak0, lun);
    hide CopyOutcome, LunClean, BothValid, LunInStep, ChangedOnly, FlushLun, Merged, SafeSince, AllRecoverable,
         TurnSafe, WellFormed, CopyOf;
    if AllRecoverable(before) {
      TurnExact(lun, kind, mem, before, middle, after, log0, log1, log2, bak0, bak1, bak2, exit, faulted1, faulted);
    }
    if BothValid(before[lun]) {
      BothKept(lun, kind, mem, before, middle, after, log0, log1, log2, bak0, bak1, bak2, exit, faulted1, faulted);
      ReadyIfValid(before[lun], mem, lun, kind);
    }
  }

  lemma StepIsValid(l: LunImage, mem: seq<PartitionEntry>, lun: nat)
    ensures LunInStep(l, mem, lun) ==> BothValid(l)
  {}

  /** Neither copy of the LUN has anything to change. */
  predicate LunClean(l: LunImage, mem: seq<PartitionEntry>, lun: nat, kind: UpdateType)
    requires |mem| <= MAX_ENTRIES
  {
    WellFormed(l) && !Walk(Primary(l).table, mem, 0, lun, kind).dirty && !Walk(Backup(l).table, mem, 0, lun, kind).dirty
  }

  /** The turn of this LUN may be begun: the write of the primary, if there is one, needs a valid
      backup, and a write of the backup alone a valid primary. A write of the backup behind one of
      the primary needs nothing more. */
  predicate TurnSafe(l: LunImage, mem: seq<PartitionEntry>, lun: nat, kind: UpdateType)
    requires |mem| <= MAX_ENTRIES
  {
    && WellFormed(l)
    && var p, b := Primary(l), Backup(l);
       if Walk(p.table, mem, 0, lun, kind).dirty then Checkable(p.header) ==> CrcValid(b)
       else Walk(b.table, mem, 0, lun, kind).dirty && Checkable(b.header) ==> CrcValid(p)
  }

  /** Both copies agree with memory in the requested fields. */
  predicate LunAgrees(l: LunImage, mem: seq<PartitionEntry>, lun: nat, kind: UpdateType)
    requires |mem| <= MAX_ENTRIES
  {
    WellFormed(l) && Agrees(Primary(l).table, mem, 0, lun, kind) && Agrees(Backup(l).table, mem, 0, lun, kind)
  }

  /** No slot refuses the attributes of its entry, should they be written alone. */
  predicate LunAdmitted(l: LunImage, mem: seq<PartitionEntry>, lun: nat)
    requires |mem| <= MAX_ENTRIES
  {
    WellFormed(l) && Admitted(Primary(l).table, mem, 0, lun) && Admitted(Backup(l).table, mem, 0, lun)
  }

  lemma ReadyIfValid(l: LunImage, mem: seq<PartitionEntry>, lun: nat, kind: UpdateType)
    requires BothValid(l) && |mem| <= MAX_ENTRIES
    ensures TurnSafe(l, mem, lun, kind)
  {}

  lemma CheckableCopies(l: LunImage)
    requires BothValid(l)
    ensures Checkable(Primary(l).header) && Checkable(Backup(l).header)
  {}

  /** What the passes over one LUN leave behind, from disk `before`, log `log0` and backup `bak0`.
      Writes are begun only while the other copy is valid, which is so exactly if the LUN was
      ready for its turn, as one with two valid copies is, and none if both copies are clean;
      unless a driver failed, both copies are flushed, and the backup of this LUN's entries is
      level with memory if it was in step. */
  ghost predicate LunOutcome(lun: nat, kind: UpdateType, mem: seq<PartitionEntry>, before: seq<LunImage>,
                             after: seq<LunImage>, log0: seq<DiskWrite>, log1: seq<DiskWrite>,
                             bak0: seq<PartitionEntry>, bak1: seq<PartitionEntry>, exit: bool, faulted: bool)
    requires lun < |before| && WellFormed(before[lun]) && |mem| <= MAX_ENTRIES && |bak0| == |mem|
  {
    && |after| == |before|
    && (forall i :: 0 <= i < |before| && i != lun ==> after[i] == before[i])
    && (BothValid(before[lun]) ==>
          && (AllRecoverable(before) ==> SafeSince(log0, log1) && AllRecoverable(after))
          && (if exit then faulted else BothValid(after[lun]))
          && (!faulted ==> after[lun] == FlushLun(before[lun], mem, lun, kind)))
    && (LunClean(before[lun], mem, lun, kind) ==> log1 == log0 && after == before)
    && (AllRecoverable(before) && TurnSafe(before[lun], mem, lun, kind) ==>
        SafeSince(log0, log1) && AllRecoverable(after))
    && (AllRecoverable(before) && !faulted && SafeSince(log0, log1) ==> TurnSafe(before[lun], mem, lun, kind))
    && (!faulted && LunInStep(before[lun], bak0, lun) && ChangedOnly(bak0, mem, kind) && kind != All ==>
          bak1 == Merged(bak0, mem, lun, kind))
  }

  /** Every LUN's copies are valid and agree with memory. */
  ghost predicate InStep(luns: seq<LunImage>, mem: seq<PartitionEntry>) {
    forall i :: 0 <= i < |luns| ==> LunInStep(luns[i], mem, i)
  }

  ghost predicate AllClean(luns: seq<LunImage>, mem: seq<PartitionEntry>, kind: UpdateType)
    requires |mem| <= MAX_ENTRIES
  {
    forall i :: 0 <= i < |luns| ==> LunClean(luns[i], mem, i, kind)
  }

  /** Every LUN is ready for its turn. */
  ghost predicate AllReady(luns: seq<LunImage>, mem: seq<PartitionEntry>, kind: UpdateType)
    requires |mem| <= MAX_ENTRIES
  {
    AllRecoverable(luns) && forall i :: 0 <= i < |luns| ==> TurnSafe(luns[i], mem, i, kind)
  }

  ghost predicate AllFlushed(before: seq<LunImage>, after: seq<LunImage>, mem: seq<PartitionEntry>, kind: UpdateType,
                             n: nat)
    requires |mem| <= MAX_ENTRIES
  {
    && n <= |before| == |after|
    && forall i :: 0 <= i < n ==> BothValid(before[i]) && after[i] == FlushLun(before[i], mem, i, kind)
  }

  /** The backup once LUNs below `n` are done. */
  ghost predicate MergedBelow(bak0: seq<PartitionEntry>, bak: seq<PartitionEntry>, mem: seq<PartitionEntry>, n: nat) {
    && |bak0| == |bak| == |mem|
    && forall i :: 0 <= i < |mem| ==> bak[i] == if mem[i].lun < n then mem[i] else bak0[i]
  }

  lemma MergedBelowReady(l: LunImage, bak0: seq<PartitionEntry>, bak: seq<PartitionEntry>, mem: seq<PartitionEntry>,
                         n: nat, kind: UpdateType)
    requires MergedBelow(bak0, bak, mem, n) && ChangedOnly(bak0, mem, kind) && LunInStep(l, bak0, n)
    ensures ChangedOnly(bak, mem, kind) && LunInStep(l, bak, n)
  {
    hide WholeBlocks, CrcValid, Primary, Backup;
    AgreesOwned(Primary(l).table, bak0, bak, 0, n, All);
    AgreesOwned(Backup(l).table, bak0, bak, 0, n, All);
  }

  lemma MergedBelowNext(bak0: seq<PartitionEntry>, bak: seq<PartitionEntry>, mem: seq<PartitionEntry>, n: nat,
                        kind: UpdateType)
    requires MergedBelow(bak0, bak, mem, n) && ChangedOnly(bak0, mem, kind)
    ensures MergedBelow(bak0, Merged(bak, mem, n, kind), mem, n + 1)
  {}

  ghost predicate Stepping(luns: seq<LunImage>, bak: seq<PartitionEntry>, mem: seq<PartitionEntry>, kind: UpdateType) {
    kind != All && InStep(luns, bak) && ChangedOnly(bak, mem, kind)
  }

  /** The loop over LUNs before LUN `n`. */
  ghost predicate Underway(luns0: seq<LunImage>, luns: seq<LunImage>, log0: seq<DiskWrite>, log: seq<DiskWrite>,
                           bak0: seq<PartitionEntry>, bak: seq<PartitionEntry>, mem: seq<PartitionEntry>,
                           kind: UpdateType, n: nat, faulted: bool)
    requires |mem| <= MAX_ENTRIES
  {
    && |luns| == |luns0| && n <= |luns|
    && (forall i :: n <= i < |luns0| ==> luns[i] == luns0[i])
    && (AllValid(luns0) ==> SafeSince(log0, log) && AllValid(luns) && AllRecoverable(luns))
    && (AllValid(luns0) && !faulted ==> AllFlushed(luns0, luns, mem, kind, n))
    && (AllClean(luns0, mem, kind) ==> log == log0 && luns == luns0)
    && (AllReady(luns0, mem, kind) ==> SafeSince(log0, log) && AllRecoverable(luns))
    && (Stepping(luns0, bak0, mem, kind) && !faulted ==> MergedBelow(bak0, bak, mem, n))
  }

  /** The promises of UpdatePartitionAttributes, from disk `luns0`, log `log0` and backup `bak0`:
      - every state a power cut exposes, and the state at the end, keeps a valid copy per LUN, if
        the copies were valid or every LUN at least ready for its turn;
      - if no driver failed, every copy on every LUN is flushed, and valid;
      - no write is begun if memory equals its backup or no copy has anything to change;
      - if moreover the disk was in step with the backup, and memory differs from the backup in
        the requested field only, the disk and the backup are now in step with memory. */
  ghost predicate UpdateOutcome(luns0: seq<LunImage>, luns: seq<LunImage>, log0: seq<DiskWrite>, log: seq<DiskWrite>,
                                bak0: seq<PartitionEntry>, bak: seq<PartitionEntry>, mem: seq<PartitionEntry>,
                                kind: UpdateType, faulted: bool)
    requires |mem| <= MAX_ENTRIES
  {
    && (AllValid(luns0) ==> SafeSince(log0, log) && AllRecoverable(luns))
    && (AllValid(luns0) && !faulted ==>
          AllValid(luns) && (mem != bak0 ==> AllFlushed(luns0, luns, mem, kind, |luns|)))
    && (AllReady(luns0, mem, kind) ==> SafeSince(log0, log) && AllRecoverable(luns))
    && (mem == bak0 ==> bak == bak0)
    && (mem == bak0 || AllClean(luns0, mem, kind) ==> log == log0 && luns == luns0)
    && (Stepping(luns0, bak0, mem, kind) && !faulted ==> InStep(luns, mem) && bak == mem)
  }

  lemma UnderwayStart(luns: seq<LunImage>, log: seq<DiskWrite>, bak: seq<PartitionEntry>, mem: seq<PartitionEntry>,
                      kind: UpdateType, faulted: bool)
    requires |bak| == |mem| <= MAX_ENTRIES
    ensures Underway(luns, luns, log, log, bak, bak, mem, kind, 0, faulted)
    ensures bak == mem ==> UpdateOutcome(luns, luns, log, log, bak, bak, mem, kind, faulted)
  {
    hide BothValid, Recoverable, LunInStep;
    forall i | 0 <= i < |luns| && BothValid(luns[i]) ensures Recoverable(luns[i]) {
      ValidRecoverable(luns[i]);
    }
  }

  lemma ValidRecoverable(l: LunImage)
    requires BothValid(l)
    ensures Recoverable(l)
  {}

  lemma InStepValid(luns: seq<LunImage>, mem: seq<PartitionEntry>)
    ensures InStep(luns, mem) ==> AllValid(luns)
  {}

  /** One more LUN: the loop goes on, or ends there because a driver failed. */
  lemma UnderwayNext(luns0: seq<LunImage>, luns1: seq<LunImage>, luns2: seq<LunImage>, log0: seq<DiskWrite>,
                     log1: seq<DiskWrite>, log2: seq<DiskWrite>, bak0: seq<PartitionEntry>, bak1: seq<PartitionEntry>,
                     bak2: seq<PartitionEntry>, mem: seq<PartitionEntry>, kind: UpdateType, n: nat, exit: bool,
                     faulted1: bool, faulted2: bool)
    requires |mem| <= MAX_ENTRIES && |bak1| == |mem| && n < |luns1| && WellFormed(luns1[n]) && (faulted1 ==> faulted2)
    requires mem != bak0
    requires Underway(luns0, luns1, log0, log1, bak0, bak1, mem, kind, n, faulted1)
    requires LunOutcome(n, kind, mem, luns1, luns2, log1, log2, bak1, bak2, exit, faulted2)
    ensures exit ==> UpdateOutcome(luns0, luns2, log0, log2, bak0, bak2, mem, kind, faulted2)
    ensures !exit ==> Underway(luns0, luns2, log0, log2, bak0, bak2, mem, kind, n + 1, faulted2)
  {
    hide WellFormed, FlushLun, LunInStep, BothValid, ChangedOnly, Merged, MergedBelow, CrashSafe, Recoverable,
         SafeSince, TurnSafe;
    InStepValid(luns0, bak0);
    if AllValid(luns0) || AllReady(luns0, mem, kind) {
      SafeSinceTransitive(log0, log1, log2);
    }
    if Stepping(luns0, bak0, mem, kind) && !faulted2 {
      MergedBelowReady(luns1[n], bak0, bak1, mem, n, kind);
      MergedBelowNext(bak0, bak1, mem, n, kind);
    }
  }

  lemma UnderwayDone(luns0: seq<LunImage>, luns: seq<LunImage>, log0: seq<DiskWrite>, log: seq<DiskWrite>,
                     bak0: seq<PartitionEntry>, bak: seq<PartitionEntry>, mem: seq<PartitionEntry>, kind: UpdateType,
                     faulted: bool)
    requires |mem| <= MAX_ENTRIES && mem != bak0 && forall i :: 0 <= i < |mem| ==> mem[i].lun < |luns|
    requires Underway(luns0, luns, log0, log, bak0, bak, mem, kind, |luns|, faulted)
    ensures UpdateOutcome(luns0, luns, log0, log, bak0, bak, mem, kind, faulted)
  {
    hide WellFormed, FlushLun, LunInStep, BothValid, ChangedOnly, Merged, CrashSafe, Recoverable, SafeSince;
    InStepValid(luns0, bak0);
    if Stepping(luns0, bak0, mem, kind) && !faulted {
      FlushedInStep(luns0, luns, bak0, mem, kind);
    }
  }

  lemma FlushedInStep(before: seq<LunImage>, after: seq<LunImage>, bak: seq<PartitionEntry>, mem: seq<PartitionEntry>,
                      kind: UpdateType)
    requires |mem| <= MAX_ENTRIES && AllFlushed(before, after, mem, kind, |before|)
    requires Stepping(before, bak, mem, kind)
    ensures InStep(after, mem)
  {
    hide FlushLun, LunInStep, BothValid, ChangedOnly;
    forall i | 0 <= i < |after| ensures LunInStep(after[i], mem, i) {
      FlushLunInStep(before[i], bak, mem, i, kind);
    }
  }

  // ---------- After a failed write ----------

  /** A write torn over a LUN of two valid copies. Torn over the primary, it leaves a LUN that is
      unsafe to update exactly if the primary's checksums fail, its entries seem to need no change,
      and the backup's do; torn over the backup, exactly if that copy's checksums fail and the
      primary has to change. */
  lemma AfterFailedWrite(which: Which, w: DiskWrite, after: seq<LunImage>, mem: seq<PartitionEntry>, kind: UpdateType)
    requires |mem| <= MAX_ENTRIES && Torn(w, after) && BothValid(w.before[w.lun])
    requires w.offset == OffsetOf(which, w.before[w.lun]) && w.len == RegionSize(w.before[w.lun])
    ensures WellFormed(after[w.lun])
    ensures var r := after[w.lun];
            TurnSafe(r, mem, w.lun, kind) <==>
            if which.PrimaryPass? then
              CrcValid(Primary(r)) || Walk(Primary(r).table, mem, 0, w.lun, kind).dirty
                || !Walk(Backup(r).table, mem, 0, w.lun, kind).dirty
            else
              CrcValid(Backup(r)) || !Walk(Primary(r).table, mem, 0, w.lun, kind).dirty
  {
    var l, r := w.before[w.lun], after[w.lun];
    CheckableCopies(l);
    TornBeside(w, after);
    hide Walk, CrcValid, WholeBlocks, Torn, Primary, Backup;
    ValidCheckable(r);
  }

  /** A write of the backup that failed and left zeros there: the next update that has to change the
      primary is unsafe. */
  lemma ZeroedBackup(w: DiskWrite, mem: seq<PartitionEntry>, kind: UpdateType)
    requires |mem| <= MAX_ENTRIES && w.lun < |w.before| && BothValid(w.before[w.lun])
    requires w.offset == BackupOffset(w.before[w.lun]) && w.len == RegionSize(w.before[w.lun])
    requires Walk(Primary(w.before[w.lun]).table, mem, 0, w.lun, kind).dirty
    ensures Torn(w, Zeroed(w)) && !TurnSafe(Zeroed(w)[w.lun], mem, w.lun, kind)
  {
    hide Walk, WholeBlocks, Torn, Primary, CrcValid, TurnSafe;
    ZeroedTorn(w);
    TornBeside(w, Zeroed(w));
    ZeroedInvalid(Backup(Zeroed(w)[w.lun]));
    AfterFailedWrite(BackupPass, w, Zeroed(w), mem, kind);
  }

  /** The disk if power failed with the new entries of the primary written, and its header gone. */
  function HeaderTorn(w: DiskWrite, mem: seq<PartitionEntry>, kind: UpdateType): (r: seq<LunImage>)
    requires |mem| <= MAX_ENTRIES && w.lun < |w.before| && WellFormed(w.before[w.lun])
  {
    var l := w.before[w.lun];
    var c := GptCopy(seq(l.blk, _ => 0), Walk(Primary(l).table, mem, 0, w.lun, kind).table);
    w.before[w.lun := PutPrimary(l, c)]
  }

  /** A write of the primary that failed and left it so: the same request again finds nothing to
      change in the primary, and writes the backup, the only valid copy, if that has to change. */
  lemma TornHeader(w: DiskWrite, mem: seq<PartitionEntry>, kind: UpdateType)
    requires |mem| <= MAX_ENTRIES && w.lun < |w.before| && BothValid(w.before[w.lun])
    requires w.offset == PrimaryOffset(w.before[w.lun]) && w.len == RegionSize(w.before[w.lun])
    requires Walk(Backup(w.before[w.lun]).table, mem, 0, w.lun, kind).dirty
    ensures Torn(w, HeaderTorn(w, mem, kind)) && !TurnSafe(HeaderTorn(w, mem, kind)[w.lun], mem, w.lun, kind)
  {
    hide Walk, WholeBlocks, Primary, Backup, CrcValid, TurnSafe;
    var l := w.before[w.lun];
    var c := GptCopy(seq(l.blk, _ => 0), Walk(Primary(l).table, mem, 0, w.lun, kind).table);
    PutPrimaryCopies(l, c);
    ZeroedInvalid(c);
    WalkTwice(Primary(l).table, mem, 0, w.lun, kind);
    AfterFailedWrite(PrimaryPass, w, HeaderTorn(w, mem, kind), mem, kind);
  }

  // ---------- The same request again ----------

  lemma FlushedSettles(l: LunImage, mem: seq<PartitionEntry>, lun: nat, kind: UpdateType)
    requires BothValid(l) && |mem| <= MAX_ENTRIES
    ensures var r := FlushLun(l, mem, lun, kind);
            LunClean(r, mem, lun, kind)
              && ((kind.Attributes? ==> LunAdmitted(l, mem, lun)) ==> LunAgrees(r, mem, lun, kind))
  {
    hide FlushLun, FlushCopy, Walk, Agrees, Admitted, Primary, Backup, WholeBlocks, CrcValid;
    CheckableCopies(l);
    FlushLunCopies(l, mem, lun, kind);
    FlushIdempotent(Primary(l), mem, lun, kind);
    FlushIdempotent(Backup(l), mem, lun, kind);
  }

  /** After a call from valid copies in which no driver failed, every copy agrees with memory in the
      requested fields: for GUIDs, alone or with attributes, without condition, for attributes
      alone if no slot refuses its entry (EntryWalk.AttributesSettle shows this to be exact). */
  lemma UpdateAgrees(luns0: seq<LunImage>, luns1: seq<LunImage>, log0: seq<DiskWrite>, log1: seq<DiskWrite>,
                     bak0: seq<PartitionEntry>, bak1: seq<PartitionEntry>, mem: seq<PartitionEntry>, kind: UpdateType)
    requires |mem| <= MAX_ENTRIES && mem != bak0 && AllValid(luns0)
    requires UpdateOutcome(luns0, luns1, log0, log1, bak0, bak1, mem, kind, false)
    requires kind.Attributes? ==> forall i :: 0 <= i < |luns0| ==> LunAdmitted(luns0[i], mem, i)
    ensures |luns1| == |luns0| && forall i :: 0 <= i < |luns1| ==> LunAgrees(luns1[i], mem, i, kind)
  {
    hide BothValid, FlushLun, LunAgrees, LunAdmitted, LunClean, SafeSince, AllRecoverable, Stepping, InStep;
    forall i | 0 <= i < |luns1| ensures LunAgrees(luns1[i], mem, i, kind) {
      FlushedSettles(luns0[i], mem, i, kind);
    }
  }

  /** The same request again, behind a call from valid copies in which no driver failed, begins no
      write: log and disk stay as they are, for every kind of update, whatever the slots hold and
      whatever the drivers do the second time. */
  lemma SecondUpdateSilent(luns0: seq<LunImage>, luns1: seq<LunImage>, luns2: seq<LunImage>, log0: seq<DiskWrite>,
                           log1: seq<DiskWrite>, log2: seq<DiskWrite>, bak0: seq<PartitionEntry>,
                           bak1: seq<PartitionEntry>, bak2: seq<PartitionEntry>, mem: seq<PartitionEntry>,
                           kind: UpdateType, faulted: bool)
    requires |mem| <= MAX_ENTRIES && AllValid(luns0)
    requires UpdateOutcome(luns0, luns1, log0, log1, bak0, bak1, mem, kind, false)
    requires UpdateOutcome(luns1, luns2, log1, log2, bak1, bak2, mem, kind, faulted)
    ensures log2 == log1 && luns2 == luns1
  {
    hide BothValid, FlushLun, LunClean, LunAgrees, LunAdmitted, SafeSince, AllRecoverable, Stepping, InStep;
    if mem != bak0 {
      forall i | 0 <= i < |luns1| ensures LunClean(luns1[i], mem, i, kind) {
        FlushedSettles(luns0[i], mem, i, kind);
      }
    }
  }

  lemma ValidCheckable(l: LunImage)
    requires WellFormed(l)
    ensures CrcValid(Primary(l)) ==> Checkable(Primary(l).header)
    ensures CrcValid(Backup(l)) ==> Checkable(Backup(l).header)
  {}

  /** A pass that begins a write is safe if and only if the other copy is valid. */
  lemma PassSafe(which: Which, lun: nat, before: seq<LunImage>, after: seq<LunImage>, log0: seq<DiskWrite>,
                 log1: seq<DiskWrite>, exit: bool)
    requires lun < |before| && WellFormed(before[lun]) && PassOutcome(which, lun, before, after, log0, log1, exit)
    requires AllRecoverable(before)
    ensures SafeSince(log0, log1)
       <==> log1 == log0 || CrcValid(if which.PrimaryPass? then Backup(before[lun]) else Primary(before[lun]))
    ensures SafeSince(log0, log1) ==> AllRecoverable(after)
  {
    hide CrcValid, WholeBlocks, Torn, CrashSafe, AllRecoverable, Primary, Backup;
    var w := DiskWrite(before, lun, OffsetOf(which, before[lun]), RegionSize(before[lun]), !exit);
    if which.PrimaryPass? {
      PrimaryWriteSafe(w);
    } else {
      BackupWriteSafe(w);
    }
    if log1 != log0 {
      assert log1[|log0|] == w;
      if CrashSafe(w) {
        SafeTorn(w, after);
      }
    }
  }

  lemma SafeTorn(w: DiskWrite, after: seq<LunImage>)
    requires CrashSafe(w) && Torn(w, after)
    ensures AllRecoverable(after)
  {}

  lemma SafeSinceTransitive(a: seq<DiskWrite>, b: seq<DiskWrite>, c: seq<DiskWrite>)
    requires SafeSince(a, b) && SafeSince(b, c)
    ensures SafeSince(a, c)
  {
    hide CrashSafe;
    forall i | |a| <= i < |c| ensures CrashSafe(c[i]) {
      if i < |b| {
        assert b[i] == c[i];
      }
    }
  }

  lemma SafeSinceFewer(a: seq<DiskWrite>, b: seq<DiskWrite>, c: seq<DiskWrite>)
    requires SafeSince(a, c) && a <= b <= c
    ensures SafeSince(a, b)
  {
    hide CrashSafe;
    forall i | |a| <= i < |b| ensures CrashSafe(b[i]) {
      assert b[i] == c[i];
    }
  }

  /** Both passes done: the LUN is flushed, and its entries' backup merged. */
  lemma PassesFlush(l: LunImage, bak: seq<PartitionEntry>, mem: seq<PartitionEntry>, lun: nat, kind: UpdateType)
    requires LunInStep(l, bak, lun) && ChangedOnly(bak, mem, kind) && kind != All
    ensures WalkBackup(Backup(l).table, mem, WalkBackup(Primary(l).table, mem, bak, 0, lun, kind), 0, lun, kind)
         == Merged(bak, mem, lun, kind)
  {
    hide WholeBlocks, CrcValid, Walk, WalkBackup, Merged, Agrees, Primary, Backup, LongLongBytes;
    WalkKeepsStep(Primary(l).table, bak, mem, lun, kind);
    WalkMerges(Primary(l).table, mem, bak, 0, lun, kind);
    WalkKeepsStep(Backup(l).table, bak, mem, lun, kind);
    MergedCovers(Backup(l).table, mem, bak, 0, lun, kind);
    WalkMerges(Backup(l).table, mem, Merged(bak, mem, lun, kind), 0, lun, kind);
    MergedTwice(bak, mem, lun, kind);
  }

  class Table {
    const hw: Device
    var ptnEntries: seq<PartitionEntry>
    var ptnEntriesBak: seq<PartitionEntry>

    constructor (hw: Device)
      ensures this.hw == hw && ptnEntries == [] && ptnEntriesBak == []
    {
      this.hw, ptnEntries, ptnEntriesBak := hw, [], [];
    }

    ghost predicate Valid()
      reads this, hw
    {
      && hw.WellFormedLuns() && (hw.ufs || |hw.luns| == 1)
      && |ptnEntries| <= MAX_ENTRIES && SameLuns(ptnEntries, ptnEntriesBak) && ByLun(ptnEntries)
      && forall i :: 0 <= i < |ptnEntries| ==> ptnEntries[i].lun < |hw.luns|
    }

    /** The GUID part of the loop body, for entry `i` and slot `p`. */
    method PatchGuid(buf: array<bv8>, which: Which, ghost c: GptCopy, p: nat, i: nat, kind: UpdateType)
      returns (dirty: bool)
      requires |ptnEntries| == |ptnEntriesBak| && i < |ptnEntries| && p < MAX_ENTRIES
      requires WellSized(c) && buf[..] == Layout(which, c)
      modifies buf, this`ptnEntriesBak
      ensures buf[..] == Layout(which, c.(table := VisitGuid(c.table, p, ptnEntries[i], kind)))
      ensures dirty == (kind.HasGuids() && SlotGuid(c.table, p) != ptnEntries[i].typeGuid)
      ensures ptnEntriesBak
           == old(ptnEntriesBak)[i := RefreshGuid(c.table, p, ptnEntries[i], old(ptnEntriesBak)[i], kind)]
    {
      hide Layout, Splice;
      var e := ptnEntries[i];
      dirty := false;
      if kind.HasGuids() {
        var g := LoadGuid(buf, which, c, p);
        if g != e.typeGuid {
          StoreInTable(buf, which, ENTRY_SIZE * p, e.typeGuid, c);
          ptnEntriesBak := ptnEntriesBak[i := ptnEntriesBak[i].(typeGuid := e.typeGuid)];
          dirty := true;
        }
      }
    }

    /** The attribute part, for the attributes read before: a slot that holds another
        partition's GUID is left alone and not passed over. */
    method PatchAttributes(buf: array<bv8>, which: Which, ghost c: GptCopy, p: nat, i: nat, attr: bv64,
                           kind: UpdateType)
      returns (dirty: bool, advance: bool)
      requires |ptnEntries| == |ptnEntriesBak| && i < |ptnEntries| && p < MAX_ENTRIES
      requires WellSized(c) && buf[..] == Layout(which, c) && attr == Word64(AttributeBytes(c.table, p))
      modifies buf, this`ptnEntriesBak
      ensures buf[..] == Layout(which, c.(table := VisitAttributes(c.table, p, ptnEntries[i], kind)))
      ensures dirty == (kind.HasAttributes() && Admits(c.table, p, ptnEntries[i])
                        && !HasAttributes(c.table, p, ptnEntries[i].attributes))
      ensures advance == (kind.HasAttributes() ==> Admits(c.table, p, ptnEntries[i]))
      ensures ptnEntriesBak
           == old(ptnEntriesBak)[i := RefreshAttributes(c.table, p, ptnEntries[i], old(ptnEntriesBak)[i], kind)]
    {
      hide Layout, Splice, LongLongBytes, Word64;
      var e := ptnEntries[i];
      LongLongRoundTrip(AttributeBytes(c.table, p), e.attributes);
      dirty, advance := false, true;
      if kind.HasAttributes() {
        var g := LoadGuid(buf, which, c, p);
        if Blank(g) || g == e.typeGuid {
          if attr != e.attributes {
            StoreInTable(buf, which, ENTRY_SIZE * p + ATTRIBUTES_OFFSET, LongLongBytes(e.attributes), c);
            ptnEntriesBak := ptnEntriesBak[i := ptnEntriesBak[i].(attributes := e.attributes)];
            dirty := true;
          }
        } else {
          advance := false;
        }
      }
    }

    /** The loop body for entry `i`, whose slot is `p`. */
    method VisitEntry(buf: array<bv8>, which: Which, ghost c: GptCopy, p: nat, i: nat, kind: UpdateType)
      returns (dirty: bool, advance: bool)
      requires |ptnEntries| == |ptnEntriesBak| && i < |ptnEntries| && p < MAX_ENTRIES
      requires WellSized(c) && buf[..] == Layout(which, c)
      modifies buf, this`ptnEntriesBak
      ensures buf[..] == Layout(which, c.(table := Visit(c.table, p, ptnEntries[i], kind).table))
      ensures dirty == Visit(c.table, p, ptnEntries[i], kind).dirty
      ensures advance == Visit(c.table, p, ptnEntries[i], kind).advance
      ensures ptnEntriesBak
           == old(ptnEntriesBak)[i := Refresh(c.table, p, ptnEntries[i], old(ptnEntriesBak)[i], kind)]
    {
      hide Layout, Splice, Word64, LongLongBytes, VisitGuid, VisitAttributes, RefreshAttributes, RefreshGuid;
      var attr := LoadAttributes(buf, which, c, p);
      GuidVisited(c.table, p, ptnEntries[i], kind);
      var changed := PatchGuid(buf, which, c, p, i, kind);
      ghost var c1 := c.(table := VisitGuid(c.table, p, ptnEntries[i], kind));
      dirty, advance := PatchAttributes(buf, which, c1, p, i, attr, kind);
      dirty := changed || dirty;
    }

    /** The loop over all entries for one copy of the GPT of `lun`. */
    method PatchEntries(buf: array<bv8>, which: Which, ghost c: GptCopy, lun: nat, kind: UpdateType)
        returns (dirty: bool)
      requires Valid() && WellSized(c) && buf[..] == Layout(which, c)
      requires hw.ufs || lun == 0
      modifies buf, this`ptnEntriesBak
      ensures SameLuns(ptnEntries, ptnEntriesBak)
      ensures buf[..] == Layout(which, c.(table := Walk(c.table, ptnEntries, 0, lun, kind).table))
      ensures dirty == Walk(c.table, ptnEntries, 0, lun, kind).dirty
      ensures ptnEntriesBak == WalkBackup(c.table, ptnEntries, old(ptnEntriesBak), 0, lun, kind)
    {
      hide Layout, Visit, Refresh, Walk, WalkBackup;
      dirty := false;
      ghost var t := c.table;
      var p, i := 0, 0;
      while i < |ptnEntries|
        invariant p <= i <= |ptnEntries| && |t| == TABLE_SIZE
        invariant buf[..] == Layout(which, c.(table := t))
        invariant |ptnEntriesBak| == |ptnEntries|
        invariant Walk(t, ptnEntries[i..], p, lun, kind).table == Walk(c.table, ptnEntries, 0, lun, kind).table
        invariant (dirty || Walk(t, ptnEntries[i..], p, lun, kind).dirty)
                  == Walk(c.table, ptnEntries, 0, lun, kind).dirty
        invariant ptnEntriesBak[..i] + WalkBackup(t, ptnEntries[i..], ptnEntriesBak[i..], p, lun, kind)
               == WalkBackup(c.table, ptnEntries, old(ptnEntriesBak), 0, lun, kind)
      {
        if Blank(ptnEntries[i].typeGuid) {
          WalkSkip(t, ptnEntries, ptnEntriesBak, i, p, lun, kind);
          i := i + 1;
          continue;
        }
        if hw.ufs {
          if ptnEntries[i].lun > lun {
            break;
          }
          if ptnEntries[i].lun != lun {
            WalkSkip(t, ptnEntries, ptnEntriesBak, i, p, lun, kind);
            i := i + 1;
            continue;
          }
        }
        WalkVisit(t, ptnEntries, ptnEntriesBak, i, p, lun, kind);
        var changed, advance := VisitEntry(buf, which, c.(table := t), p, i, kind);
        t := Visit(t, p, ptnEntries[i], kind).table;
        dirty := dirty || changed;
        p, i := if advance then p + 1 else p, i + 1;
      }
      WalkNothing(t, ptnEntries[i..], ptnEntriesBak[i..], p, lun, kind);
      assert ptnEntriesBak[..i] + ptnEntriesBak[i..] == ptnEntriesBak;
      WalkBackupLuns(c.table, ptnEntries, old(ptnEntriesBak), 0, lun, kind);
    }

    /** One turn of the loop over copies: read, patch, checksum, write back. */
    method UpdateCopy(lun: nat, which: Which, lba: nat, gptHdr: array<bv8>, kind: UpdateType) returns (exit: bool)
      requires Valid() && lun < |hw.luns| && (hw.ufs || lun == 0)
      requires gptHdr.Length == RegionSize(hw.luns[lun])
      requires lba * hw.luns[lun].blk == OffsetOf(which, hw.luns[lun])
      modifies hw`luns, hw`faulted, hw`log, gptHdr, this`ptnEntriesBak
      ensures Valid() && SameGeometry(old(hw.luns), hw.luns) && (old(hw.faulted) ==> hw.faulted)
      ensures CopyOutcome(which, lun, kind, ptnEntries, old(hw.luns), hw.luns, old(hw.log), hw.log,
                          old(ptnEntriesBak), ptnEntriesBak, exit, hw.faulted)
    {
      hide Walk, WalkBackup, Seal, Splice, WellFormed, Layout, CopyOf, Torn, CopyOutcome;
      ghost var l, before, log, bak := hw.luns[lun], hw.luns, hw.log, ptnEntriesBak;
      ghost var c := CopyOf(which, l);
      CopyLayout(which, l);
      var ok := hw.ReadBlocks(lun, lba * hw.luns[lun].blk, gptHdr);
      if !ok {
        PassedOver(which, lun, kind, ptnEntries, before, log, bak, ptnEntriesBak, true, hw.faulted);
        return true;
      }
      var dirty := PatchEntries(gptHdr, which, c, lun, kind);
      if !dirty {
        PassedOver(which, lun, kind, ptnEntries, before, log, bak, ptnEntriesBak, false, hw.faulted);
        return false;
      }
      ghost var walked := c.(table := Walk(c.table, ptnEntries, 0, lun, kind).table);
      ok := StoreChecksums(gptHdr, which, walked);
      if !ok {
        PassedOver(which, lun, kind, ptnEntries, before, log, bak, ptnEntriesBak, true, hw.faulted);
        return true;
      }
      ok := hw.WriteBlocks(lun, lba * hw.luns[lun].blk, gptHdr);
      PassedWriting(which, lun, kind, ptnEntries, before, hw.luns, log, bak, ptnEntriesBak, gptHdr[..], ok, hw.faulted);
      TornGeometry(DiskWrite(before, lun, OffsetOf(which, l), gptHdr.Length, ok), hw.luns);
      return !ok;
    }

    /** The loop over the two copies of one LUN. */
    method UpdateCopies(lun: nat, backupLba: nat, gptHdr: array<bv8>, kind: UpdateType) returns (exit: bool)
      requires Valid() && lun < |hw.luns| && (hw.ufs || lun == 0)
      requires gptHdr.Length == RegionSize(hw.luns[lun])
      requires backupLba * hw.luns[lun].blk == BackupOffset(hw.luns[lun])
      modifies hw`luns, hw`faulted, hw`log, gptHdr, this`ptnEntriesBak
      ensures Valid() && SameGeometry(old(hw.luns), hw.luns) && (old(hw.faulted) ==> hw.faulted)
      ensures Running(old(hw.luns), old(hw.log), hw.luns, hw.log)
      ensures LunOutcome(lun, kind, ptnEntries, old(hw.luns), hw.luns, old(hw.log), hw.log,
                         old(ptnEntriesBak), ptnEntriesBak, exit, hw.faulted)
    {
      hide CopyOutcome, LunOutcome, Running;
      ghost var before, log0, bak0 := hw.luns, hw.log, ptnEntriesBak;
      exit := UpdateCopy(lun, PrimaryPass, PRIMARY_HDR_LBA, gptHdr, kind);
      PassRuns(PrimaryPass, lun, kind, ptnEntries, before, hw.luns, log0, hw.log, bak0, ptnEntriesBak, exit,
               hw.faulted);
      if exit {
        ExitAfterPrimary(lun, kind, ptnEntries, before, hw.luns, log0, hw.log, bak0, ptnEntriesBak, hw.faulted);
        return;
      }
      ghost var middle, log1, bak1, faulted1 := hw.luns, hw.log, ptnEntriesBak, hw.faulted;
      exit := UpdateCopy(lun, BackupPass, backupLba, gptHdr, kind);
      PassRuns(BackupPass, lun, kind, ptnEntries, middle, hw.luns, log1, hw.log, bak1, ptnEntriesBak, exit, hw.faulted);
      RunningNext(before, log0, middle, log1, hw.luns, hw.log);
      BothPasses(lun, kind, ptnEntries, before, middle, hw.luns, log0, log1, hw.log, bak0, bak1, ptnEntriesBak, exit,
                 faulted1, hw.faulted);
    }

    /** One turn of the loop over LUNs. Whatever fails, no write is begun unless the other copy
        is valid; when nothing fails both copies are flushed. */
    method UpdateLun(lun: nat, kind: UpdateType) returns (exit: bool)
      requires Valid() && lun < |hw.luns| && (hw.ufs || lun == 0)
      modifies hw`luns, hw`faulted, hw`log, this`ptnEntriesBak
      ensures Valid() && SameGeometry(old(hw.luns), hw.luns) && (old(hw.faulted) ==> hw.faulted)
      ensures Running(old(hw.luns), old(hw.log), hw.luns, hw.log)
      ensures LunOutcome(lun, kind, ptnEntries, old(hw.luns), hw.luns, old(hw.log), hw.log,
                         old(ptnEntriesBak), ptnEntriesBak, exit, hw.faulted)
    {
      hide FlushLun, LunInStep, BothValid, ChangedOnly, Merged, CrashSafe, AllRecoverable, Running;
      RunningStart(hw.luns, hw.log);
      var ok, maxHandles := hw.GetStorageHandle(lun);
      if !ok {
        return true;
      }
      if maxHandles != 1 {
        return false;
      }
      var blkSz := hw.luns[lun].blk;
      var size := |hw.luns[lun].media|;
      RegionBlocks(blkSz, size);
      var partEntriesblocks := TABLE_SIZE / blkSz;
      var maxGptPartEntrySzBytes := (GPT_HDR_BLOCKS + partEntriesblocks) * blkSz;
      var cardSizeSec := size / blkSz;
      var gptHdr;
      ok, gptHdr := hw.AllocateZeroPool(maxGptPartEntrySzBytes);
      if !ok {
        return true;
      }
      exit := UpdateCopies(lun, cardSizeSec - maxGptPartEntrySzBytes / blkSz, gptHdr, kind);
    }

    /** UpdatePartitionAttributes: nothing at all when memory equals its backup. */
    method UpdatePartitionAttributes(kind: UpdateType)
      requires Valid()
      modifies hw`luns, hw`faulted, hw`log, this`ptnEntriesBak
      ensures Valid() && SameGeometry(old(hw.luns), hw.luns) && (old(hw.faulted) ==> hw.faulted)
      ensures Running(old(hw.luns), old(hw.log), hw.luns, hw.log)
      ensures old(ptnEntries == ptnEntriesBak) ==>
        hw.log == old(hw.log) && hw.luns == old(hw.luns) && ptnEntriesBak == old(ptnEntriesBak)
      ensures UpdateOutcome(old(hw.luns), hw.luns, old(hw.log), hw.log, old(ptnEntriesBak), ptnEntriesBak, ptnEntries,
                            kind, hw.faulted)
    {
      hide LunOutcome, Underway, UpdateOutcome, Running;
      RunningStart(hw.luns, hw.log);
      ghost var luns0, log0, bak0 := hw.luns, hw.log, ptnEntriesBak;
      UnderwayStart(luns0, log0, bak0, ptnEntries, kind, hw.faulted);
      if ptnEntries == ptnEntriesBak {
        return;
      }
      var lun := 0;
      while lun < |hw.luns|
        invariant Valid() && lun <= |hw.luns| && SameGeometry(luns0, hw.luns) && (old(hw.faulted) ==> hw.faulted)
        invariant Underway(luns0, hw.luns, log0, hw.log, bak0, ptnEntriesBak, ptnEntries, kind, lun, hw.faulted)
        invariant Running(luns0, log0, hw.luns, hw.log)
      {
        ghost var luns1, log1, bak1, faulted1 := hw.luns, hw.log, ptnEntriesBak, hw.faulted;
        var exit := UpdateLun(lun, kind);
        RunningNext(luns0, log0, luns1, log1, hw.luns, hw.log);
        UnderwayNext(luns0, luns1, hw.luns, log0, log1, hw.log, bak0, bak1, ptnEntriesBak, ptnEntries, kind, lun, exit,
                     faulted1, hw.faulted);
        if exit {
          return;
        }
        lun := lun + 1;
      }
      UnderwayDone(luns0, hw.luns, log0, hw.log, bak0, ptnEntriesBak, ptnEntries, kind, hw.faulted);
    }
  }

  /** The bytes a pass reads are its copy, and writing a copy there replaces it. */
  lemma CopyLayout(which: Which, l: LunImage)
    requires WellFormed(l)
    ensures OffsetOf(which, l) + RegionSize(l) <= |l.media|
    ensures l.media[OffsetOf(which, l)..OffsetOf(which, l) + RegionSize(l)] == Layout(which, CopyOf(which, l))
    ensures PutCopy(which, l, CopyOf(which, l)) == l
    ensures forall c: GptCopy {:trigger PutCopy(which, l, c)} :: WellSized(c) && |c.header| == l.blk ==>
      PutCopy(which, l, c) == l.(media := Splice(l.media, OffsetOf(which, l), Layout(which, c)))
  {
    hide WholeBlocks;
    PutPrimaryCopies(l, Primary(l));
    PutBackupCopies(l, Backup(l));
  }
}
