/** What a power cut leaves of a disk, over any run and whatever drivers fail: every write logged is
    one of a single GPT copy, and up to and including the first one that fails, each LUN keeps a
    valid copy with all its partition records. */
module Survival {
  import opened Gpt
  import opened EntryWalk
  import opened GptDisk
  import opened Storage

  /** Both copies are valid, and differ from what they were in type GUIDs and attributes at most. */
  ghost predicate Kept(l0: LunImage, l: LunImage) {
    && WellFormed(l0) && BothValid(l)
    && OnlyFields(Primary(l0).table, Primary(l).table, 0, All)
    && OnlyFields(Backup(l0).table, Backup(l).table, 0, All)
  }

  ghost predicate AllKept(luns0: seq<LunImage>, luns: seq<LunImage>) {
    |luns| == |luns0| && forall i :: 0 <= i < |luns| ==> Kept(luns0[i], luns[i])
  }

  lemma KeptTransitive(a: LunImage, b: LunImage, c: LunImage)
    requires Kept(a, b) && Kept(b, c)
    ensures Kept(a, c)
  {
    hide WellFormed, CrcValid, Primary, Backup, OnlyFields;
    OnlyFieldsTransitive(Primary(a).table, Primary(b).table, Primary(c).table, 0, 0, All);
    OnlyFieldsTransitive(Backup(a).table, Backup(b).table, Backup(c).table, 0, 0, All);
  }

  lemma AllKeptTransitive(a: seq<LunImage>, b: seq<LunImage>, c: seq<LunImage>)
    requires AllKept(a, b) && AllKept(b, c)
    ensures AllKept(a, c)
  {
    hide Kept;
    forall i | 0 <= i < |c| ensures Kept(a[i], c[i]) {
      KeptTransitive(a[i], b[i], c[i]);
    }
  }

  lemma KeptSelf(l: LunImage)
    requires BothValid(l)
    ensures Kept(l, l)
  {
    hide CrcValid, Primary, Backup;
  }

  lemma AllKeptSelf(luns: seq<LunImage>)
    requires AllValid(luns)
    ensures AllKept(luns, luns)
  {
    hide Kept, BothValid;
    forall i | 0 <= i < |luns| ensures Kept(luns[i], luns[i]) {
      KeptSelf(luns[i]);
    }
  }

  lemma KeptValid(luns0: seq<LunImage>, luns: seq<LunImage>)
    requires AllKept(luns0, luns)
    ensures AllValid(luns)
  {}

  // ---------- The log of a run ----------

  /** A write of the primary or of the backup copy of its LUN. */
  predicate CopyWrite(w: DiskWrite) {
    && w.lun < |w.before| && WellFormed(w.before[w.lun]) && w.len == RegionSize(w.before[w.lun])
    && (w.offset == PrimaryOffset(w.before[w.lun]) || w.offset == BackupOffset(w.before[w.lun]))
  }

  /** The writes logged from position `m` up to `n` were completed. */
  predicate Completed(log: seq<DiskWrite>, m: nat, n: nat)
    requires n <= |log|
  {
    forall i :: m <= i < n ==> log[i].ok
  }

  /** A stretch of a run, whatever fails in it: it writes single copies only, and as long as writes
      are completed it keeps, from valid copies, both copies of every LUN valid and every record. */
  ghost predicate Running(luns0: seq<LunImage>, log0: seq<DiskWrite>, luns: seq<LunImage>, log: seq<DiskWrite>) {
    && log0 <= log && |luns| == |luns0|
    && (forall i :: |log0| <= i < |log| ==> CopyWrite(log[i]))
    && (AllValid(luns0) ==>
          && (forall i :: |log0| <= i < |log| && Completed(log, |log0|, i) ==> AllKept(luns0, log[i].before))
          && (Completed(log, |log0|, |log|) ==> AllKept(luns0, luns)))
  }

  lemma RunningStart(luns: seq<LunImage>, log: seq<DiskWrite>)
    ensures Running(luns, log, luns, log)
  {
    hide AllValid, AllKept;
    if AllValid(luns) {
      AllKeptSelf(luns);
    }
  }

  lemma RunningNext(luns0: seq<LunImage>, log0: seq<DiskWrite>, luns1: seq<LunImage>, log1: seq<DiskWrite>,
                    luns2: seq<LunImage>, log2: seq<DiskWrite>)
    requires Running(luns0, log0, luns1, log1) && Running(luns1, log1, luns2, log2)
    ensures Running(luns0, log0, luns2, log2)
  {
    hide AllValid, AllKept, CopyWrite;
    if AllValid(luns0) {
      if Completed(log1, |log0|, |log1|) {
        KeptValid(luns0, luns1);
      }
      forall i | |log0| <= i < |log2| && Completed(log2, |log0|, i) ensures AllKept(luns0, log2[i].before) {
        if i < |log1| {
          assert Completed(log1, |log0|, i);
        } else {
          Earlier(log0, log1, log2, i);
          AllKeptTransitive(luns0, luns1, log2[i].before);
        }
      }
      if Completed(log2, |log0|, |log2|) {
        Earlier(log0, log1, log2, |log2|);
        AllKeptTransitive(luns0, luns1, luns2);
      }
    }
  }

  lemma Earlier(log0: seq<DiskWrite>, log1: seq<DiskWrite>, log2: seq<DiskWrite>, n: nat)
    requires log0 <= log1 <= log2 && |log1| <= n <= |log2| && Completed(log2, |log0|, n)
    ensures Completed(log1, |log0|, |log1|) && Completed(log2, |log1|, n)
  {
    assert forall i :: 0 <= i < |log1| ==> log1[i] == log2[i];
  }

  /** One completed or failed write of a copy. */
  lemma RunningWrite(luns0: seq<LunImage>, log0: seq<DiskWrite>, w: DiskWrite, luns: seq<LunImage>)
    requires CopyWrite(w) && w.before == luns0 && |luns| == |luns0|
    requires AllValid(luns0) && w.ok ==> AllKept(luns0, luns)
    ensures Running(luns0, log0, luns, log0 + [w])
  {
    hide AllValid, AllKept, CopyWrite;
    var log := log0 + [w];
    assert log[|log0|] == w;
    if AllValid(luns0) {
      AllKeptSelf(luns0);
    }
  }

  // ---------- What that means ----------

  /** A copy of the LUN survives: it passes its checksums, and its partition records are the old. */
  ghost predicate Survives(l0: LunImage, l: LunImage) {
    && WellFormed(l0) && WellFormed(l)
    && ((CrcValid(Primary(l)) && OnlyFields(Primary(l0).table, Primary(l).table, 0, All))
        || (CrcValid(Backup(l)) && OnlyFields(Backup(l0).table, Backup(l).table, 0, All)))
  }

  /** Wherever power fails during the write, every LUN keeps its records. */
  ghost predicate RecordSafe(luns0: seq<LunImage>, w: DiskWrite) {
    forall after :: Torn(w, after) ==>
      |after| == |luns0| && forall i :: 0 <= i < |after| ==> Survives(luns0[i], after[i])
  }

  lemma TornSurvives(l0: LunImage, w: DiskWrite, after: seq<LunImage>)
    requires CopyWrite(w) && Kept(l0, w.before[w.lun]) && Torn(w, after)
    ensures Survives(l0, after[w.lun])
  {
    hide CrcValid, OnlyFields, Torn, WholeBlocks, Primary, Backup;
    TornElsewhere(w, after);
    TornBeside(w, after);
  }

  lemma KeptSurvives(l0: LunImage, l: LunImage)
    requires Kept(l0, l)
    ensures Survives(l0, l)
  {}

  /** Every write up to and including the first one that fails is safe, for the checksums and for
      the partition records. */
  lemma SafeUpToFailure(luns0: seq<LunImage>, log0: seq<DiskWrite>, luns: seq<LunImage>, log: seq<DiskWrite>, i: nat)
    requires AllValid(luns0) && Running(luns0, log0, luns, log)
    requires |log0| <= i < |log| && Completed(log, |log0|, i)
    ensures CrashSafe(log[i]) && RecordSafe(luns0, log[i])
  {
    hide AllValid, Kept, CopyWrite, Torn, Survives, CrashSafe;
    var w := log[i];
    forall after | Torn(w, after)
      ensures |after| == |luns0| && forall k :: 0 <= k < |after| ==> Survives(luns0[k], after[k])
    {
      WriteInside(w);
      TornElsewhere(w, after);
      TornSurvives(luns0[w.lun], w, after);
      forall k | 0 <= k < |after| ensures Survives(luns0[k], after[k]) {
        if k != w.lun {
          KeptSurvives(luns0[k], w.before[k]);
        }
      }
    }
    RecordsRecoverable(luns0, w);
  }

  lemma WriteInside(w: DiskWrite)
    requires CopyWrite(w)
    ensures w.lun < |w.before|
  {}

  lemma RecordsRecoverable(luns0: seq<LunImage>, w: DiskWrite)
    requires RecordSafe(luns0, w)
    ensures CrashSafe(w)
  {
    hide Torn, OnlyFields, CrcValid, WellFormed;
  }

  /** Any write of a run, also one behind a failure, is safe if and only if the copy it does not
      touch is valid, provided every LUN has a valid copy at that time. */
  lemma SafeExactly(luns0: seq<LunImage>, log0: seq<DiskWrite>, luns: seq<LunImage>, log: seq<DiskWrite>, i: nat)
    requires Running(luns0, log0, luns, log) && |log0| <= i < |log| && AllRecoverable(log[i].before)
    ensures CopyWrite(log[i])
    ensures var w, l := log[i], log[i].before[log[i].lun];
            CrashSafe(w) <==> CrcValid(if w.offset == PrimaryOffset(l) then Backup(l) else Primary(l))
  {
    hide CrashSafe, CrcValid, AllRecoverable, WholeBlocks, Primary, Backup;
    var w := log[i];
    if w.offset == PrimaryOffset(w.before[w.lun]) {
      PrimaryWriteSafe(w);
    } else {
      BackupWriteSafe(w);
    }
  }
}
