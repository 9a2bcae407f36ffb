/** The two programs over the library, BootSlotMain and SwitchSlotsAppEntryPoint, each of which
    starts from the entries it loads from disk, and any sequence of their runs. */
module SlotSessions {
  import opened Gpt
  import opened EntryWalk
  import opened GptDisk
  import opened Storage
  import opened Survival
  import opened PartitionTable
  import opened Reload
  import opened SlotBits
  import opened Slots
  import opened SlotRuns
  import opened SlotSwitch
  import opened SlotEngine

  /** A device the programs can work on: ready disks whose partition names are well formed. */
  ghost predicate DeviceReady(handles: seq<Handle>, luns: seq<LunImage>, ufs: bool) {
    && DiskReady(handles, luns) && (ufs || |luns| == 1)
    && WellNamed(Names(Loaded(handles, luns)))
  }

  lemma LoadedBlanks(handles: seq<Handle>, luns: seq<LunImage>)
    requires DiskReady(handles, luns)
    ensures BlanksZero(Loaded(handles, luns))
    ensures forall i :: 0 <= i < |handles| ==> Loaded(handles, luns)[i].lun == handles[i].lun < |luns|
  {}

  /** UpdatePartitionEntries in a program just started. */
  method Load(hw: Device, handles: seq<Handle>) returns (e: Engine)
    requires DeviceReady(handles, hw.luns, hw.ufs)
    ensures fresh(e) && fresh(e.table) && e.hw == hw && e.Valid() && e.AtRest()
    ensures e.table.ptnEntries == Loaded(handles, hw.luns)
  {
    hide LoadOne, WholeBlocks, CrcValid, Primary, Backup, Agrees, WellNamed, Rank;
    e := new Engine(hw);
    ghost var mem := Loaded(handles, hw.luns);
    for i := 0 to |handles|
      modifies e.table`ptnEntries
      invariant e.table.ptnEntries == mem[..i]
    {
      assert mem[..i + 1] == mem[..i] + [mem[i]];
      e.table.ptnEntries := e.table.ptnEntries + [LoadOne(handles[i], hw.luns)];
    }
    assert mem[..|handles|] == mem;
    e.table.ptnEntriesBak := e.table.ptnEntries;
    LoadedInStep(handles, hw.luns);
    LoadedBlanks(handles, hw.luns);
  }

  /** GetActiveSlot reports a boot suffix or nothing. */
  lemma ReportedSuffix(mem: seq<PartitionEntry>)
    ensures GetActive(mem).suffix == [] || IsSuffix(GetActive(mem).suffix)
    ensures |SUFFIX_A| == |SUFFIX_B| == 2
  {
    hide Standing, Untouched, FirstBoot, Find;
  }

  lemma SetActiveSuffix(mem: seq<PartitionEntry>, s: Name, resetSuccess: bool, setSuccess: bool)
    ensures SetActive(mem, s, resetSuccess, setSuccess).ok ==> SetActive(mem, s, resetSuccess, setSuccess).suffix == s
  {}

  /** The test and repair of one boot slot in BootSlotMain. */
  method ReviveSlot(e: Engine, suffix: Name)
    requires e.Valid() && e.hw != e.table as object
    modifies e.hw`luns, e.hw`faulted, e.hw`log, e.table
    ensures e.Valid() && |e.hw.luns| == |old(e.hw.luns)| && (old(e.hw.faulted) ==> e.hw.faulted)
    ensures Running(old(e.hw.luns), old(e.hw.log), e.hw.luns, e.hw.log)
    ensures e.table.ptnEntries == Revived(old(e.table.ptnEntries), suffix)
    ensures old(e.AtRest()) && !e.hw.faulted ==>
      e.AtRest()
        && Moved(old(e.hw.luns), old(e.hw.log), old(e.table.ptnEntries), e.hw.luns, e.hw.log, e.table.ptnEntries)
  {
    hide Running, Moved, InStep, WellFormed, WellNamed, IsPairList, ByLun, BlanksZero, SameLuns, Bootable, Revive,
         BootIndex;
    RunningStart(e.hw.luns, e.hw.log);
    if e.AtRest() {
      MovedStart(e.hw.luns, e.hw.log, e.table.ptnEntries);
    }
    var bootable := e.IsSlotBootable(suffix);
    if !bootable {
      var found := e.ClearUnbootable(suffix);
    }
  }

  /** The boot LUN after a program with this result. */
  function LunAfter(ufs: bool, lun: nat, r: Result): nat {
    if ufs && r.ok && r.suffix != [] && lun in {1, 2} then (if r.suffix == SUFFIX_A then 1 else 2) else lun
  }

  lemma ReportsSuffix(s: Session, mem: seq<PartitionEntry>)
    ensures var r := RunOf(s, mem);
            r.ok ==> if MultiSlot(mem) then IsSuffix(r.suffix) && GetActive(r.mem) == Result(true, r.suffix, r.mem)
                     else r.suffix == []
  {
    hide GetActive, Elected, Marked, Switched, Revived, MultiSlot, SlotSet;
    BootNames();
    ReportedSuffix(mem);
    var m := if s.Boot? then Revived(Revived(GetActive(mem).mem, SUFFIX_A), SUFFIX_B) else GetActive(mem).mem;
    SetThenGet(m, SUFFIX_A, true, false);
    SetThenGet(m, SUFFIX_B, true, false);
    SetThenGet(m, SUFFIX_A, false, true);
    SetThenGet(m, SUFFIX_B, false, true);
  }

  /** A program that succeeds on slots leaves a boot LUN that was 1 or 2 on that of the slot then
      active; nothing else changes it. */
  lemma BootLunExact(ufs: bool, lun: nat, s: Session, mem: seq<PartitionEntry>)
    ensures var r := RunOf(s, mem);
            LunAfter(ufs, lun, r)
            == if ufs && r.ok && MultiSlot(mem) && lun in {1, 2}
               then (if GetActive(r.mem).suffix == [0x5F, 0x61] then 1 else 2) else lun
  {
    hide GetActive, RunOf, MultiSlot;
    ReportsSuffix(s, mem);
  }

  /** BootSlotMain. */
  method BootSlotMain(hw: Device, handles: seq<Handle>) returns (ok: bool)
    requires DeviceReady(handles, hw.luns, hw.ufs)
    modifies hw
    ensures |hw.luns| == |old(hw.luns)| && (old(hw.faulted) ==> hw.faulted)
    ensures Running(old(hw.luns), old(hw.log), hw.luns, hw.log)
    ensures ok == BootMain(Loaded(handles, old(hw.luns))).ok
    ensures !hw.faulted ==>
      var r := BootMain(Loaded(handles, old(hw.luns)));
      hw.bootLun == if hw.ufs && ok && MultiSlot(Loaded(handles, old(hw.luns))) && old(hw.bootLun) in {1, 2}
                    then (if GetActive(r.mem).suffix == [0x5F, 0x61] then 1 else 2) else old(hw.bootLun)
    ensures !hw.faulted ==> hw.bootLun == LunAfter(hw.ufs, old(hw.bootLun), BootMain(Loaded(handles, old(hw.luns))))
    ensures !hw.faulted ==>
      SessionDone(handles, old(hw.luns), old(hw.log), hw.luns, hw.log, BootMain(Loaded(handles, old(hw.luns))).mem)
  {
    hide Running, Moved, InStep, WellFormed, WellNamed, IsPairList, ByLun, BlanksZero, SameLuns, DiskReady, Loaded,
         GetActive,
         SetActive, Revived, HasSlots, BootIndex;
    ghost var luns0, log0 := hw.luns, hw.log;
    var e := Load(hw, handles);
    ghost var mem0 := e.table.ptnEntries;
    MovedStart(luns0, log0, mem0);
    RunningStart(luns0, log0);
    ReportedSuffix(mem0);
    BootLunExact(hw.ufs, hw.bootLun, Boot, mem0);
    var multiSlotSupported := e.PartitionHasMultiSlot(BOOT);
    if !multiSlotSupported {
      SessionEnds(handles, luns0, log0, hw.luns, hw.log, mem0);
      return true;
    }
    var _, currentSlot := e.GetActiveSlot();
    if currentSlot == [] {
      currentSlot := SUFFIX_A;
    }
    ghost var luns1, log1, mem1 := hw.luns, hw.log, e.table.ptnEntries;
    ReviveSlot(e, SUFFIX_A);
    ghost var luns2, log2, mem2 := hw.luns, hw.log, e.table.ptnEntries;
    ReviveSlot(e, SUFFIX_B);
    ghost var luns3, log3, mem3 := hw.luns, hw.log, e.table.ptnEntries;
    SetActiveSuffix(mem3, currentSlot, false, true);
    ok := e.SetActiveSlot(currentSlot, false, true);
    RunningNext(luns0, log0, luns1, log1, luns2, log2);
    RunningNext(luns0, log0, luns2, log2, luns3, log3);
    RunningNext(luns0, log0, luns3, log3, hw.luns, hw.log);
    if !hw.faulted {
      MovedNext(luns0, log0, mem0, luns1, log1, mem1, luns2, log2, mem2);
      MovedNext(luns0, log0, mem0, luns2, log2, mem2, luns3, log3, mem3);
      MovedNext(luns0, log0, mem0, luns3, log3, mem3, hw.luns, hw.log, e.table.ptnEntries);
      SessionEnds(handles, luns0, log0, hw.luns, hw.log, e.table.ptnEntries);
    }
  }

  /** SwitchSlotsAppEntryPoint, up to the reset. */
  method SwitchSlotsApp(hw: Device, handles: seq<Handle>) returns (ok: bool)
    requires DeviceReady(handles, hw.luns, hw.ufs)
    modifies hw
    ensures |hw.luns| == |old(hw.luns)| && (old(hw.faulted) ==> hw.faulted)
    ensures Running(old(hw.luns), old(hw.log), hw.luns, hw.log)
    ensures ok == SwitchApp(Loaded(handles, old(hw.luns))).ok
    ensures !hw.faulted ==>
      var r := SwitchApp(Loaded(handles, old(hw.luns)));
      hw.bootLun == if hw.ufs && ok && MultiSlot(Loaded(handles, old(hw.luns))) && old(hw.bootLun) in {1, 2}
                    then (if GetActive(r.mem).suffix == [0x5F, 0x61] then 1 else 2) else old(hw.bootLun)
    ensures !hw.faulted ==> hw.bootLun == LunAfter(hw.ufs, old(hw.bootLun), SwitchApp(Loaded(handles, old(hw.luns))))
    ensures !hw.faulted ==>
      SessionDone(handles, old(hw.luns), old(hw.log), hw.luns, hw.log, SwitchApp(Loaded(handles, old(hw.luns))).mem)
  {
    hide Running, Moved, InStep, WellFormed, WellNamed, IsPairList, ByLun, BlanksZero, SameLuns, DiskReady, Loaded,
         GetActive,
         SetActive, HasSlots, BootIndex;
    ghost var luns0, log0 := hw.luns, hw.log;
    var e := Load(hw, handles);
    ghost var mem0 := e.table.ptnEntries;
    MovedStart(luns0, log0, mem0);
    RunningStart(luns0, log0);
    ReportedSuffix(mem0);
    BootLunExact(hw.ufs, hw.bootLun, Switch, mem0);
    var multiSlotSupported := e.PartitionHasMultiSlot(BOOT);
    if !multiSlotSupported {
      SessionEnds(handles, luns0, log0, hw.luns, hw.log, mem0);
      return false;
    }
    var _, currentSlot := e.GetActiveSlot();
    ghost var luns1, log1, mem1 := hw.luns, hw.log, e.table.ptnEntries;
    if currentSlot == [] {
      if !hw.faulted {
        SessionEnds(handles, luns0, log0, hw.luns, hw.log, mem1);
      }
      return false;
    }
    var newSlot := if SUFFIX_A <= currentSlot then SUFFIX_B else SUFFIX_A;
    SetActiveSuffix(mem1, newSlot, true, false);
    ok := e.SetActiveSlot(newSlot, true, false);
    RunningNext(luns0, log0, luns1, log1, hw.luns, hw.log);
    if !hw.faulted {
      MovedNext(luns0, log0, mem0, luns1, log1, mem1, hw.luns, hw.log, e.table.ptnEntries);
      SessionEnds(handles, luns0, log0, hw.luns, hw.log, e.table.ptnEntries);
    }
    ghost var luns2, log2 := hw.luns, hw.log;
    if ok {
      e.table.UpdatePartitionAttributes(Guids);
      ghost var luns3, log3 := hw.luns, hw.log;
      e.table.UpdatePartitionAttributes(Attributes);
      RunningNext(luns0, log0, luns2, log2, luns3, log3);
      RunningNext(luns0, log0, luns3, log3, hw.luns, hw.log);
    }
  }

  /** A program that met no fault: the next one will load exactly the table this one left in
      memory, and no moment of it was unsafe. */
  ghost predicate SessionDone(handles: seq<Handle>, luns0: seq<LunImage>, log0: seq<DiskWrite>, luns: seq<LunImage>,
                              log: seq<DiskWrite>, mem: seq<PartitionEntry>) {
    DiskReady(handles, luns) && Loaded(handles, luns) == mem && SafeSince(log0, log)
  }

  lemma SessionEnds(handles: seq<Handle>, luns0: seq<LunImage>, log0: seq<DiskWrite>, luns: seq<LunImage>,
                    log: seq<DiskWrite>, mem: seq<PartitionEntry>)
    requires DiskReady(handles, luns0) && Moved(luns0, log0, Loaded(handles, luns0), luns, log, mem)
    ensures SessionDone(handles, luns0, log0, luns, log, mem)
  {
    hide DiskReady, Loaded, InStep, SafeSince, RecordsKept, SameIdentity;
    LoadedListable(handles, luns0);
    ReloadReadsBack(handles, luns0, luns, mem);
    LoadedListable(handles, luns);
  }

  lemma LoadedListable(handles: seq<Handle>, luns: seq<LunImage>)
    requires DiskReady(handles, luns)
    ensures Listable(handles, luns)
  {}

  // ---------- Any sequence of runs ----------

  /** What any number of boots and switches promise of the disk they leave. */
  ghost predicate RunsDone(handles: seq<Handle>, luns0: seq<LunImage>, log0: seq<DiskWrite>, luns: seq<LunImage>,
                           log: seq<DiskWrite>, ss: seq<Session>) {
    && Listable(handles, luns0)
    && SessionDone(handles, luns0, log0, luns, log, Sessions(Loaded(handles, luns0), ss))
  }

  lemma RunsNext(handles: seq<Handle>, luns0: seq<LunImage>, log0: seq<DiskWrite>, luns1: seq<LunImage>,
                 log1: seq<DiskWrite>, luns2: seq<LunImage>, log2: seq<DiskWrite>, done: seq<Session>, s: Session,
                 mem: seq<PartitionEntry>)
    requires RunsDone(handles, luns0, log0, luns1, log1, done)
    requires Listable(handles, luns1)
      && mem == (if s.Boot? then BootMain(Loaded(handles, luns1)).mem else SwitchApp(Loaded(handles, luns1)).mem)
    requires SessionDone(handles, luns1, log1, luns2, log2, mem)
    ensures RunsDone(handles, luns0, log0, luns2, log2, done + [s])
  {
    hide DiskReady, Loaded, CrashSafe, BootMain, SwitchApp;
    SessionsAppend(Loaded(handles, luns0), done, s);
    SafeSinceTransitive(log0, log1, log2);
  }

  lemma {:induction false} SessionsAppend(mem: seq<PartitionEntry>, done: seq<Session>, s: Session)
    ensures var m := Sessions(mem, done);
            Sessions(mem, done + [s]) == if s.Boot? then BootMain(m).mem else SwitchApp(m).mem
    decreases |done|
  {
    hide BootMain, SwitchApp;
    if done == [] {
      assert done + [s] == [s] && [s][1..] == [];
      var m := if s.Boot? then BootMain(mem).mem else SwitchApp(mem).mem;
      assert Sessions(m, []) == m;
    } else {
      assert (done + [s])[1..] == done[1..] + [s] && (done + [s])[0] == done[0];
      SessionsAppend(if done[0].Boot? then BootMain(mem).mem else SwitchApp(mem).mem, done[1..], s);
    }
  }

  /** The result of one program on a table. */
  function RunOf(s: Session, mem: seq<PartitionEntry>): Result {
    if s.Boot? then BootMain(mem) else SwitchApp(mem)
  }

  /** A program reports the slot that is then active. */
  lemma RunReports(s: Session, mem: seq<PartitionEntry>)
    requires GetActive(mem).ok
    ensures var r := RunOf(s, mem);
            r.ok && IsSuffix(GetActive(mem).suffix) && IsSuffix(r.suffix) && GetActive(r.mem).suffix == r.suffix
  {
    hide GetActive, SetActive, Revived, Names, TypeGuids, Exchanged, Chosen, IsUnbootable, IsSuccessful, BootIndex,
         Bootable;
    BootKeepsActive(mem);
    SwitchFlips(mem);
    BootNames();
    var g := GetActive(mem);
    SetActiveSuffix(Revived(Revived(g.mem, SUFFIX_A), SUFFIX_B), g.suffix, false, true);
    SetActiveSuffix(g.mem, OtherSuffix(g.suffix), true, false);
    GetActiveHasBoot(mem);
    HasBootMultiSlot(mem);
  }

  /** After any program the boot LUN of a UFS device is that of the active slot, if it is one of the
      two a slot has. */
  ghost predicate LunFollows(handles: seq<Handle>, luns: seq<LunImage>, ufs: bool, lun0: nat, lun: nat, n: nat) {
    Listable(handles, luns)
    && lun == if ufs && n > 0 && lun0 in {1, 2}
              then (if GetActive(Loaded(handles, luns)).suffix == [0x5F, 0x61] then 1 else 2) else lun0
  }

  lemma LunNext(handles: seq<Handle>, luns: seq<LunImage>, ufs: bool, lun0: nat, lun: nat, n: nat, s: Session,
                later: seq<LunImage>)
    requires LunFollows(handles, luns, ufs, lun0, lun, n) && GetActive(Loaded(handles, luns)).ok
    requires Listable(handles, later) && Loaded(handles, later) == RunOf(s, Loaded(handles, luns)).mem
    ensures LunFollows(handles, later, ufs, lun0, LunAfter(ufs, lun, RunOf(s, Loaded(handles, luns))), n + 1)
  {
    hide GetActive, RunOf, Loaded, Listable;
    RunReports(s, Loaded(handles, luns));
  }

  /** What boots and switches without a fault leave on disk: the active slot is the first one flipped
      once per switch, and the type GUIDs are exchanged within every pair exactly when it is not
      the first one. */
  ghost predicate RunsEnd(handles: seq<Handle>, luns0: seq<LunImage>, luns: seq<LunImage>, ss: seq<Session>) {
    && Listable(handles, luns0) && Listable(handles, luns)
    && var mem0, mem := Loaded(handles, luns0), Loaded(handles, luns);
       var s, even := GetActive(mem0).suffix, Switches(ss) % 2 == 0;
       && GetActive(mem).ok && Names(mem) == Names(mem0)
       && GetActive(mem).suffix == (if even then s else OtherSuffix(s))
       && TypeGuids(mem) == (if even then TypeGuids(mem0) else Exchanged(Names(mem0), TypeGuids(mem0)))
  }

  lemma RunsEnded(handles: seq<Handle>, luns0: seq<LunImage>, log0: seq<DiskWrite>, luns: seq<LunImage>,
                  log: seq<DiskWrite>, ss: seq<Session>, ufs: bool)
    requires DeviceReady(handles, luns0, ufs) && RunsDone(handles, luns0, log0, luns, log, ss)
    requires GetActive(Loaded(handles, luns0)).ok && |luns| == |luns0|
    ensures RunsEnd(handles, luns0, luns, ss) && DeviceReady(handles, luns, ufs) && SafeSince(log0, log)
    ensures Listable(handles, luns) && GetActive(Loaded(handles, luns)).ok
  {
    hide DiskReady, Loaded, WellNamed, GetActive, TypeGuids, Exchanged, Names, SafeSince, Sessions;
    LoadedListable(handles, luns0);
    LoadedListable(handles, luns);
    SessionsFlip(Loaded(handles, luns0), ss);
  }

  /** Boots and switches in any order, each loading the table from disk. If no driver fails, then
      whenever power may have been cut each LUN had a valid GPT copy; at the end the slot read
      from disk is the first one, flipped once per switch; and the type GUIDs on disk are
      exchanged within every pair exactly when that slot is not the first one; and the boot LUN of a
      UFS device is that of the slot. Whatever fails, every write up to and including the first one
      that fails is safe for checksums and records. */
  method RunAll(hw: Device, handles: seq<Handle>, ss: seq<Session>)
    requires DeviceReady(handles, hw.luns, hw.ufs) && GetActive(Loaded(handles, hw.luns)).ok
    modifies hw
    ensures Running(old(hw.luns), old(hw.log), hw.luns, hw.log)
    ensures forall i :: |old(hw.log)| <= i < |hw.log| && Completed(hw.log, |old(hw.log)|, i) ==>
      CrashSafe(hw.log[i]) && RecordSafe(old(hw.luns), hw.log[i])
    ensures !hw.faulted ==> SafeSince(old(hw.log), hw.log)
    ensures !hw.faulted ==> RunsEnd(handles, old(hw.luns), hw.luns, ss)
    ensures !hw.faulted ==> DeviceReady(handles, hw.luns, hw.ufs)
    ensures !hw.faulted ==> Listable(handles, hw.luns)
    ensures !hw.faulted ==>
      hw.bootLun == if hw.ufs && ss != [] && old(hw.bootLun) in {1, 2}
                    then (if GetActive(Loaded(handles, hw.luns)).suffix == [0x5F, 0x61] then 1 else 2)
                    else old(hw.bootLun)
  {
    hide DiskReady, Loaded, WellNamed, GetActive, BootMain, SwitchApp, TypeGuids, Exchanged, Names, CrashSafe, Running,
         RecordSafe, LunAfter, RunsDone, RunsEnd, Listable, SafeSince, SessionDone;
    ghost var luns0, log0, lun0 := hw.luns, hw.log, hw.bootLun;
    LoadedListable(handles, luns0);
    RunningStart(luns0, log0);
    NothingRun(handles, luns0, log0, hw.ufs, lun0);
    for i := 0 to |ss|
      invariant |hw.luns| == |luns0| && Running(luns0, log0, hw.luns, hw.log)
      invariant !hw.faulted ==> RunsDone(handles, luns0, log0, hw.luns, hw.log, ss[..i])
      invariant !hw.faulted ==> LunFollows(handles, hw.luns, hw.ufs, lun0, hw.bootLun, i)
    {
      if hw.faulted {
        AllSafeUpToFailure(handles, luns0, log0, hw.luns, hw.log);
        return;
      }
      ghost var luns1, log1, lun1 := hw.luns, hw.log, hw.bootLun;
      RunsEnded(handles, luns0, log0, luns1, log1, ss[..i], hw.ufs);
      if ss[i].Boot? {
        var ok := BootSlotMain(hw, handles);
      } else {
        var ok := SwitchSlotsApp(hw, handles);
      }
      RunningNext(luns0, log0, luns1, log1, hw.luns, hw.log);
      if !hw.faulted {
        RunAdded(handles, luns0, log0, luns1, log1, hw.luns, hw.log, ss[..i], ss[i], hw.ufs, lun0, lun1);
        assert ss[..i + 1] == ss[..i] + [ss[i]];
      }
    }
    AllSafeUpToFailure(handles, luns0, log0, hw.luns, hw.log);
    if !hw.faulted {
      assert ss[..|ss|] == ss;
      RunsEnded(handles, luns0, log0, hw.luns, hw.log, ss, hw.ufs);
    }
  }

  lemma NothingRun(handles: seq<Handle>, luns: seq<LunImage>, log: seq<DiskWrite>, ufs: bool, lun: nat)
    requires DiskReady(handles, luns)
    ensures RunsDone(handles, luns, log, luns, log, []) && LunFollows(handles, luns, ufs, lun, lun, 0)
  {
    LoadedListable(handles, luns);
    hide DiskReady, Loaded, GetActive;
  }

  lemma RunAdded(handles: seq<Handle>, luns0: seq<LunImage>, log0: seq<DiskWrite>, luns1: seq<LunImage>,
                 log1: seq<DiskWrite>, luns2: seq<LunImage>, log2: seq<DiskWrite>, done: seq<Session>, s: Session,
                 ufs: bool, lun0: nat, lun1: nat)
    requires RunsDone(handles, luns0, log0, luns1, log1, done) && LunFollows(handles, luns1, ufs, lun0, lun1, |done|)
    requires Listable(handles, luns1) && GetActive(Loaded(handles, luns1)).ok
    requires SessionDone(handles, luns1, log1, luns2, log2, RunOf(s, Loaded(handles, luns1)).mem)
    ensures RunsDone(handles, luns0, log0, luns2, log2, done + [s])
    ensures LunFollows(handles, luns2, ufs, lun0, LunAfter(ufs, lun1, RunOf(s, Loaded(handles, luns1))), |done| + 1)
  {
    hide DiskReady, Loaded, GetActive, BootMain, SwitchApp, CrashSafe, LunFollows, LunAfter, Sessions;
    RunsNext(handles, luns0, log0, luns1, log1, luns2, log2, done, s, RunOf(s, Loaded(handles, luns1)).mem);
    LoadedListable(handles, luns2);
    LunNext(handles, luns1, ufs, lun0, lun1, |done|, s, luns2);
  }

  lemma ReadyValid(handles: seq<Handle>, luns: seq<LunImage>)
    requires DiskReady(handles, luns)
    ensures AllValid(luns)
  {}

  lemma AllSafeUpToFailure(handles: seq<Handle>, luns0: seq<LunImage>, log0: seq<DiskWrite>, luns: seq<LunImage>,
                           log: seq<DiskWrite>)
    requires DiskReady(handles, luns0) && Running(luns0, log0, luns, log)
    ensures forall i :: |log0| <= i < |log| && Completed(log, |log0|, i) ==>
      CrashSafe(log[i]) && RecordSafe(luns0, log[i])
  {
    ReadyValid(handles, luns0);
    hide DiskReady, AllValid, CrashSafe, RecordSafe;
    forall i | |log0| <= i < |log| && Completed(log, |log0|, i)
      ensures CrashSafe(log[i]) && RecordSafe(luns0, log[i])
    {
      SafeUpToFailure(luns0, log0, luns, log, i);
    }
  }
}
