/** The slot operations of PartitionTableUpdate.c over the in-memory table, the cached list of
    slotted partitions, the boot LUN and the disk. */
module SlotEngine {
  import opened Gpt
  import opened EntryWalk
  import opened GptDisk
  import opened Storage
  import opened Survival
  import opened PartitionTable
  import opened Reload
  import opened SlotBits
  import opened Slots
  import opened SlotRuns
  import opened SlotSwitch

  const INVALID_PTN := -1

  /** A disk that went from `luns0` to `luns` by complete updates only: memory is in step with
      it, every state exposed on the way kept a valid copy per LUN, and nothing but type GUIDs
      and attributes changed. */
  ghost predicate Settled(luns0: seq<LunImage>, luns: seq<LunImage>, log0: seq<DiskWrite>, log: seq<DiskWrite>,
                          mem: seq<PartitionEntry>) {
    InStep(luns, mem) && SafeSince(log0, log) && RecordsKept(luns0, luns)
  }

  lemma SettledStart(luns: seq<LunImage>, log: seq<DiskWrite>, mem: seq<PartitionEntry>)
    requires InStep(luns, mem)
    ensures Settled(luns, luns, log, log, mem)
  {
    hide CrcValid, Agrees, Primary, Backup, WholeBlocks;
  }

  lemma SettledNext(luns0: seq<LunImage>, luns1: seq<LunImage>, luns2: seq<LunImage>, log0: seq<DiskWrite>,
                    log1: seq<DiskWrite>, log2: seq<DiskWrite>, mem1: seq<PartitionEntry>, mem2: seq<PartitionEntry>)
    requires Settled(luns0, luns1, log0, log1, mem1) && Settled(luns1, luns2, log1, log2, mem2)
    ensures Settled(luns0, luns2, log0, log2, mem2)
  {
    hide CrashSafe, LunInStep, OnlyFields, Primary, WholeBlocks;
    SafeSinceTransitive(log0, log1, log2);
    RecordsKeptTransitive(luns0, luns1, luns2);
  }

  lemma UpdateSettles(luns0: seq<LunImage>, luns: seq<LunImage>, log0: seq<DiskWrite>, log: seq<DiskWrite>,
                      bak0: seq<PartitionEntry>, bak: seq<PartitionEntry>, mem: seq<PartitionEntry>, kind: UpdateType)
    requires |mem| <= MAX_ENTRIES && |luns| == |luns0|
    requires UpdateOutcome(luns0, luns, log0, log, bak0, bak, mem, kind, false)
    requires mem == bak0 ==> luns == luns0
    requires Stepping(luns0, bak0, mem, kind)
    ensures Settled(luns0, luns, log0, log, mem) && bak == mem && SameIdentity(bak0, mem)
  {
    hide LunInStep, BothValid, CrashSafe, FlushLun;
    InStepValid(luns0, bak0);
    ChangedKeepsIdentity(bak0, mem, kind);
    if mem == bak0 {
      SettledStart(luns0, log0, mem);
    } else {
      FlushKeepsRecords(luns0, luns, mem, kind);
    }
  }

  /** Settled, with the same partitions in memory. */
  ghost predicate Moved(luns0: seq<LunImage>, log0: seq<DiskWrite>, mem0: seq<PartitionEntry>, luns: seq<LunImage>,
                        log: seq<DiskWrite>, mem: seq<PartitionEntry>) {
    Settled(luns0, luns, log0, log, mem) && SameIdentity(mem0, mem)
  }

  lemma MovedStart(luns: seq<LunImage>, log: seq<DiskWrite>, mem: seq<PartitionEntry>)
    requires InStep(luns, mem)
    ensures Moved(luns, log, mem, luns, log, mem)
  {
    hide LunInStep, CrashSafe;
    SettledStart(luns, log, mem);
  }

  lemma MovedNext(luns0: seq<LunImage>, log0: seq<DiskWrite>, mem0: seq<PartitionEntry>, luns1: seq<LunImage>,
                  log1: seq<DiskWrite>, mem1: seq<PartitionEntry>, luns2: seq<LunImage>, log2: seq<DiskWrite>,
                  mem2: seq<PartitionEntry>)
    requires Moved(luns0, log0, mem0, luns1, log1, mem1) && Moved(luns1, log1, mem1, luns2, log2, mem2)
    ensures Moved(luns0, log0, mem0, luns2, log2, mem2)
  {
    hide InStep, CrashSafe, RecordsKept;
    SettledNext(luns0, luns1, luns2, log0, log1, log2, mem1, mem2);
  }

  class Engine {
    const table: Table
    const hw: Device
    /** The base names of GetMultiSlotPartsList, newest first; empty before the first switch. */
    var headNode: seq<Name>

    constructor (hw: Device)
      ensures this.hw == hw && headNode == []
      ensures fresh(table) && table.hw == hw && table.ptnEntries == [] && table.ptnEntriesBak == []
    {
      this.hw, headNode := hw, [];
      table := new Table(hw);
    }

    ghost predicate Valid()
      reads this, table, hw
    {
      && table.hw == hw && table.Valid()
      && WellNamed(Names(table.ptnEntries)) && BlanksZero(table.ptnEntries)
      && (headNode != [] ==> IsPairList(headNode, Names(table.ptnEntries)))
    }

    /** Memory, its backup and the disk agree. */
    ghost predicate AtRest()
      reads table, hw
    {
      table.ptnEntriesBak == table.ptnEntries && InStep(hw.luns, table.ptnEntries)
    }

    /** An update after memory was changed in the requested field only. */
    method Update(kind: UpdateType)
      requires Valid()
      modifies hw`luns, hw`faulted, hw`log, table`ptnEntriesBak
      ensures Valid() && |hw.luns| == |old(hw.luns)| && (old(hw.faulted) ==> hw.faulted)
      ensures Running(old(hw.luns), old(hw.log), hw.luns, hw.log)
      ensures Stepping(old(hw.luns), old(table.ptnEntriesBak), table.ptnEntries, kind) && !hw.faulted ==>
        AtRest() && Moved(old(hw.luns), old(hw.log), old(table.ptnEntriesBak), hw.luns, hw.log, table.ptnEntries)
    {
      hide Running, UpdateOutcome, Stepping, Settled, InStep, WellFormed, ByLun, BlanksZero, WellNamed, IsPairList;
      ghost var luns0, log0, bak0 := hw.luns, hw.log, table.ptnEntriesBak;
      table.UpdatePartitionAttributes(kind);
      if Stepping(luns0, bak0, table.ptnEntries, kind) && !hw.faulted {
        UpdateSettles(luns0, hw.luns, log0, hw.log, bak0, table.ptnEntriesBak, table.ptnEntries, kind);
        SettledInStep(luns0, hw.luns, log0, hw.log, table.ptnEntries);
      }
    }

    // ---------- Lookups ----------

    method GetPartitionIndex(pname: Name) returns (index: int)
      ensures var i := Find(Names(table.ptnEntries), pname);
              index == if i < |table.ptnEntries| then i else INVALID_PTN
    {
      var i := 0;
      while i < |table.ptnEntries|
        invariant i <= Find(Names(table.ptnEntries), pname)
      {
        if table.ptnEntries[i].name == pname {
          FindHere(Names(table.ptnEntries), pname, i);
          return i;
        }
        FindBeyond(Names(table.ptnEntries), pname, i);
        i := i + 1;
      }
      return INVALID_PTN;
    }

    /** PartitionHasMultiSlot. */
    method PartitionHasMultiSlot(pname: Name) returns (has: bool)
      ensures has == HasSlots(table.ptnEntries, pname)
    {
      var len, slotCount := |pname|, 0;
      ghost var names := Names(table.ptnEntries);
      for i := 0 to |table.ptnEntries|
        invariant slotCount == SlotCount(pname, names[..i]) && slotCount <= 1
      {
        var n := table.ptnEntries[i].name;
        assert names[..i + 1][..i] == names[..i] && names[..i + 1][i] == n;
        SlotLikeTest(pname, n);
        if pname <= n && |n| >= len + 2 && n[len] == 0x5F && (n[len + 1] == 0x61 || n[len + 1] == 0x62) {
          slotCount := slotCount + 1;
          if slotCount > 1 {
            SlotCountGrows(pname, names, i + 1);
            return true;
          }
        }
      }
      assert names[..|names|] == names;
      return false;
    }

    /** GetBootPartitionEntry, as a position. */
    method GetBootPartitionEntry(suffix: Name) returns (index: int)
      ensures var i := BootIndex(table.ptnEntries, suffix);
              index == if i < |table.ptnEntries| then i else INVALID_PTN
    {
      if suffix <= SUFFIX_A {
        index := GetPartitionIndex(BOOT_A);
      } else if suffix <= SUFFIX_B {
        index := GetPartitionIndex(BOOT_B);
      } else {
        index := INVALID_PTN;
      }
    }

    method IsSlotBootable(suffix: Name) returns (bootable: bool)
      ensures var i := BootIndex(table.ptnEntries, suffix);
              bootable == (i < |table.ptnEntries| && Bootable(table.ptnEntries[i].attributes))
    {
      var index := GetBootPartitionEntry(suffix);
      if index == INVALID_PTN {
        return false;
      }
      return Bootable(table.ptnEntries[index].attributes);
    }

    // ---------- Attribute edits ----------

    /** Assignment to an entry's Attributes. */
    method Assign(index: nat, a: bv64)
      requires Valid() && index < |table.ptnEntries| && !Blank(table.ptnEntries[index].typeGuid)
      modifies table`ptnEntries
      ensures Valid() && table.ptnEntries == SetAttributes(old(table.ptnEntries), index, a)
    {
      hide WellNamed, IsPairList, WellFormed;
      NamesOfUpdate(table.ptnEntries, index, a);
      table.ptnEntries := table.ptnEntries[index := table.ptnEntries[index].(attributes := a)];
    }

    /** ClearUnbootable: not found, or the slot revived and the disk updated. */
    method ClearUnbootable(suffix: Name) returns (found: bool)
      requires Valid()
      modifies hw`luns, hw`faulted, hw`log, table
      ensures Valid() && |hw.luns| == |old(hw.luns)| && (old(hw.faulted) ==> hw.faulted)
      ensures Running(old(hw.luns), old(hw.log), hw.luns, hw.log)
      ensures var mem, i := old(table.ptnEntries), BootIndex(old(table.ptnEntries), suffix);
              && found == (i < |mem|)
              && table.ptnEntries == if found then SetAttributes(mem, i, Revive(mem[i].attributes)) else mem
      ensures old(AtRest()) && !hw.faulted ==>
        AtRest() && Moved(old(hw.luns), old(hw.log), old(table.ptnEntries), hw.luns, hw.log, table.ptnEntries)
    {
      hide Running, Revive, Moved, Settled, InStep, WellFormed, WellNamed, IsPairList, ByLun, Find;
      ghost var luns0, log0, mem0 := hw.luns, hw.log, table.ptnEntries;
      RunningStart(luns0, log0);
      if AtRest() {
        MovedStart(luns0, log0, mem0);
      }
      var index := GetBootPartitionEntry(suffix);
      if index == INVALID_PTN {
        return false;
      }
      BootEntryNamed(mem0, suffix);
      if AtRest() {
        SetAttributesChanges(mem0, mem0, index, Revive(mem0[index].attributes));
      }
      Assign(index, Revive(table.ptnEntries[index].attributes));
      Update(Attributes);
      return true;
    }

    /** GetActiveSlot. */
    method GetActiveSlot() returns (ok: bool, suffix: Name)
      requires Valid()
      modifies hw`luns, hw`faulted, hw`log, table
      ensures Valid() && |hw.luns| == |old(hw.luns)| && (old(hw.faulted) ==> hw.faulted)
      ensures Running(old(hw.luns), old(hw.log), hw.luns, hw.log)
      ensures Result(ok, suffix, table.ptnEntries) == GetActive(old(table.ptnEntries))
      ensures old(AtRest()) && !hw.faulted ==>
        AtRest() && Moved(old(hw.luns), old(hw.log), old(table.ptnEntries), hw.luns, hw.log, table.ptnEntries)
    {
      hide Running, FirstBoot, Standing, Untouched, Moved, Settled, InStep, WellFormed, WellNamed, IsPairList, ByLun,
           Find;
      ghost var luns0, log0, mem0 := hw.luns, hw.log, table.ptnEntries;
      BootNames();
      RunningStart(luns0, log0);
      if AtRest() {
        MovedStart(luns0, log0, mem0);
      }
      suffix := [];
      var priority: bv64 := 0;
      var a := GetBootPartitionEntry(SUFFIX_A);
      if a == INVALID_PTN {
        return false, suffix;
      }
      if Higher(Standing(table.ptnEntries[a].attributes), priority) {
        suffix, priority := SUFFIX_A, Standing(table.ptnEntries[a].attributes);
      }
      var b := GetBootPartitionEntry(SUFFIX_B);
      if b == INVALID_PTN {
        return false, suffix;
      }
      if Higher(Standing(table.ptnEntries[b].attributes), priority) {
        suffix, priority := SUFFIX_B, Standing(table.ptnEntries[b].attributes);
      }
      HigherZero(Standing(mem0[a].attributes), Standing(mem0[b].attributes));
      BootEntryNamed(mem0, SUFFIX_A);
      if suffix == [] {
        if Untouched(table.ptnEntries[a].attributes) {
          StartFirstBoot(a);
          return true, SUFFIX_A;
        }
        return false, suffix;
      }
      return true, suffix;
    }

    /** The attributes slot _a gets on the very first boot. */
    method StartFirstBoot(a: nat)
      requires Valid() && a < |table.ptnEntries| && !Blank(table.ptnEntries[a].typeGuid)
      modifies hw`luns, hw`faulted, hw`log, table
      ensures Valid() && |hw.luns| == |old(hw.luns)| && (old(hw.faulted) ==> hw.faulted)
      ensures Running(old(hw.luns), old(hw.log), hw.luns, hw.log)
      ensures table.ptnEntries
              == SetAttributes(old(table.ptnEntries), a, FirstBoot(old(table.ptnEntries)[a].attributes))
      ensures old(AtRest()) && !hw.faulted ==>
        AtRest() && Moved(old(hw.luns), old(hw.log), old(table.ptnEntries), hw.luns, hw.log, table.ptnEntries)
    {
      hide Running, FirstBoot, Moved, Settled, InStep, WellFormed, WellNamed, IsPairList, ByLun, Find;
      ghost var mem0 := table.ptnEntries;
      if AtRest() {
        MovedStart(hw.luns, hw.log, mem0);
        SetAttributesChanges(mem0, mem0, a, FirstBoot(mem0[a].attributes));
      }
      Assign(a, FirstBoot(table.ptnEntries[a].attributes));
      Update(Attributes);
    }

    /** MarkPtnActive. */
    method MarkPtnActive(activeSlot: Name)
      requires Valid() && IsSuffix(activeSlot)
      modifies hw`luns, hw`faulted, hw`log, table
      ensures Valid() && |hw.luns| == |old(hw.luns)| && (old(hw.faulted) ==> hw.faulted)
      ensures Running(old(hw.luns), old(hw.log), hw.luns, hw.log)
      ensures table.ptnEntries == Marked(old(table.ptnEntries), activeSlot)
      ensures old(AtRest()) && !hw.faulted ==>
        AtRest() && Moved(old(hw.luns), old(hw.log), old(table.ptnEntries), hw.luns, hw.log, table.ptnEntries)
    {
      hide Running, MarkActive, MarkInactive, Moved, Settled, InStep, WellFormed, WellNamed, IsPairList, ByLun,
           Contains;
      ghost var mem0 := table.ptnEntries;
      MarkedChanges(mem0, activeSlot);
      for i := 0 to |table.ptnEntries|
        modifies table`ptnEntries
        invariant |table.ptnEntries| == |mem0|
        invariant forall k :: 0 <= k < |mem0| ==>
          table.ptnEntries[k] == if k < i then Marked(mem0, activeSlot)[k] else mem0[k]
      {
        var e := table.ptnEntries[i];
        if Contains(e.name, activeSlot) {
          table.ptnEntries := table.ptnEntries[i := e.(attributes := MarkActive(e.attributes))];
        } else {
          table.ptnEntries := table.ptnEntries[i := e.(attributes := MarkInactive(e.attributes))];
        }
      }
      assert table.ptnEntries == Marked(mem0, activeSlot);
      ChangedKeepsTable(mem0, table.ptnEntries, table.ptnEntriesBak, Attributes);
      Update(Attributes);
    }

    // ---------- Switching ----------

    /** GetMultiSlotPartsList, on an empty list. */
    method GetMultiSlotPartsList()
      requires Valid() && headNode == []
      modifies this`headNode
      ensures Valid() && IsPairList(headNode, Names(table.ptnEntries))
    {
      hide WellNamed, ListTest, Twins, Contains, ListBefore, IsPairList, WellFormed, ByLun;
      ghost var names := Names(table.ptnEntries);
      ListStart(names);
      for i := 0 to |table.ptnEntries|
        invariant ListBefore(headNode, names, i)
      {
        var searchString := table.ptnEntries[i].name;
        var found := false;
        if searchString != [] {
          var j := i + 1;
          while j < |table.ptnEntries|
            modifies {}
            invariant i < j <= |table.ptnEntries|
            invariant forall k :: i < k < j ==> !ListTest(names, i, k)
          {
            ListTestFast(names, i, j);
            if table.ptnEntries[j].name != [] && Twins(searchString, table.ptnEntries[j].name)
               && (Contains(searchString, SUFFIX_A) || Contains(searchString, SUFFIX_B))
            {
              found := true;
              break;
            }
            j := j + 1;
          }
          if found {
            ListAdds(headNode, names, i, j);
            headNode := [Base(searchString)] + headNode;
          }
        } else {
          EmptyTwin(names, i);
        }
        if !found {
          ListSkips(headNode, names, i);
        }
      }
      ListDone(headNode, names);
    }

    /** The search of SwitchPtnSlots for the entries of one pair, by name prefix. If both names are
        the same, the second is never looked for. */
    method FindPair(curSlot: Name, newSlot: Name) returns (current: int, new_: int)
      requires Valid()
      requires curSlot != newSlot ==>
        && IsSlotName(curSlot) && curSlot in Names(table.ptnEntries)
        && IsSlotName(newSlot) && newSlot in Names(table.ptnEntries)
      ensures curSlot != newSlot ==> 0 <= current < |table.ptnEntries| && table.ptnEntries[current].name == curSlot
      ensures curSlot != newSlot ==> 0 <= new_ < |table.ptnEntries| && table.ptnEntries[new_].name == newSlot
      ensures curSlot == newSlot ==> current < |table.ptnEntries| && new_ == INVALID_PTN
    {
      hide WellNamed, IsPairList, WellFormed, ByLun, IsSlotName;
      ghost var names := Names(table.ptnEntries);
      if curSlot != newSlot {
        FindPresent(names, curSlot);
        FindPresent(names, newSlot);
      }
      current, new_ := INVALID_PTN, INVALID_PTN;
      for i := 0 to |table.ptnEntries|
        invariant current < |table.ptnEntries|
        invariant curSlot != newSlot ==>
          current == if Find(names, curSlot) < i then Find(names, curSlot) else INVALID_PTN
        invariant new_ == if curSlot != newSlot && Find(names, newSlot) < i then Find(names, newSlot) else INVALID_PTN
      {
        if curSlot != newSlot {
          PrefixExact(names, curSlot, i);
          PrefixExact(names, newSlot, i);
        }
        if curSlot <= table.ptnEntries[i].name {
          current := i;
        } else if newSlot <= table.ptnEntries[i].name {
          new_ := i;
        }
      }
    }

    /** SwapPtnGuid, which does nothing without both entries. */
    method SwapPtnGuid(p: int, q: int)
      requires p < |table.ptnEntries| && q < |table.ptnEntries|
      modifies table`ptnEntries
      ensures table.ptnEntries == if p < 0 || q < 0 then old(table.ptnEntries)
              else SwapGuids(old(table.ptnEntries), p, q)
    {
      if p < 0 || q < 0 {
        return;
      }
      var temp := table.ptnEntries[p].typeGuid;
      table.ptnEntries := table.ptnEntries[p := table.ptnEntries[p].(typeGuid := table.ptnEntries[q].typeGuid)];
      table.ptnEntries := table.ptnEntries[q := table.ptnEntries[q].(typeGuid := temp)];
    }

    /** One turn of the loop of SwitchPtnSlots over the list. */
    method SwapPair(x: Name, setInactive: Name, setActive: Name, ghost mem0: seq<PartitionEntry>, ghost done: seq<Name>)
      requires Valid() && IsSuffix(setActive) && setInactive == OtherSuffix(setActive)
      requires BlanksZero(mem0) && WellNamed(Names(mem0)) && Names(table.ptnEntries) == Names(mem0)
      requires SameLuns(mem0, table.ptnEntriesBak) && ByLun(mem0)
      requires table.ptnEntries == SwitchedFor(mem0, done) && x !in done && IsPairBase(Names(mem0), x)
      modifies table`ptnEntries
      ensures Valid() && table.ptnEntries == SwitchedFor(mem0, done + [x]) && Names(table.ptnEntries) == Names(mem0)
    {
      hide WellNamed, Partner, WellFormed, ByLun, SwitchedFor, IsPairBase, IsPairList, IsSlotName, SameLuns,
           ChangedOnly, Names, SwapGuids, IsSuffix, Appended, FitsBuffer;
      NamesBuilt(x, setActive);
      ListPair(Names(mem0), x, setActive);
      var current, new_ := FindPair(Appended(x, setInactive), Appended(x, setActive));
      ghost var p, q := PairPresent(mem0, table.ptnEntries, x, setActive);
      if FitsBuffer(x) {
        PairPositions(mem0, table.ptnEntries, x, setActive, current, new_);
        SwapStep(mem0, done, x, setActive, current, new_);
      } else {
        SwapStep(mem0, done, x, setActive, p, q);
      }
      SwitchedForKeeps(mem0, done + [x]);
      ghost var before := table.ptnEntries;
      SwapPtnGuid(current, new_);
      ChangedKeepsTable(mem0, table.ptnEntries, table.ptnEntriesBak, Guids);
      SwitchedForLuns(mem0, done);
    }

    /** The loop of SwitchPtnSlots over the list. */
    method SwapPairs(setActive: Name)
      requires Valid() && IsSuffix(setActive) && IsPairList(headNode, Names(table.ptnEntries))
      modifies table`ptnEntries
      ensures Valid() && table.ptnEntries == Switched(old(table.ptnEntries))
    {
      hide WellNamed, Partner, WellFormed, ByLun, Switched, SwitchedFor, IsPairBase, IsSlotName, IsSuffix;
      ghost var mem0 := table.ptnEntries;
      SwitchedForNone(mem0);
      var setInactive := if SUFFIX_A <= setActive then SUFFIX_B else SUFFIX_A;
      InactiveSuffix(setActive);
      for k := 0 to |headNode|
        modifies table`ptnEntries
        invariant table.ptnEntries == SwitchedFor(mem0, headNode[..k]) && Valid()
                  && Names(table.ptnEntries) == Names(mem0)
      {
        assert headNode[k] in headNode;
        NotYetDone(headNode, k);
        assert headNode[..k + 1] == headNode[..k] + [headNode[k]];
        SwapPair(headNode[k], setInactive, setActive, mem0, headNode[..k]);
      }
      assert headNode[..|headNode|] == headNode;
      SwitchedForAll(mem0, headNode);
    }

    /** SwitchPtnSlots: every pair trades GUIDs, the boot LUN follows the slot on UFS, and the
        GUIDs are written out. */
    method SwitchPtnSlots(setActive: Name)
      requires Valid() && IsSuffix(setActive)
      modifies this`headNode, hw, table
      ensures Valid() && |hw.luns| == |old(hw.luns)| && (old(hw.faulted) ==> hw.faulted)
      ensures Running(old(hw.luns), old(hw.log), hw.luns, hw.log)
      ensures table.ptnEntries == Switched(old(table.ptnEntries))
      ensures !hw.faulted ==>
        hw.bootLun == if hw.ufs && old(hw.bootLun) in {1, 2} then (if setActive == [0x5F, 0x61] then 1 else 2)
                      else old(hw.bootLun)
      ensures old(AtRest()) && !hw.faulted ==>
        AtRest() && Moved(old(hw.luns), old(hw.log), old(table.ptnEntries), hw.luns, hw.log, table.ptnEntries)
    {
      hide Running, Switched, Moved, Settled, InStep, WellFormed, WellNamed, IsPairList, ByLun, ChangedOnly, BlanksZero,
           SameLuns;
      ghost var mem0 := table.ptnEntries;
      SwitchedChanges(mem0);
      BootNames();
      SuffixTests(setActive);
      if headNode == [] {
        GetMultiSlotPartsList();
      }
      SwapPairs(setActive);
      if hw.ufs {
        var ufsBootLun := hw.GetBootLun(0);
        if ufsBootLun == 1 && SUFFIX_B <= setActive {
          ufsBootLun := 2;
        } else if ufsBootLun == 2 && SUFFIX_A <= setActive {
          ufsBootLun := 1;
        }
        hw.SetBootLun(ufsBootLun);
      }
      Update(Guids);
    }

    /** The branch of SetActiveSlot for a slot that was not active. */
    method SwitchTo(newSlot: Name)
      requires Valid() && IsSuffix(newSlot)
      modifies this`headNode, hw, table
      ensures Valid() && |hw.luns| == |old(hw.luns)| && (old(hw.faulted) ==> hw.faulted)
      ensures Running(old(hw.luns), old(hw.log), hw.luns, hw.log)
      ensures table.ptnEntries == Marked(Switched(old(table.ptnEntries)), newSlot)
      ensures !hw.faulted ==>
        hw.bootLun == if hw.ufs && old(hw.bootLun) in {1, 2} then (if newSlot == [0x5F, 0x61] then 1 else 2)
                      else old(hw.bootLun)
      ensures old(AtRest()) && !hw.faulted ==>
        AtRest() && Moved(old(hw.luns), old(hw.log), old(table.ptnEntries), hw.luns, hw.log, table.ptnEntries)
    {
      hide Running, Switched, Marked, Moved, InStep, WellFormed, WellNamed, IsPairList, ByLun, BlanksZero, SameLuns;
      ghost var luns0, log0, mem0, rest := hw.luns, hw.log, table.ptnEntries, AtRest();
      SwitchPtnSlots(newSlot);
      ghost var luns1, log1, mem1 := hw.luns, hw.log, table.ptnEntries;
      MarkPtnActive(newSlot);
      RunningNext(luns0, log0, luns1, log1, hw.luns, hw.log);
      if rest && !hw.faulted {
        MovedNext(luns0, log0, mem0, luns1, log1, mem1, hw.luns, hw.log, table.ptnEntries);
      }
    }

    /** The branch for the slot that was active already: only a mismatched boot LUN changes. */
    method MatchBootLun(currentSlot: Name)
      requires IsSuffix(currentSlot)
      modifies hw`faulted, hw`bootLun
      ensures old(hw.faulted) ==> hw.faulted
      ensures !hw.faulted ==>
        hw.bootLun == if hw.ufs && old(hw.bootLun) in {1, 2} then (if currentSlot == [0x5F, 0x61] then 1 else 2)
                      else old(hw.bootLun)
    {
      BootNames();
      SuffixTests(currentSlot);
      if hw.ufs {
        var ufsBootLun := hw.GetBootLun(0);
        if ufsBootLun == 1 && SUFFIX_B <= currentSlot {
          hw.SetBootLun(2);
        } else if ufsBootLun == 2 && SUFFIX_A <= currentSlot {
          hw.SetBootLun(1);
        }
      }
    }

    /** SetActiveSlot. */
    method SetActiveSlot(newSlot: Name, resetSuccessBit: bool, setSuccessBit: bool) returns (ok: bool)
      requires Valid() && |newSlot| == 2
      modifies this`headNode, hw, table
      ensures Valid() && |hw.luns| == |old(hw.luns)| && (old(hw.faulted) ==> hw.faulted)
      ensures Running(old(hw.luns), old(hw.log), hw.luns, hw.log)
      ensures ok == SetActive(old(table.ptnEntries), newSlot, resetSuccessBit, setSuccessBit).ok
      ensures table.ptnEntries == SetActive(old(table.ptnEntries), newSlot, resetSuccessBit, setSuccessBit).mem
      ensures !hw.faulted ==>
        hw.bootLun == if ok && hw.ufs && old(hw.bootLun) in {1, 2} then (if newSlot == [0x5F, 0x61] then 1 else 2)
                      else old(hw.bootLun)
      ensures old(AtRest()) && !hw.faulted ==>
        AtRest() && Moved(old(hw.luns), old(hw.log), old(table.ptnEntries), hw.luns, hw.log, table.ptnEntries)
    {
      hide Running, GetActive, Switched, Marked, Elected, Moved, InStep, WellFormed, WellNamed, IsPairList, ByLun,
           BlanksZero,
           SameLuns, Find;
      ghost var luns0, log0, mem0, rest := hw.luns, hw.log, table.ptnEntries, AtRest();
      GetActiveHasBoot(mem0);
      GetActiveGuids(mem0);
      BootNames();
      var currentSlot;
      ok, currentSlot := GetActiveSlot();
      if !ok {
        return;
      }
      var index := GetBootPartitionEntry(newSlot);
      SuffixOrMissing(table.ptnEntries, newSlot);
      if index == INVALID_PTN {
        return false;
      }
      ghost var luns1, log1, mem1 := hw.luns, hw.log, table.ptnEntries;
      ElectSlots(newSlot, resetSuccessBit, setSuccessBit);
      ghost var luns2, log2, mem2 := hw.luns, hw.log, table.ptnEntries;
      RunningNext(luns0, log0, luns1, log1, luns2, log2);
      if currentSlot <= newSlot {
        MatchBootLun(currentSlot);
      } else {
        SwitchTo(newSlot);
        RunningNext(luns0, log0, luns2, log2, hw.luns, hw.log);
      }
      if rest && !hw.faulted {
        MovedNext(luns0, log0, mem0, luns1, log1, mem1, luns2, log2, mem2);
        if !(currentSlot <= newSlot) {
          MovedNext(luns0, log0, mem0, luns2, log2, mem2, hw.luns, hw.log, table.ptnEntries);
        }
      }
    }

    /** The edits of SetActiveSlot to the two boot entries, and their write-back. */
    method ElectSlots(newSlot: Name, resetSuccessBit: bool, setSuccessBit: bool)
      requires Valid() && IsSuffix(newSlot) && HasBoot(table.ptnEntries)
      modifies hw`luns, hw`faulted, hw`log, table
      ensures Valid() && |hw.luns| == |old(hw.luns)| && (old(hw.faulted) ==> hw.faulted)
      ensures Running(old(hw.luns), old(hw.log), hw.luns, hw.log)
      ensures table.ptnEntries == Elected(old(table.ptnEntries), newSlot, resetSuccessBit, setSuccessBit)
      ensures old(AtRest()) && !hw.faulted ==>
        AtRest() && Moved(old(hw.luns), old(hw.log), old(table.ptnEntries), hw.luns, hw.log, table.ptnEntries)
    {
      hide Running, Elected, Moved, InStep, WellFormed, WellNamed, IsPairList, ByLun, BlanksZero, SameLuns, ChangedOnly,
           HasBoot;
      EditSlots(newSlot, resetSuccessBit, setSuccessBit);
      Update(Attributes);
    }

    /** The edits alone. */
    method EditSlots(newSlot: Name, resetSuccessBit: bool, setSuccessBit: bool)
      requires Valid() && IsSuffix(newSlot) && HasBoot(table.ptnEntries)
      modifies table`ptnEntries
      ensures Valid() && table.ptnEntries == Elected(old(table.ptnEntries), newSlot, resetSuccessBit, setSuccessBit)
      ensures ChangedOnly(old(table.ptnEntries), table.ptnEntries, Attributes)
    {
      hide Promote, Demote, WellFormed, WellNamed, IsPairList, ByLun, SameLuns, Find, Names;
      ghost var mem0 := table.ptnEntries;
      BootEntryNamed(mem0, newSlot);
      var alternateSlot := if SUFFIX_A <= newSlot then SUFFIX_B else SUFFIX_A;
      var i := GetBootPartitionEntry(newSlot);
      var a := Promote(table.ptnEntries[i].attributes, resetSuccessBit, setSuccessBit);
      NamesOfUpdate(mem0, i, a);
      SetAttributesChanges(mem0, mem0, i, a);
      Assign(i, a);
      ghost var mem1 := table.ptnEntries;
      SameNames(mem0, mem1);
      BootEntryNamed(mem1, alternateSlot);
      var j := GetBootPartitionEntry(alternateSlot);
      SetAttributesChanges(mem0, mem1, j, Demote(mem1[j].attributes));
      Assign(j, Demote(table.ptnEntries[j].attributes));
    }
  }

  /** A suffix of two characters that is neither _a nor _b names no boot partition. */
  lemma SuffixOrMissing(mem: seq<PartitionEntry>, suffix: Name)
    requires |suffix| == 2 && HasBoot(mem)
    ensures IsSuffix(suffix) == (BootIndex(mem, suffix) < |mem|)
  {
    BootNames();
  }

  lemma PairPositions(mem0: seq<PartitionEntry>, mem: seq<PartitionEntry>, x: Name, s: Name, p: nat, q: nat)
    requires Names(mem) == Names(mem0) && p < |mem| && q < |mem|
    requires mem[p].name == x + OtherSuffix(s) && mem[q].name == x + s
    ensures AreThePair(Names(mem0), x, s, p, q)
  {
    assert Names(mem)[p] == mem[p].name && Names(mem)[q] == mem[q].name;
  }

  /** The two names the search is for. */
  lemma NamesBuilt(x: Name, s: Name)
    requires IsSuffix(s)
    ensures Appended(x, s) == (if FitsBuffer(x) then x + s else x)
    ensures Appended(x, OtherSuffix(s)) == (if FitsBuffer(x) then x + OtherSuffix(s) else x)
  {}

  lemma PairPresent(mem0: seq<PartitionEntry>, mem: seq<PartitionEntry>, x: Name, s: Name) returns (p: nat, q: nat)
    requires Names(mem) == Names(mem0) && IsPairBase(Names(mem0), x) && IsSuffix(s)
    ensures AreThePair(Names(mem0), x, s, p, q)
  {
    ListPair(Names(mem0), x, s);
    FindPresent(Names(mem0), x + OtherSuffix(s));
    FindPresent(Names(mem0), x + s);
    p, q := Find(Names(mem0), x + OtherSuffix(s)), Find(Names(mem0), x + s);
  }

  lemma SwitchedForLuns(mem: seq<PartitionEntry>, done: seq<Name>)
    ensures forall i :: 0 <= i < |mem| ==> SwitchedFor(mem, done)[i].lun == mem[i].lun
  {}

  /** A change of one field keeps what the table relies on. */
  lemma ChangedKeepsTable(m: seq<PartitionEntry>, n: seq<PartitionEntry>, bak: seq<PartitionEntry>, kind: UpdateType)
    requires ChangedOnly(m, n, kind) && SameLuns(m, bak) && ByLun(m)
    ensures SameLuns(n, bak) && ByLun(n) && forall i :: 0 <= i < |n| ==> n[i].lun == m[i].lun
  {}

  lemma ListStart(names: seq<Name>)
    ensures ListBefore([], names, 0)
  {}

  lemma ListTestFast(names: seq<Name>, i: nat, j: nat)
    requires i < |names| && j < |names| && names[i] != []
    ensures ListTest(names, i, j)
         == (names[j] != [] && Twins(names[i], names[j])
             && (Contains(names[i], SUFFIX_A) || Contains(names[i], SUFFIX_B)))
  {}

  lemma EmptyTwin(names: seq<Name>, i: nat)
    requires i < |names| && names[i] == []
    ensures forall j :: i < j < |names| ==> !ListTest(names, i, j)
  {}

  lemma InactiveSuffix(s: Name)
    requires IsSuffix(s)
    ensures (if SUFFIX_A <= s then SUFFIX_B else SUFFIX_A) == OtherSuffix(s)
  {
    BootNames();
  }

  /** A listed base has both of its entries. */
  lemma ListPair(names: seq<Name>, x: Name, s: Name)
    requires IsPairBase(names, x) && IsSuffix(s)
    ensures x + s in names && x + OtherSuffix(s) in names && x + s != x + OtherSuffix(s)
    ensures IsSlotName(x + s) && IsSlotName(x + OtherSuffix(s))
  {
    BootNames();
    TwoSlots(s, s, s);
    SuffixParts(x, s);
    SuffixParts(x, OtherSuffix(s));
    assert (x + s)[|x|..] == s && (x + OtherSuffix(s))[|x|..] == OtherSuffix(s);
  }

  lemma NotYetDone(list: seq<Name>, k: nat)
    requires NoDuplicates(list) && k < |list|
    ensures list[k] !in list[..k]
  {}

  lemma MixedKeeps(mem: seq<PartitionEntry>, full: seq<PartitionEntry>, mixed: seq<PartitionEntry>)
    requires ChangedOnly(mem, full, Guids) && BlanksZero(mem) && BlanksZero(full) && Names(full) == Names(mem)
    requires |mixed| == |mem| && forall i :: 0 <= i < |mem| ==> mixed[i] == mem[i] || mixed[i] == full[i]
    ensures Names(mixed) == Names(mem) && BlanksZero(mixed) && ChangedOnly(mem, mixed, Guids)
  {
    forall i | 0 <= i < |mem|
      ensures mixed[i].name == mem[i].name
    {
      assert Names(full)[i] == Names(mem)[i];
    }
  }

  lemma SwitchedForKeeps(mem: seq<PartitionEntry>, done: seq<Name>)
    requires BlanksZero(mem) && WellNamed(Names(mem))
    ensures Names(SwitchedFor(mem, done)) == Names(mem) && BlanksZero(SwitchedFor(mem, done))
    ensures ChangedOnly(mem, SwitchedFor(mem, done), Guids)
  {
    SwitchedChanges(mem);
    hide WellNamed, BlanksZero, ChangedOnly, Partner, Names, Swaps;
    MixedKeeps(mem, Switched(mem), SwitchedFor(mem, done));
  }

  lemma HigherZero(a: bv64, b: bv64)
    ensures !Higher(a, 0) ==> Higher(b, a) == Higher(b, 0)
  {}

  /** The boot entries carry a name, so their GUID is not blank. */
  lemma BootEntryNamed(mem: seq<PartitionEntry>, suffix: Name)
    requires BlanksZero(mem)
    ensures var i := BootIndex(mem, suffix); i < |mem| ==> !Blank(mem[i].typeGuid)
  {}

  lemma FindHere(names: seq<Name>, n: Name, i: nat)
    requires i < |names| && names[i] == n && i <= Find(names, n)
    ensures i == Find(names, n)
  {}

  lemma FindBeyond(names: seq<Name>, n: Name, i: nat)
    requires i < |names| && names[i] != n && i <= Find(names, n)
    ensures i + 1 <= Find(names, n)
  {}

  lemma SlotLikeTest(x: Name, n: Name)
    ensures SlotLike(x, n)
         == (x <= n && |n| >= |x| + 2 && n[|x|] == 0x5F && (n[|x| + 1] == 0x61 || n[|x| + 1] == 0x62))
  {
    if |n| >= |x| + 2 {
      assert n[..|x| + 2] == n[..|x|] + [n[|x|], n[|x| + 1]];
    }
  }

  lemma {:induction false} SlotCountGrows(x: Name, names: seq<Name>, i: nat)
    requires i <= |names|
    ensures SlotCount(x, names[..i]) <= SlotCount(x, names)
    decreases |names|
  {
    if i < |names| {
      var n := |names| - 1;
      assert names[..n][..i] == names[..i];
      SlotCountGrows(x, names[..n], i);
    } else {
      assert names[..i] == names;
    }
  }

  lemma SettledInStep(luns0: seq<LunImage>, luns: seq<LunImage>, log0: seq<DiskWrite>, log: seq<DiskWrite>,
                      mem: seq<PartitionEntry>)
    requires Settled(luns0, luns, log0, log, mem)
    ensures InStep(luns, mem)
  {}
}
