/** UpdatePartitionEntries: the in-memory table as read back from the primary GPTs. */
module Reload {
  import opened Gpt
  import opened EntryWalk
  import opened GptDisk
  import opened Storage
  import opened PartitionTable

  // ---------- Slots by rank ----------

  /** How many of the first `n` entries take a slot of this LUN. */
  function Rank(mem: seq<PartitionEntry>, n: nat, lun: nat): (r: nat)
    requires n <= |mem|
    ensures r <= n
    decreases n
  {
    if n == 0 then 0 else Rank(mem, n - 1, lun) + if Skipped(mem[n - 1], lun) then 0 else 1
  }

  /** Agreement of a table with memory, said entry by entry: the k-th entry of the LUN agrees
      with slot k. */
  lemma {:induction false} AgreesByRank(table: seq<bv8>, mem: seq<PartitionEntry>, n: nat, lun: nat, kind: UpdateType)
    requires |table| == TABLE_SIZE && n <= |mem| <= MAX_ENTRIES
    ensures Agrees(table, mem[n..], Rank(mem, n, lun), lun, kind)
       <==> forall i :: n <= i < |mem| && !Skipped(mem[i], lun) ==> SlotAgrees(table, Rank(mem, i, lun), mem[i], kind)
    decreases |mem| - n
  {
    hide SlotAgrees, Skipped;
    if n < |mem| {
      assert mem[n..][1..] == mem[n + 1..] && mem[n..][0] == mem[n];
      AgreesByRank(table, mem, n + 1, lun, kind);
    }
  }

  // ---------- Loading ----------

  /** A block-I/O handle of a LUN: without a partition record, or that of a partition slot. */
  datatype Handle = NoRecord(lun: nat) | Record(lun: nat, slot: nat)

  function CharAt(bytes: seq<bv8>, i: nat): bv16
    requires 2 * i + 1 < |bytes|
  {
    (bytes[2 * i] as bv16) | ((bytes[2 * i + 1] as bv16) << 8)
  }

  /** A PartitionName field up to its NUL. */
  function NameFrom(bytes: seq<bv8>, i: nat): Name
    decreases |bytes| - 2 * i
  {
    if 2 * i + 1 >= |bytes| || CharAt(bytes, i) == 0 then [] else [CharAt(bytes, i)] + NameFrom(bytes, i + 1)
  }

  const NO_RECORD: seq<bv8> := seq(32, _ => 0)

  /** The entry in slot `p` of a table, as the firmware's partition driver presents it. */
  function EntryAt(table: seq<bv8>, p: nat, lun: nat): PartitionEntry
    requires |table| == TABLE_SIZE && p < MAX_ENTRIES
  {
    PartitionEntry(SlotGuid(table, p), table[ENTRY_SIZE * p + 16..ENTRY_SIZE * p + 48],
                   Word64(AttributeBytes(table, p)),
                   NameFrom(table[ENTRY_SIZE * p + 56..ENTRY_SIZE * (p + 1)], 0), lun)
  }

  function BlankEntry(lun: nat): PartitionEntry {
    PartitionEntry(seq(16, _ => 0), NO_RECORD, 0, [], lun)
  }

  predicate Listable(handles: seq<Handle>, luns: seq<LunImage>) {
    && |handles| <= MAX_ENTRIES
    && (forall i :: 0 <= i < |luns| ==> WellFormed(luns[i]))
    && (forall i :: 0 <= i < |handles| ==>
        handles[i].lun < |luns| && (handles[i].Record? ==> handles[i].slot < MAX_ENTRIES))
  }

  function LoadOne(h: Handle, luns: seq<LunImage>): PartitionEntry
    requires h.lun < |luns| && WellFormed(luns[h.lun]) && (h.Record? ==> h.slot < MAX_ENTRIES)
  {
    if h.Record? then EntryAt(Primary(luns[h.lun]).table, h.slot, h.lun) else BlankEntry(h.lun)
  }

  function Loaded(handles: seq<Handle>, luns: seq<LunImage>): (mem: seq<PartitionEntry>)
    requires Listable(handles, luns)
    ensures |mem| == |handles|
  {
    seq(|handles|, i requires 0 <= i < |handles| => LoadOne(handles[i], luns))
  }

  /** Disks the library can work on: both copies of every LUN valid, the partition handles listed
      LUN by LUN in slot order without a gap, and the backup copy in agreement with them. */
  ghost predicate DiskReady(handles: seq<Handle>, luns: seq<LunImage>) {
    && Listable(handles, luns) && AllValid(luns)
    && var mem := Loaded(handles, luns);
    && ByLun(mem)
    && (forall i :: 0 <= i < |handles| && handles[i].Record? ==>
             !Blank(mem[i].typeGuid) && handles[i].slot == Rank(mem, i, handles[i].lun))
       && forall l :: 0 <= l < |luns| ==> Agrees(Backup(luns[l]).table, mem, 0, l, All)
  }

  lemma LoadedSlots(handles: seq<Handle>, luns: seq<LunImage>, l: nat, i: nat)
    requires DiskReady(handles, luns) && l < |luns| && i < |handles|
    requires !Skipped(Loaded(handles, luns)[i], l)
    ensures SlotAgrees(Primary(luns[l]).table, Rank(Loaded(handles, luns), i, l), Loaded(handles, luns)[i], All)
  {
    hide Primary, Backup, Word64, LongLongBytes, NameFrom, WholeBlocks, CrcValid, Agrees;
    var mem := Loaded(handles, luns);
    assert handles[i].Record?;
    var table := Primary(luns[l]).table;
    LongLongRoundTrip(AttributeBytes(table, handles[i].slot), mem[i].attributes);
  }

  /** Loading puts memory in step with the disk. */
  lemma LoadedInStep(handles: seq<Handle>, luns: seq<LunImage>)
    requires DiskReady(handles, luns)
    ensures InStep(luns, Loaded(handles, luns))
  {
    hide Primary, Backup, WholeBlocks, CrcValid, SlotAgrees, Skipped, Rank, Agrees;
    var mem := Loaded(handles, luns);
    forall l: nat | l < |luns| ensures LunInStep(luns[l], mem, l) {
      var table := Primary(luns[l]).table;
      forall i: nat | i < |mem| && !Skipped(mem[i], l) ensures SlotAgrees(table, Rank(mem, i, l), mem[i], All) {
        LoadedSlots(handles, luns, l, i);
      }
      AgreesByRank(table, mem, 0, l, All);
      RankZero(mem, l);
    }
  }

  lemma RankZero(mem: seq<PartitionEntry>, lun: nat)
    ensures Rank(mem, 0, lun) == 0 && mem[0..] == mem
  {}

  // ---------- Reading back what was written ----------

  /** The same partitions in the same places, whatever their type GUIDs and attributes. */
  ghost predicate SameIdentity(m: seq<PartitionEntry>, n: seq<PartitionEntry>) {
    && |m| == |n|
    && forall i :: 0 <= i < |m| ==>
         m[i].name == n[i].name && m[i].lun == n[i].lun && m[i].record == n[i].record
           && Blank(m[i].typeGuid) == Blank(n[i].typeGuid)
         && (Blank(m[i].typeGuid) ==> m[i] == n[i])
  }

  /** Only type GUIDs and attributes changed in the primary entry arrays. */
  ghost predicate RecordsKept(before: seq<LunImage>, after: seq<LunImage>) {
    && |before| == |after|
    && forall l :: 0 <= l < |before| ==>
         WellFormed(before[l]) && WellFormed(after[l])
           && OnlyFields(Primary(before[l]).table, Primary(after[l]).table, 0, All)
  }

  lemma {:induction false} RankSame(m: seq<PartitionEntry>, n: seq<PartitionEntry>, i: nat, lun: nat)
    requires SameIdentity(m, n) && i <= |m|
    ensures Rank(m, i, lun) == Rank(n, i, lun)
    decreases i
  {
    if i > 0 {
      RankSame(m, n, i - 1, lun);
    }
  }

  lemma KeptRecord(t: seq<bv8>, u: seq<bv8>, p: nat)
    requires |t| == |u| == TABLE_SIZE && p < MAX_ENTRIES && OnlyFields(t, u, 0, All)
    ensures t[ENTRY_SIZE * p + 16..ENTRY_SIZE * p + 48] == u[ENTRY_SIZE * p + 16..ENTRY_SIZE * p + 48]
    ensures t[ENTRY_SIZE * p + 56..ENTRY_SIZE * (p + 1)] == u[ENTRY_SIZE * p + 56..ENTRY_SIZE * (p + 1)]
  {
    forall i: nat | 128 * p + 16 <= i < 128 * p + 48 ensures !MayWrite(i, 0, All) {
      FieldBytes(i, p, 16, 32);
    }
    forall i: nat | 128 * p + 56 <= i < 128 * (p + 1) ensures !MayWrite(i, 0, All) {
      FieldBytes(i, p, 56, 72);
    }
  }

  lemma ReadBackOne(handles: seq<Handle>, before: seq<LunImage>, after: seq<LunImage>, mem: seq<PartitionEntry>, i: nat)
    requires DiskReady(handles, before) && RecordsKept(before, after) && InStep(after, mem)
    requires SameIdentity(Loaded(handles, before), mem) && i < |handles|
    ensures LoadOne(handles[i], after) == mem[i]
  {
    hide Primary, Backup, Word64, LongLongBytes, NameFrom, WholeBlocks, CrcValid, Agrees, OnlyFields, SlotGuid;
    var h, old_ := handles[i], Loaded(handles, before);
    if h.Record? {
      var t, u := Primary(before[h.lun]).table, Primary(after[h.lun]).table;
      KeptRecord(t, u, h.slot);
      RankSame(old_, mem, i, h.lun);
      assert LunInStep(after[h.lun], mem, h.lun);
      RankZero(mem, h.lun);
      AgreesByRank(u, mem, 0, h.lun, All);
      assert SlotAgrees(u, h.slot, mem[i], All);
      LongLongRoundTrip(AttributeBytes(u, h.slot), mem[i].attributes);
    }
  }

  /** A table that is in step with the disk is what the next boot loads, from a disk it can work
      on again. */
  lemma ReloadReadsBack(handles: seq<Handle>, before: seq<LunImage>, after: seq<LunImage>, mem: seq<PartitionEntry>)
    requires DiskReady(handles, before) && RecordsKept(before, after) && InStep(after, mem)
    requires SameIdentity(Loaded(handles, before), mem)
    ensures DiskReady(handles, after) && Loaded(handles, after) == mem
  {
    hide Primary, Backup, WholeBlocks, CrcValid, Agrees, OnlyFields, LoadOne, Rank;
    forall i | 0 <= i < |handles| ensures LoadOne(handles[i], after) == mem[i] {
      ReadBackOne(handles, before, after, mem, i);
    }
    assert Loaded(handles, after) == mem;
    forall i | 0 <= i < |handles|
      ensures Rank(mem, i, handles[i].lun) == Rank(Loaded(handles, before), i, handles[i].lun)
    {
      RankSame(Loaded(handles, before), mem, i, handles[i].lun);
    }
    InStepValid(after, mem);
  }

  lemma FlushKeepsRecords(before: seq<LunImage>, after: seq<LunImage>, mem: seq<PartitionEntry>, kind: UpdateType)
    requires |mem| <= MAX_ENTRIES && AllFlushed(before, after, mem, kind, |before|)
    ensures RecordsKept(before, after)
  {
    hide FlushLun, FlushCopy, Walk, Primary, Backup, WholeBlocks, CrcValid, MayWrite;
    forall l: nat | l < |before|
      ensures WellFormed(before[l]) && WellFormed(after[l])
           && OnlyFields(Primary(before[l]).table, Primary(after[l]).table, 0, All)
    {
      FlushLunCopies(before[l], mem, l, kind);
      FlushCopyValid(Primary(before[l]), mem, l, kind);
      OnlyFieldsAll(Primary(before[l]).table, Primary(after[l]).table, kind);
    }
  }

  lemma OnlyFieldsAll(t: seq<bv8>, u: seq<bv8>, kind: UpdateType)
    requires OnlyFields(t, u, 0, kind)
    ensures OnlyFields(t, u, 0, All)
  {
    forall i | 0 <= i < |t| && !MayWrite(i, 0, All) ensures t[i] == u[i] {
      assert !MayWrite(i, 0, kind);
    }
  }

  lemma RecordsKeptTransitive(a: seq<LunImage>, b: seq<LunImage>, c: seq<LunImage>)
    requires RecordsKept(a, b) && RecordsKept(b, c)
    ensures RecordsKept(a, c)
  {
    hide Primary, WholeBlocks;
    forall l: nat | l < |a| ensures OnlyFields(Primary(a[l]).table, Primary(c[l]).table, 0, All) {
      OnlyFieldsTransitive(Primary(a[l]).table, Primary(b[l]).table, Primary(c[l]).table, 0, 0, All);
    }
  }

  lemma ChangedKeepsIdentity(bak: seq<PartitionEntry>, mem: seq<PartitionEntry>, kind: UpdateType)
    requires ChangedOnly(bak, mem, kind)
    ensures SameIdentity(bak, mem)
  {}
}
