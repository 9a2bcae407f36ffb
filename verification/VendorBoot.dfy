/** The vendor boot image of mkbootimg.py: its header, and the ramdisk table of version 4, whose
    builder refuses names used before and keeps the ramdisks end to end. */
module VendorBoot {
  import opened Arithmetic
  import opened BitField
  import opened Packing
  import opened BootImage

  const VENDOR_BOOT_MAGIC: Bytes := [0x56, 0x4E, 0x44, 0x52, 0x42, 0x4F, 0x4F, 0x54]
  const VENDOR_BOOT_ARGS_SIZE := 2048
  const VENDOR_BOOT_IMAGE_HEADER_V3_SIZE := 2112
  const VENDOR_BOOT_IMAGE_HEADER_V4_SIZE := 2128
  const VENDOR_RAMDISK_NAME_SIZE := 32
  const VENDOR_RAMDISK_TABLE_ENTRY_BOARD_ID_SIZE := 16
  const VENDOR_RAMDISK_TABLE_ENTRY_V4_SIZE := 108

  /** b'default' */
  const DEFAULT_NAME: Bytes := [0x64, 0x65, 0x66, 0x61, 0x75, 0x6C, 0x74]

  /** The files that can be opened, by path. */
  type Files = map<string, Bytes>

  datatype Entry = Entry(path: string, size: nat, offset: nat, kind: int, name: Bytes, boardId: seq<int>)

  function RStrip(name: Bytes): Bytes
    decreases |name|
  {
    if name == [] || name[|name| - 1] != 0 then name else RStrip(name[..|name| - 1])
  }

  /** The name without the zeros at its end. */
  lemma {:induction false} RStripExact(name: Bytes)
    ensures var n := |RStrip(name)|;
            && n <= |name| && RStrip(name) == name[..n] && (forall i :: n <= i < |name| ==> name[i] == 0)
            && (n > 0 ==> name[n - 1] != 0)
    decreases |name|
  {
    if name != [] && name[|name| - 1] == 0 {
      RStripExact(name[..|name| - 1]);
    }
  }

  predicate BoardIdOk(id: seq<int>) {
    |id| == VENDOR_RAMDISK_TABLE_ENTRY_BOARD_ID_SIZE && forall i :: 0 <= i < |id| ==> 0 <= id[i] < 0x1_0000_0000
  }

  // ---------- Tiling ----------

  function TotalSize(entries: seq<Entry>): nat
    decreases |entries|
  {
    if entries == [] then 0 else TotalSize(entries[..|entries| - 1]) + entries[|entries| - 1].size
  }

  /** Every entry starts where those before it end, and is as long as its file. */
  ghost predicate Tiled(entries: seq<Entry>, files: Files) {
    forall i :: 0 <= i < |entries| ==>
      && entries[i].offset == TotalSize(entries[..i])
      && entries[i].path in files && entries[i].size == |files[entries[i].path]|
      && BoardIdOk(entries[i].boardId)
  }

  ghost predicate NamesDistinct(entries: seq<Entry>, names: set<Bytes>) {
    && (forall i :: 0 <= i < |entries| ==> RStrip(entries[i].name) in names && RStrip(entries[i].name) != DEFAULT_NAME)
    && forall i, j :: 0 <= i < j < |entries| ==> RStrip(entries[i].name) != RStrip(entries[j].name)
  }

  /** The ramdisk section: the files one after the other. */
  function Ramdisks(entries: seq<Entry>, files: Files): Bytes
    decreases |entries|
  {
    if entries == [] then [] else
      Ramdisks(entries[..|entries| - 1], files)
      + var last := entries[|entries| - 1]; if last.path in files then files[last.path] else []
  }

  lemma {:induction false} RamdisksSize(entries: seq<Entry>, files: Files)
    requires Tiled(entries, files)
    ensures |Ramdisks(entries, files)| == TotalSize(entries)
    decreases |entries|
  {
    if entries != [] {
      TiledPrefix(entries, files);
      RamdisksSize(entries[..|entries| - 1], files);
    }
  }

  lemma TiledPrefix(entries: seq<Entry>, files: Files)
    requires Tiled(entries, files) && entries != []
    ensures Tiled(entries[..|entries| - 1], files)
  {
    var before := entries[..|entries| - 1];
    forall i | 0 <= i < |before|
      ensures before[..i] == entries[..i]
    {
    }
  }

  lemma {:induction false} RamdisksPrefix(entries: seq<Entry>, files: Files, k: nat)
    requires k <= |entries|
    ensures Ramdisks(entries[..k], files) <= Ramdisks(entries, files)
    decreases |entries|
  {
    if k == |entries| {
      assert entries[..k] == entries;
    } else {
      assert entries[..|entries| - 1][..k] == entries[..k];
      RamdisksPrefix(entries[..|entries| - 1], files, k);
    }
  }

  lemma TileEnds(entries: seq<Entry>, files: Files, i: nat)
    requires Tiled(entries, files) && i < |entries|
    ensures entries[i].path in files && entries[i].size == |files[entries[i].path]|
            && entries[i].offset == TotalSize(entries[..i])
    ensures entries[i].offset + entries[i].size == if i + 1 < |entries| then entries[i + 1].offset
            else TotalSize(entries)
    ensures Tiled(entries[..i], files)
  {
    assert entries[..i + 1][..i] == entries[..i];
    if i + 1 == |entries| {
      assert entries[..i + 1] == entries;
    }
    forall k | 0 <= k < i
      ensures entries[..i][..k] == entries[..k]
    {
    }
  }

  lemma RamdisksNext(entries: seq<Entry>, i: nat, files: Files)
    requires Tiled(entries, files) && i < |entries|
    ensures entries[i].path in files
            && Ramdisks(entries[..i + 1], files) == Ramdisks(entries[..i], files) + files[entries[i].path]
  {
    assert entries[..i + 1][..i] == entries[..i];
  }

  /** Cutting an entry's bytes out of the section gives back its file; entry after entry the
      section is covered without a gap. */
  lemma RamdiskSlice(entries: seq<Entry>, files: Files, i: nat)
    requires Tiled(entries, files) && i < |entries|
    ensures entries[i].path in files && Stands(Ramdisks(entries, files), entries[i].offset, files[entries[i].path])
    ensures entries[i].offset + entries[i].size == if i + 1 < |entries| then entries[i + 1].offset
            else TotalSize(entries)
    ensures i == 0 ==> entries[i].offset == 0
  {
    hide Tiled, Ramdisks;
    TileEnds(entries, files, i);
    RamdisksSize(entries[..i], files);
    RamdisksNext(entries, i, files);
    RamdisksPrefix(entries, files, i + 1);
    StandsLast(Ramdisks(entries[..i], files), files[entries[i].path]);
    StandsLonger(Ramdisks(entries[..i + 1], files), Ramdisks(entries, files), entries[i].offset,
                 files[entries[i].path]);
  }

  lemma StandsLast(head: Bytes, s: Bytes)
    ensures Stands(head + s, |head|, s)
  {}

  lemma StandsLonger(short: Bytes, long: Bytes, at: int, s: Bytes)
    requires short <= long && Stands(short, at, s)
    ensures Stands(long, at, s)
  {
    PrefixSlice(short, long, at, at + |s|);
  }

  // ---------- The table ----------

  function IdFields(id: seq<int>): (r: seq<Field>)
    ensures |r| == |id|
  {
    seq(|id|, i requires 0 <= i < |id| => U32(id[i]))
  }

  function EntryFields(e: Entry): seq<Field> {
    [U32(e.size), U32(e.offset), U32(e.kind), Text(VENDOR_RAMDISK_NAME_SIZE, e.name)] + IdFields(e.boardId)
  }

  function TableFields(entries: seq<Entry>): seq<Field>
    decreases |entries|
  {
    if entries == [] then [] else TableFields(entries[..|entries| - 1]) + EntryFields(entries[|entries| - 1])
  }

  lemma {:induction false} IdSize(id: seq<int>)
    ensures Size(IdFields(id)) == 4 * |id|
    decreases |id|
  {
    if id != [] {
      IdSize(id[1..]);
      assert IdFields(id)[1..] == IdFields(id[1..]);
    }
  }

  lemma EntrySize(e: Entry)
    requires BoardIdOk(e.boardId)
    ensures Size(EntryFields(e)) == VENDOR_RAMDISK_TABLE_ENTRY_V4_SIZE
    ensures Size(EntryFields(e)[..0]) == 0 && Size(EntryFields(e)[..1]) == 4
  {
    var fs := EntryFields(e);
    IdSize(e.boardId);
    var three, rest := fs[..3], [fs[3]] + IdFields(e.boardId);
    assert fs == three + rest && three == [fs[0], fs[1], fs[2]] && fs[..1] == [fs[0]] && fs[..0] == [];
    SizeAppend(three, rest);
    SizeAppend([fs[3]], IdFields(e.boardId));
    SizeOfThree(fs[0], fs[1], fs[2]);
    SizeOfThree(fs[3], fs[3], fs[3]);
  }

  lemma {:induction false} TableSize(entries: seq<Entry>, files: Files)
    requires Tiled(entries, files)
    ensures Size(TableFields(entries)) == VENDOR_RAMDISK_TABLE_ENTRY_V4_SIZE * |entries|
    decreases |entries|
  {
    hide EntryFields;
    if entries != [] {
      var before, last := entries[..|entries| - 1], entries[|entries| - 1];
      TiledPrefix(entries, files);
      TableSize(before, files);
      SizeAppend(TableFields(before), EntryFields(last));
      EntrySize(last);
    }
  }

  /** What the table says of entry `i`. */
  predicate Records(table: Bytes, i: nat, size: nat, offset: nat) {
    108 * i + 8 <= |table| && Value(table[108 * i..108 * i + 4]) == size
      && Value(table[108 * i + 4..108 * i + 8]) == offset
  }

  lemma EntryRecords(e: Entry)
    requires BoardIdOk(e.boardId) && AllPack(EntryFields(e))
    ensures Records(PackAll(EntryFields(e)), 0, e.size, e.offset)
  {
    hide PackAll, Pack, Value;
    var fs := EntryFields(e);
    EntrySize(e);
    FieldAt(fs, 0);
    FieldAt(fs, 1);
    IntegerReadsBack(fs[0]);
    IntegerReadsBack(fs[1]);
  }

  lemma RecordsShift(head: Bytes, tail: Bytes, i: nat, size: nat, offset: nat)
    requires |head| == 108 * i && Records(tail, 0, size, offset)
    ensures Records(head + tail, i, size, offset)
  {
    hide Value;
    Shifted(head, tail, 0, 4);
    Shifted(head, tail, 4, 8);
  }

  lemma RecordsLonger(short: Bytes, tail: Bytes, i: nat, size: nat, offset: nat)
    requires Records(short, i, size, offset)
    ensures Records(short + tail, i, size, offset)
  {
    hide Value;
    PrefixSlice(short, short + tail, 108 * i, 108 * i + 4);
    PrefixSlice(short, short + tail, 108 * i + 4, 108 * i + 8);
  }

  /** Entry `i` of the table records the size and the place of ramdisk `i`. */
  lemma {:induction false} TableRecords(entries: seq<Entry>, files: Files, i: nat)
    requires Tiled(entries, files) && AllPack(TableFields(entries)) && i < |entries|
    ensures Records(PackAll(TableFields(entries)), i, entries[i].size, entries[i].offset)
    decreases |entries|
  {
    var before, last := entries[..|entries| - 1], entries[|entries| - 1];
    var a, b := TableFields(before), EntryFields(last);
    TiledPrefix(entries, files);
    PackParts(a, b);
    hide Records, PackAll, EntryFields, Tiled;
    PackAppend(a, b);
    if i < |before| {
      TableRecords(before, files, i);
      RecordsLonger(PackAll(a), PackAll(b), i, entries[i].size, entries[i].offset);
    } else {
      TableSize(before, files);
      LastId(entries, files);
      EntryRecords(last);
      RecordsShift(PackAll(a), PackAll(b), i, last.size, last.offset);
    }
  }

  lemma LastId(entries: seq<Entry>, files: Files)
    requires Tiled(entries, files) && entries != []
    ensures BoardIdOk(entries[|entries| - 1].boardId)
  {}

  lemma PackParts(a: seq<Field>, b: seq<Field>)
    requires AllPack(a + b)
    ensures AllPack(a) && AllPack(b)
  {
    forall i | 0 <= i < |a| ensures Packs(a[i]) {
      assert (a + b)[i] == a[i];
    }
    forall i | 0 <= i < |b| ensures Packs(b[i]) {
      assert (a + b)[|a| + i] == b[i];
    }
  }

  // ---------- The builder ----------

  lemma TiledNext(entries: seq<Entry>, e: Entry, files: Files)
    requires Tiled(entries, files) && e.offset == TotalSize(entries) && e.path in files && e.size == |files[e.path]|
             && BoardIdOk(e.boardId)
    ensures Tiled(entries + [e], files) && TotalSize(entries + [e]) == TotalSize(entries) + e.size
  {
    hide BoardIdOk;
    var more := entries + [e];
    assert more[..|more| - 1] == entries;
    forall i | 0 <= i < |entries|
      ensures more[..i] == entries[..i]
    {
    }
  }

  lemma NamesMore(entries: seq<Entry>, names: set<Bytes>, name: Bytes)
    requires NamesDistinct(entries, names)
    ensures NamesDistinct(entries, names + {name})
  {}

  lemma NamesNext(entries: seq<Entry>, e: Entry, names: set<Bytes>)
    requires NamesDistinct(entries, names) && RStrip(e.name) !in names && RStrip(e.name) != DEFAULT_NAME
    ensures NamesDistinct(entries + [e], names + {RStrip(e.name)})
  {
    hide RStrip;
  }

  lemma IdOfZeros()
    ensures BoardIdOk(seq(VENDOR_RAMDISK_TABLE_ENTRY_BOARD_ID_SIZE, i => 0))
  {}

  lemma NoRamdisks(files: Files)
    ensures Ramdisks([], files) == []
  {}

  class VendorRamdiskTableBuilder {
    var entries: seq<Entry>
    var ramdiskTotalSize: nat
    var ramdiskNames: set<Bytes>

    ghost predicate Valid(files: Files)
      reads this
    {
      Tiled(entries, files) && ramdiskTotalSize == TotalSize(entries) && NamesDistinct(entries, ramdiskNames)
    }

    constructor ()
      ensures entries == [] && ramdiskTotalSize == 0 && ramdiskNames == {} && forall files :: Valid(files)
    {
      entries, ramdiskTotalSize, ramdiskNames := [], 0, {};
    }

    /** add_entry; false is an exception. The name stays taken when a later check fails. */
    method AddEntry(files: Files, path: string, kind: int, name: Bytes, boardId: Option<seq<int>>) returns (ok: bool)
      requires Valid(files)
      modifies this
      ensures Valid(files)
      ensures ok == (RStrip(name) != DEFAULT_NAME && RStrip(name) !in old(ramdiskNames)
                     && (boardId.Some? ==> BoardIdOk(boardId.value)) && path in files)
      ensures ramdiskNames == if RStrip(name) == DEFAULT_NAME then old(ramdiskNames)
              else old(ramdiskNames) + {RStrip(name)}
      ensures entries == if ok
        then old(entries) + [Entry(path, |files[path]|, TotalSize(old(entries)), kind, name,
                                   if boardId.Some? then boardId.value
                                   else seq(VENDOR_RAMDISK_TABLE_ENTRY_BOARD_ID_SIZE, i => 0))]
        else old(entries)
    {
      hide Tiled, NamesDistinct, TotalSize, BoardIdOk, RStrip;
      var stripped := RStrip(name);
      NamesMore(entries, ramdiskNames, stripped);
      IdOfZeros();
      if stripped == DEFAULT_NAME || stripped in ramdiskNames {
        return false;
      }
      ramdiskNames := ramdiskNames + {stripped};
      var id := if boardId.Some? then boardId.value else seq(VENDOR_RAMDISK_TABLE_ENTRY_BOARD_ID_SIZE, i => 0);
      if !BoardIdOk(id) || path !in files {
        return false;
      }
      ghost var before := entries;
      var size := |files[path]|;
      var entry := Entry(path, size, ramdiskTotalSize, kind, name, id);
      TiledNext(before, entry, files);
      entries := entries + [entry];
      ramdiskTotalSize := ramdiskTotalSize + size;
      NamesNext(before, entry, old(ramdiskNames));
      return true;
    }

    /** write_ramdisks_padded */
    method WriteRamdisksPadded(files: Files, fout: OutFile, alignment: nat)
      requires Valid(files) && PowerOfTwo(alignment)
      modifies fout
      ensures alignment > 0
      ensures fout.data == old(fout.data) + Ramdisks(entries, files)
                           + Zeros(Pad(|old(fout.data)| + TotalSize(entries), alignment))
    {
      hide Pad, PowerOfTwo, Ramdisks, Tiled, NamesDistinct, TotalSize;
      assert entries[..0] == [];
      NoRamdisks(files);
      for i := 0 to |entries|
        invariant fout.data == old(fout.data) + Ramdisks(entries[..i], files)
      {
        RamdisksNext(entries, i, files);
        fout.data := fout.data + files[entries[i].path];
      }
      assert entries[..|entries|] == entries;
      RamdisksSize(entries, files);
      fout.PadFile(alignment);
    }

    /** write_entries_padded; an integer that does not pack is an exception. */
    method WriteEntriesPadded(ghost files: Files, fout: OutFile, alignment: nat) returns (ok: bool)
      requires Valid(files) && PowerOfTwo(alignment)
      modifies fout
      ensures alignment > 0 && ok == AllPack(TableFields(entries))
      ensures ok ==> fout.data == old(fout.data) + PackAll(TableFields(entries))
                                  + Zeros(Pad(|old(fout.data)| + |PackAll(TableFields(entries))|, alignment))
    {
      hide Pad, PowerOfTwo, EntryFields, AllPack, PackAll, Tiled, NamesDistinct, TableFields;
      ok := true;
      assert entries[..0] == [];
      NoTable();
      assert entries[..|entries|] == entries;
      PositivePage(alignment);
      for i := 0 to |entries|
        invariant AllPack(TableFields(entries[..i])) && fout.data == old(fout.data) + PackAll(TableFields(entries[..i]))
      {
        ghost var done := TableFields(entries[..i]);
        ok := fout.WriteFields(EntryFields(entries[i]));
        if !ok {
          TableFails(entries, i);
          return;
        }
        PackAppend(done, EntryFields(entries[i]));
        TableNext(entries, i);
      }
      fout.PadFile(alignment);
    }
  }

  lemma NoTable()
    ensures TableFields([]) == [] && AllPack([]) && PackAll([]) == []
  {}

  lemma TableNext(entries: seq<Entry>, i: nat)
    requires i < |entries|
    ensures TableFields(entries[..i + 1]) == TableFields(entries[..i]) + EntryFields(entries[i])
  {
    assert entries[..i + 1][..i] == entries[..i];
  }

  lemma PositivePage(page: nat)
    requires PowerOfTwo(page)
    ensures page > 0
  {}

  lemma {:induction false} TableFails(entries: seq<Entry>, i: nat)
    requires i < |entries| && !AllPack(EntryFields(entries[i]))
    ensures !AllPack(TableFields(entries))
    decreases |entries|
  {
    hide EntryFields, Packs;
    var before, last := entries[..|entries| - 1], entries[|entries| - 1];
    if i < |before| {
      TableFails(before, i);
      LaterNotPack([], TableFields(before), EntryFields(last));
      assert [] + TableFields(before) + EntryFields(last) == TableFields(entries);
    } else {
      LaterNotPack(TableFields(before), EntryFields(last), []);
      assert TableFields(before) + EntryFields(last) + [] == TableFields(entries);
    }
  }

  // ---------- The image ----------

  datatype VendorArgs = VendorArgs(headerVersion: int, pagesize: nat, base: int, kernelOffset: int, ramdiskOffset: int,
                                   tagsOffset: int, dtbOffset: int, cmdline: Bytes, board: Bytes, ramdisk: File,
                                   dtb: File, bootconfig: File)

  /** The fields both versions have; `ramdiskSize` is that of the whole ramdisk section. */
  function V3Part(a: VendorArgs, ramdiskSize: nat): seq<Field> {
    [Text(8, VENDOR_BOOT_MAGIC), U32(a.headerVersion), U32(a.pagesize), U32(a.base + a.kernelOffset),
     U32(a.base + a.ramdiskOffset), U32(ramdiskSize), Text(VENDOR_BOOT_ARGS_SIZE, a.cmdline),
     U32(a.base + a.tagsOffset), Text(BOOT_NAME_SIZE, a.board),
     U32(if a.headerVersion > 3 then VENDOR_BOOT_IMAGE_HEADER_V4_SIZE else VENDOR_BOOT_IMAGE_HEADER_V3_SIZE),
     U32(FileSize(a.dtb)), U64(a.base + a.dtbOffset)]
  }

  function V4Part(a: VendorArgs, entries: nat): seq<Field> {
    [U32(entries * VENDOR_RAMDISK_TABLE_ENTRY_V4_SIZE), U32(entries), U32(VENDOR_RAMDISK_TABLE_ENTRY_V4_SIZE),
     U32(FileSize(a.bootconfig))]
  }

  function VendorFields(a: VendorArgs, entries: seq<Entry>): seq<Field> {
    if a.headerVersion > 3 then V3Part(a, TotalSize(entries)) + V4Part(a, |entries|) else V3Part(a, FileSize(a.ramdisk))
  }

  lemma V3PartSize(a: VendorArgs, ramdiskSize: nat)
    ensures Size(V3Part(a, ramdiskSize)) == VENDOR_BOOT_IMAGE_HEADER_V3_SIZE
            && Size(V3Part(a, ramdiskSize)[..9]) == 2096
  {
    hide FileSize, Size;
    var fs := V3Part(a, ramdiskSize);
    TakeNine(fs);
    TakeThree(fs[9..]);
    assert fs[9..][3..] == [] && fs[..9][9..] == [];
    TakeNine(fs[..9]);
    SizeOfNone();
  }

  lemma V4PartSize(a: VendorArgs, entries: nat)
    ensures Size(V4Part(a, entries)) == 16
  {
    hide FileSize;
    var fs := V4Part(a, entries);
    assert fs == [fs[0]] + [fs[1], fs[2], fs[3]];
    SizeCons(fs[0], [fs[1], fs[2], fs[3]]);
    SizeOfThree(fs[1], fs[2], fs[3]);
  }

  /** A vendor header is as long as it says, 2112 bytes in version 3 and 2128 in version 4. */
  lemma VendorHeaderSize(a: VendorArgs, entries: seq<Entry>)
    requires AllPack(VendorFields(a, entries))
    ensures var h := PackAll(VendorFields(a, entries));
            && |h| == (if a.headerVersion > 3 then VENDOR_BOOT_IMAGE_HEADER_V4_SIZE
                       else VENDOR_BOOT_IMAGE_HEADER_V3_SIZE)
            && Value(h[2096..2100]) == |h|
  {
    hide Pack, Value, PackAll, TotalSize, FileSize;
    var fs := VendorFields(a, entries);
    var size := if a.headerVersion > 3 then TotalSize(entries) else FileSize(a.ramdisk);
    V3PartSize(a, size);
    V4PartSize(a, |entries|);
    SizeAppend(V3Part(a, size), V4Part(a, |entries|));
    assert fs[..9] == V3Part(a, size)[..9];
    FieldAt(fs, 9);
    IntegerReadsBack(fs[9]);
  }

  function VendorSections(a: VendorArgs, entries: seq<Entry>, files: Files): seq<File>
    requires AllPack(TableFields(entries))
  {
    if a.headerVersion > 3
    then [Some(Ramdisks(entries, files)), a.dtb, Some(PackAll(TableFields(entries))), a.bootconfig]
    else [a.ramdisk, a.dtb]
  }

  predicate VendorOk(a: VendorArgs, entries: seq<Entry>) {
    && (a.headerVersion == 3 || a.headerVersion == 4) && (a.headerVersion == 3 ==> a.ramdisk.Some?)
    && FileSize(a.dtb) > 0 && AllPack(VendorFields(a, entries)) && AllPack(TableFields(entries))
  }

  function VendorImage(a: VendorArgs, entries: seq<Entry>, files: Files): Bytes
    requires PageSize(a.pagesize) && VendorOk(a, entries)
  {
    Padded(PackAll(VendorFields(a, entries)), a.pagesize) + Layout(VendorSections(a, entries, files), a.pagesize)
  }

  /** In a version 4 image every ramdisk is found at its table entry's offset behind the pages of
      the header. */
  lemma RamdiskInImage(a: VendorArgs, entries: seq<Entry>, files: Files, i: nat)
    requires PageSize(a.pagesize) && VendorOk(a, entries) && a.headerVersion == 4 && Tiled(entries, files)
             && i < |entries|
    ensures entries[i].path in files
    ensures Stands(VendorImage(a, entries, files),
                   a.pagesize * Pages(VENDOR_BOOT_IMAGE_HEADER_V4_SIZE, a.pagesize) + entries[i].offset,
                   files[entries[i].path])
  {
    hide Ramdisks, TableFields, Tiled, Pad, Pages, VendorFields, PackAll, AllPack, Stands;
    RamdiskSlice(entries, files, i);
    VendorHeaderSize(a, entries);
    PageSizes(a.pagesize);
    var h := PackAll(VendorFields(a, entries));
    PadReaches(|h|, a.pagesize);
    var section, s := Ramdisks(entries, files), files[entries[i].path];
    FirstSection(VendorSections(a, entries, files), a.pagesize);
    StandsLonger(section, Layout(VendorSections(a, entries, files), a.pagesize), entries[i].offset, s);
    StandsBehind(Padded(h, a.pagesize), Layout(VendorSections(a, entries, files), a.pagesize), entries[i].offset, s);
  }

  lemma FirstSection(sections: seq<File>, page: nat)
    requires page > 0 && |sections| > 0 && sections[0].Some?
    ensures sections[0].value <= Layout(sections, page)
  {
    hide Pad;
    LayoutPrefix(sections, 1, page);
    assert sections[..1] == [] + [sections[0]];
    LayoutNext([], sections[0], page);
    NothingLaid(page);
  }

  lemma SectionWritten(before: Bytes, sections: seq<File>, s: Bytes, page: nat)
    requires PowerOfTwo(page) && page > 0 && Aligned(|before|, page)
    ensures var data := before + Layout(sections, page);
            data + s + Zeros(Pad(|data| + |s|, page)) == before + Layout(sections + [Some(s)], page)
  {
    hide Layout, Pad, Pages, Times, Pow2;
    LayoutNext(sections, Some(s), page);
    AlignedLayout(before, sections, page);
    var data := before + Layout(sections, page);
    PadFromAligned(|data|, |s|, page);
    Joined(before, Layout(sections, page), s, Zeros(Pad(|s|, page)));
  }

  lemma Joined(a: Bytes, b: Bytes, c: Bytes, d: Bytes)
    ensures a + b + c + d == a + (b + (c + d))
  {}

  /** write_vendor_boot_header and write_vendor_boot_data, as main calls them. */
  method MakeVendorBoot(a: VendorArgs, files: Files, builder: VendorRamdiskTableBuilder) returns (image: Option<Bytes>)
    requires PageSize(a.pagesize) && builder.Valid(files)
    requires a.headerVersion == 3 ==> builder.entries == []
    ensures image == if VendorOk(a, builder.entries) then Some(VendorImage(a, builder.entries, files)) else None
    ensures image.Some? <==>
      && (a.headerVersion == 4 || (a.headerVersion == 3 && a.ramdisk.Some?)) && FileSize(a.dtb) > 0
      && AllPack(VendorFields(a, builder.entries)) && AllPack(TableFields(builder.entries))
  {
    hide Layout, Padded, Pad, PackAll, AllPack, VendorFields, TableFields, Ramdisks, Tiled, PageSize, PowerOfTwo,
         Aligned, NamesDistinct;
    if a.headerVersion != 3 && a.headerVersion != 4 {
      return None;
    }
    if (a.headerVersion == 3 && a.ramdisk.None?) || FileSize(a.dtb) == 0 {
      return None;
    }
    PageSizes(a.pagesize);
    PositivePage(a.pagesize);
    NothingLaid(a.pagesize);
    NoTable();
    var out := new OutFile();
    var ok := out.WriteFields(VendorFields(a, builder.entries));
    if !ok {
      return None;
    }
    ghost var h := PackAll(VendorFields(a, builder.entries));
    HeaderPadded(h, a.pagesize);
    out.PadFile(a.pagesize);
    ghost var before := out.data;
    if a.headerVersion > 3 {
      SectionWritten(before, [], Ramdisks(builder.entries, files), a.pagesize);
      RamdisksSize(builder.entries, files);
      builder.WriteRamdisksPadded(files, out, a.pagesize);
      ghost var done := [] + [Some(Ramdisks(builder.entries, files))];
      WriteSection(out, a.dtb, a.pagesize, before, done);
      done := done + [a.dtb];
      ok := builder.WriteEntriesPadded(files, out, a.pagesize);
      if !ok {
        return None;
      }
      SectionWritten(before, done, PackAll(TableFields(builder.entries)), a.pagesize);
      done := done + [Some(PackAll(TableFields(builder.entries)))];
      WriteSection(out, a.bootconfig, a.pagesize, before, done);
      assert done + [a.bootconfig] == VendorSections(a, builder.entries, files);
    } else {
      WriteSection(out, a.ramdisk, a.pagesize, before, []);
      WriteSection(out, a.dtb, a.pagesize, before, [] + [a.ramdisk]);
      assert [] + [a.ramdisk] + [a.dtb] == VendorSections(a, builder.entries, files);
    }
    return Some(out.data);
  }

  lemma HeaderPadded(h: Bytes, page: nat)
    requires PowerOfTwo(page) && page > 0
    ensures h + Zeros(Pad(|h|, page)) == Padded(h, page) && Aligned(|Padded(h, page)|, page)
    ensures [] + h == h && Padded(h, page) + [] == Padded(h, page)
  {
    hide Pages, Times, Pad;
    PadReaches(|h|, page);
  }
}
