/** The boot image mkbootimg.py writes: a header of packed fields, then page-aligned sections. */
module BootImage {
  import opened Arithmetic
  import opened BitField
  import opened Packing

  const BOOT_MAGIC: Bytes := [0x41, 0x4E, 0x44, 0x52, 0x4F, 0x49, 0x44, 0x21]
  const BOOT_NAME_SIZE := 16
  const BOOT_ARGS_SIZE := 512
  const BOOT_EXTRA_ARGS_SIZE := 1024
  const BOOT_IMAGE_HEADER_V0_SIZE := 1632
  const BOOT_IMAGE_HEADER_V1_SIZE := 1648
  const BOOT_IMAGE_HEADER_V2_SIZE := 1660
  const BOOT_IMAGE_HEADER_V3_SIZE := 1580
  const BOOT_IMAGE_HEADER_V4_SIZE := 1584
  const BOOT_IMAGE_HEADER_V3_PAGESIZE := 4096
  const BOOT_IMAGE_V4_SIGNATURE_SIZE := 4096

  type File = Option<Bytes>

  datatype Args = Args(kernel: File, ramdisk: File, second: File, recoveryDtbo: File, dtb: File,
                       pagesize: nat, headerVersion: int, base: int, kernelOffset: int, ramdiskOffset: int,
                       secondOffset: int, tagsOffset: int, dtbOffset: int, osVersion: nat, osPatchLevel: nat,
                       board: Bytes, cmdline: Bytes, extraCmdline: Bytes)

  function FileSize(f: File): nat { if f.Some? then |f.value| else 0 }

  /** The choices of --pagesize. */
  predicate PageSize(p: nat) { p == 2048 || p == 4096 || p == 8192 || p == 16384 }

  lemma PageSizes(p: nat)
    requires PageSize(p)
    ensures PowerOfTwo(p)
  {
    assert Pow2(4) == 16 && Pow2(8) == 256 && Pow2(11) == 2048;
    assert Pow2(12) == 4096 && Pow2(13) == 8192 && Pow2(14) == 16384;
  }

  // ---------- Headers ----------

  /** get_recovery_dtbo_offset */
  function GetRecoveryDtboOffset(a: Args): nat
    requires a.pagesize > 0
  {
    a.pagesize * (1 + Pages(FileSize(a.kernel), a.pagesize) + Pages(FileSize(a.ramdisk), a.pagesize)
                  + Pages(FileSize(a.second), a.pagesize))
  }

  function OsWord(a: Args): nat { NatOr(NatShiftLeft(a.osVersion, 11), a.osPatchLevel) }

  /** The fields every header of version 0 to 2 starts with; `digest` is the SHA-1 of the contents. */
  function CommonFields(a: Args, digest: Bytes): seq<Field> {
    [Text(8, BOOT_MAGIC), U32(FileSize(a.kernel)), U32(a.base + a.kernelOffset),
     U32(FileSize(a.ramdisk)), U32(if FileSize(a.ramdisk) > 0 then a.base + a.ramdiskOffset else 0),
     U32(FileSize(a.second)), U32(if FileSize(a.second) > 0 then a.base + a.secondOffset else 0),
     U32(a.base + a.tagsOffset), U32(a.pagesize), U32(a.headerVersion), U32(OsWord(a)),
     Text(BOOT_NAME_SIZE, a.board), Text(BOOT_ARGS_SIZE, a.cmdline), Text(32, digest),
     Text(BOOT_EXTRA_ARGS_SIZE, a.extraCmdline)]
  }

  function DtboFields(a: Args): seq<Field>
    requires a.pagesize > 0
  {
    if a.recoveryDtbo.Some? then [U32(FileSize(a.recoveryDtbo)), U64(GetRecoveryDtboOffset(a))] else [U32(0), U64(0)]
  }

  function DtbFields(a: Args): seq<Field> { [U32(FileSize(a.dtb)), U64(a.base + a.dtbOffset)] }

  function SizeField(a: Args): seq<Field> {
    if a.headerVersion == 1 then [U32(BOOT_IMAGE_HEADER_V1_SIZE)]
    else if a.headerVersion == 2 then [U32(BOOT_IMAGE_HEADER_V2_SIZE)]
    else []
  }

  function V3Fields(a: Args): seq<Field> {
    [Text(8, BOOT_MAGIC), U32(FileSize(a.kernel)), U32(FileSize(a.ramdisk)), U32(OsWord(a)),
     U32(if a.headerVersion > 3 then BOOT_IMAGE_HEADER_V4_SIZE else BOOT_IMAGE_HEADER_V3_SIZE),
     U32(0), U32(0), U32(0), U32(0), U32(a.headerVersion), Text(BOOT_ARGS_SIZE + BOOT_EXTRA_ARGS_SIZE, a.cmdline)]
    + if a.headerVersion >= 4 then [U32(BOOT_IMAGE_V4_SIGNATURE_SIZE)] else []
  }

  function HeaderFields(a: Args, digest: Bytes): seq<Field>
    requires a.pagesize > 0
  {
    if a.headerVersion == 3 || a.headerVersion == 4 then V3Fields(a)
    else CommonFields(a, digest) + Since1(a) + Since2(a)
  }

  /** The fields version 1 added, and those of version 2. */
  function Since1(a: Args): seq<Field>
    requires a.pagesize > 0
  {
    if a.headerVersion > 0 then DtboFields(a) + SizeField(a) else []
  }

  function Since2(a: Args): seq<Field> { if a.headerVersion > 1 then DtbFields(a) else [] }

  /** The header is written without an error. */
  predicate HeaderOk(a: Args, digest: Bytes)
    requires a.pagesize > 0
  {
    a.headerVersion <= 4 && AllPack(HeaderFields(a, digest)) && (a.headerVersion == 2 ==> FileSize(a.dtb) > 0)
  }

  /** The version is one of the five, and every integer of its header is as wide as its field at most. */
  predicate IntegersFit(a: Args)
    requires a.pagesize > 0
  {
    && 0 <= a.headerVersion <= 4 && FitsWord(FileSize(a.kernel)) && FitsWord(FileSize(a.ramdisk)) && FitsWord(OsWord(a))
    && (a.headerVersion <= 2 ==>
         && FitsWord(a.base + a.kernelOffset) && FitsWord(a.base + a.tagsOffset) && FitsWord(a.pagesize)
         && (FileSize(a.ramdisk) > 0 ==> FitsWord(a.base + a.ramdiskOffset))
         && FitsWord(FileSize(a.second)) && (FileSize(a.second) > 0 ==> FitsWord(a.base + a.secondOffset)))
    && (1 <= a.headerVersion <= 2 && a.recoveryDtbo.Some? ==>
         FitsWord(FileSize(a.recoveryDtbo)) && GetRecoveryDtboOffset(a) < 0x1_0000_0000_0000_0000)
    && (a.headerVersion == 2 ==>
         FitsWord(FileSize(a.dtb)) && 0 <= a.base + a.dtbOffset < 0x1_0000_0000_0000_0000)
  }

  predicate FitsWord(v: int) { 0 <= v < 0x1_0000_0000 }

  lemma AllPackAppend(x: seq<Field>, y: seq<Field>)
    ensures AllPack(x + y) == (AllPack(x) && AllPack(y))
  {
    hide Packs;
    if AllPack(x + y) {
      forall i | 0 <= i < |x|
        ensures Packs(x[i])
      {
        assert Packs((x + y)[i]);
      }
      forall i | 0 <= i < |y|
        ensures Packs(y[i])
      {
        assert Packs((x + y)[|x| + i]);
      }
    }
  }

  /** A header is refused exactly when its version is too new, an integer does not pack, or version 2 has no
      DTB. */
  lemma HeaderExact(a: Args, digest: Bytes)
    requires a.pagesize > 0
    ensures HeaderOk(a, digest) <==> IntegersFit(a) && (a.headerVersion == 2 ==> FileSize(a.dtb) > 0)
  {
    hide GetRecoveryDtboOffset, FileSize, OsWord;
    if a.headerVersion == 3 || a.headerVersion == 4 {
      V3Packs(a);
    } else if a.headerVersion <= 2 {
      AllPackAppend(CommonFields(a, digest) + Since1(a), Since2(a));
      AllPackAppend(CommonFields(a, digest), Since1(a));
      CommonPacks(a, digest);
      LaterPack(a);
    }
  }

  lemma V3Packs(a: Args)
    requires a.headerVersion == 3 || a.headerVersion == 4
    ensures AllPack(V3Fields(a)) <==>
      FitsWord(FileSize(a.kernel)) && FitsWord(FileSize(a.ramdisk)) && FitsWord(OsWord(a))
  {
    hide FileSize, OsWord;
    var fs := V3Fields(a);
    assert fs[1] == U32(FileSize(a.kernel)) && fs[2] == U32(FileSize(a.ramdisk)) && fs[3] == U32(OsWord(a));
  }

  lemma CommonPacks(a: Args, digest: Bytes)
    ensures AllPack(CommonFields(a, digest)) <==>
      && FitsWord(FileSize(a.kernel)) && FitsWord(FileSize(a.ramdisk)) && FitsWord(OsWord(a))
      && FitsWord(a.base + a.kernelOffset) && FitsWord(a.base + a.tagsOffset) && FitsWord(a.pagesize)
      && (FileSize(a.ramdisk) > 0 ==> FitsWord(a.base + a.ramdiskOffset))
      && FitsWord(FileSize(a.second)) && (FileSize(a.second) > 0 ==> FitsWord(a.base + a.secondOffset))
      && FitsWord(a.headerVersion)
  {
    hide FileSize, OsWord;
    var fs := CommonFields(a, digest);
    assert fs[1] == U32(FileSize(a.kernel)) && fs[2] == U32(a.base + a.kernelOffset)
           && fs[3] == U32(FileSize(a.ramdisk)) && fs[5] == U32(FileSize(a.second))
           && fs[7] == U32(a.base + a.tagsOffset) && fs[8] == U32(a.pagesize) && fs[9] == U32(a.headerVersion)
           && fs[10] == U32(OsWord(a));
    assert fs[4] == U32(if FileSize(a.ramdisk) > 0 then a.base + a.ramdiskOffset else 0);
    assert fs[6] == U32(if FileSize(a.second) > 0 then a.base + a.secondOffset else 0);
  }

  lemma LaterPack(a: Args)
    requires a.pagesize > 0 && a.headerVersion <= 2
    ensures AllPack(Since1(a)) <==> (a.headerVersion > 0 && a.recoveryDtbo.Some? ==>
              FitsWord(FileSize(a.recoveryDtbo)) && GetRecoveryDtboOffset(a) < 0x1_0000_0000_0000_0000)
    ensures AllPack(Since2(a)) <==> (a.headerVersion > 1 ==>
              FitsWord(FileSize(a.dtb)) && 0 <= a.base + a.dtbOffset < 0x1_0000_0000_0000_0000)
  {
    hide GetRecoveryDtboOffset, FileSize;
    if a.headerVersion > 0 {
      var fs := Since1(a);
      assert a.recoveryDtbo.Some? ==>
          fs[0] == U32(FileSize(a.recoveryDtbo)) && fs[1] == U64(GetRecoveryDtboOffset(a));
    }
    if a.headerVersion > 1 {
      var fs := Since2(a);
      assert fs[0] == U32(FileSize(a.dtb)) && fs[1] == U64(a.base + a.dtbOffset);
    }
  }

  function HeaderPage(a: Args): nat {
    if a.headerVersion > 2 then BOOT_IMAGE_HEADER_V3_PAGESIZE else a.pagesize
  }

  function HeaderSize(version: int): nat {
    if version <= 0 then BOOT_IMAGE_HEADER_V0_SIZE
    else if version == 1 then BOOT_IMAGE_HEADER_V1_SIZE
    else if version == 2 then BOOT_IMAGE_HEADER_V2_SIZE
    else if version == 3 then BOOT_IMAGE_HEADER_V3_SIZE
    else BOOT_IMAGE_HEADER_V4_SIZE
  }

  lemma SizeCons(f: Field, rest: seq<Field>)
    ensures Size([f] + rest) == Width(f) + Size(rest)
  {
    assert ([f] + rest)[1..] == rest;
  }

  lemma SizeOfTwo(a: Field, b: Field)
    ensures Size([a]) == Width(a) && Size([b]) == Width(b) && Size([a, b]) == Width(a) + Width(b)
  {
    hide Width;
    assert [a][1..] == [] && [b][1..] == [] && [a, b][1..] == [b];
    assert Size([]) == 0;
    assert Size([a]) == Width(a) + Size([a][1..]);
    assert Size([b]) == Width(b) + Size([b][1..]);
    assert Size([a, b]) == Width(a) + Size([a, b][1..]);
  }

  lemma SizeOfThree(a: Field, b: Field, c: Field)
    ensures Size([a]) == Width(a) && Size([a, b]) == Width(a) + Width(b)
            && Size([a, b, c]) == Width(a) + Width(b) + Width(c)
  {
    hide Width;
    SizeOfTwo(a, b);
    SizeOfTwo(b, c);
    assert [a, b, c][1..] == [b, c];
    assert Size([a, b, c]) == Width(a) + Size([a, b, c][1..]);
  }

  lemma TakeThree(fs: seq<Field>)
    requires |fs| >= 3
    ensures Size(fs) == Width(fs[0]) + Width(fs[1]) + Width(fs[2]) + Size(fs[3..])
  {
    hide Width;
    var three := fs[..3];
    SizeAppend(three, fs[3..]);
    assert fs == three + fs[3..] && three == [three[0], three[1], three[2]];
    SizeOfThree(three[0], three[1], three[2]);
  }

  lemma TakeNine(fs: seq<Field>)
    requires |fs| >= 9
    ensures Size(fs) == Width(fs[0]) + Width(fs[1]) + Width(fs[2]) + Width(fs[3]) + Width(fs[4]) + Width(fs[5])
                        + Width(fs[6]) + Width(fs[7]) + Width(fs[8]) + Size(fs[9..])
  {
    hide Width;
    TakeThree(fs);
    TakeThree(fs[3..]);
    assert fs[3..][3..] == fs[6..];
    TakeThree(fs[6..]);
    assert fs[6..][3..] == fs[9..];
  }

  lemma CommonSize(a: Args, digest: Bytes)
    ensures Size(CommonFields(a, digest)) == BOOT_IMAGE_HEADER_V0_SIZE
  {
    hide OsWord, FileSize, Size;
    var fs := CommonFields(a, digest);
    TakeNine(fs);
    TakeThree(fs[9..]);
    assert fs[9..][3..] == fs[12..];
    TakeThree(fs[12..]);
    assert fs[12..][3..] == [];
    SizeOfNone();
  }

  lemma SizeOfNone()
    ensures Size([]) == 0
  {}

  lemma V3Size(a: Args)
    ensures Size(V3Fields(a)) == if a.headerVersion >= 4 then BOOT_IMAGE_HEADER_V4_SIZE else BOOT_IMAGE_HEADER_V3_SIZE
    ensures Size(V3Fields(a)[..4]) == 20
  {
    hide OsWord, FileSize, Size;
    var fs := V3Fields(a);
    TakeNine(fs);
    var last := fs[9..];
    SizeOfNone();
    if a.headerVersion >= 4 {
      SizeOfThree(last[0], last[1], last[2]);
      assert last == [last[0], last[1], last[2]];
    } else {
      SizeOfThree(last[0], last[1], last[1]);
      assert last == [last[0], last[1]];
    }
    TakeThree(fs[..4]);
    SizeOfThree(fs[3], fs[3], fs[3]);
    assert fs[..4][3..] == [fs[3]];
  }

  /** A header is as long as its version's size, which versions 1 and up record in themselves. */
  lemma HeaderSizes(a: Args, digest: Bytes)
    requires a.pagesize > 0 && HeaderOk(a, digest)
    ensures var h := PackAll(HeaderFields(a, digest));
            && |h| == HeaderSize(a.headerVersion)
            && (1 <= a.headerVersion <= 2 ==> Value(h[1644..1648]) == |h|)
            && (a.headerVersion >= 3 ==> Value(h[20..24]) == |h|)
  {
    hide CommonFields, GetRecoveryDtboOffset, FileSize, OsWord, Pack, Value, PackAll;
    var fs := HeaderFields(a, digest);
    if a.headerVersion >= 3 {
      V3Size(a);
      FieldAt(fs, 4);
      IntegerReadsBack(fs[4]);
    } else {
      CommonSize(a, digest);
      CommonLength(a, digest);
      TailSizes(a);
      var common := CommonFields(a, digest);
      SizeAppend(common, Since1(a));
      SizeAppend(common + Since1(a), Since2(a));
      if a.headerVersion > 0 {
        assert fs[..17] == common + DtboFields(a);
        SizeAppend(common, DtboFields(a));
        FieldAt(fs, 17);
        IntegerReadsBack(fs[17]);
      }
    }
  }

  lemma CommonLength(a: Args, digest: Bytes)
    ensures |CommonFields(a, digest)| == 15
  {}

  lemma TailSizes(a: Args)
    requires a.pagesize > 0 && a.headerVersion <= 2
    ensures Size(DtboFields(a)) == 12
    ensures Size(Since1(a)) == if a.headerVersion > 0 then 16 else 0
    ensures Size(Since2(a)) == if a.headerVersion > 1 then 12 else 0
  {
    hide GetRecoveryDtboOffset, FileSize;
    var d, s, t := DtboFields(a), SizeField(a), DtbFields(a);
    assert d == [d[0], d[1]] && t == [t[0], t[1]];
    SizeOfThree(d[0], d[1], if s == [] then U32(0) else s[0]);
    SizeOfThree(t[0], t[1], t[1]);
    assert s != [] ==> d + s == [d[0], d[1], s[0]];
  }

  lemma PrefixNext(fs: seq<Field>, k: nat)
    requires k < |fs|
    ensures Size(fs[..k + 1]) == Size(fs[..k]) + Width(fs[k])
  {
    hide Width;
    assert fs[..k + 1] == fs[..k] + [fs[k]] && [fs[k]][1..] == [];
    SizeAppend(fs[..k], [fs[k]]);
    assert Size([fs[k]]) == Width(fs[k]) + Size([]);
  }

  /** The word at byte `at` of a header. */
  predicate WordIs(h: Bytes, at: nat, v: int) { at + 4 <= |h| && Value(h[at..at + 4]) == v }

  /** Words in a row: field `k + i` stands `4 * i` bytes behind field `k`. */
  lemma {:induction false} WordsFrom(fs: seq<Field>, k: nat, n: nat, at: nat)
    requires AllPack(fs) && k + n <= |fs| && Size(fs[..k]) == at && forall i :: k <= i < k + n ==> fs[i].U32?
    ensures forall i :: 0 <= i < n ==> WordIs(PackAll(fs), at + 4 * i, fs[k + i].v)
    decreases n
  {
    hide WordIs, Packs;
    if n > 0 {
      WordsFrom(fs, k, n - 1, at);
      PrefixSize(fs, k, n - 1);
      OneWord(fs, k + n - 1, at + 4 * (n - 1));
    }
  }

  lemma OneWord(fs: seq<Field>, k: nat, at: nat)
    requires AllPack(fs) && k < |fs| && Size(fs[..k]) == at && fs[k].U32?
    ensures WordIs(PackAll(fs), at, fs[k].v)
  {
    hide Value, Pack, PackAll, Size;
    FieldAt(fs, k);
    IntegerReadsBack(fs[k]);
  }

  lemma {:induction false} PrefixSize(fs: seq<Field>, k: nat, n: nat)
    requires k + n <= |fs| && forall i :: k <= i < k + n ==> fs[i].U32?
    ensures Size(fs[..k + n]) == Size(fs[..k]) + 4 * n
    decreases n
  {
    hide Size;
    if n > 0 {
      PrefixSize(fs, k, n - 1);
      PrefixNext(fs, k + n - 1);
    }
  }

  /** Where a loader finds each word of a header of version 0 to 2. */
  lemma HeaderWords(a: Args, digest: Bytes)
    requires a.pagesize > 0 && HeaderOk(a, digest) && a.headerVersion <= 2
    ensures var h := PackAll(HeaderFields(a, digest));
            && WordIs(h, 8, FileSize(a.kernel)) && WordIs(h, 12, a.base + a.kernelOffset)
            && WordIs(h, 16, FileSize(a.ramdisk))
            && WordIs(h, 20, if FileSize(a.ramdisk) > 0 then a.base + a.ramdiskOffset else 0)
            && WordIs(h, 24, FileSize(a.second))
            && WordIs(h, 28, if FileSize(a.second) > 0 then a.base + a.secondOffset else 0)
            && WordIs(h, 32, a.base + a.tagsOffset) && WordIs(h, 36, a.pagesize) && WordIs(h, 40, a.headerVersion)
            && WordIs(h, 44, OsWord(a))
  {
    var fs := HeaderFields(a, digest);
    HeaderPrefix(a, digest);
    assert fs[..0] == [] && fs[..1] == [fs[0]];
    PrefixNext(fs, 0);
    hide Value, Pack, PackAll, Size, HeaderFields, AllPack, Packs, FileSize, OsWord, WordIs;
    WordsFrom(fs, 1, 10, 8);
    var h := PackAll(fs);
    assert WordIs(h, 8 + 4 * 0, fs[1 + 0].v) && WordIs(h, 8 + 4 * 1, fs[1 + 1].v) && WordIs(h, 8 + 4 * 2, fs[1 + 2].v);
    assert WordIs(h, 8 + 4 * 3, fs[1 + 3].v) && WordIs(h, 8 + 4 * 4, fs[1 + 4].v) && WordIs(h, 8 + 4 * 5, fs[1 + 5].v);
    assert WordIs(h, 8 + 4 * 6, fs[1 + 6].v) && WordIs(h, 8 + 4 * 7, fs[1 + 7].v) && WordIs(h, 8 + 4 * 8, fs[1 + 8].v);
    assert WordIs(h, 8 + 4 * 9, fs[1 + 9].v);
  }

  lemma HeaderPrefix(a: Args, digest: Bytes)
    requires a.pagesize > 0 && a.headerVersion <= 2
    ensures |HeaderFields(a, digest)| >= 15 && HeaderFields(a, digest)[..15] == CommonFields(a, digest)
    ensures forall k :: 0 <= k < 15 ==> HeaderFields(a, digest)[k] == CommonFields(a, digest)[k]
  {}

  /** The same for versions 3 and 4. */
  lemma V3Words(a: Args, digest: Bytes)
    requires a.pagesize > 0 && HeaderOk(a, digest) && a.headerVersion >= 3
    ensures var h := PackAll(HeaderFields(a, digest));
            && WordIs(h, 8, FileSize(a.kernel)) && WordIs(h, 12, FileSize(a.ramdisk)) && WordIs(h, 16, OsWord(a))
            && WordIs(h, 20, |h|) && WordIs(h, 24, 0) && WordIs(h, 28, 0) && WordIs(h, 32, 0) && WordIs(h, 36, 0)
            && WordIs(h, 40, a.headerVersion)
  {
    HeaderSizes(a, digest);
    var fs := HeaderFields(a, digest);
    assert fs[..0] == [] && fs[..1] == [fs[0]];
    PrefixNext(fs, 0);
    hide Value, Pack, PackAll, Size, AllPack, Packs, FileSize, OsWord, WordIs;
    WordsFrom(fs, 1, 9, 8);
    var h := PackAll(fs);
    assert WordIs(h, 8 + 4 * 0, fs[1 + 0].v) && WordIs(h, 8 + 4 * 1, fs[1 + 1].v) && WordIs(h, 8 + 4 * 2, fs[1 + 2].v);
    assert WordIs(h, 8 + 4 * 3, fs[1 + 3].v) && WordIs(h, 8 + 4 * 4, fs[1 + 4].v) && WordIs(h, 8 + 4 * 5, fs[1 + 5].v);
    assert WordIs(h, 8 + 4 * 6, fs[1 + 6].v) && WordIs(h, 8 + 4 * 7, fs[1 + 7].v) && WordIs(h, 8 + 4 * 8, fs[1 + 8].v);
  }

  /** The fields recovery_dtbo_size and recovery_dtbo_offset. */
  predicate RecordsDtbo(h: Bytes, size: nat, at: nat) {
    |h| >= 1644 && Value(h[1632..1636]) == size && Value(h[1636..1644]) == at
  }

  /** The header records where the recovery DTBO is said to be. */
  lemma DtboRecorded(a: Args, digest: Bytes)
    requires a.pagesize > 0 && HeaderOk(a, digest) && 1 <= a.headerVersion <= 2 && a.recoveryDtbo.Some?
    ensures RecordsDtbo(PackAll(HeaderFields(a, digest)), FileSize(a.recoveryDtbo), GetRecoveryDtboOffset(a))
  {
    hide CommonFields, GetRecoveryDtboOffset, FileSize, OsWord, Pack, Value, PackAll;
    var fs := HeaderFields(a, digest);
    CommonSize(a, digest);
    CommonLength(a, digest);
    assert fs[..15] == CommonFields(a, digest) && fs[..16] == CommonFields(a, digest) + [fs[15]];
    SizeAppend(CommonFields(a, digest), [fs[15]]);
    SizeOfThree(fs[15], fs[15], fs[15]);
    FieldAt(fs, 15);
    FieldAt(fs, 16);
    IntegerReadsBack(fs[15]);
    IntegerReadsBack(fs[16]);
  }

  // ---------- Sections ----------

  /** Sections one after the other; one not given takes no place. */
  function Layout(sections: seq<File>, page: nat): (r: Bytes)
    requires page > 0
    decreases |sections|
  {
    if sections == [] then [] else
      Layout(sections[..|sections| - 1], page)
      + match sections[|sections| - 1]
        case None => []
        case Some(s) => Padded(s, page)
  }

  function TotalPages(sections: seq<File>, page: nat): nat
    requires page > 0
    decreases |sections|
  {
    if sections == [] then 0
    else TotalPages(sections[..|sections| - 1], page) + Pages(FileSize(sections[|sections| - 1]), page)
  }

  lemma NoPages(page: nat)
    requires page > 0
    ensures Pages(0, page) == 0 && Times(0, page) == 0
  {
    DivUnique(page - 1, 0, page - 1, page);
  }

  /** All sections together are whole pages. */
  lemma {:induction false} LayoutPages(sections: seq<File>, page: nat)
    requires PowerOfTwo(page)
    ensures page > 0 && |Layout(sections, page)| == Times(TotalPages(sections, page), page)
            && Aligned(|Layout(sections, page)|, page)
    decreases |sections|
  {
    hide Pages, Times, Pad;
    PadReaches(0, page);
    NoPages(page);
    if sections != [] {
      var last := sections[|sections| - 1];
      LayoutPages(sections[..|sections| - 1], page);
      PadReaches(FileSize(last), page);
      TimesAdd(TotalPages(sections[..|sections| - 1], page), Pages(FileSize(last), page), page);
    }
  }

  lemma LayoutNext(sections: seq<File>, f: File, page: nat)
    requires page > 0
    ensures Layout(sections + [f], page) == Layout(sections, page) + if f.Some? then Padded(f.value, page) else []
  {
    assert (sections + [f])[..|sections + [f]| - 1] == sections;
  }

  lemma PrefixSlice(s: Bytes, t: Bytes, lo: nat, hi: nat)
    requires s <= t && lo <= hi <= |s|
    ensures t[lo..hi] == s[lo..hi]
  {}

  lemma {:induction false} LayoutPrefix(sections: seq<File>, k: nat, page: nat)
    requires page > 0 && k <= |sections|
    ensures Layout(sections[..k], page) <= Layout(sections, page)
    decreases |sections|
  {
    hide Padded;
    if k == |sections| {
      assert sections[..k] == sections;
    } else {
      assert sections[..|sections| - 1][..k] == sections[..k];
      LayoutPrefix(sections[..|sections| - 1], k, page);
    }
  }

  /** Section `k` starts on a page, whole, behind the pages of those before it, and is followed by
      less than a page of padding. */
  lemma SectionAt(sections: seq<File>, k: nat, page: nat)
    requires PowerOfTwo(page) && k < |sections| && sections[k].Some?
    ensures page > 0
    ensures var start, s, all := |Layout(sections[..k], page)|, sections[k].value, Layout(sections, page);
            && start + |s| <= |all| && all[start..start + |s|] == s && Aligned(start, page)
            && |Layout(sections[..k + 1], page)| - (start + |s|) < page
  {
    hide Pad, Aligned, Layout, PowerOfTwo;
    var s := sections[k].value;
    PadReaches(|s|, page);
    LayoutPages(sections[..k], page);
    LayoutNext(sections[..k], sections[k], page);
    assert sections[..k + 1] == sections[..k] + [sections[k]];
    LayoutPrefix(sections, k + 1, page);
    var before := Layout(sections[..k], page);
    assert (before + Padded(s, page))[|before|..|before| + |s|] == s;
    PrefixSlice(before + Padded(s, page), Layout(sections, page), |before|, |before| + |s|);
  }

  /** What write_data writes. With no signing key the signature is zeros. */
  function Sections(a: Args): seq<File> {
    [a.kernel, a.ramdisk, a.second]
    + (if 0 < a.headerVersion < 3 then [a.recoveryDtbo] else [])
    + (if a.headerVersion == 2 then [a.dtb] else [])
    + (if a.headerVersion >= 4 then [Some(Zeros(BOOT_IMAGE_V4_SIGNATURE_SIZE))] else [])
  }

  function Image(a: Args, digest: Bytes): Bytes
    requires PageSize(a.pagesize) && HeaderOk(a, digest)
  {
    Padded(PackAll(HeaderFields(a, digest)), HeaderPage(a)) + Layout(Sections(a), HeaderPage(a))
  }

  lemma OnePage(size: nat, page: nat)
    requires 0 < size <= page
    ensures Pages(size, page) == 1 && Times(1, page) == page
  {
    DivUnique(size + page - 1, 1, size - 1, page);
  }

  /** A header of any version fills one page. */
  lemma HeaderIsAPage(a: Args, digest: Bytes)
    requires PageSize(a.pagesize) && HeaderOk(a, digest)
    ensures |Padded(PackAll(HeaderFields(a, digest)), HeaderPage(a))| == HeaderPage(a)
  {
    hide HeaderFields, Pages, Pad, Times;
    PageSizes(a.pagesize);
    PageSizes(4096);
    HeaderSizes(a, digest);
    PadReaches(HeaderSize(a.headerVersion), HeaderPage(a));
    OnePage(HeaderSize(a.headerVersion), HeaderPage(a));
  }

  /** `s` is what the image holds from position `at` on. */
  predicate Stands(image: Bytes, at: int, s: Bytes) {
    0 <= at && at + |s| <= |image| && image[at..at + |s|] == s
  }

  lemma StandsBehind(head: Bytes, tail: Bytes, at: int, s: Bytes)
    requires Stands(tail, at, s)
    ensures Stands(head + tail, |head| + at, s)
  {
    Shifted(head, tail, at, at + |s|);
  }

  lemma DtboInLayout(a: Args)
    requires PageSize(a.pagesize) && 1 <= a.headerVersion <= 2 && a.recoveryDtbo.Some?
    ensures Stands(Layout(Sections(a), a.pagesize), GetRecoveryDtboOffset(a) - a.pagesize, a.recoveryDtbo.value)
  {
    hide Pages, Times, Layout, Padded, Pad;
    PageSizes(a.pagesize);
    SectionAt(Sections(a), 3, a.pagesize);
    LayoutPages(Sections(a)[..3], a.pagesize);
    ThreePages(a);
    OffsetIsStart(a);
  }

  lemma DtboLocated(h: Bytes, header: Bytes, rest: Bytes, at: nat, dtbo: Bytes)
    requires RecordsDtbo(h, |dtbo|, at) && h <= header
    requires Stands(rest, at - |header|, dtbo)
    ensures RecordsDtbo(header + rest, |dtbo|, at) && Stands(header + rest, at, dtbo)
  {
    hide Value;
    var start := at - |header|;
    Shifted(header, rest, start, start + |dtbo|);
    PrefixSlice(h, header + rest, 1636, 1644);
    PrefixSlice(h, header + rest, 1632, 1636);
  }

  /** The recovery DTBO stands in the image where the header says it does. */
  lemma DtboWhereRecorded(a: Args, digest: Bytes)
    requires PageSize(a.pagesize) && HeaderOk(a, digest) && 1 <= a.headerVersion <= 2 && a.recoveryDtbo.Some?
    ensures var image, at, s := Image(a, digest), GetRecoveryDtboOffset(a), a.recoveryDtbo.value;
            RecordsDtbo(image, |s|, at) && Stands(image, at, s)
  {
    var h := ImageParts(a, digest);
    var header, rest, at, s := Padded(h, a.pagesize), Layout(Sections(a), a.pagesize), GetRecoveryDtboOffset(a),
        a.recoveryDtbo.value;
    assert HeaderPage(a) == a.pagesize && FileSize(a.recoveryDtbo) == |s|;
    hide *;
    assert |header| == a.pagesize by {
      HeaderIsAPage(a, digest);
    }
    assert RecordsDtbo(h, |s|, at) by {
      DtboRecorded(a, digest);
    }
    assert Stands(rest, at - |header|, s) by {
      DtboInLayout(a);
    }
    DtboLocated(h, header, rest, at, s);
  }

  lemma ImageParts(a: Args, digest: Bytes) returns (h: Bytes)
    requires PageSize(a.pagesize) && HeaderOk(a, digest) && a.headerVersion <= 2
    ensures a.pagesize > 0 && AllPack(HeaderFields(a, digest)) && h == PackAll(HeaderFields(a, digest))
            && h <= Padded(h, a.pagesize)
    ensures Image(a, digest) == Padded(h, a.pagesize) + Layout(Sections(a), a.pagesize)
  {
    hide HeaderFields, Layout, Sections, PackAll;
    h := PackAll(HeaderFields(a, digest));
    PaddedPrefix(h, a.pagesize);
  }

  lemma PaddedPrefix(s: Bytes, page: nat)
    requires page > 0
    ensures s <= Padded(s, page)
  {}

  lemma ThreePages(a: Args)
    requires a.pagesize > 0
    ensures var p := a.pagesize;
            TotalPages(Sections(a)[..3], p)
              == Pages(FileSize(a.kernel), p) + Pages(FileSize(a.ramdisk), p) + Pages(FileSize(a.second), p)
  {
    hide Pages;
    var three := Sections(a)[..3];
    assert three == [a.kernel, a.ramdisk, a.second] && three[..2] == [a.kernel, a.ramdisk]
           && three[..2][..1] == [a.kernel];
    assert three[..2][..1][..0] == [];
    var p := a.pagesize;
    assert TotalPages([a.kernel], p) == Pages(FileSize(a.kernel), p);
    assert TotalPages([a.kernel, a.ramdisk], p) == TotalPages([a.kernel], p) + Pages(FileSize(a.ramdisk), p);
  }

  lemma OffsetIsStart(a: Args)
    requires a.pagesize > 0
    ensures var p := a.pagesize;
            GetRecoveryDtboOffset(a)
            == p + Times(Pages(FileSize(a.kernel), p) + Pages(FileSize(a.ramdisk), p) + Pages(FileSize(a.second), p), p)
  {}

  // ---------- Writing ----------

  /** write_header and write_header_v3_and_above into a new file; false is an exception. */
  method WriteHeader(out: OutFile, a: Args, digest: Bytes) returns (ok: bool)
    requires PageSize(a.pagesize) && out.data == []
    modifies out
    ensures ok == HeaderOk(a, digest)
    ensures ok ==> out.data == Padded(PackAll(HeaderFields(a, digest)), HeaderPage(a))
  {
    hide PackAll, Packs, Pad, PageSize, CommonFields;
    PageSizes(a.pagesize);
    PageSizes(4096);
    if a.headerVersion > 4 {
      return false;
    }
    if a.headerVersion == 3 || a.headerVersion == 4 {
      ok := out.WriteFields(V3Fields(a));
      if ok {
        out.PadFile(BOOT_IMAGE_HEADER_V3_PAGESIZE);
      }
      return;
    }
    ghost var common := CommonFields(a, digest);
    ok := out.WriteFields(CommonFields(a, digest));
    if !ok {
      LaterNotPack([], common, Since1(a) + Since2(a));
      assert [] + common + (Since1(a) + Since2(a)) == common + Since1(a) + Since2(a);
      return;
    }
    if a.headerVersion > 0 {
      ok := out.WriteFields(DtboFields(a) + SizeField(a));
      if !ok {
        LaterNotPack(common, Since1(a), Since2(a));
        return;
      }
      PackAppend(common, Since1(a));
    } else {
      assert common + Since1(a) == common;
    }
    if a.headerVersion > 1 {
      if FileSize(a.dtb) == 0 {
        return false;
      }
      ok := out.WriteFields(DtbFields(a));
      if !ok {
        LaterNotPack(common + Since1(a), Since2(a), []);
        assert common + Since1(a) + Since2(a) + [] == common + Since1(a) + Since2(a);
        return;
      }
      PackAppend(common + Since1(a), Since2(a));
    } else {
      assert common + Since1(a) + Since2(a) == common + Since1(a);
    }
    out.PadFile(a.pagesize);
  }

  lemma LaterNotPack(a: seq<Field>, b: seq<Field>, c: seq<Field>)
    requires !AllPack(b)
    ensures !AllPack(a + b + c)
  {
    var i :| 0 <= i < |b| && !Packs(b[i]);
    assert (a + b + c)[|a| + i] == b[i];
  }

  lemma NothingPacked()
    ensures PackAll([]) == []
  {}

  lemma {:induction false} PackAppend(a: seq<Field>, b: seq<Field>)
    requires AllPack(a) && AllPack(b)
    ensures AllPack(a + b) && PackAll(a + b) == PackAll(a) + PackAll(b)
    decreases |b|
  {
    hide Pack, Packs, Size, PackAll;
    if b == [] {
      assert a + b == a;
      NothingPacked();
    } else {
      var last := b[|b| - 1];
      PackAppend(a, b[..|b| - 1]);
      PackNext(a + b[..|b| - 1], last);
      PackNext(b[..|b| - 1], last);
      assert a + b == a + b[..|b| - 1] + [last] && b == b[..|b| - 1] + [last];
    }
  }

  /** One call of write_padded_file, behind sections already written from an aligned position on. */
  method WriteSection(out: OutFile, f: File, page: nat, ghost before: Bytes, ghost sections: seq<File>)
    requires PowerOfTwo(page) && page > 0 && Aligned(|before|, page) && out.data == before + Layout(sections, page)
    modifies out
    ensures out.data == before + Layout(sections + [f], page)
  {
    hide Layout, Pad, Pages, Times, Pow2;
    LayoutNext(sections, f, page);
    AlignedLayout(before, sections, page);
    if f.Some? {
      PadFromAligned(|out.data|, |f.value|, page);
    }
    out.WritePaddedFile(f, page);
  }

  lemma AlignedLayout(before: Bytes, sections: seq<File>, page: nat)
    requires PowerOfTwo(page) && page > 0 && Aligned(|before|, page)
    ensures Aligned(|before + Layout(sections, page)|, page)
  {
    hide Layout, Pages, Times, TotalPages;
    LayoutPages(sections, page);
    var k: nat :| |before| == Times(k, page);
    var m: nat := TotalPages(sections, page);
    TimesAdd(k, m, page);
    assert |before + Layout(sections, page)| == Times(k + m, page);
  }

  /** write_data, with no signing key given. */
  method WriteData(out: OutFile, a: Args, pagesize: nat)
    requires PowerOfTwo(pagesize) && pagesize > 0 && Aligned(|out.data|, pagesize)
    modifies out
    ensures out.data == old(out.data) + Layout(Sections(a), pagesize)
  {
    hide Layout, PowerOfTwo, Aligned;
    ghost var before, done := out.data, [];
    NothingLaid(pagesize);
    WriteSection(out, a.kernel, pagesize, before, []);
    WriteSection(out, a.ramdisk, pagesize, before, [] + [a.kernel]);
    WriteSection(out, a.second, pagesize, before, [] + [a.kernel] + [a.ramdisk]);
    done := [] + [a.kernel] + [a.ramdisk] + [a.second];
    if 0 < a.headerVersion < 3 {
      WriteSection(out, a.recoveryDtbo, pagesize, before, done);
      done := done + [a.recoveryDtbo];
    }
    if a.headerVersion == 2 {
      WriteSection(out, a.dtb, pagesize, before, done);
      done := done + [a.dtb];
    }
    if a.headerVersion >= 4 {
      WriteSection(out, Some(Zeros(BOOT_IMAGE_V4_SIGNATURE_SIZE)), pagesize, before, done);
      done := done + [Some(Zeros(BOOT_IMAGE_V4_SIGNATURE_SIZE))];
    }
    assert done == Sections(a);
  }

  lemma NothingLaid(page: nat)
    requires page > 0
    ensures Layout([], page) == []
  {}

  /** The part of main that writes the boot image. */
  method MakeBootImage(a: Args, digest: Bytes) returns (image: Option<Bytes>)
    requires PageSize(a.pagesize)
    ensures image == if HeaderOk(a, digest) && !(a.second.Some? && a.headerVersion > 2) then Some(Image(a, digest))
            else None
    ensures image.Some? <==>
      IntegersFit(a) && (a.headerVersion == 2 ==> FileSize(a.dtb) > 0) && (a.headerVersion > 2 ==> a.second.None?)
  {
    HeaderExact(a, digest);
    hide HeaderOk, IntegersFit, HeaderFields, PackAll, Layout, Sections, Padded;
    if a.second.Some? && a.headerVersion > 2 {
      return None;
    }
    var out := new OutFile();
    var ok := WriteHeader(out, a, digest);
    if !ok {
      return None;
    }
    PageSizes(a.pagesize);
    PageSizes(4096);
    HeaderIsAPage(a, digest);
    assert |out.data| == Times(1, HeaderPage(a));
    WriteData(out, a, HeaderPage(a));
    return Some(out.data);
  }

  // ---------- The command line ----------

  /** The two fields parse_cmdline makes of a terminated command line for versions below 3. */
  function CmdlineField(c: Bytes): Bytes {
    (if |c| < BOOT_ARGS_SIZE - 1 then c else c[..BOOT_ARGS_SIZE - 1]) + [0]
  }

  function ExtraCmdlineField(c: Bytes): Bytes {
    if |c| < BOOT_ARGS_SIZE - 1 then [] else c[BOOT_ARGS_SIZE - 1..]
  }

  /** A packed text that is terminated, or filled up, behind `text`. */
  lemma PackedString(n: nat, s: Bytes, text: Bytes)
    requires 0 !in text && text <= s && |s| <= n && (|s| > |text| ==> s[|text|] == 0)
    ensures CString(Pack(Text(n, s))) == text
  {
    hide CString;
    var packed := Pack(Text(n, s));
    var rest := packed[|text|..];
    assert packed == s + Zeros(n - |s|);
    assert packed == text + rest;
    CStringEnds(text, rest);
  }

  lemma Seam(text: Bytes, n: nat)
    requires n <= |text| && 0 !in text
    ensures (text + [0])[..n] == text[..n] && (text + [0])[n..] == text[n..] + [0] && text == text[..n] + text[n..]
    ensures 0 !in text[..n] && 0 !in text[n..]
  {}

  /** However long the text, the strings read from the two packed fields make it up again: both
      terminators fit, and no character is lost at the seam. */
  lemma CmdlineRoundTrip(text: Bytes)
    requires 0 !in text && |text| + 1 <= BOOT_ARGS_SIZE + BOOT_EXTRA_ARGS_SIZE - 1
    ensures var c := text + [0];
            && |CmdlineField(c)| <= BOOT_ARGS_SIZE && |ExtraCmdlineField(c)| <= BOOT_EXTRA_ARGS_SIZE
            && var first := CString(Pack(Text(BOOT_ARGS_SIZE, CmdlineField(c))));
               && first == text[..if |text| < 511 then |text| else 511]
               && first + CString(Pack(Text(BOOT_EXTRA_ARGS_SIZE, ExtraCmdlineField(c)))) == text
  {
    hide CString, Pack;
    var c, n := text + [0], BOOT_ARGS_SIZE - 1;
    if |text| < n {
      assert c[..|c|] == c && c[|c|..] == [];
      PackedString(BOOT_ARGS_SIZE, CmdlineField(c), text);
      PackedString(BOOT_EXTRA_ARGS_SIZE, [], []);
    } else {
      Seam(text, n);
      PackedString(BOOT_ARGS_SIZE, text[..n] + [0], text[..n]);
      PackedString(BOOT_EXTRA_ARGS_SIZE, text[n..] + [0], text[n..]);
    }
  }
}
