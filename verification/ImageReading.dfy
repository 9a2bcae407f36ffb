/** The images as a loader reads them: every field at its byte, and every section found by the sizes in
    the header alone. */
module ImageReading {
  import opened Arithmetic
  import opened BitField
  import opened Packing
  import opened BootImage
  import opened VendorBoot

  // ---------- Sections ----------

  /** What a section holds; one not given is empty. */
  function Given(f: File): Bytes { if f.Some? then f.value else [] }

  lemma PagesBefore(sections: seq<File>, k: nat, page: nat)
    requires page > 0 && k < |sections|
    ensures TotalPages(sections[..0], page) == 0
    ensures TotalPages(sections[..k + 1], page)
         == TotalPages(sections[..k], page) + Pages(FileSize(sections[k]), page)
  {
    hide Pages;
    assert sections[..k + 1][..k] == sections[..k];
  }

  lemma InLayout(sections: seq<File>, k: nat, page: nat)
    requires PowerOfTwo(page) && page > 0 && k < |sections|
    ensures Stands(Layout(sections, page), |Layout(sections[..k], page)|, Given(sections[k]))
  {
    hide Layout, PowerOfTwo, Aligned;
    LayoutPrefix(sections, k, page);
    if sections[k].Some? {
      SectionAt(sections, k, page);
    }
  }

  /** Section `k` stands whole behind the pages of the header and of the sections before it. */
  lemma SectionStands(header: Bytes, sections: seq<File>, k: nat, page: nat, pages: nat)
    requires PowerOfTwo(page) && page > 0 && k < |sections|
    requires TotalPages(sections[..k], page) == pages
    ensures Stands(header + Layout(sections, page), |header| + Times(pages, page), Given(sections[k]))
  {
    hide Layout, Times, PowerOfTwo, Aligned, TotalPages, Stands, Given;
    LayoutPages(sections[..k], page);
    InLayout(sections, k, page);
    StandsBehind(header, Layout(sections, page), |Layout(sections[..k], page)|, Given(sections[k]));
  }

  /** The number of pages a size takes. */
  function Up(size: nat, page: nat): nat
    requires page > 0
  {
    (size + page - 1) / page
  }

  lemma UpIsPages(size: nat, page: nat)
    requires page > 0
    ensures Pages(size, page) == Up(size, page)
  {}

  lemma FirstFive(sections: seq<File>, page: nat, k: nat)
    requires page > 0 && k < |sections| && k < 5
    ensures TotalPages(sections[..k], page)
         == (if k > 0 then Up(FileSize(sections[0]), page) else 0)
            + (if k > 1 then Up(FileSize(sections[1]), page) else 0)
            + (if k > 2 then Up(FileSize(sections[2]), page) else 0)
            + (if k > 3 then Up(FileSize(sections[3]), page) else 0)
  {
    hide Pages, Up, TotalPages, FileSize;
    PagesBefore(sections, 0, page);
    if k > 0 {
      UpIsPages(FileSize(sections[0]), page);
    }
    if k > 1 {
      PagesBefore(sections, 1, page);
      UpIsPages(FileSize(sections[1]), page);
    }
    if k > 2 {
      PagesBefore(sections, 2, page);
      UpIsPages(FileSize(sections[2]), page);
    }
    if k > 3 {
      PagesBefore(sections, 3, page);
      UpIsPages(FileSize(sections[3]), page);
    }
  }

  /** Behind a header of `front` pages, section `k` stands at `n` pages. */
  lemma AtPage(header: Bytes, sections: seq<File>, k: nat, page: nat, front: nat, n: nat)
    requires PowerOfTwo(page) && page > 0 && |header| == Times(front, page) && k < |sections|
    requires n == front + TotalPages(sections[..k], page)
    ensures Stands(header + Layout(sections, page), page * n, Given(sections[k]))
  {
    hide Layout, PowerOfTwo, TotalPages, Stands, Given;
    SectionStands(header, sections, k, page, n - front);
    assert front * page + (n - front) * page == page * n;
  }

  /** Up to five sections behind a header of `front` pages. */
  ghost predicate InOrder(image: Bytes, ss: seq<File>, p: nat, front: nat)
    requires p > 0 && |ss| >= 2
  {
    var one := front + Up(FileSize(ss[0]), p);
    var two := one + Up(FileSize(ss[1]), p);
    var three := if |ss| > 2 then two + Up(FileSize(ss[2]), p) else two;
    && Stands(image, p * front, Given(ss[0])) && Stands(image, p * one, Given(ss[1]))
    && (|ss| > 2 ==> Stands(image, p * two, Given(ss[2])))
    && (|ss| > 3 ==> Stands(image, p * three, Given(ss[3])))
    && (|ss| > 4 ==> Stands(image, p * (three + Up(FileSize(ss[3]), p)), Given(ss[4])))
  }

  lemma SectionsInOrder(header: Bytes, ss: seq<File>, p: nat, front: nat)
    requires PowerOfTwo(p) && p > 0 && |header| == Times(front, p) && |ss| >= 2
    ensures InOrder(header + Layout(ss, p), ss, p, front)
  {
    hide Layout, TotalPages, Stands, Given, Up, FileSize, PowerOfTwo, Times;
    var one := front + Up(FileSize(ss[0]), p);
    var two := one + Up(FileSize(ss[1]), p);
    FirstFive(ss, p, 0);
    FirstFive(ss, p, 1);
    AtPage(header, ss, 0, p, front, front);
    AtPage(header, ss, 1, p, front, one);
    if |ss| > 2 {
      FirstFive(ss, p, 2);
      AtPage(header, ss, 2, p, front, two);
    }
    if |ss| > 3 {
      FirstFive(ss, p, 3);
      AtPage(header, ss, 3, p, front, two + Up(FileSize(ss[2]), p));
    }
    if |ss| > 4 {
      FirstFive(ss, p, 4);
      AtPage(header, ss, 4, p, front, two + Up(FileSize(ss[2]), p) + Up(FileSize(ss[3]), p));
    }
  }

  // ---------- The boot image ----------

  /** An image MakeBootImage writes. */
  predicate IsImage(a: Args, digest: Bytes, image: Bytes) {
    PageSize(a.pagesize) && HeaderOk(a, digest) && (a.headerVersion > 2 ==> a.second.None?) && image == Image(a, digest)
  }

  lemma ImageInOrder(a: Args, digest: Bytes, image: Bytes, p: nat)
    requires IsImage(a, digest, image) && p == if a.headerVersion > 2 then 4096 else a.pagesize
    ensures p > 0 && |Sections(a)| >= 3 && InOrder(image, Sections(a), p, 1)
  {
    PageSizes(a.pagesize);
    PageSizes(4096);
    HeaderIsAPage(a, digest);
    hide HeaderOk, HeaderFields, InOrder, Layout, PackAll, Padded, PowerOfTwo;
    SectionsInOrder(Padded(PackAll(HeaderFields(a, digest)), p), Sections(a), p, 1);
  }

  /** Where the sections of a boot image stand, for every version: behind a header of `p` bytes, on
      pages of `p` bytes, of which the files take `k`, `r`, `s` and `d`. */
  lemma BootSections(a: Args, digest: Bytes, image: Bytes, p: nat, k: nat, r: nat, s: nat, d: nat)
    requires IsImage(a, digest, image) && p == if a.headerVersion > 2 then 4096 else a.pagesize
    requires k == Up(FileSize(a.kernel), p) && r == Up(FileSize(a.ramdisk), p)
    requires s == Up(FileSize(a.second), p) && d == Up(FileSize(a.recoveryDtbo), p)
    ensures Stands(image, p, Given(a.kernel)) && Stands(image, p * (1 + k), Given(a.ramdisk))
    ensures Stands(image, p * (1 + k + r), Given(a.second))
    ensures 1 <= a.headerVersion <= 2 ==> Stands(image, p * (1 + k + r + s), Given(a.recoveryDtbo))
    ensures a.headerVersion == 2 ==> Stands(image, p * (1 + k + r + s + d), Given(a.dtb))
    ensures a.headerVersion == 4 ==> Stands(image, p * (1 + k + r + s), Zeros(4096))
  {
    hide *;
    ImageInOrder(a, digest, image, p);
    SectionFiles(a);
    PlacesInOrder(image, Sections(a), p, k, r, s);
  }

  lemma PlacesInOrder(image: Bytes, ss: seq<File>, p: nat, k: nat, r: nat, s: nat)
    requires p > 0 && |ss| >= 3 && InOrder(image, ss, p, 1)
    requires k == Up(FileSize(ss[0]), p) && r == Up(FileSize(ss[1]), p) && s == Up(FileSize(ss[2]), p)
    ensures Stands(image, p, Given(ss[0])) && Stands(image, p * (1 + k), Given(ss[1]))
    ensures Stands(image, p * (1 + k + r), Given(ss[2]))
    ensures |ss| > 3 ==> Stands(image, p * (1 + k + r + s), Given(ss[3]))
    ensures |ss| > 4 ==> Stands(image, p * (1 + k + r + s + Up(FileSize(ss[3]), p)), Given(ss[4]))
  {}

  lemma SectionFiles(a: Args)
    ensures var ss := Sections(a);
            && |ss| >= 3 && ss[0] == a.kernel && ss[1] == a.ramdisk && ss[2] == a.second
            && (1 <= a.headerVersion <= 2 ==> |ss| > 3 && ss[3] == a.recoveryDtbo)
            && (a.headerVersion == 2 ==> |ss| > 4 && ss[4] == a.dtb)
            && (a.headerVersion == 4 ==> |ss| > 3 && Given(ss[3]) == Zeros(4096))
  {}

  // ---------- Texts in the header ----------

  /** `n` bytes from byte `at` on hold the text, cut off or filled up with zeros. */
  predicate TextIs(h: Bytes, at: nat, n: nat, s: Bytes) {
    at + n <= |h| && h[at..at + n] == if |s| >= n then s[..n] else s + Zeros(n - |s|)
  }

  /** The double word at byte `at`. */
  predicate LongIs(h: Bytes, at: nat, v: int) { at + 8 <= |h| && Value(h[at..at + 8]) == v }

  lemma OneText(fs: seq<Field>, k: nat, at: nat)
    requires AllPack(fs) && k < |fs| && Size(fs[..k]) == at && fs[k].Text?
    ensures TextIs(PackAll(fs), at, fs[k].n, fs[k].s)
  {
    hide Size, PackAll;
    FieldAt(fs, k);
  }

  lemma OneLong(fs: seq<Field>, k: nat, at: nat)
    requires AllPack(fs) && k < |fs| && Size(fs[..k]) == at && fs[k].U64?
    ensures LongIs(PackAll(fs), at, fs[k].v)
  {
    hide Size, PackAll, Pack, Value;
    FieldAt(fs, k);
    IntegerReadsBack(fs[k]);
  }

  lemma TextPositions(a: Args, digest: Bytes)
    requires a.pagesize > 0 && a.headerVersion <= 2
    ensures var fs := HeaderFields(a, digest);
            && |fs| >= 15 && Size(fs[..0]) == 0 && Size(fs[..11]) == 48 && Size(fs[..12]) == 64 && Size(fs[..13]) == 576
            && Size(fs[..14]) == 608 && Size(fs[..15]) == 1632
  {
    var fs := HeaderFields(a, digest);
    HeaderPrefix(a, digest);
    assert fs[..0] == [];
    hide Size, HeaderFields, FileSize, OsWord;
    SizeOfNone();
    PrefixNext(fs, 0);
    PrefixSize(fs, 1, 10);
    PrefixNext(fs, 11);
    PrefixNext(fs, 12);
    PrefixNext(fs, 13);
    PrefixNext(fs, 14);
  }

  /** The texts of a header of version 0 to 2: ANDROID!, the board's name, the two parts of the command
      line, and the digest between them. */
  lemma HeaderTexts(a: Args, digest: Bytes)
    requires a.pagesize > 0 && HeaderOk(a, digest) && a.headerVersion <= 2
    ensures var h := PackAll(HeaderFields(a, digest));
            && TextIs(h, 0, 8, [0x41, 0x4E, 0x44, 0x52, 0x4F, 0x49, 0x44, 0x21])
            && TextIs(h, 48, 16, a.board) && TextIs(h, 64, 512, a.cmdline) && TextIs(h, 576, 32, digest)
            && TextIs(h, 608, 1024, a.extraCmdline)
  {
    var fs := HeaderFields(a, digest);
    HeaderPrefix(a, digest);
    TextPositions(a, digest);
    hide HeaderFields, FileSize, OsWord, TextIs, Size, PackAll;
    OneText(fs, 0, 0);
    OneText(fs, 11, 48);
    OneText(fs, 12, 64);
    OneText(fs, 13, 576);
    OneText(fs, 14, 608);
  }

  /** The fields behind them that version 1 added. */
  lemma LaterFields(a: Args, digest: Bytes)
    requires a.pagesize > 0 && HeaderOk(a, digest) && 1 <= a.headerVersion <= 2
    ensures var h := PackAll(HeaderFields(a, digest));
            && WordIs(h, 1632, FileSize(a.recoveryDtbo))
            && LongIs(h, 1636, if a.recoveryDtbo.Some? then GetRecoveryDtboOffset(a) else 0)
            && WordIs(h, 1644, |h|)
  {
    var fs := HeaderFields(a, digest);
    HeaderSizes(a, digest);
    TextPositions(a, digest);
    LaterList(a, digest);
    hide HeaderFields, GetRecoveryDtboOffset, FileSize, WordIs, LongIs, Size, PackAll;
    OneWord(fs, 15, 1632);
    PrefixNext(fs, 15);
    OneLong(fs, 16, 1636);
    PrefixNext(fs, 16);
    OneWord(fs, 17, 1644);
  }

  /** And those version 2 added. */
  lemma DtbWords(a: Args, digest: Bytes)
    requires a.pagesize > 0 && HeaderOk(a, digest) && a.headerVersion == 2
    ensures var h := PackAll(HeaderFields(a, digest));
            WordIs(h, 1648, FileSize(a.dtb)) && LongIs(h, 1652, a.base + a.dtbOffset)
  {
    var fs := HeaderFields(a, digest);
    TextPositions(a, digest);
    LaterList(a, digest);
    hide HeaderFields, GetRecoveryDtboOffset, FileSize, WordIs, LongIs, Size, PackAll;
    PrefixNext(fs, 15);
    PrefixNext(fs, 16);
    PrefixNext(fs, 17);
    OneWord(fs, 18, 1648);
    PrefixNext(fs, 18);
    OneLong(fs, 19, 1652);
  }

  lemma LaterList(a: Args, digest: Bytes)
    requires a.pagesize > 0 && 1 <= a.headerVersion <= 2
    ensures var fs := HeaderFields(a, digest);
            && |fs| == 16 + 2 * a.headerVersion
            && fs[15] == U32(FileSize(a.recoveryDtbo))
            && fs[16] == U64(if a.recoveryDtbo.Some? then GetRecoveryDtboOffset(a) else 0)
            && fs[17] == U32(HeaderSize(a.headerVersion))
            && (a.headerVersion == 2 ==> fs[18] == U32(FileSize(a.dtb)) && fs[19] == U64(a.base + a.dtbOffset))
  {
    CommonLength(a, digest);
    hide CommonFields, GetRecoveryDtboOffset;
  }

  /** The texts of versions 3 and 4, and the signature's size. */
  lemma V3Texts(a: Args, digest: Bytes)
    requires a.pagesize > 0 && HeaderOk(a, digest) && a.headerVersion >= 3
    ensures var h := PackAll(HeaderFields(a, digest));
            && TextIs(h, 0, 8, [0x41, 0x4E, 0x44, 0x52, 0x4F, 0x49, 0x44, 0x21]) && TextIs(h, 44, 1536, a.cmdline)
            && (a.headerVersion == 4 ==> WordIs(h, 1580, 4096))
  {
    var fs := HeaderFields(a, digest);
    assert fs[..0] == [];
    hide FileSize, OsWord, TextIs, WordIs, Size, PackAll, Packs;
    SizeOfNone();
    PrefixNext(fs, 0);
    PrefixSize(fs, 1, 9);
    OneText(fs, 0, 0);
    OneText(fs, 10, 44);
    PrefixNext(fs, 10);
    if a.headerVersion == 4 {
      OneWord(fs, 11, 1580);
    }
  }

  // ---------- The version word ----------

  lemma {:induction false} OrNone(a: nat)
    ensures NatOr(a, 0) == a
    decreases a
  {
    if a > 0 {
      OrNone(a / 2);
    }
  }

  lemma {:induction false} OrBelow(c: nat, n: nat, b: nat)
    requires b < Pow2(n)
    ensures NatOr(NatShiftLeft(c, n), b) == NatShiftLeft(c, n) + b
    decreases n
  {
    if n == 0 {
      OrNone(c);
    } else {
      assert NatShiftLeft(c, n) == 2 * NatShiftLeft(c, n - 1);
      OrBelow(c, n - 1, b / 2);
    }
  }

  lemma {:induction false} ShiftsLeft(c: nat, n: nat)
    ensures NatShiftLeft(c, n) == c * Pow2(n)
    decreases n
  {
    if n > 0 {
      ShiftsLeft(c, n - 1);
      assert c * (2 * Pow2(n - 1)) == 2 * (c * Pow2(n - 1));
    }
  }

  /** The patch level takes the 11 low bits of the word, and the version those above. */
  lemma VersionWord(a: Args)
    requires a.osPatchLevel < 2048
    ensures OsWord(a) == 2048 * a.osVersion + a.osPatchLevel
    ensures OsWord(a) / 2048 == a.osVersion && OsWord(a) % 2048 == a.osPatchLevel
  {
    assert Pow2(4) == 16 && Pow2(8) == 256 && Pow2(11) == 2048;
    OrBelow(a.osVersion, 11, a.osPatchLevel);
    ShiftsLeft(a.osVersion, 11);
  }

  // ---------- What a loader finds ----------

  /** The word at byte `at`. */
  function Word(image: Bytes, at: nat): nat {
    if at + 4 <= |image| then Value(image[at..at + 4]) else 0
  }

  /** A file is found at byte `at`, with this length. */
  predicate Holds(image: Bytes, at: int, length: nat, f: File) { length == FileSize(f) && Stands(image, at, Given(f)) }

  lemma WordsOfImage(h: Bytes, image: Bytes, at: nat, v: int)
    requires h <= image && WordIs(h, at, v)
    ensures Word(image, at) == v
  {
    hide Value;
    PrefixSlice(h, image, at, at + 4);
  }

  lemma HeaderInFront(a: Args, digest: Bytes, image: Bytes)
    requires IsImage(a, digest, image)
    ensures PackAll(HeaderFields(a, digest)) <= image
  {
    hide HeaderFields, Layout, PackAll, Sections;
    PaddedPrefix(PackAll(HeaderFields(a, digest)), HeaderPage(a));
  }

  /** The words by which a loader finds its way, versions 0 to 2. */
  lemma LoaderWords(a: Args, digest: Bytes, image: Bytes)
    requires IsImage(a, digest, image) && a.headerVersion <= 2
    ensures Word(image, 8) == FileSize(a.kernel) && Word(image, 16) == FileSize(a.ramdisk)
    ensures Word(image, 24) == FileSize(a.second) && Word(image, 36) == a.pagesize
    ensures Word(image, 40) == a.headerVersion
    ensures a.headerVersion >= 1 ==> Word(image, 1632) == FileSize(a.recoveryDtbo)
    ensures a.headerVersion == 2 ==> Word(image, 1648) == FileSize(a.dtb)
  {
    HeaderWords(a, digest);
    HeaderInFront(a, digest, image);
    if a.headerVersion >= 1 {
      LaterFields(a, digest);
    }
    var h := PackAll(HeaderFields(a, digest));
    hide HeaderOk, HeaderFields, Image, WordIs, LongIs, Word, FileSize, OsWord, PackAll, GetRecoveryDtboOffset;
    WordsOfImage(h, image, 8, FileSize(a.kernel));
    WordsOfImage(h, image, 16, FileSize(a.ramdisk));
    WordsOfImage(h, image, 24, FileSize(a.second));
    WordsOfImage(h, image, 36, a.pagesize);
    WordsOfImage(h, image, 40, a.headerVersion);
    if a.headerVersion >= 1 {
      WordsOfImage(h, image, 1632, FileSize(a.recoveryDtbo));
    }
    if a.headerVersion == 2 {
      DtbWords(a, digest);
      WordsOfImage(h, image, 1648, FileSize(a.dtb));
    }
  }

  lemma V3LoaderWords(a: Args, digest: Bytes, image: Bytes)
    requires IsImage(a, digest, image) && a.headerVersion >= 3
    ensures Word(image, 8) == FileSize(a.kernel) && Word(image, 12) == FileSize(a.ramdisk)
    ensures Word(image, 40) == a.headerVersion
  {
    V3Words(a, digest);
    HeaderInFront(a, digest, image);
    var h := PackAll(HeaderFields(a, digest));
    hide HeaderOk, HeaderFields, Image, WordIs, Word, FileSize, OsWord, PackAll;
    WordsOfImage(h, image, 8, FileSize(a.kernel));
    WordsOfImage(h, image, 12, FileSize(a.ramdisk));
    WordsOfImage(h, image, 40, a.headerVersion);
  }

  /** A loader that knows nothing but the image finds every file in it: the header's words say how long the
      files are, and each starts on the first page behind the one before. */
  lemma LoaderFinds(a: Args, digest: Bytes, image: Bytes, p: nat, k: nat, r: nat, s: nat, d: nat)
    requires IsImage(a, digest, image) && a.headerVersion <= 2
    requires p == Word(image, 36) > 0
    requires k == Up(Word(image, 8), p) && r == Up(Word(image, 16), p) && s == Up(Word(image, 24), p)
    requires a.headerVersion >= 1 ==> d == Up(Word(image, 1632), p)
    ensures Holds(image, p, Word(image, 8), a.kernel)
    ensures Holds(image, p * (1 + k), Word(image, 16), a.ramdisk)
    ensures Holds(image, p * (1 + k + r), Word(image, 24), a.second)
    ensures a.headerVersion >= 1 ==> Holds(image, p * (1 + k + r + s), Word(image, 1632), a.recoveryDtbo)
    ensures a.headerVersion == 2 ==> Holds(image, p * (1 + k + r + s + d), Word(image, 1648), a.dtb)
  {
    hide IsImage, Word, FileSize, Stands, Given, Up;
    LoaderWords(a, digest, image);
    BootSections(a, digest, image, p, k, r, s, Up(FileSize(a.recoveryDtbo), p));
  }

  /** The same for versions 3 and 4, whose pages have 4096 bytes; version 4 ends in a page of zeros for the
      signature. */
  lemma V3LoaderFinds(a: Args, digest: Bytes, image: Bytes, k: nat, r: nat)
    requires IsImage(a, digest, image) && a.headerVersion >= 3
    requires k == Up(Word(image, 8), 4096) && r == Up(Word(image, 12), 4096)
    ensures Holds(image, 4096, Word(image, 8), a.kernel)
    ensures Holds(image, 4096 * (1 + k), Word(image, 12), a.ramdisk)
    ensures Word(image, 40) == a.headerVersion
    ensures a.headerVersion == 4 ==> Stands(image, 4096 * (1 + k + r), Zeros(4096))
  {
    hide *;
    NoSecond(a, digest, image);
    V3LoaderWords(a, digest, image);
    BootSections(a, digest, image, 4096, k, r, 0, Up(FileSize(a.recoveryDtbo), 4096));
    Found(image, 4096, a.kernel);
    Found(image, 4096 * (1 + k), a.ramdisk);
  }

  lemma Found(image: Bytes, at: int, f: File)
    requires Stands(image, at, Given(f))
    ensures Holds(image, at, FileSize(f), f)
  {}

  lemma NoSecond(a: Args, digest: Bytes, image: Bytes)
    requires IsImage(a, digest, image) && a.headerVersion >= 3
    ensures Up(FileSize(a.second), 4096) == 0
  {
    hide HeaderOk, Image;
  }

  // ---------- The vendor boot image ----------

  lemma VendorPositions(a: VendorArgs, entries: seq<Entry>)
    ensures var fs := VendorFields(a, entries);
            && |fs| == (if a.headerVersion > 3 then 16 else 12)
            && Size(fs[..0]) == 0 && Size(fs[..1]) == 8 && Size(fs[..6]) == 28 && Size(fs[..7]) == 2076
            && Size(fs[..8]) == 2080 && Size(fs[..9]) == 2096 && Size(fs[..10]) == 2100 && Size(fs[..11]) == 2104
            && Size(fs[..12]) == 2112
  {
    var fs := VendorFields(a, entries);
    assert fs[..0] == [];
    hide Size, FileSize, TotalSize;
    SizeOfNone();
    PrefixNext(fs, 0);
    PrefixSize(fs, 1, 5);
    PrefixNext(fs, 6);
    PrefixNext(fs, 7);
    PrefixNext(fs, 8);
    PrefixNext(fs, 9);
    PrefixNext(fs, 10);
    PrefixNext(fs, 11);
  }

  /** Where a loader finds each field of a vendor header. */
  lemma VendorWords(a: VendorArgs, entries: seq<Entry>)
    requires AllPack(VendorFields(a, entries))
    ensures var h := PackAll(VendorFields(a, entries));
            && TextIs(h, 0, 8, [0x56, 0x4E, 0x44, 0x52, 0x42, 0x4F, 0x4F, 0x54])
            && WordIs(h, 8, a.headerVersion) && WordIs(h, 12, a.pagesize) && WordIs(h, 16, a.base + a.kernelOffset)
            && WordIs(h, 20, a.base + a.ramdiskOffset)
            && WordIs(h, 24, if a.headerVersion > 3 then TotalSize(entries) else FileSize(a.ramdisk))
            && TextIs(h, 28, 2048, a.cmdline) && WordIs(h, 2076, a.base + a.tagsOffset) && TextIs(h, 2080, 16, a.board)
  {
    var fs := VendorFields(a, entries);
    VendorPositions(a, entries);
    hide TextIs, WordIs, Size, PackAll, FileSize, TotalSize, Packs;
    WordsFrom(fs, 1, 5, 8);
    var h := PackAll(fs);
    assert WordIs(h, 8 + 4 * 0, fs[1 + 0].v) && WordIs(h, 8 + 4 * 1, fs[1 + 1].v) && WordIs(h, 8 + 4 * 2, fs[1 + 2].v);
    assert WordIs(h, 8 + 4 * 3, fs[1 + 3].v) && WordIs(h, 8 + 4 * 4, fs[1 + 4].v);
    OneText(fs, 0, 0);
    OneText(fs, 6, 28);
    OneWord(fs, 7, 2076);
    OneText(fs, 8, 2080);
  }

  /** The sizes behind them: of the header itself, the DTB, and in version 4 the table, its entries
      and the boot configuration. */
  lemma VendorSizes(a: VendorArgs, entries: seq<Entry>)
    requires AllPack(VendorFields(a, entries))
    ensures var h := PackAll(VendorFields(a, entries));
            && WordIs(h, 2096, |h|) && WordIs(h, 2100, FileSize(a.dtb)) && LongIs(h, 2104, a.base + a.dtbOffset)
            && (a.headerVersion > 3 ==>
                && WordIs(h, 2112, 108 * |entries|) && WordIs(h, 2116, |entries|) && WordIs(h, 2120, 108)
                && WordIs(h, 2124, FileSize(a.bootconfig)))
  {
    var fs := VendorFields(a, entries);
    VendorPositions(a, entries);
    VendorHeaderSize(a, entries);
    hide TextIs, WordIs, LongIs, Size, PackAll, FileSize, TotalSize, Packs, Value;
    var h := PackAll(fs);
    OneWord(fs, 9, 2096);
    OneWord(fs, 10, 2100);
    OneLong(fs, 11, 2104);
    if a.headerVersion > 3 {
      WordsFrom(fs, 12, 4, 2112);
      assert WordIs(h, 2112 + 4 * 0, fs[12 + 0].v) && WordIs(h, 2112 + 4 * 1, fs[12 + 1].v);
      assert WordIs(h, 2112 + 4 * 2, fs[12 + 2].v) && WordIs(h, 2112 + 4 * 3, fs[12 + 3].v);
    }
  }

  // ---------- The ramdisk table ----------

  /** Record `i` of the table is the packed entry `i`. */
  lemma {:induction false} TableSlices(entries: seq<Entry>, files: Files, i: nat)
    requires Tiled(entries, files) && AllPack(TableFields(entries)) && i < |entries|
    ensures AllPack(EntryFields(entries[i]))
    ensures Stands(PackAll(TableFields(entries)), 108 * i, PackAll(EntryFields(entries[i])))
    decreases |entries|
  {
    var before, last := entries[..|entries| - 1], entries[|entries| - 1];
    var a, b := TableFields(before), EntryFields(last);
    TiledPrefix(entries, files);
    PackParts(a, b);
    hide PackAll, EntryFields, Tiled, AllPack, Stands;
    PackAppend(a, b);
    if i < |before| {
      TableSlices(before, files, i);
      StandsLonger(PackAll(a), PackAll(a) + PackAll(b), 108 * i, PackAll(EntryFields(entries[i])));
    } else {
      TableSize(before, files);
      StandsLast(PackAll(a), PackAll(b));
    }
  }

  /** The fields of a record: size, offset, type, name and the 16 words of the board's id. */
  lemma EntryWords(e: Entry)
    requires BoardIdOk(e.boardId) && AllPack(EntryFields(e))
    ensures var h := PackAll(EntryFields(e));
            && |h| == 108 && WordIs(h, 0, e.size) && WordIs(h, 4, e.offset) && WordIs(h, 8, e.kind)
            && TextIs(h, 12, 32, e.name) && forall k :: 0 <= k < 16 ==> WordIs(h, 44 + 4 * k, e.boardId[k])
  {
    var fs := EntryFields(e);
    EntrySize(e);
    EntryPositions(e);
    hide Size, PackAll, WordIs, TextIs, AllPack, Packs, EntryFields;
    OneWord(fs, 0, 0);
    OneWord(fs, 1, 4);
    OneWord(fs, 2, 8);
    OneText(fs, 3, 12);
    WordsFrom(fs, 4, 16, 44);
    forall k | 0 <= k < 16
      ensures WordIs(PackAll(fs), 44 + 4 * k, e.boardId[k])
    {
      assert fs[4 + k] == U32(e.boardId[k]);
    }
  }

  lemma EntryPositions(e: Entry)
    requires BoardIdOk(e.boardId)
    ensures var fs := EntryFields(e);
            && |fs| == 20 && Size(fs[..0]) == 0 && Size(fs[..1]) == 4 && Size(fs[..2]) == 8 && Size(fs[..3]) == 12
            && Size(fs[..4]) == 44 && fs[0] == U32(e.size) && fs[1] == U32(e.offset) && fs[2] == U32(e.kind)
            && fs[3] == Text(32, e.name) && forall k :: 0 <= k < 16 ==> fs[4 + k] == U32(e.boardId[k])
  {
    var fs := EntryFields(e);
    assert fs[..0] == [];
    hide Size;
    SizeOfNone();
    PrefixNext(fs, 0);
    PrefixNext(fs, 1);
    PrefixNext(fs, 2);
    PrefixNext(fs, 3);
  }

  /** An image MakeVendorBoot writes. */
  ghost predicate IsVendorImage(a: VendorArgs, entries: seq<Entry>, files: Files, image: Bytes) {
    PageSize(a.pagesize) && VendorOk(a, entries) && Tiled(entries, files) && image == VendorImage(a, entries, files)
  }

  lemma VendorInFront(a: VendorArgs, entries: seq<Entry>, files: Files, image: Bytes)
    requires IsVendorImage(a, entries, files, image)
    ensures AllPack(VendorFields(a, entries)) && PackAll(VendorFields(a, entries)) <= image
  {
    hide VendorFields, Layout, PackAll, VendorSections, Tiled, AllPack;
    PaddedPrefix(PackAll(VendorFields(a, entries)), a.pagesize);
  }

  /** The words by which a loader finds its way. */
  lemma VendorLoaderWords(a: VendorArgs, entries: seq<Entry>, files: Files, image: Bytes)
    requires IsVendorImage(a, entries, files, image)
    ensures Word(image, 8) == a.headerVersion && 3 <= a.headerVersion <= 4 && Word(image, 12) == a.pagesize > 0
    ensures Word(image, 24) == if a.headerVersion > 3 then TotalSize(entries) else FileSize(a.ramdisk)
    ensures Word(image, 2096) == (if a.headerVersion > 3 then 2128 else 2112) && Word(image, 2100) == FileSize(a.dtb)
    ensures a.headerVersion > 3 ==> Word(image, 2112) == 108 * |entries| && Word(image, 2124) == FileSize(a.bootconfig)
  {
    VendorInFront(a, entries, files, image);
    VendorWords(a, entries);
    VendorSizes(a, entries);
    VendorHeaderSize(a, entries);
    var h := PackAll(VendorFields(a, entries));
    hide VendorOk, VendorFields, VendorImage, TextIs, WordIs, LongIs, Word, FileSize, PackAll, TotalSize, Tiled;
    WordsOfImage(h, image, 8, a.headerVersion);
    WordsOfImage(h, image, 12, a.pagesize);
    WordsOfImage(h, image, 24, if a.headerVersion > 3 then TotalSize(entries) else FileSize(a.ramdisk));
    WordsOfImage(h, image, 2096, |h|);
    WordsOfImage(h, image, 2100, FileSize(a.dtb));
    if a.headerVersion > 3 {
      WordsOfImage(h, image, 2112, 108 * |entries|);
      WordsOfImage(h, image, 2124, FileSize(a.bootconfig));
    }
  }

  lemma VendorInOrder(a: VendorArgs, entries: seq<Entry>, files: Files, image: Bytes)
    requires IsVendorImage(a, entries, files, image)
    ensures AllPack(TableFields(entries)) && a.pagesize > 0
    ensures InOrder(image, VendorSections(a, entries, files), a.pagesize,
                    Up(if a.headerVersion > 3 then 2128 else 2112, a.pagesize))
  {
    VendorHeaderSize(a, entries);
    PageSizes(a.pagesize);
    var h, p := PackAll(VendorFields(a, entries)), a.pagesize;
    hide VendorFields, Layout, PackAll, Tiled, AllPack, InOrder, PowerOfTwo, Pad, Up, Times, Pages, Ramdisks;
    PadReaches(|h|, p);
    UpIsPages(|h|, p);
    SectionsInOrder(Padded(h, p), VendorSections(a, entries, files), p, Up(|h|, p));
  }

  lemma VendorPlaces(image: Bytes, ss: seq<File>, p: nat, f: nat, r: nat, d: nat, t: nat)
    requires p > 0 && |ss| >= 2 && InOrder(image, ss, p, f)
    requires r == Up(FileSize(ss[0]), p) && d == Up(FileSize(ss[1]), p)
    requires |ss| > 2 ==> t == Up(FileSize(ss[2]), p)
    ensures Holds(image, p * f, FileSize(ss[0]), ss[0]) && Holds(image, p * (f + r), FileSize(ss[1]), ss[1])
    ensures |ss| > 2 ==> Holds(image, p * (f + r + d), FileSize(ss[2]), ss[2])
    ensures |ss| > 3 ==> Holds(image, p * (f + r + d + t), FileSize(ss[3]), ss[3])
  {}

  lemma VendorFiles(a: VendorArgs, entries: seq<Entry>, files: Files, image: Bytes)
    requires IsVendorImage(a, entries, files, image)
    ensures AllPack(TableFields(entries))
    ensures var ss, table := VendorSections(a, entries, files), PackAll(TableFields(entries));
            && |ss| == (if a.headerVersion > 3 then 4 else 2) && ss[1] == a.dtb
            && ss[0] == (if a.headerVersion > 3 then Some(Ramdisks(entries, files)) else a.ramdisk)
            && (a.headerVersion > 3 ==> ss[2] == Some(table) && ss[3] == a.bootconfig)
            && FileSize(Some(Ramdisks(entries, files))) == TotalSize(entries)
            && FileSize(Some(table)) == 108 * |entries|
  {
    hide VendorImage, VendorFields, Tiled, AllPack, Ramdisks, PackAll, TableFields;
    RamdisksSize(entries, files);
    TableSize(entries, files);
  }

  /** A loader finds every section of a vendor image by the words of its header: the ramdisks behind the
      header's pages, then the DTB, and in version 4 the table of ramdisks and the boot configuration. */
  lemma VendorLoaderFinds(a: VendorArgs, entries: seq<Entry>, files: Files, image: Bytes, p: nat, f: nat, r: nat,
                          d: nat, t: nat)
    requires IsVendorImage(a, entries, files, image) && p == Word(image, 12) > 0 && f == Up(Word(image, 2096), p)
    requires r == Up(Word(image, 24), p) && d == Up(Word(image, 2100), p)
    requires a.headerVersion == 4 ==> t == Up(Word(image, 2112), p)
    ensures AllPack(TableFields(entries)) && Holds(image, p * (f + r), Word(image, 2100), a.dtb)
    ensures a.headerVersion == 3 ==> Holds(image, p * f, Word(image, 24), a.ramdisk)
    ensures a.headerVersion == 4 ==> Holds(image, p * f, Word(image, 24), Some(Ramdisks(entries, files)))
    ensures a.headerVersion == 4 ==>
      Holds(image, p * (f + r + d), Word(image, 2112), Some(PackAll(TableFields(entries))))
    ensures a.headerVersion == 4 ==> Holds(image, p * (f + r + d + t), Word(image, 2124), a.bootconfig)
  {
    hide *;
    VendorLoaderWords(a, entries, files, image);
    VendorInOrder(a, entries, files, image);
    VendorFiles(a, entries, files, image);
    VendorPlaces(image, VendorSections(a, entries, files), p, f, r, d, t);
  }
}
