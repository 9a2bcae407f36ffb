/** Facts that tie the loops of SwitchPtnSlots and MarkPtnActive to Switched and Marked. */
module SlotSwitch {
  import opened SlotBits
  import opened EntryWalk
  import opened Slots
  import opened SlotRuns

  // ---------- The list of slotted partitions ----------

  /** Both X_a and X_b are present, for base name `x`. */
  predicate IsPairBase(names: seq<Name>, x: Name) {
    x + SUFFIX_A in names && x + SUFFIX_B in names
  }

  ghost predicate NoDuplicates(list: seq<Name>) {
    forall i, j :: 0 <= i < j < |list| ==> list[i] != list[j]
  }

  /** The list holds the base name of every pair, once each. */
  ghost predicate IsPairList(list: seq<Name>, names: seq<Name>) {
    NoDuplicates(list) && forall x :: x in list <==> IsPairBase(names, x)
  }

  /** Entry `i` belongs to a pair whose base is in `done` and whose names fit. */
  predicate Swaps(names: seq<Name>, done: seq<Name>, i: nat)
    requires i < |names|
  {
    Swappable(names[i]) && Base(names[i]) in done
  }

  /** Only the pairs whose base is in `done` have traded GUIDs. */
  function SwitchedFor(mem: seq<PartitionEntry>, done: seq<Name>): (r: seq<PartitionEntry>)
    ensures |r| == |mem|
  {
    seq(|mem|, i requires 0 <= i < |mem| =>
      if Swaps(Names(mem), done, i) then mem[i].(typeGuid := mem[Partner(Names(mem), i)].typeGuid) else mem[i])
  }

  lemma SuffixParts(x: Name, s: Name)
    requires IsSuffix(s)
    ensures IsSlotName(x + s) && Base(x + s) == x && Flip(x + s) == x + OtherSuffix(s)
  {
    BootNames();
    assert (x + s)[|x|..] == s && (x + s)[..|x|] == x;
  }

  lemma PartsOf(n: Name)
    requires IsSlotName(n)
    ensures n == Base(n) + SUFFIX_A || n == Base(n) + SUFFIX_B
  {
    assert n == Base(n) + n[|n| - 2..];
  }

  /** A slot name with a partner is one of a pair. */
  lemma PartnerPair(names: seq<Name>, i: nat)
    requires WellNamed(names) && i < |names|
    ensures Partner(names, i) != i ==> Swappable(names[i]) && IsPairBase(names, Base(names[i]))
    ensures Swappable(names[i]) && IsPairBase(names, Base(names[i])) ==>
      Partner(names, i) != i && names[Partner(names, i)] == Flip(names[i])
  {
    if IsSlotName(names[i]) {
      var x := Base(names[i]);
      PartsOf(names[i]);
      FlipTwice(names[i]);
      SuffixParts(x, SUFFIX_A);
      SuffixParts(x, SUFFIX_B);
      assert Flip(names[i]) == x + OtherSuffix(names[i][|names[i]| - 2..]);
      var f := Find(names, Flip(names[i]));
      assert names[i] in names && (f < |names| ==> names[f] in names);
      if IsPairBase(names, x) {
        FindPresent(names, Flip(names[i]));
      }
    }
  }

  lemma FindPresent(names: seq<Name>, n: Name)
    requires n in names
    ensures Find(names, n) < |names|
  {}

  /** With the whole list done, every pair has traded. */
  lemma SwitchedForAll(mem: seq<PartitionEntry>, list: seq<Name>)
    requires WellNamed(Names(mem)) && IsPairList(list, Names(mem))
    ensures SwitchedFor(mem, list) == Switched(mem)
  {
    hide WellNamed;
    var names := Names(mem);
    forall i | 0 <= i < |mem| ensures SwitchedFor(mem, list)[i] == Switched(mem)[i] {
      PartnerPair(names, i);
      if IsSlotName(names[i]) {
        assert Base(names[i]) in list <==> IsPairBase(names, Base(names[i]));
      }
    }
  }

  /** The two entries of a pair trade GUIDs if and only if their names are shorter than 32
      characters. */
  lemma PairTrades(mem: seq<PartitionEntry>, i: nat, j: nat)
    requires WellNamed(Names(mem)) && i < |mem| && j < |mem|
    requires IsSlotName(mem[i].name) && mem[j].name == Flip(mem[i].name)
    ensures Switched(mem)[i].typeGuid == if |mem[i].name| < BOOT_PART_SIZE then mem[j].typeGuid else mem[i].typeGuid
    ensures Switched(mem)[j].typeGuid == if |mem[i].name| < BOOT_PART_SIZE then mem[i].typeGuid else mem[j].typeGuid
  {
    FlipTwice(mem[i].name);
    FindUnique(Names(mem), i);
    FindUnique(Names(mem), j);
  }

  /** A pair of 32-character names stays as it is. */
  lemma LongPair(g: Guid, h: Guid, record: seq<bv8>)
    requires g != h
    ensures var x: Name := seq(30, _ => 0x78);
            var mem := [PartitionEntry(g, record, 0, x + SUFFIX_A, 0), PartitionEntry(h, record, 0, x + SUFFIX_B, 0)];
            WellNamed(Names(mem)) && IsPairBase(Names(mem), x) && Switched(mem) == mem
  {
    var x: Name := seq(30, _ => 0x78);
    var a, b := x + SUFFIX_A, x + SUFFIX_B;
    var mem := [PartitionEntry(g, record, 0, a, 0), PartitionEntry(h, record, 0, b, 0)];
    SuffixParts(x, SUFFIX_A);
    SuffixParts(x, SUFFIX_B);
    assert a[31] == 0x61 && b[31] == 0x62 && |a| == |b| == 32;
    assert Names(mem) == [a, b];
    assert Names(mem)[0] == a && Names(mem)[1] == b;
    assert WellNamed([a, b]);
  }

  lemma SwitchedForNone(mem: seq<PartitionEntry>)
    ensures SwitchedFor(mem, []) == mem
  {}

  // ---------- One turn of the loop over the list ----------

  /** `x` and a suffix, with a terminator, fit the buffers of SwitchPtnSlots. */
  predicate FitsBuffer(x: Name) { |x| + 2 < BOOT_PART_SIZE }

  /** StrnCatS onto a name in such a buffer: all of the suffix, or none of it. */
  function Appended(x: Name, s: Name): Name { if |x| + |s| < BOOT_PART_SIZE then x + s else x }

  /** Positions `p` and `q` hold the two entries of pair `x`. */
  predicate AreThePair(names: seq<Name>, x: Name, s: Name, p: nat, q: nat) {
    p < |names| && q < |names| && names[p] == x + OtherSuffix(s) && names[q] == x + s
  }

  function SwapGuids(mem: seq<PartitionEntry>, p: nat, q: nat): (r: seq<PartitionEntry>)
    requires p < |mem| && q < |mem|
    ensures |r| == |mem|
  {
    mem[p := mem[p].(typeGuid := mem[q].typeGuid)][q := mem[q].(typeGuid := mem[p].typeGuid)]
  }

  lemma PairPartners(names: seq<Name>, x: Name, s: Name, p: nat, q: nat)
    requires WellNamed(names) && IsSuffix(s) && AreThePair(names, x, s, p, q)
    ensures p != q && (FitsBuffer(x) ==> Partner(names, p) == q && Partner(names, q) == p)
    ensures IsSlotName(names[p]) && Base(names[p]) == x && IsSlotName(names[q]) && Base(names[q]) == x
  {
    SuffixParts(x, s);
    TwoSlots(s, s, s);
    SuffixParts(x, OtherSuffix(s));
    assert (x + s)[|x|..] == s && (x + OtherSuffix(s))[|x|..] == OtherSuffix(s);
    FindUnique(names, p);
    FindUnique(names, q);
  }

  /** One more pair on the list: it trades if its names fit, and nothing changes if they do not. */
  lemma SwapStep(mem: seq<PartitionEntry>, done: seq<Name>, x: Name, s: Name, p: nat, q: nat)
    requires WellNamed(Names(mem)) && IsSuffix(s) && AreThePair(Names(mem), x, s, p, q) && x !in done
    ensures SwitchedFor(mem, done + [x]) == if FitsBuffer(x) then SwapGuids(SwitchedFor(mem, done), p, q)
            else SwitchedFor(mem, done)
  {
    hide WellNamed, Partner, IsSlotName, IsSuffix;
    var names := Names(mem);
    var r := if FitsBuffer(x) then SwapGuids(SwitchedFor(mem, done), p, q) else SwitchedFor(mem, done);
    PairPartners(names, x, s, p, q);
    forall i | 0 <= i < |mem| ensures r[i] == SwitchedFor(mem, done + [x])[i] {
      if i != p && i != q && IsSlotName(names[i]) {
        OtherBase(names, x, s, p, q, i);
      }
    }
  }

  /** No third entry belongs to the pair. */
  lemma OtherBase(names: seq<Name>, x: Name, s: Name, p: nat, q: nat, i: nat)
    requires WellNamed(names) && IsSuffix(s) && AreThePair(names, x, s, p, q)
    requires i < |names| && i != p && i != q && IsSlotName(names[i])
    ensures Base(names[i]) != x
  {
    PartsOf(names[i]);
    TwoSlots(s, s, s);
    SuffixParts(x, s);
    SuffixParts(x, OtherSuffix(s));
    if Base(names[i]) == x {
      FindUnique(names, i);
      FindUnique(names, p);
      FindUnique(names, q);
    }
  }

  // ---------- Memory that differs from its backup as one flush expects ----------

  lemma SetAttributesChanges(bak: seq<PartitionEntry>, mem: seq<PartitionEntry>, i: nat, a: bv64)
    requires ChangedOnly(bak, mem, Attributes) && i < |mem| && !Blank(mem[i].typeGuid)
    ensures ChangedOnly(bak, SetAttributes(mem, i, a), Attributes)
  {}

  lemma MarkedChanges(mem: seq<PartitionEntry>, s: Name)
    requires BlanksZero(mem) && IsSuffix(s)
    ensures ChangedOnly(mem, Marked(mem, s), Attributes) && BlanksZero(Marked(mem, s))
            && Names(Marked(mem, s)) == Names(mem)
  {
    hide MarkActive, MarkInactive;
    MarkZero();
    forall i | 0 <= i < |mem| && mem[i].name == [] ensures !Contains(mem[i].name, s) {
    }
  }

  lemma SwitchedChanges(mem: seq<PartitionEntry>)
    requires BlanksZero(mem) && WellNamed(Names(mem))
    ensures ChangedOnly(mem, Switched(mem), Guids) && BlanksZero(Switched(mem)) && Names(Switched(mem)) == Names(mem)
  {
    hide WellNamed;
    forall i | 0 <= i < |mem| ensures Blank(mem[Partner(Names(mem), i)].typeGuid) == Blank(mem[i].typeGuid) {
      PartnerPair(Names(mem), i);
    }
  }

  // ---------- Collecting the list ----------

  /** The pair with base `x` has its first member before position `n`. */
  predicate PairBefore(names: seq<Name>, x: Name, n: nat) {
    IsPairBase(names, x) && (Find(names, x + SUFFIX_A) < n || Find(names, x + SUFFIX_B) < n)
  }

  /** The list so far, newest first. */
  ghost predicate ListBefore(list: seq<Name>, names: seq<Name>, n: nat) {
    NoDuplicates(list) && forall x :: x in list <==> PairBefore(names, x, n)
  }

  lemma SlotContains(n: Name)
    requires IsSlotName(n)
    ensures Contains(n, SUFFIX_A) || Contains(n, SUFFIX_B)
  {
    assert OccursAt(n, n[|n| - 2..], |n| - 2);
  }

  lemma ListTestPair(names: seq<Name>, i: nat, j: nat)
    requires WellNamed(names) && i < j < |names| && ListTest(names, i, j)
    ensures IsSlotName(names[i]) && names[j] == Flip(names[i]) && IsPairBase(names, Base(names[i]))
  {
    var m, n := names[i], names[j];
    assert IsSlotName(m) && IsSlotName(n) && m != n;
    assert m[..|m| - 1] == n[..|n| - 1];
    assert Base(m) == m[..|m| - 1][..|m| - 2] && Base(n) == n[..|n| - 1][..|n| - 2];
    PartsOf(m);
    PartsOf(n);
    SuffixParts(Base(m), SUFFIX_A);
    SuffixParts(Base(m), SUFFIX_B);
    BootNames();
    assert m in names && n in names;
  }

  lemma NewBase(names: seq<Name>, i: nat, j: nat)
    requires WellNamed(names) && i < j < |names| && ListTest(names, i, j)
    ensures IsSlotName(names[i]) && |names[i]| >= 2
    ensures !PairBefore(names, Base(names[i]), i) && PairBefore(names, Base(names[i]), i + 1)
  {
    hide WellNamed, ListTest, Find;
    ListTestPair(names, i, j);
    FindUnique(names, i);
    FindUnique(names, j);
    PartsOf(names[i]);
    SuffixParts(Base(names[i]), SUFFIX_A);
    SuffixParts(Base(names[i]), SUFFIX_B);
    BootNames();
  }

  lemma ListAdds(list: seq<Name>, names: seq<Name>, i: nat, j: nat)
    requires WellNamed(names) && ListBefore(list, names, i) && i < j < |names| && ListTest(names, i, j)
    ensures IsSlotName(names[i]) && ListBefore([Base(names[i])] + list, names, i + 1)
  {
    hide WellNamed, ListTest, PairBefore, IsSlotName;
    NewBase(names, i, j);
    var x := Base(names[i]);
    forall y ensures y in [x] + list <==> PairBefore(names, y, i + 1) {
      if y != x {
        OnlyOwnPair(names, y, i);
      }
    }
  }

  /** Position `i` is the first member of no pair but its own. */
  lemma OnlyOwnPair(names: seq<Name>, y: Name, i: nat)
    requires WellNamed(names) && i < |names|
    requires !IsSlotName(names[i]) || Base(names[i]) != y
    ensures PairBefore(names, y, i + 1) == PairBefore(names, y, i)
  {
    SuffixParts(y, SUFFIX_A);
    SuffixParts(y, SUFFIX_B);
  }

  lemma ListSkips(list: seq<Name>, names: seq<Name>, i: nat)
    requires WellNamed(names) && ListBefore(list, names, i) && i < |names|
    requires forall j :: i < j < |names| ==> !ListTest(names, i, j)
    ensures ListBefore(list, names, i + 1)
  {
    forall y ensures PairBefore(names, y, i + 1) == PairBefore(names, y, i) {
      if IsPairBase(names, y) {
        if IsSlotName(names[i]) && Base(names[i]) == y {
          LaterTwin(names, i);
        } else {
          OnlyOwnPair(names, y, i);
        }
      }
    }
  }

  lemma FlipTest(names: seq<Name>, i: nat, j: nat)
    requires i < |names| && j < |names| && IsSlotName(names[i]) && names[j] == Flip(names[i])
    ensures ListTest(names, i, j)
  {
    var n, x := names[i], Base(names[i]);
    PartsOf(n);
    SlotContains(n);
    assert n[..|n| - 1] == x + [0x5F] == names[j][..|n| - 1];
  }

  /** A member of a pair that finds no twin behind it has it before. */
  lemma LaterTwin(names: seq<Name>, i: nat)
    requires WellNamed(names) && i < |names| && IsSlotName(names[i]) && IsPairBase(names, Base(names[i]))
    requires forall j :: i < j < |names| ==> !ListTest(names, i, j)
    ensures PairBefore(names, Base(names[i]), i)
  {
    hide WellNamed, ListTest, Find;
    var n := names[i];
    var x, f := Base(n), Flip(n);
    PartsOf(n);
    SuffixParts(x, SUFFIX_A);
    SuffixParts(x, SUFFIX_B);
    FlipTwice(n);
    TwoSlots(SUFFIX_A, SUFFIX_A, SUFFIX_A);
    TwoSlots(SUFFIX_B, SUFFIX_B, SUFFIX_B);
    FindPresent(names, f);
    var j := Find(names, f);
    FindUnique(names, i);
    FlipTest(names, i, j);
  }

  lemma ListDone(list: seq<Name>, names: seq<Name>)
    requires ListBefore(list, names, |names|)
    ensures IsPairList(list, names)
  {
    forall x | IsPairBase(names, x) ensures x in list {
      FindPresent(names, x + SUFFIX_A);
    }
  }

  /** The prefix comparison of SwitchPtnSlots finds exactly the named entry. */
  lemma PrefixExact(names: seq<Name>, n: Name, i: nat)
    requires WellNamed(names) && n in names && IsSlotName(n) && i < |names|
    ensures n <= names[i] <==> i == Find(names, n)
  {
    FindPresent(names, n);
    var f := Find(names, n);
    assert i != f ==> !(names[f] <= names[i]);
  }
}
