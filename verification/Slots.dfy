/** What the slot operations of PartitionTableUpdate.c do to the in-memory entries. */
module Slots {
  import opened SlotBits
  import opened EntryWalk

  const SUFFIX_A: Name := [0x5F, 0x61]
  const SUFFIX_B: Name := [0x5F, 0x62]
  const BOOT: Name := [0x62, 0x6F, 0x6F, 0x74]
  const BOOT_A: Name := [0x62, 0x6F, 0x6F, 0x74, 0x5F, 0x61]
  const BOOT_B: Name := [0x62, 0x6F, 0x6F, 0x74, 0x5F, 0x62]
  const BOOT_PART_SIZE := 32

  // ---------- Names ----------

  predicate OccursAt(n: Name, s: Name, k: nat) {
    k + |s| <= |n| && n[k..k + |s|] == s
  }

  /** StrStr finds `s` in `n`. */
  predicate Contains(n: Name, s: Name) {
    exists k :: 0 <= k <= |n| && OccursAt(n, s, k)
  }

  /** X_a or X_b. */
  predicate IsSlotName(n: Name) {
    |n| >= 2 && (n[|n| - 2..] == SUFFIX_A || n[|n| - 2..] == SUFFIX_B)
  }

  function Base(n: Name): Name
    requires |n| >= 2
  {
    n[..|n| - 2]
  }

  /** A slot name that fits the buffers of SwitchPtnSlots, terminator included. */
  predicate Swappable(n: Name) { IsSlotName(n) && |n| < BOOT_PART_SIZE }

  function OtherSuffix(s: Name): Name {
    if s == SUFFIX_A then SUFFIX_B else SUFFIX_A
  }

  /** X_b for X_a and X_a for X_b. */
  function Flip(n: Name): Name
    requires IsSlotName(n)
  {
    Base(n) + OtherSuffix(n[|n| - 2..])
  }

  /** The two names differ at most in their last character. */
  predicate Twins(m: Name, n: Name) {
    |m| == |n| > 0 && m[..|m| - 1] == n[..|n| - 1]
  }

  /** The test by which GetMultiSlotPartsList pairs entry `i` with a later entry `j`. */
  predicate ListTest(names: seq<Name>, i: nat, j: nat)
    requires i < |names| && j < |names|
  {
    Twins(names[i], names[j]) && (Contains(names[i], SUFFIX_A) || Contains(names[i], SUFFIX_B))
  }

  function Names(mem: seq<PartitionEntry>): (names: seq<Name>)
    ensures |names| == |mem|
  {
    seq(|mem|, i requires 0 <= i < |mem| => mem[i].name)
  }

  /** The position of the first entry with this name, or the number of entries. */
  function Find(names: seq<Name>, n: Name): (i: nat)
    ensures i <= |names|
    ensures i < |names| ==> names[i] == n
    ensures forall j :: 0 <= j < i ==> names[j] != n
    decreases |names|
  {
    if names == [] || names[0] == n then 0 else 1 + Find(names[1..], n)
  }

  /** What the code relies on in the names of a table:
      - names are unique;
      - two that differ in the last character only, and have _a or _b in them, are an X_a/X_b pair;
      - no slot name is a proper prefix of another name;
      - what is in front of _a or _b fits the list of slotted partitions. */
  ghost predicate WellNamed(names: seq<Name>) {
    && (forall i, j :: 0 <= i < j < |names| && names[i] == names[j] ==> names[i] == [])
    && (forall i, j :: 0 <= i < j < |names| && ListTest(names, i, j) ==> IsSlotName(names[i]) && IsSlotName(names[j]))
    && (forall i, j :: 0 <= i < |names| && 0 <= j < |names| && i != j && IsSlotName(names[i]) ==>
        !(names[i] <= names[j]))
    && (forall i :: 0 <= i < |names| && IsSlotName(names[i]) ==> |Base(names[i])| < BOOT_PART_SIZE)
  }

  /** Handles without a partition record have a zeroed entry. */
  ghost predicate BlanksZero(mem: seq<PartitionEntry>) {
    forall i :: 0 <= i < |mem| && Blank(mem[i].typeGuid) ==> mem[i].name == [] && mem[i].attributes == 0
  }

  // ---------- GetActiveSlot ----------

  /** GetBootPartitionEntry: the entry of `boot_a` or `boot_b`, or the number of entries. The
      comparison is as long as the suffix. */
  function BootIndex(mem: seq<PartitionEntry>, suffix: Name): (i: nat)
    ensures i <= |mem|
  {
    if suffix <= SUFFIX_A then Find(Names(mem), BOOT_A)
    else if suffix <= SUFFIX_B then Find(Names(mem), BOOT_B)
    else |mem|
  }

  predicate HasBoot(mem: seq<PartitionEntry>) {
    BootIndex(mem, SUFFIX_A) < |mem| && BootIndex(mem, SUFFIX_B) < |mem|
  }

  function BootAttributes(mem: seq<PartitionEntry>, suffix: Name): bv64
    requires BootIndex(mem, suffix) < |mem|
  {
    mem[BootIndex(mem, suffix)].attributes
  }

  function SetAttributes(mem: seq<PartitionEntry>, i: nat, a: bv64): (r: seq<PartitionEntry>)
    requires i < |mem|
    ensures |r| == |mem|
  {
    mem[i := mem[i].(attributes := a)]
  }

  /** The priority that counts: an inactive slot has none. */
  function Standing(a: bv64): bv64 { if IsActive(a) then Priority(a) else 0 }

  predicate Higher(p: bv64, q: bv64) { p > q }

  datatype Result = Result(ok: bool, suffix: Name, mem: seq<PartitionEntry>)

  /** GetActiveSlot: the active boot slot of higher priority, the first on a tie; on a table
      no one has set up yet, slot _a, which is then set up. */
  function GetActive(mem: seq<PartitionEntry>): (r: Result)
    ensures |r.mem| == |mem|
  {
    var a, b := BootIndex(mem, SUFFIX_A), BootIndex(mem, SUFFIX_B);
    if a == |mem| then Result(false, [], mem)
    else
      var sa := if Higher(Standing(mem[a].attributes), 0) then SUFFIX_A else [];
      if b == |mem| then Result(false, sa, mem)
      else
        var s := if Higher(Standing(mem[b].attributes), Standing(mem[a].attributes)) then SUFFIX_B else sa;
        if s != [] then Result(true, s, mem)
        else if Untouched(mem[a].attributes)
        then Result(true, SUFFIX_A, SetAttributes(mem, a, FirstBoot(mem[a].attributes)))
        else Result(false, [], mem)
  }

  // ---------- Switching ----------

  /** The entry whose GUID entry `i` trades for, or `i` itself. */
  function Partner(names: seq<Name>, i: nat): (p: nat)
    requires i < |names|
    ensures p < |names|
  {
    if Swappable(names[i]) && Find(names, Flip(names[i])) < |names| then Find(names, Flip(names[i])) else i
  }

  /** Every X_a/X_b pair has traded type GUIDs, unless its names are too long for the buffers. */
  function Switched(mem: seq<PartitionEntry>): (r: seq<PartitionEntry>)
    ensures |r| == |mem|
  {
    seq(|mem|, i requires 0 <= i < |mem| => mem[i].(typeGuid := mem[Partner(Names(mem), i)].typeGuid))
  }

  /** MarkPtnActive: exactly the entries whose name has the suffix in it are active. */
  function Marked(mem: seq<PartitionEntry>, suffix: Name): (r: seq<PartitionEntry>)
    ensures |r| == |mem|
  {
    seq(|mem|, i requires 0 <= i < |mem| =>
      mem[i].(attributes := if Contains(mem[i].name, suffix) then MarkActive(mem[i].attributes)
              else MarkInactive(mem[i].attributes)))
  }

  // ---------- SetActiveSlot ----------

  /** The two boot entries edited, the new slot's first. */
  function Elected(mem: seq<PartitionEntry>, new_: Name, resetSuccess: bool, setSuccess: bool): (r: seq<PartitionEntry>)
    requires BootIndex(mem, new_) < |mem| && HasBoot(mem)
    ensures |r| == |mem|
  {
    var alternate := if SUFFIX_A <= new_ then SUFFIX_B else SUFFIX_A;
    var i := BootIndex(mem, new_);
    var m := SetAttributes(mem, i, Promote(mem[i].attributes, resetSuccess, setSuccess));
    var j := BootIndex(mem, alternate);
    SetAttributes(m, j, Demote(m[j].attributes))
  }

  function SetActive(mem: seq<PartitionEntry>, new_: Name, resetSuccess: bool, setSuccess: bool): (r: Result)
    ensures |r.mem| == |mem|
  {
    var g := GetActive(mem);
    if !g.ok || BootIndex(g.mem, new_) == |mem| then Result(false, g.suffix, g.mem)
    else
      GetActiveHasBoot(mem);
      var m := Elected(g.mem, new_, resetSuccess, setSuccess);
      if g.suffix <= new_ then Result(true, new_, m) else Result(true, new_, Marked(Switched(m), new_))
  }

  lemma NamesOfUpdate(mem: seq<PartitionEntry>, i: nat, a: bv64)
    requires i < |mem|
    ensures Names(SetAttributes(mem, i, a)) == Names(mem)
  {}

  lemma GetActiveHasBoot(mem: seq<PartitionEntry>)
    ensures Names(GetActive(mem).mem) == Names(mem)
    ensures GetActive(mem).ok ==> HasBoot(mem) && HasBoot(GetActive(mem).mem)
  {
    hide FirstBoot, Untouched, Standing;
    var a := BootIndex(mem, SUFFIX_A);
    if a < |mem| {
      NamesOfUpdate(mem, a, FirstBoot(mem[a].attributes));
    }
  }

  /** The comparisons with _a and _b. */
  lemma SuffixTests(s: Name)
    requires IsSuffix(s)
    ensures SUFFIX_A <= s <==> s == [0x5F, 0x61]
    ensures SUFFIX_B <= s <==> s == [0x5F, 0x62]
    ensures s == [0x5F, 0x61] || s == [0x5F, 0x62]
  {
    BootNames();
  }

  // ---------- The slot that was set is the active one ----------

  lemma BootNames()
    ensures Contains(BOOT_A, SUFFIX_A) && !Contains(BOOT_A, SUFFIX_B)
    ensures Contains(BOOT_B, SUFFIX_B) && !Contains(BOOT_B, SUFFIX_A)
    ensures !(SUFFIX_A <= SUFFIX_B) && !(SUFFIX_B <= SUFFIX_A) && BOOT_A != BOOT_B
  {
    assert SUFFIX_A[1] != SUFFIX_B[1] && BOOT_A[5] != BOOT_B[5];
    assert OccursAt(BOOT_A, SUFFIX_A, 4) && OccursAt(BOOT_B, SUFFIX_B, 4);
    forall k: nat | k <= 4 ensures !OccursAt(BOOT_A, SUFFIX_B, k) && !OccursAt(BOOT_B, SUFFIX_A, k) {
      assert BOOT_A[k..k + 2][0] == BOOT_A[k] && BOOT_B[k..k + 2][0] == BOOT_B[k];
      assert BOOT_A[k..k + 2][1] == BOOT_A[k + 1] && BOOT_B[k..k + 2][1] == BOOT_B[k + 1];
      if k < 4 {
        assert BOOT_A[k] != 0x5F && BOOT_B[k] != 0x5F;
      }
    }
  }

  predicate IsSuffix(s: Name) { s == SUFFIX_A || s == SUFFIX_B }

  /** The state of the two boot slots after a successful choice of slot `s`: only `s` is active,
      at full priority and retries and not unbootable; the other stands below it. */
  predicate Chosen(mem: seq<PartitionEntry>, s: Name) {
    && IsSuffix(s) && HasBoot(mem)
    && var a, b := BootAttributes(mem, s), BootAttributes(mem, OtherSuffix(s));
    && IsActive(a) && Priority(a) == 3 && RetryCount(a) == 7 && !IsUnbootable(a)
    && !IsActive(b) && Priority(b) == 2
  }

  lemma ChosenIsActive(mem: seq<PartitionEntry>, s: Name)
    requires Chosen(mem, s)
    ensures GetActive(mem) == Result(true, s, mem)
  {
    hide IsActive, Priority, Find;
    BootNames();
  }

  lemma BootIndices(mem: seq<PartitionEntry>)
    requires HasBoot(mem)
    ensures mem[BootIndex(mem, SUFFIX_A)].name == BOOT_A && mem[BootIndex(mem, SUFFIX_B)].name == BOOT_B
    ensures BootIndex(mem, SUFFIX_A) != BootIndex(mem, SUFFIX_B)
  {
    BootNames();
  }

  lemma SameNames(m: seq<PartitionEntry>, n: seq<PartitionEntry>)
    requires Names(m) == Names(n)
    ensures forall s :: BootIndex(m, s) == BootIndex(n, s)
  {
    assert |m| == |Names(m)| == |Names(n)| == |n|;
  }

  lemma ElectedEntries(mem: seq<PartitionEntry>, s: Name, resetSuccess: bool, setSuccess: bool)
    requires HasBoot(mem) && IsSuffix(s)
    ensures var m := Elected(mem, s, resetSuccess, setSuccess);
            var i, j := BootIndex(mem, s), BootIndex(mem, OtherSuffix(s));
            && i != j && Names(m) == Names(mem)
            && m == mem[i := mem[i].(attributes := Promote(mem[i].attributes, resetSuccess, setSuccess))]
                       [j := mem[j].(attributes := Demote(mem[j].attributes))]
  {
    hide Promote, Demote, Names, Find;
    BootNames();
    BootIndices(mem);
    assert (if SUFFIX_A <= s then SUFFIX_B else SUFFIX_A) == OtherSuffix(s);
    assert BootIndex(mem, s) < |mem| && BootIndex(mem, OtherSuffix(s)) < |mem|;
    assert BootIndex(mem, s) != BootIndex(mem, OtherSuffix(s));
    hide BootIndex;
    var i := BootIndex(mem, s);
    NamesOfUpdate(mem, i, Promote(mem[i].attributes, resetSuccess, setSuccess));
    var m := SetAttributes(mem, i, Promote(mem[i].attributes, resetSuccess, setSuccess));
    SameNames(mem, m);
    var j := BootIndex(mem, OtherSuffix(s));
    NamesOfUpdate(m, j, Demote(m[j].attributes));
  }

  lemma ElectedChosen(mem: seq<PartitionEntry>, s: Name, resetSuccess: bool, setSuccess: bool)
    requires HasBoot(mem) && IsSuffix(s)
    ensures var m := Elected(mem, s, resetSuccess, setSuccess);
            && Names(m) == Names(mem) && Chosen(m, s)
            && BootAttributes(m, s) == Promote(BootAttributes(mem, s), resetSuccess, setSuccess)
            && BootAttributes(m, OtherSuffix(s)) == Demote(BootAttributes(mem, OtherSuffix(s)))
  {
    hide Elected, Promote, Demote, IsActive, Priority, RetryCount, IsUnbootable, BootIndex, Names;
    ElectedEntries(mem, s, resetSuccess, setSuccess);
    SameNames(Elected(mem, s, resetSuccess, setSuccess), mem);
    PromoteFields(BootAttributes(mem, s), resetSuccess, setSuccess);
    DemoteFields(BootAttributes(mem, OtherSuffix(s)));
  }

  lemma MarkedEntries(mem: seq<PartitionEntry>, s: Name)
    requires HasBoot(mem) && IsSuffix(s)
    ensures var m := Marked(mem, s);
            var i, j := BootIndex(mem, s), BootIndex(mem, OtherSuffix(s));
            && Names(m) == Names(mem)
            && m[i].attributes == MarkActive(mem[i].attributes) && m[j].attributes == MarkInactive(mem[j].attributes)
  {
    hide MarkActive, MarkInactive, Find, Contains;
    BootNames();
    BootIndices(mem);
    assert Names(Marked(mem, s)) == Names(mem);
  }

  lemma MarkedChosen(mem: seq<PartitionEntry>, s: Name)
    requires Chosen(mem, s)
    ensures var m := Marked(mem, s);
            && Names(m) == Names(mem) && Chosen(m, s)
            && BootAttributes(m, s) == MarkActive(BootAttributes(mem, s))
            && BootAttributes(m, OtherSuffix(s)) == MarkInactive(BootAttributes(mem, OtherSuffix(s)))
  {
    hide Marked, MarkActive, MarkInactive, IsActive, Priority, RetryCount, IsUnbootable, BootIndex, Names;
    MarkedEntries(mem, s);
    SameNames(Marked(mem, s), mem);
    MarkActiveFields(BootAttributes(mem, s));
    MarkInactiveFields(BootAttributes(mem, OtherSuffix(s)));
  }

  /** Over the whole table, the active bit says whether the name has the suffix in it; nothing else
      changes. */
  lemma MarkedExact(mem: seq<PartitionEntry>, s: Name, i: nat)
    requires i < |mem|
    ensures var e, m := mem[i], Marked(mem, s)[i];
            && m == e.(attributes := m.attributes)
            && (IsActive(m.attributes) <==> exists k :: 0 <= k <= |e.name| && OccursAt(e.name, s, k))
            && OtherBits(m.attributes) == OtherBits(e.attributes) && Priority(m.attributes) == Priority(e.attributes)
            && RetryCount(m.attributes) == RetryCount(e.attributes)
            && IsSuccessful(m.attributes) == IsSuccessful(e.attributes)
            && IsUnbootable(m.attributes) == IsUnbootable(e.attributes)
  {
    hide MarkActive, MarkInactive, IsActive, IsSuccessful, IsUnbootable, Priority, RetryCount, OtherBits, OccursAt;
    MarkActiveFields(mem[i].attributes);
    MarkInactiveFields(mem[i].attributes);
  }

  // ---------- Which slot is active ----------

  /** The slot is marked active and has a priority. */
  predicate Stands(a: bv64) { IsActive(a) && Priority(a) != 0 }

  /** Slot `b` stands, and above slot `a`. */
  predicate Beats(b: bv64, a: bv64) { Stands(b) && (!Stands(a) || Higher(Priority(b), Priority(a))) }

  /** The slot reported: the one that stands, slot _a unless slot _b stands above it; if neither
      stands and slot _a is as the factory left it, slot _a, which is then set up; and otherwise
      none. */
  lemma ActiveExact(mem: seq<PartitionEntry>)
    requires HasBoot(mem)
    ensures var a, b, r := BootAttributes(mem, SUFFIX_A), BootAttributes(mem, SUFFIX_B), GetActive(mem);
            && (Beats(b, a) ==> r == Result(true, [0x5F, 0x62], mem))
            && (Stands(a) && !Beats(b, a) ==> r == Result(true, [0x5F, 0x61], mem))
            && (!Stands(a) && !Stands(b) && !Untouched(a) ==> r == Result(false, [], mem))
            && (!Stands(b) && Untouched(a) ==>
                r == Result(true, [0x5F, 0x61], SetAttributes(mem, BootIndex(mem, SUFFIX_A), FirstBoot(a))))
  {
    var a, b := BootAttributes(mem, SUFFIX_A), BootAttributes(mem, SUFFIX_B);
    StandingValue(a, b);
    StandsOrBeaten(a, b);
    hide FirstBoot, BootIndex, Beats, Stands, Standing, Untouched, Higher;
  }

  lemma StandsOrBeaten(a: bv64, b: bv64)
    ensures Untouched(a) ==> !Stands(a)
    ensures Beats(b, a) ==> Stands(b)
    ensures Stands(b) ==> Stands(a) || Beats(b, a)
  {
    hide Priority, IsActive, IsSuccessful, IsUnbootable;
  }

  lemma StandingValue(a: bv64, b: bv64)
    ensures Higher(Standing(a), 0) == Stands(a)
    ensures Higher(Standing(b), Standing(a)) == Beats(b, a)
  {
    HigherValue(Priority(b), Priority(a));
    HigherValue(Priority(a), 0);
    HigherValue(Priority(b), 0);
    HigherValue(0, Priority(a));
    HigherValue(0, 0);
    hide Priority, IsActive, Higher;
  }

  /** The comparison is of unsigned numbers. */
  lemma HigherValue(p: bv64, q: bv64)
    ensures Higher(p, q) == (p > q) && (q == 0 ==> Higher(p, q) == (p != 0)) && (p == 0 ==> !Higher(p, q))
  {}

  /** On a table without both boot entries nothing is active and nothing changes. */
  lemma NoBootInactive(mem: seq<PartitionEntry>)
    requires !HasBoot(mem)
    ensures !GetActive(mem).ok && GetActive(mem).mem == mem
  {
    hide Standing, FirstBoot, Untouched, Find;
    BootNames();
  }

  lemma SwitchedKeeps(mem: seq<PartitionEntry>)
    ensures Names(Switched(mem)) == Names(mem)
    ensures forall s :: BootIndex(mem, s) == BootIndex(Switched(mem), s)
    ensures forall i :: 0 <= i < |mem| ==> Switched(mem)[i].attributes == mem[i].attributes
  {
    SameNames(mem, Switched(mem));
  }

  /** What a successful SetActiveSlot(s) promises of the table it leaves, from the table `g`
      GetActiveSlot left. */
  predicate SlotSet(g: seq<PartitionEntry>, m: seq<PartitionEntry>, s: Name, resetSuccess: bool, setSuccess: bool) {
    && IsSuffix(s) && HasBoot(g) && Chosen(m, s) && Names(m) == Names(g)
    && IsSuccessful(BootAttributes(m, s)) == (setSuccess || (IsSuccessful(BootAttributes(g, s)) && !resetSuccess))
    && IsSuccessful(BootAttributes(m, OtherSuffix(s))) == IsSuccessful(BootAttributes(g, OtherSuffix(s)))
    && IsUnbootable(BootAttributes(m, OtherSuffix(s))) == IsUnbootable(BootAttributes(g, OtherSuffix(s)))
  }

  lemma ElectedSet(g: seq<PartitionEntry>, s: Name, resetSuccess: bool, setSuccess: bool)
    requires HasBoot(g) && IsSuffix(s)
    ensures var m := Elected(g, s, resetSuccess, setSuccess);
            SlotSet(g, m, s, resetSuccess, setSuccess)
              && SlotSet(g, Marked(Switched(m), s), s, resetSuccess, setSuccess)
  {
    hide Elected, Marked, Switched, IsSuccessful, IsUnbootable, Promote, Demote, MarkActive, MarkInactive, Names,
         BootIndex, IsActive, Priority, RetryCount;
    var m := Elected(g, s, resetSuccess, setSuccess);
    var a, b := BootAttributes(g, s), BootAttributes(g, OtherSuffix(s));
    ElectedChosen(g, s, resetSuccess, setSuccess);
    PromoteFields(a, resetSuccess, setSuccess);
    DemoteFields(b);
    SwitchedChosen(m, s);
    MarkedChosen(Switched(m), s);
    MarkActiveFields(Promote(a, resetSuccess, setSuccess));
    MarkInactiveFields(Demote(b));
  }

  /** SetActiveSlot succeeds exactly when GetActiveSlot does; then, through either branch,
      GetActiveSlot reads back the slot that was set, and the boot slots are as promised. */
  lemma SetThenGet(mem: seq<PartitionEntry>, s: Name, resetSuccess: bool, setSuccess: bool)
    requires IsSuffix(s)
    ensures var g, r := GetActive(mem), SetActive(mem, s, resetSuccess, setSuccess);
            && r.ok == g.ok
            && (r.ok ==>
                SlotSet(g.mem, r.mem, s, resetSuccess, setSuccess) && GetActive(r.mem) == Result(true, s, r.mem))
  {
    hide GetActive, Elected, Marked, Switched, SlotSet;
    var g := GetActive(mem);
    GetActiveHasBoot(mem);
    if g.ok {
      ElectedSet(g.mem, s, resetSuccess, setSuccess);
      var r := SetActive(mem, s, resetSuccess, setSuccess);
      SetIsActive(g.mem, r.mem, s, resetSuccess, setSuccess);
    }
  }

  lemma SetIsActive(g: seq<PartitionEntry>, m: seq<PartitionEntry>, s: Name, resetSuccess: bool, setSuccess: bool)
    requires SlotSet(g, m, s, resetSuccess, setSuccess)
    ensures GetActive(m) == Result(true, s, m)
  {
    hide GetActive, IsSuccessful, IsUnbootable, Names;
    ChosenIsActive(m, s);
  }

  lemma SwitchedChosen(mem: seq<PartitionEntry>, s: Name)
    requires Chosen(mem, s)
    ensures Chosen(Switched(mem), s) && Names(Switched(mem)) == Names(mem)
    ensures BootAttributes(Switched(mem), s) == BootAttributes(mem, s)
    ensures BootAttributes(Switched(mem), OtherSuffix(s)) == BootAttributes(mem, OtherSuffix(s))
  {
    hide Switched, IsActive, Priority, RetryCount, IsUnbootable, Find;
    SwitchedKeeps(mem);
  }
}
