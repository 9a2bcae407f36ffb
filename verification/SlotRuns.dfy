/** Whole runs: sequences of SetActiveSlot calls, and sequences of boots (BootSlotMain) and
    switches (SwitchSlotsAppEntryPoint), as they change the in-memory table. */
module SlotRuns {
  import opened SlotBits
  import opened EntryWalk
  import opened Slots

  // ---------- Trading GUIDs twice ----------

  lemma FlipTwice(n: Name)
    requires IsSlotName(n)
    ensures IsSlotName(Flip(n)) && Flip(n) != n && Flip(Flip(n)) == n
  {
    BootNames();
    var f := Flip(n);
    assert f[|f| - 2..] == OtherSuffix(n[|n| - 2..]) && n == Base(n) + n[|n| - 2..] && Base(f) == Base(n);
  }

  lemma FindUnique(names: seq<Name>, i: nat)
    requires WellNamed(names) && i < |names| && names[i] != []
    ensures Find(names, names[i]) == i
  {
    var j := Find(names, names[i]);
    assert j <= i;
  }

  /** The pairing of X_a with X_b is mutual. */
  lemma PartnerMutual(names: seq<Name>, i: nat)
    requires WellNamed(names) && i < |names|
    ensures Partner(names, Partner(names, i)) == i
  {
    var p := Partner(names, i);
    if p != i {
      FlipTwice(names[i]);
      assert names[p] == Flip(names[i]);
      FindUnique(names, i);
    }
  }

  function TypeGuids(mem: seq<PartitionEntry>): (g: seq<Guid>)
    ensures |g| == |mem|
  {
    seq(|mem|, i requires 0 <= i < |mem| => mem[i].typeGuid)
  }

  /** Every X_a/X_b pair that trades has the other's GUID, and every other entry its own. */
  function Exchanged(names: seq<Name>, guids: seq<Guid>): (g: seq<Guid>)
    requires |names| == |guids|
    ensures |g| == |guids|
  {
    seq(|guids|, i requires 0 <= i < |guids| => guids[Partner(names, i)])
  }

  lemma ExchangedTwice(names: seq<Name>, guids: seq<Guid>)
    requires |names| == |guids| && WellNamed(names)
    ensures Exchanged(names, Exchanged(names, guids)) == guids
  {
    hide WellNamed;
    forall i | 0 <= i < |guids| ensures Exchanged(names, Exchanged(names, guids))[i] == guids[i] {
      PartnerMutual(names, i);
    }
  }

  /** Only the pairs with a member before position `k` have traded. */
  function ExchangedBelow(names: seq<Name>, guids: seq<Guid>, k: nat): (g: seq<Guid>)
    requires |names| == |guids|
    ensures |g| == |guids|
  {
    seq(|guids|,
        i requires 0 <= i < |guids| => if i < k || Partner(names, i) < k then guids[Partner(names, i)] else guids[i])
  }

  lemma TradeNext(names: seq<Name>, guids: seq<Guid>, k: nat)
    requires |names| == |guids| && WellNamed(names) && k < |guids|
    ensures var p, g := Partner(names, k), ExchangedBelow(names, guids, k);
            ExchangedBelow(names, guids, k + 1) == if p > k then g[k := g[p]][p := g[k]] else g
  {
    hide WellNamed, Partner;
    var p, g := Partner(names, k), ExchangedBelow(names, guids, k);
    PartnerMutual(names, k);
    var traded := if p > k then g[k := g[p]][p := g[k]] else g;
    forall i | 0 <= i < |guids|
      ensures ExchangedBelow(names, guids, k + 1)[i] == traded[i]
    {
      PartnerMutual(names, i);
    }
  }

  lemma SwapKeeps<T>(g: seq<T>, i: nat, j: nat)
    requires i < j < |g|
    ensures multiset(g[i := g[j]][j := g[i]]) == multiset(g)
  {}

  lemma {:induction false} TradesKeepGuids(names: seq<Name>, guids: seq<Guid>, k: nat)
    requires |names| == |guids| && WellNamed(names) && k <= |guids|
    ensures multiset(ExchangedBelow(names, guids, k)) == multiset(guids)
    decreases k
  {
    hide WellNamed, Partner;
    if k == 0 {
      assert ExchangedBelow(names, guids, 0) == guids;
    } else {
      TradesKeepGuids(names, guids, k - 1);
      TradeNext(names, guids, k - 1);
      var p, g := Partner(names, k - 1), ExchangedBelow(names, guids, k - 1);
      hide ExchangedBelow;
      if p > k - 1 {
        SwapKeeps(g, k - 1, p);
      }
    }
  }

  /** An exchange loses no GUID and duplicates none. */
  lemma ExchangeKeepsGuids(names: seq<Name>, guids: seq<Guid>)
    requires |names| == |guids| && WellNamed(names)
    ensures multiset(Exchanged(names, guids)) == multiset(guids)
  {
    hide WellNamed, Partner;
    TradesKeepGuids(names, guids, |guids|);
    assert ExchangedBelow(names, guids, |guids|) == Exchanged(names, guids);
  }

  // ---------- Sequences of SetActiveSlot ----------

  datatype Request = Request(slot: Name, resetSuccess: bool, setSuccess: bool)

  function Requests(mem: seq<PartitionEntry>, rs: seq<Request>): (r: seq<PartitionEntry>)
    ensures |r| == |mem|
    decreases |rs|
  {
    if rs == [] then mem
    else Requests(SetActive(mem, rs[0].slot, rs[0].resetSuccess, rs[0].setSuccess).mem, rs[1..])
  }

  lemma SetGuids(mem: seq<PartitionEntry>, s: Name, resetSuccess: bool, setSuccess: bool)
    requires IsSuffix(s) && GetActive(mem).ok
    ensures var r := SetActive(mem, s, resetSuccess, setSuccess);
            && Names(r.mem) == Names(mem)
            && TypeGuids(r.mem) == if GetActive(mem).suffix == s then TypeGuids(mem)
               else Exchanged(Names(mem), TypeGuids(mem))
  {
    hide GetActive, Promote, Demote, FirstBoot, MarkActive, MarkInactive, Contains, Find, BootIndex;
    var g, r := GetActive(mem), SetActive(mem, s, resetSuccess, setSuccess);
    GetActiveHasBoot(mem);
    GetActiveGuids(mem);
    BootNames();
    var m := Elected(g.mem, s, resetSuccess, setSuccess);
    ElectedEntries(g.mem, s, resetSuccess, setSuccess);
    assert TypeGuids(m) == TypeGuids(g.mem);
    assert TypeGuids(Marked(Switched(m), s)) == Exchanged(Names(m), TypeGuids(m));
    assert Names(Marked(Switched(m), s)) == Names(m);
  }

  lemma GetActiveGuids(mem: seq<PartitionEntry>)
    ensures TypeGuids(GetActive(mem).mem) == TypeGuids(mem)
    ensures GetActive(mem).ok ==> IsSuffix(GetActive(mem).suffix)
  {
    hide FirstBoot, Untouched, Standing, Find;
  }

  /** After any sequence of SetActiveSlot calls the GUIDs of every pair are where they were at
      first if the active slot is the first one again, and exchanged otherwise. */
  lemma {:induction false} GuidPlacement(mem: seq<PartitionEntry>, rs: seq<Request>)
    requires WellNamed(Names(mem)) && GetActive(mem).ok
    requires forall i :: 0 <= i < |rs| ==> IsSuffix(rs[i].slot)
    ensures var m := Requests(mem, rs);
            && GetActive(m).ok && Names(m) == Names(mem)
            && TypeGuids(m) == if GetActive(m).suffix == GetActive(mem).suffix then TypeGuids(mem)
                               else Exchanged(Names(mem), TypeGuids(mem))
    decreases |rs|
  {
    hide WellNamed, GetActive, SetActive, TypeGuids, Exchanged, IsSuffix, Names;
    if rs != [] {
      var q := rs[0];
      var r := SetActive(mem, q.slot, q.resetSuccess, q.setSuccess);
      SetThenGet(mem, q.slot, q.resetSuccess, q.setSuccess);
      SetGuids(mem, q.slot, q.resetSuccess, q.setSuccess);
      GuidPlacement(r.mem, rs[1..]);
      ExchangedTwice(Names(mem), TypeGuids(mem));
      GetActiveGuids(mem);
      GetActiveGuids(Requests(r.mem, rs[1..]));
      TwoSlots(GetActive(mem).suffix, q.slot, GetActive(Requests(r.mem, rs[1..])).suffix);
    }
  }

  lemma TwoSlots(s: Name, t: Name, u: Name)
    requires IsSuffix(s) && IsSuffix(t) && IsSuffix(u)
    ensures s == t || t == u || s == u
    ensures s != t ==> t == OtherSuffix(s)
    ensures OtherSuffix(OtherSuffix(s)) == s && OtherSuffix(s) != s && IsSuffix(OtherSuffix(s))
  {
    BootNames();
  }

  // ---------- PartitionHasMultiSlot ----------

  /** The name starts with X_a or X_b. */
  predicate SlotLike(x: Name, n: Name) { x + SUFFIX_A <= n || x + SUFFIX_B <= n }

  function SlotCount(x: Name, names: seq<Name>): nat
    decreases |names|
  {
    if names == [] then 0 else (if SlotLike(x, names[|names| - 1]) then 1 else 0) + SlotCount(x, names[..|names| - 1])
  }

  /** More than one name starts with X_a or X_b. */
  predicate HasSlots(mem: seq<PartitionEntry>, x: Name) { SlotCount(x, Names(mem)) > 1 }

  predicate MultiSlot(mem: seq<PartitionEntry>) { HasSlots(mem, BOOT) }

  lemma {:induction false} CountsTwo(x: Name, names: seq<Name>, i: nat, j: nat)
    requires i < |names| && j < |names| && i != j && SlotLike(x, names[i]) && SlotLike(x, names[j])
    ensures SlotCount(x, names) >= 2
    decreases |names|
  {
    var n := |names| - 1;
    var rest := names[..n];
    if i < n && j < n {
      CountsTwo(x, rest, i, j);
    } else {
      CountsOne(x, rest, if i == n then j else i);
    }
  }

  lemma {:induction false} CountsOne(x: Name, names: seq<Name>, i: nat)
    requires i < |names| && SlotLike(x, names[i])
    ensures SlotCount(x, names) >= 1
    decreases |names|
  {
    if i < |names| - 1 {
      CountsOne(x, names[..|names| - 1], i);
    }
  }

  /** A partition is slotted exactly if two names in the table start with its own, an underscore
      and a or b. */
  lemma SlottedExact(mem: seq<PartitionEntry>, x: Name)
    ensures HasSlots(mem, x) <==> exists i, j :: 0 <= i < j < |mem| && SlotLike(x, Names(mem)[i])
                                                 && SlotLike(x, Names(mem)[j])
  {
    hide SlotLike;
    var names := Names(mem);
    if HasSlots(mem, x) {
      var j := LastSlotLike(x, names);
      var i := LastSlotLike(x, names[..j]);
    }
    forall i, j | 0 <= i < j < |mem| && SlotLike(x, names[i]) && SlotLike(x, names[j])
      ensures HasSlots(mem, x)
    {
      CountsTwo(x, names, i, j);
    }
  }

  lemma {:induction false} LastSlotLike(x: Name, names: seq<Name>) returns (j: nat)
    requires SlotCount(x, names) >= 1
    ensures j < |names| && SlotLike(x, names[j]) && SlotCount(x, names[..j]) == SlotCount(x, names) - 1
    decreases |names|
  {
    hide SlotLike;
    j := |names| - 1;
    if !SlotLike(x, names[j]) {
      var n := j;
      j := LastSlotLike(x, names[..n]);
      assert names[..n][..j] == names[..j];
    }
  }

  lemma HasBootMultiSlot(mem: seq<PartitionEntry>)
    requires HasBoot(mem)
    ensures MultiSlot(mem)
  {
    BootIndices(mem);
    assert BOOT + SUFFIX_A == BOOT_A && BOOT + SUFFIX_B == BOOT_B;
    CountsTwo(BOOT, Names(mem), BootIndex(mem, SUFFIX_A), BootIndex(mem, SUFFIX_B));
  }

  // ---------- BootSlotMain and SwitchSlotsAppEntryPoint ----------

  /** ClearUnbootable on a slot that IsSlotBootable refuses. */
  function Revived(mem: seq<PartitionEntry>, s: Name): (r: seq<PartitionEntry>)
    ensures |r| == |mem|
  {
    var i := BootIndex(mem, s);
    if i < |mem| && !Bootable(mem[i].attributes) then SetAttributes(mem, i, Revive(mem[i].attributes)) else mem
  }

  /** BootSlotMain: refresh the active slot, or _a when there is none, and mark it successful. */
  function BootMain(mem: seq<PartitionEntry>): (r: Result)
    ensures |r.mem| == |mem|
  {
    if !MultiSlot(mem) then Result(true, [], mem)
    else
      var g := GetActive(mem);
      var current := if g.suffix == [] then SUFFIX_A else g.suffix;
      SetActive(Revived(Revived(g.mem, SUFFIX_A), SUFFIX_B), current, false, true)
  }

  /** SwitchSlotsAppEntryPoint: make the other slot active, not yet successful. */
  function SwitchApp(mem: seq<PartitionEntry>): (r: Result)
    ensures |r.mem| == |mem|
  {
    if !MultiSlot(mem) then Result(false, [], mem)
    else
      var g := GetActive(mem);
      if g.suffix == [] then Result(false, [], g.mem)
      else SetActive(g.mem, if SUFFIX_A <= g.suffix then SUFFIX_B else SUFFIX_A, true, false)
  }

  /** Two tables whose boot slots stand alike for GetActiveSlot. */
  predicate SameStanding(m: seq<PartitionEntry>, n: seq<PartitionEntry>) {
    && HasBoot(m) && HasBoot(n)
    && Standing(BootAttributes(m, SUFFIX_A)) == Standing(BootAttributes(n, SUFFIX_A))
    && Standing(BootAttributes(m, SUFFIX_B)) == Standing(BootAttributes(n, SUFFIX_B))
  }

  lemma RevivedEntries(mem: seq<PartitionEntry>, s: Name)
    requires HasBoot(mem) && IsSuffix(s)
    ensures var m, i := Revived(mem, s), BootIndex(mem, s);
            && Names(m) == Names(mem) && TypeGuids(m) == TypeGuids(mem) && i != BootIndex(mem, OtherSuffix(s))
            && m == mem[i := mem[i].(attributes := if Bootable(mem[i].attributes) then mem[i].attributes
                                     else Revive(mem[i].attributes))]
  {
    hide Revive, Bootable, Find;
    BootNames();
    BootIndices(mem);
  }

  lemma ReviveStands(a: bv64)
    ensures Standing(Revive(a)) == Standing(a) && !IsUnbootable(Revive(a))
    ensures Bootable(a) ==> !IsUnbootable(a)
  {
    hide Revive, IsActive, Priority, IsUnbootable, IsSuccessful;
    ReviveFields(a);
  }

  lemma RevivedKeeps(mem: seq<PartitionEntry>, s: Name)
    requires HasBoot(mem) && IsSuffix(s)
    ensures var m := Revived(mem, s);
            && Names(m) == Names(mem) && TypeGuids(m) == TypeGuids(mem) && SameStanding(mem, m)
            && !IsUnbootable(BootAttributes(m, s))
            && BootAttributes(m, OtherSuffix(s)) == BootAttributes(mem, OtherSuffix(s))
  {
    hide Revived, Revive, Standing, Bootable, IsUnbootable, BootIndex, Names, TypeGuids;
    BootNames();
    RevivedEntries(mem, s);
    ReviveStands(BootAttributes(mem, s));
    SameNames(mem, Revived(mem, s));
  }

  /** An active slot of some priority is found whatever the other fields say. */
  lemma GetActiveByStanding(mem: seq<PartitionEntry>)
    requires HasBoot(mem)
    requires Higher(Standing(BootAttributes(mem, SUFFIX_A)), 0) || Higher(Standing(BootAttributes(mem, SUFFIX_B)), 0)
    ensures GetActive(mem)
         == Result(true, if Higher(Standing(BootAttributes(mem, SUFFIX_B)), Standing(BootAttributes(mem, SUFFIX_A)))
                   then SUFFIX_B else SUFFIX_A, mem)
  {
    hide Standing, Higher, Untouched, FirstBoot, BootIndex;
    var a, b := Standing(BootAttributes(mem, SUFFIX_A)), Standing(BootAttributes(mem, SUFFIX_B));
    HigherFacts(a, b);
  }

  lemma HigherFacts(a: bv64, b: bv64)
    ensures Higher(b, 0) && !Higher(b, a) ==> Higher(a, 0)
  {}

  lemma StandingDecides(m: seq<PartitionEntry>, n: seq<PartitionEntry>, s: Name)
    requires SameStanding(m, n) && IsSuffix(s) && GetActive(m) == Result(true, s, m)
    requires Higher(Standing(BootAttributes(m, s)), 0)
    ensures GetActive(n) == Result(true, s, n) && Higher(Standing(BootAttributes(n, s)), 0)
  {
    hide Standing, Higher, GetActive, BootIndex;
    BootNames();
    GetActiveByStanding(m);
    GetActiveByStanding(n);
  }

  lemma ActiveStands(mem: seq<PartitionEntry>)
    requires GetActive(mem).ok
    ensures var g := GetActive(mem);
            HasBoot(g.mem) && IsSuffix(g.suffix) && GetActive(g.mem) == Result(true, g.suffix, g.mem)
            && Higher(Standing(BootAttributes(g.mem, g.suffix)), 0) && Names(g.mem) == Names(mem)
            && TypeGuids(g.mem) == TypeGuids(mem)
  {
    hide IsActive, Priority, FirstBoot, Untouched, Find, Names, TypeGuids;
    BootNames();
    GetActiveHasBoot(mem);
    GetActiveGuids(mem);
    var g := GetActive(mem);
    var a := BootIndex(mem, SUFFIX_A);
    FirstBootFields(mem[a].attributes);
    BootIndices(mem);
    SameNames(g.mem, mem);
  }

  /** A boot keeps the active slot and every GUID, leaves that slot bootable, and leaves
      neither boot slot unbootable. */
  lemma BootKeepsActive(mem: seq<PartitionEntry>)
    requires GetActive(mem).ok
    ensures var s, r := GetActive(mem).suffix, BootMain(mem);
            && r.ok && Names(r.mem) == Names(mem) && TypeGuids(r.mem) == TypeGuids(mem)
            && GetActive(r.mem) == Result(true, s, r.mem)
            && IsSuffix(s) && HasBoot(r.mem) && Bootable(BootAttributes(r.mem, s))
            && !IsUnbootable(BootAttributes(r.mem, SUFFIX_A)) && !IsUnbootable(BootAttributes(r.mem, SUFFIX_B))
  {
    hide GetActive, SetActive, Revived, Standing, Names, TypeGuids, IsUnbootable, IsSuccessful, BootIndex;
    BootNames();
    GetActiveHasBoot(mem);
    HasBootMultiSlot(mem);
    ActiveStands(mem);
    var g := GetActive(mem);
    var m1 := Revived(g.mem, SUFFIX_A);
    var m2 := Revived(m1, SUFFIX_B);
    RevivedKeeps(g.mem, SUFFIX_A);
    StandingDecides(g.mem, m1, g.suffix);
    RevivedKeeps(m1, SUFFIX_B);
    StandingDecides(m1, m2, g.suffix);
    SetThenGet(m2, g.suffix, false, true);
    SetGuids(m2, g.suffix, false, true);
  }

  /** A switch makes the other slot active and exchanges the GUIDs of every pair. */
  lemma SwitchFlips(mem: seq<PartitionEntry>)
    requires GetActive(mem).ok
    ensures var s, r := GetActive(mem).suffix, SwitchApp(mem);
            && r.ok && Names(r.mem) == Names(mem) && TypeGuids(r.mem) == Exchanged(Names(mem), TypeGuids(mem))
            && IsSuffix(s) && GetActive(r.mem) == Result(true, OtherSuffix(s), r.mem)
            && Chosen(r.mem, OtherSuffix(s)) && !IsSuccessful(BootAttributes(r.mem, OtherSuffix(s)))
  {
    hide GetActive, SetActive, Standing, Names, TypeGuids, Exchanged, IsSuccessful, BootIndex;
    BootNames();
    GetActiveHasBoot(mem);
    HasBootMultiSlot(mem);
    ActiveStands(mem);
    var g := GetActive(mem);
    SetThenGet(g.mem, OtherSuffix(g.suffix), true, false);
    SetGuids(g.mem, OtherSuffix(g.suffix), true, false);
  }

  /** A switch succeeds exactly when a slot is active, and otherwise changes nothing. */
  lemma SwitchExact(mem: seq<PartitionEntry>)
    ensures SwitchApp(mem).ok == GetActive(mem).ok
    ensures !SwitchApp(mem).ok ==> SwitchApp(mem).mem == mem
  {
    hide GetActive, Standing, FirstBoot, Untouched, BootIndex, Elected;
    if GetActive(mem).ok {
      SwitchFlips(mem);
    } else {
      InactiveKeeps(mem);
    }
  }

  lemma InactiveKeeps(mem: seq<PartitionEntry>)
    ensures !GetActive(mem).ok ==> GetActive(mem).mem == mem
  {
    hide Standing, FirstBoot, Untouched, BootIndex;
  }

  /** The slot is unmarked, was never booted from, and has no priority. */
  predicate Unused(a: bv64) { !IsActive(a) && !IsSuccessful(a) && Priority(a) == 0 }

  lemma ReviveUnused(a: bv64)
    ensures var b := if Bootable(a) then a else Revive(a);
            Untouched(b) == Unused(a) && Stands(b) == Stands(a)
  {
    hide Revive, IsActive, Priority, IsUnbootable, IsSuccessful;
    ReviveFields(a);
  }

  lemma RevivedUnused(mem: seq<PartitionEntry>)
    requires HasBoot(mem)
    ensures var m := Revived(Revived(mem, SUFFIX_A), SUFFIX_B);
            && HasBoot(m) && Untouched(BootAttributes(m, SUFFIX_A)) == Unused(BootAttributes(mem, SUFFIX_A))
            && Stands(BootAttributes(m, SUFFIX_A)) == Stands(BootAttributes(mem, SUFFIX_A))
            && Stands(BootAttributes(m, SUFFIX_B)) == Stands(BootAttributes(mem, SUFFIX_B))
  {
    hide Revived, Revive, Bootable, BootIndex, Unused, Untouched, Stands, Names, TypeGuids;
    BootNames();
    var m1 := Revived(mem, SUFFIX_A);
    var m := Revived(m1, SUFFIX_B);
    RevivedEntries(mem, SUFFIX_A);
    SameNames(mem, m1);
    RevivedEntries(m1, SUFFIX_B);
    SameNames(m1, m);
    ReviveUnused(BootAttributes(mem, SUFFIX_A));
    ReviveUnused(BootAttributes(mem, SUFFIX_B));
  }

  lemma RevivedNames(mem: seq<PartitionEntry>, s: Name)
    ensures Names(Revived(mem, s)) == Names(mem)
  {
    hide BootIndex, Bootable, Revive;
  }

  lemma BootWithoutEntries(mem: seq<PartitionEntry>)
    requires !HasBoot(mem)
    ensures MultiSlot(mem) ==> !BootMain(mem).ok
  {
    hide GetActive, Revived, MultiSlot, BootIndex, Elected;
    NoBootInactive(mem);
    var m1 := Revived(mem, SUFFIX_A);
    var m := Revived(m1, SUFFIX_B);
    RevivedNames(mem, SUFFIX_A);
    RevivedNames(m1, SUFFIX_B);
    SameNames(mem, m);
    NoBootInactive(m);
  }

  /** A boot of a table in which no slot is active rescues exactly the tables whose slot _a is
      unused, also if it is unbootable: that slot is revived and then taken for a first boot. Without slots a
      boot has nothing to do; without a boot entry for each slot it fails. */
  lemma BootWithoutActive(mem: seq<PartitionEntry>)
    requires !GetActive(mem).ok
    ensures !MultiSlot(mem) ==> BootMain(mem).ok && BootMain(mem).mem == mem
    ensures MultiSlot(mem) && !HasBoot(mem) ==> !BootMain(mem).ok
    ensures HasBoot(mem) ==> var r := BootMain(mem);
            && r.ok == Unused(BootAttributes(mem, SUFFIX_A))
            && (r.ok ==> GetActive(r.mem) == Result(true, [0x5F, 0x61], r.mem))
  {
    hide GetActive, SetActive, Revived, MultiSlot, BootIndex, Unused, Untouched, Stands, Beats, FirstBoot, Names,
         SlotSet, SetAttributes;
    if HasBoot(mem) {
      BootNames();
      HasBootMultiSlot(mem);
      ActiveExact(mem);
      var m := Revived(Revived(mem, SUFFIX_A), SUFFIX_B);
      RevivedUnused(mem);
      ActiveExact(m);
      SetThenGet(m, SUFFIX_A, false, true);
      StandsOrBeaten(BootAttributes(m, SUFFIX_A), BootAttributes(m, SUFFIX_B));
      StandsOrBeaten(BootAttributes(mem, SUFFIX_A), BootAttributes(mem, SUFFIX_B));
    } else {
      BootWithoutEntries(mem);
    }
  }

  // ---------- Any sequence of boots and switches ----------

  datatype Session = Boot | Switch

  function Sessions(mem: seq<PartitionEntry>, ss: seq<Session>): (r: seq<PartitionEntry>)
    ensures |r| == |mem|
    decreases |ss|
  {
    if ss == [] then mem
    else Sessions(if ss[0].Boot? then BootMain(mem).mem else SwitchApp(mem).mem, ss[1..])
  }

  function Switches(ss: seq<Session>): nat
    decreases |ss|
  {
    if ss == [] then 0 else (if ss[0].Switch? then 1 else 0) + Switches(ss[1..])
  }

  /** After any boots and switches, the active slot is the first one, flipped once per switch,
      and the GUIDs are where that slot has them. */
  lemma {:induction false} SessionsFlip(mem: seq<PartitionEntry>, ss: seq<Session>)
    requires WellNamed(Names(mem)) && GetActive(mem).ok
    ensures var s, m := GetActive(mem).suffix, Sessions(mem, ss);
            && GetActive(m).ok && Names(m) == Names(mem)
            && GetActive(m).suffix == (if Switches(ss) % 2 == 0 then s else OtherSuffix(s))
            && TypeGuids(m) == (if Switches(ss) % 2 == 0 then TypeGuids(mem) else Exchanged(Names(mem), TypeGuids(mem)))
    decreases |ss|
  {
    hide WellNamed, GetActive, BootMain, SwitchApp, Chosen, HasBoot, Bootable, TypeGuids, Exchanged, IsSuffix, Names;
    if ss != [] {
      BootKeepsActive(mem);
      SwitchFlips(mem);
      var s := GetActive(mem).suffix;
      TwoSlots(s, s, s);
      ExchangedTwice(Names(mem), TypeGuids(mem));
      SessionsFlip(if ss[0].Boot? then BootMain(mem).mem else SwitchApp(mem).mem, ss[1..]);
    }
  }
}
