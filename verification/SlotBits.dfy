/** The A/B fields of a partition's attributes (PartitionTableUpdate.h). */
module SlotBits {

  const PRIORITY: bv64 := 0x0003_0000_0000_0000
  const ACTIVE: bv64 := 0x0004_0000_0000_0000
  const MAX_RETRY_COUNT: bv64 := 0x0038_0000_0000_0000
  const SUCCESSFUL: bv64 := 0x0040_0000_0000_0000
  const UNBOOTABLE: bv64 := 0x0080_0000_0000_0000

  /** The bits of `a` under a mask. */
  function Field(a: bv64, mask: bv64): bv64 { a & mask }

  predicate IsActive(a: bv64) { Field(a, ACTIVE) != 0 }

  predicate IsSuccessful(a: bv64) { Field(a, SUCCESSFUL) != 0 }

  predicate IsUnbootable(a: bv64) { Field(a, UNBOOTABLE) != 0 }

  function Priority(a: bv64): bv64 { Field(a, PRIORITY) >> 48 }

  function RetryCount(a: bv64): bv64 { Field(a, MAX_RETRY_COUNT) >> 51 }

  /** All fields outside the A/B byte. */
  function OtherBits(a: bv64): bv64 { Field(a, OTHER) }

  /** IsSlotBootable's test. */
  predicate Bootable(a: bv64) { !IsUnbootable(a) && IsSuccessful(a) }

  /** GetActiveSlot's test for a partition table that no one has set up yet. */
  predicate Untouched(a: bv64) {
    !IsActive(a) && !IsSuccessful(a) && !IsUnbootable(a) && Priority(a) == 0
  }

  function SetFields(a: bv64, fields: bv64): bv64 { a | fields }

  function ClearFields(a: bv64, fields: bv64): bv64 { a & !fields }

  /** GetActiveSlot on first boot. */
  function FirstBoot(a: bv64): bv64 {
    SetFields(ClearFields(a, SUCCESSFUL | UNBOOTABLE), PRIORITY | ACTIVE | MAX_RETRY_COUNT)
  }

  /** SetActiveSlot on the new slot. */
  function Promote(a: bv64, resetSuccess: bool, setSuccess: bool): bv64 {
    var b := ClearFields(SetFields(a, PRIORITY | ACTIVE | MAX_RETRY_COUNT), UNBOOTABLE);
    var c := if resetSuccess && IsSuccessful(b) then ClearFields(b, SUCCESSFUL) else b;
    if setSuccess && !IsSuccessful(c) then SetFields(c, SUCCESSFUL) else c
  }

  /** SetActiveSlot on the other slot: priority 2, not active. */
  function Demote(a: bv64): bv64 {
    SetFields(ClearFields(a, PRIORITY | ACTIVE), 2 << 48)
  }

  /** ClearUnbootable. */
  function Revive(a: bv64): bv64 {
    SetFields(ClearFields(a, UNBOOTABLE), MAX_RETRY_COUNT)
  }

  function MarkActive(a: bv64): bv64 { SetFields(a, ACTIVE) }

  function MarkInactive(a: bv64): bv64 { ClearFields(a, ACTIVE) }

  const OTHER: bv64 := 0xFF00_FFFF_FFFF_FFFF

  /** `b` is `a` with `fields` set: a mask inside them reads all ones, one outside as before. */
  predicate SetReads(a: bv64, b: bv64, fields: bv64, mask: bv64) {
    && (mask & !fields == 0 ==> Field(b, mask) == mask)
    && (mask & fields == 0 ==> Field(b, mask) == Field(a, mask))
  }

  predicate ClearReads(a: bv64, b: bv64, fields: bv64, mask: bv64) {
    && (mask & !fields == 0 ==> Field(b, mask) == 0)
    && (mask & fields == 0 ==> Field(b, mask) == Field(a, mask))
  }

  lemma SetsInside(a: bv64, fields: bv64, mask: bv64)
    requires mask & !fields == 0
    ensures Field(SetFields(a, fields), mask) == mask
  {}

  lemma SetsOutside(a: bv64, fields: bv64, mask: bv64)
    requires mask & fields == 0
    ensures Field(SetFields(a, fields), mask) == Field(a, mask)
  {}

  lemma ClearsInside(a: bv64, fields: bv64, mask: bv64)
    requires mask & !fields == 0
    ensures Field(ClearFields(a, fields), mask) == 0
  {}

  lemma ClearsOutside(a: bv64, fields: bv64, mask: bv64)
    requires mask & fields == 0
    ensures Field(ClearFields(a, fields), mask) == Field(a, mask)
  {}

  lemma Sets(a: bv64, fields: bv64, mask: bv64)
    ensures SetReads(a, SetFields(a, fields), fields, mask)
  {
    hide SetFields, Field;
    if mask & !fields == 0 {
      SetsInside(a, fields, mask);
    }
    if mask & fields == 0 {
      SetsOutside(a, fields, mask);
    }
  }

  lemma Clears(a: bv64, fields: bv64, mask: bv64)
    ensures ClearReads(a, ClearFields(a, fields), fields, mask)
  {
    hide ClearFields, Field;
    if mask & !fields == 0 {
      ClearsInside(a, fields, mask);
    }
    if mask & fields == 0 {
      ClearsOutside(a, fields, mask);
    }
  }

  lemma SetsEach(a: bv64, fields: bv64)
    ensures var b := SetFields(a, fields);
            && SetReads(a, b, fields, PRIORITY) && SetReads(a, b, fields, ACTIVE)
            && SetReads(a, b, fields, MAX_RETRY_COUNT)
            && SetReads(a, b, fields, SUCCESSFUL) && SetReads(a, b, fields, UNBOOTABLE) && SetReads(a, b, fields, OTHER)
  {
    hide SetFields, SetReads;
    Sets(a, fields, PRIORITY);
    Sets(a, fields, ACTIVE);
    Sets(a, fields, MAX_RETRY_COUNT);
    Sets(a, fields, SUCCESSFUL);
    Sets(a, fields, UNBOOTABLE);
    Sets(a, fields, OTHER);
  }

  lemma ClearsEach(a: bv64, fields: bv64)
    ensures var b := ClearFields(a, fields);
            && ClearReads(a, b, fields, PRIORITY) && ClearReads(a, b, fields, ACTIVE)
            && ClearReads(a, b, fields, MAX_RETRY_COUNT)
            && ClearReads(a, b, fields, SUCCESSFUL) && ClearReads(a, b, fields, UNBOOTABLE)
            && ClearReads(a, b, fields, OTHER)
  {
    hide ClearFields, ClearReads;
    Clears(a, fields, PRIORITY);
    Clears(a, fields, ACTIVE);
    Clears(a, fields, MAX_RETRY_COUNT);
    Clears(a, fields, SUCCESSFUL);
    Clears(a, fields, UNBOOTABLE);
    Clears(a, fields, OTHER);
  }

  lemma FirstBootFields(a: bv64)
    ensures var b := FirstBoot(a);
            && IsActive(b) && Priority(b) == 3 && RetryCount(b) == 7 && OtherBits(b) == OtherBits(a)
            && !IsSuccessful(b) && !IsUnbootable(b)
  {
    hide SetFields, ClearFields, Field;
    ClearsEach(a, SUCCESSFUL | UNBOOTABLE);
    SetsEach(ClearFields(a, SUCCESSFUL | UNBOOTABLE), PRIORITY | ACTIVE | MAX_RETRY_COUNT);
  }

  lemma PromoteFields(a: bv64, resetSuccess: bool, setSuccess: bool)
    ensures var b := Promote(a, resetSuccess, setSuccess);
            && IsActive(b) && Priority(b) == 3 && RetryCount(b) == 7 && OtherBits(b) == OtherBits(a)
            && IsSuccessful(b) == (setSuccess || (IsSuccessful(a) && !resetSuccess)) && !IsUnbootable(b)
  {
    hide SetFields, ClearFields, Field;
    var fields := PRIORITY | ACTIVE | MAX_RETRY_COUNT;
    var b := ClearFields(SetFields(a, fields), UNBOOTABLE);
    var c := if resetSuccess && IsSuccessful(b) then ClearFields(b, SUCCESSFUL) else b;
    SetsEach(a, fields);
    ClearsEach(SetFields(a, fields), UNBOOTABLE);
    ClearsEach(b, SUCCESSFUL);
    SetsEach(c, SUCCESSFUL);
  }

  lemma DemoteFields(a: bv64)
    ensures var b := Demote(a);
            && !IsActive(b) && Priority(b) == 2 && RetryCount(b) == RetryCount(a) && OtherBits(b) == OtherBits(a)
            && IsSuccessful(b) == IsSuccessful(a) && IsUnbootable(b) == IsUnbootable(a)
  {
    hide SetFields, ClearFields, Field;
    var b := ClearFields(a, PRIORITY | ACTIVE);
    ClearsEach(a, PRIORITY | ACTIVE);
    SetsEach(b, 2 << 48);
    SetsPriorityTwo(b);
  }

  lemma SetsPriorityTwo(b: bv64)
    requires Field(b, PRIORITY) == 0
    ensures Field(SetFields(b, 2 << 48), PRIORITY) == 2 << 48
  {}

  lemma ReviveFields(a: bv64)
    ensures var b := Revive(a);
            && !IsUnbootable(b) && RetryCount(b) == 7 && OtherBits(b) == OtherBits(a)
            && IsActive(b) == IsActive(a) && Priority(b) == Priority(a) && IsSuccessful(b) == IsSuccessful(a)
  {
    hide SetFields, ClearFields, Field;
    ClearsEach(a, UNBOOTABLE);
    SetsEach(ClearFields(a, UNBOOTABLE), MAX_RETRY_COUNT);
  }

  lemma MarkActiveFields(a: bv64)
    ensures var b := MarkActive(a);
            && IsActive(b) && Priority(b) == Priority(a) && RetryCount(b) == RetryCount(a)
            && OtherBits(b) == OtherBits(a)
            && IsSuccessful(b) == IsSuccessful(a) && IsUnbootable(b) == IsUnbootable(a)
  {
    hide SetFields, Field;
    SetsEach(a, ACTIVE);
  }

  lemma MarkInactiveFields(a: bv64)
    ensures var b := MarkInactive(a);
            && !IsActive(b) && Priority(b) == Priority(a) && RetryCount(b) == RetryCount(a)
            && OtherBits(b) == OtherBits(a)
            && IsSuccessful(b) == IsSuccessful(a) && IsUnbootable(b) == IsUnbootable(a)
  {
    hide ClearFields, Field;
    ClearsEach(a, ACTIVE);
  }

  /** Where the fields lie: priority in bits 48 and 49, active 50, retries 51 to 53, successful 54,
      unbootable 55, and everything else in the other seven bytes. */
  lemma FieldPositions(a: bv64)
    ensures Priority(a) == (a >> 48) & 3 && RetryCount(a) == (a >> 51) & 7
    ensures IsActive(a) == ((a >> 50) & 1 == 1)
    ensures IsSuccessful(a) == ((a >> 54) & 1 == 1)
    ensures IsUnbootable(a) == ((a >> 55) & 1 == 1)
    ensures OtherBits(a) | (((a >> 48) & 0xFF) << 48) == a
    ensures Bootable(a) == ((a >> 54) & 3 == 1) && Untouched(a) == ((a >> 48) & 0xC7 == 0)
  {
    CombinedPositions(a);
    hide Bootable, Untouched;
    hide Priority, RetryCount, IsActive, IsSuccessful, IsUnbootable, OtherBits;
    NumberPositions(a);
    FlagPositions(a);
    OtherPositions(a);
  }

  lemma CombinedPositions(a: bv64)
    ensures Bootable(a) == ((a >> 54) & 3 == 1) && Untouched(a) == ((a >> 48) & 0xC7 == 0)
  {}

  lemma NumberPositions(a: bv64)
    ensures Priority(a) == (a >> 48) & 3 && RetryCount(a) == (a >> 51) & 7
  {}

  lemma OtherPositions(a: bv64)
    ensures OtherBits(a) | (((a >> 48) & 0xFF) << 48) == a
  {}

  lemma FlagPositions(a: bv64)
    ensures IsActive(a) == ((a >> 50) & 1 == 1)
    ensures IsSuccessful(a) == ((a >> 54) & 1 == 1)
    ensures IsUnbootable(a) == ((a >> 55) & 1 == 1)
  {}

  lemma MarkZero()
    ensures MarkInactive(0) == 0
  {}
}
