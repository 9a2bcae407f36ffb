/** The loop of UpdatePartitionAttributes that carries the in-memory entries of one LUN into
    the entry array of one GPT copy. */
module EntryWalk {
  import opened Gpt

  type Guid = g: seq<bv8> | |g| == GUID_SIZE witness seq(16, _ => 0)

  type Name = seq<bv16>

  /** struct PartitionEntry. `record` is the part of the entry the library never writes: the
      unique GUID and the first and last block. */
  datatype PartitionEntry =
    PartitionEntry(typeGuid: Guid, record: seq<bv8>, attributes: bv64, name: Name, lun: nat)

  datatype UpdateType = Attributes | Guids | All {
    predicate HasAttributes() { Attributes? || All? }
    predicate HasGuids() { Guids? || All? }
  }

  /** GUID `g` has a zero Data1 field. */
  predicate Blank(g: Guid) { g[0] == 0 && g[1] == 0 && g[2] == 0 && g[3] == 0 }

  /** The entry takes no slot in the table of `lun`. */
  predicate Skipped(e: PartitionEntry, lun: nat) { Blank(e.typeGuid) || e.lun != lun }

  function SlotGuid(table: seq<bv8>, p: nat): Guid
    requires |table| == TABLE_SIZE && p < MAX_ENTRIES
  {
    table[ENTRY_SIZE * p..ENTRY_SIZE * p + GUID_SIZE]
  }

  function AttributeBytes(table: seq<bv8>, p: nat): (s: seq<bv8>)
    requires |table| == TABLE_SIZE && p < MAX_ENTRIES
    ensures |s| == 8
  {
    table[ENTRY_SIZE * p + ATTRIBUTES_OFFSET..ENTRY_SIZE * p + ATTRIBUTES_OFFSET + 8]
  }

  /** The slot holds attributes `a` (GET_LLWORD_FROM_BYTE reads `a` there). */
  predicate HasAttributes(table: seq<bv8>, p: nat, a: bv64)
    requires |table| == TABLE_SIZE && p < MAX_ENTRIES
  {
    AttributeBytes(table, p) == LongLongBytes(a)
  }

  // ---------- One entry ----------

  datatype Visited = Visited(table: seq<bv8>, dirty: bool, advance: bool)

  function VisitGuid(table: seq<bv8>, p: nat, e: PartitionEntry, kind: UpdateType): (r: seq<bv8>)
    requires |table| == TABLE_SIZE && p < MAX_ENTRIES
    ensures |r| == TABLE_SIZE
  {
    if kind.HasGuids() && SlotGuid(table, p) != e.typeGuid then Splice(table, ENTRY_SIZE * p, e.typeGuid) else table
  }

  /** The attribute part runs unless the slot holds another partition's GUID. */
  predicate Admits(table: seq<bv8>, p: nat, e: PartitionEntry)
    requires |table| == TABLE_SIZE && p < MAX_ENTRIES
  {
    Blank(SlotGuid(table, p)) || SlotGuid(table, p) == e.typeGuid
  }

  function VisitAttributes(table: seq<bv8>, p: nat, e: PartitionEntry, kind: UpdateType): (r: seq<bv8>)
    requires |table| == TABLE_SIZE && p < MAX_ENTRIES
    ensures |r| == TABLE_SIZE
  {
    if kind.HasAttributes() && Admits(table, p, e) && !HasAttributes(table, p, e.attributes)
    then Splice(table, ENTRY_SIZE * p + ATTRIBUTES_OFFSET, LongLongBytes(e.attributes))
    else table
  }

  function Visit(table: seq<bv8>, p: nat, e: PartitionEntry, kind: UpdateType): (v: Visited)
    requires |table| == TABLE_SIZE && p < MAX_ENTRIES
    ensures |v.table| == TABLE_SIZE
  {
    var t := VisitGuid(table, p, e, kind);
    Visited(VisitAttributes(t, p, e, kind),
            || (kind.HasGuids() && SlotGuid(table, p) != e.typeGuid)
            || (kind.HasAttributes() && Admits(t, p, e) && !HasAttributes(t, p, e.attributes)),
            kind.HasAttributes() ==> Admits(t, p, e))
  }

  /** What a visit does to the entry's backup: each field written is copied there too. */
  function RefreshGuid(table: seq<bv8>, p: nat, e: PartitionEntry, bak: PartitionEntry,
                       kind: UpdateType): PartitionEntry
    requires |table| == TABLE_SIZE && p < MAX_ENTRIES
  {
    if kind.HasGuids() && SlotGuid(table, p) != e.typeGuid then bak.(typeGuid := e.typeGuid) else bak
  }

  function RefreshAttributes(table: seq<bv8>, p: nat, e: PartitionEntry, bak: PartitionEntry,
                             kind: UpdateType): PartitionEntry
    requires |table| == TABLE_SIZE && p < MAX_ENTRIES
  {
    if kind.HasAttributes() && Admits(table, p, e) && !HasAttributes(table, p, e.attributes)
    then bak.(attributes := e.attributes)
    else bak
  }

  function Refresh(table: seq<bv8>, p: nat, e: PartitionEntry, bak: PartitionEntry, kind: UpdateType): PartitionEntry
    requires |table| == TABLE_SIZE && p < MAX_ENTRIES
  {
    RefreshAttributes(VisitGuid(table, p, e, kind), p, e, RefreshGuid(table, p, e, bak, kind), kind)
  }

  // ---------- All entries ----------

  datatype Walked = Walked(table: seq<bv8>, dirty: bool)

  /** Entries `mem` in order, from slot `p`: a visit advances to the next slot unless its slot
      refused the attributes. */
  function Walk(table: seq<bv8>, mem: seq<PartitionEntry>, p: nat, lun: nat, kind: UpdateType): (w: Walked)
    requires |table| == TABLE_SIZE && p + |mem| <= MAX_ENTRIES
    ensures |w.table| == TABLE_SIZE
    decreases |mem|
  {
    if mem == [] then Walked(table, false)
    else if Skipped(mem[0], lun) then Walk(table, mem[1..], p, lun, kind)
    else
      var v := Visit(table, p, mem[0], kind);
      var w := Walk(v.table, mem[1..], if v.advance then p + 1 else p, lun, kind);
      Walked(w.table, v.dirty || w.dirty)
  }

  function WalkBackup(table: seq<bv8>, mem: seq<PartitionEntry>, bak: seq<PartitionEntry>, p: nat, lun: nat,
                      kind: UpdateType)
    : (r: seq<PartitionEntry>)
    requires |table| == TABLE_SIZE && p + |mem| <= MAX_ENTRIES && |bak| == |mem|
    ensures |r| == |mem|
    decreases |mem|
  {
    if mem == [] then []
    else if Skipped(mem[0], lun) then [bak[0]] + WalkBackup(table, mem[1..], bak[1..], p, lun, kind)
    else
      var v := Visit(table, p, mem[0], kind);
      [Refresh(table, p, mem[0], bak[0], kind)]
      + WalkBackup(v.table, mem[1..], bak[1..], if v.advance then p + 1 else p, lun, kind)
  }

  // ---------- What the table then says ----------

  predicate SlotAgrees(table: seq<bv8>, p: nat, e: PartitionEntry, kind: UpdateType)
    requires |table| == TABLE_SIZE && p < MAX_ENTRIES
  {
    && (kind.HasGuids() ==> SlotGuid(table, p) == e.typeGuid)
    && (kind.HasAttributes() ==> HasAttributes(table, p, e.attributes))
  }

  /** The entries of `lun`, in order, agree with the slots from `p` on. */
  predicate Agrees(table: seq<bv8>, mem: seq<PartitionEntry>, p: nat, lun: nat, kind: UpdateType)
    requires |table| == TABLE_SIZE && p + |mem| <= MAX_ENTRIES
    decreases |mem|
  {
    if mem == [] then true
    else if Skipped(mem[0], lun) then Agrees(table, mem[1..], p, lun, kind)
    else SlotAgrees(table, p, mem[0], kind) && Agrees(table, mem[1..], p + 1, lun, kind)
  }

  /** No slot would refuse its entry's attributes. */
  predicate Admitted(table: seq<bv8>, mem: seq<PartitionEntry>, p: nat, lun: nat)
    requires |table| == TABLE_SIZE && p + |mem| <= MAX_ENTRIES
    decreases |mem|
  {
    if mem == [] then true
    else if Skipped(mem[0], lun) then Admitted(table, mem[1..], p, lun)
    else Admits(table, p, mem[0]) && Admitted(table, mem[1..], p + 1, lun)
  }

  /** Bytes that an update of this kind may write, from slot `p` on. */
  predicate MayWrite(i: nat, p: nat, kind: UpdateType) {
    && i >= ENTRY_SIZE * p
    && ((kind.HasGuids() && i % 128 < 16) || (kind.HasAttributes() && 48 <= i % 128 < 56))
  }

  predicate OnlyFields(before: seq<bv8>, after: seq<bv8>, p: nat, kind: UpdateType) {
    |before| == |after| && forall i :: 0 <= i < |before| && !MayWrite(i, p, kind) ==> before[i] == after[i]
  }

  lemma FieldBytes(i: nat, p: nat, at: nat, n: nat)
    requires at + n <= ENTRY_SIZE && ENTRY_SIZE * p + at <= i < ENTRY_SIZE * p + at + n
    ensures at <= i % 128 < at + n && ENTRY_SIZE * p <= i < ENTRY_SIZE * (p + 1)
  {
    assert i == 128 * p + (i - 128 * p);
  }

  /** A visit writes one field of its own slot. */
  lemma FieldWrite(table: seq<bv8>, p: nat, at: nat, data: seq<bv8>, kind: UpdateType)
    requires |table| == TABLE_SIZE && p < MAX_ENTRIES
    requires (kind.HasGuids() && at == 0 && |data| == 16) || (kind.HasAttributes() && at == 48 && |data| == 8)
    ensures var r := Splice(table, ENTRY_SIZE * p + at, data);
            OnlyFields(table, r, p, kind) && r[ENTRY_SIZE * (p + 1)..] == table[ENTRY_SIZE * (p + 1)..]
  {
    var r := Splice(table, ENTRY_SIZE * p + at, data);
    forall i | 0 <= i < TABLE_SIZE && r[i] != table[i]
      ensures MayWrite(i, p, kind) && i < ENTRY_SIZE * (p + 1)
    {
      FieldBytes(i, p, at, |data|);
    }
  }

  lemma OnlyFieldsTransitive(a: seq<bv8>, b: seq<bv8>, c: seq<bv8>, p: nat, q: nat, kind: UpdateType)
    requires OnlyFields(a, b, p, kind) && OnlyFields(b, c, q, kind) && p <= q
    ensures OnlyFields(a, c, p, kind)
  {
    forall i | 0 <= i < |a| && !MayWrite(i, p, kind) ensures a[i] == c[i] {
      assert !MayWrite(i, q, kind);
    }
  }

  lemma OnlyFieldsNone(a: seq<bv8>, p: nat, kind: UpdateType)
    ensures OnlyFields(a, a, p, kind)
  {}

  lemma VisitWrites(table: seq<bv8>, p: nat, e: PartitionEntry, kind: UpdateType)
    requires |table| == TABLE_SIZE && p < MAX_ENTRIES
    ensures var v := Visit(table, p, e, kind);
            && OnlyFields(table, v.table, p, kind)
            && v.table[ENTRY_SIZE * (p + 1)..] == table[ENTRY_SIZE * (p + 1)..]
            && (!v.dirty ==> v.table == table)
  {
    hide Splice, LongLongBytes, OnlyFields, SlotGuid, HasAttributes;
    var t := VisitGuid(table, p, e, kind);
    var u := VisitAttributes(t, p, e, kind);
    OnlyFieldsNone(table, p, kind);
    OnlyFieldsNone(t, p, kind);
    if t != table {
      FieldWrite(table, p, 0, e.typeGuid, kind);
    }
    if u != t {
      FieldWrite(t, p, ATTRIBUTES_OFFSET, LongLongBytes(e.attributes), kind);
    }
    OnlyFieldsTransitive(table, t, u, p, p, kind);
  }

  lemma VisitSettles(table: seq<bv8>, p: nat, e: PartitionEntry, kind: UpdateType)
    requires |table| == TABLE_SIZE && p < MAX_ENTRIES
    requires kind.Attributes? ==> Admits(table, p, e)
    ensures var v := Visit(table, p, e, kind);
            v.advance && SlotAgrees(v.table, p, e, kind) && (v.dirty == !SlotAgrees(table, p, e, kind))
  {
    var t := VisitGuid(table, p, e, kind);
    var v := Visit(table, p, e, kind);
    assert kind.HasGuids() ==> SlotGuid(t, p) == e.typeGuid;
    assert SlotGuid(v.table, p) == SlotGuid(t, p);
    assert AttributeBytes(t, p) == AttributeBytes(table, p);
    if kind.HasAttributes() && !HasAttributes(t, p, e.attributes) {
      assert AttributeBytes(v.table, p) == LongLongBytes(e.attributes);
    }
  }

  // ---------- Locality ----------

  lemma {:induction false} AgreesLocal(t: seq<bv8>, u: seq<bv8>, mem: seq<PartitionEntry>, p: nat, lun: nat,
                                       kind: UpdateType)
    requires |t| == |u| == TABLE_SIZE && p + |mem| <= MAX_ENTRIES
    requires t[ENTRY_SIZE * p..] == u[ENTRY_SIZE * p..]
    ensures Agrees(t, mem, p, lun, kind) == Agrees(u, mem, p, lun, kind)
    ensures Admitted(t, mem, p, lun) == Admitted(u, mem, p, lun)
    decreases |mem|
  {
    if mem != [] {
      if Skipped(mem[0], lun) {
        AgreesLocal(t, u, mem[1..], p, lun, kind);
      } else {
        SlotLocal(t, u, p);
        AgreesLocal(t, u, mem[1..], p + 1, lun, kind);
      }
    }
  }

  lemma SlotLocal(t: seq<bv8>, u: seq<bv8>, p: nat)
    requires |t| == |u| == TABLE_SIZE && p < MAX_ENTRIES
    requires t[ENTRY_SIZE * p..] == u[ENTRY_SIZE * p..]
    ensures SlotGuid(t, p) == SlotGuid(u, p) && AttributeBytes(t, p) == AttributeBytes(u, p)
    ensures t[ENTRY_SIZE * (p + 1)..] == u[ENTRY_SIZE * (p + 1)..]
  {
    var a, b := t[ENTRY_SIZE * p..], u[ENTRY_SIZE * p..];
    assert SlotGuid(t, p) == a[..16] && SlotGuid(u, p) == b[..16];
    assert AttributeBytes(t, p) == a[48..56] && AttributeBytes(u, p) == b[48..56];
    assert t[ENTRY_SIZE * (p + 1)..] == a[128..] && u[ENTRY_SIZE * (p + 1)..] == b[128..];
  }

  /** Slots before `p` are out of reach of a walk from `p`. */
  lemma EarlierSlot(t: seq<bv8>, u: seq<bv8>, p: nat, e: PartitionEntry, kind: UpdateType, k: UpdateType)
    requires |t| == TABLE_SIZE && p < MAX_ENTRIES && OnlyFields(t, u, p + 1, kind)
    ensures SlotAgrees(t, p, e, k) == SlotAgrees(u, p, e, k)
  {
    assert SlotGuid(t, p) == SlotGuid(u, p) && AttributeBytes(t, p) == AttributeBytes(u, p);
  }

  // ---------- The walk settles the table ----------

  lemma {:induction false} WalkWrites(table: seq<bv8>, mem: seq<PartitionEntry>, p: nat, lun: nat, kind: UpdateType)
    requires |table| == TABLE_SIZE && p + |mem| <= MAX_ENTRIES
    ensures var w := Walk(table, mem, p, lun, kind);
            OnlyFields(table, w.table, p, kind) && (!w.dirty ==> w.table == table)
    decreases |mem|
  {
    if mem != [] {
      if Skipped(mem[0], lun) {
        WalkWrites(table, mem[1..], p, lun, kind);
      } else {
        var v := Visit(table, p, mem[0], kind);
        var q := if v.advance then p + 1 else p;
        VisitWrites(table, p, mem[0], kind);
        WalkWrites(v.table, mem[1..], q, lun, kind);
        OnlyFieldsTransitive(table, v.table, Walk(v.table, mem[1..], q, lun, kind).table, p, q, kind);
      }
    }
  }

  /** After a walk the table agrees with memory in the requested fields; a walk over a table
      that agrees already writes nothing. */
  lemma {:induction false} WalkSettles(table: seq<bv8>, mem: seq<PartitionEntry>, p: nat, lun: nat, kind: UpdateType)
    requires |table| == TABLE_SIZE && p + |mem| <= MAX_ENTRIES
    requires kind.Attributes? ==> Admitted(table, mem, p, lun)
    ensures Agrees(Walk(table, mem, p, lun, kind).table, mem, p, lun, kind)
    ensures Walk(table, mem, p, lun, kind).dirty == !Agrees(table, mem, p, lun, kind)
    decreases |mem|
  {
    hide LongLongBytes, Visit, Splice, HasAttributes, SlotGuid;
    if mem != [] {
      if Skipped(mem[0], lun) {
        WalkSettles(table, mem[1..], p, lun, kind);
      } else {
        var t := WalkSettlesOne(table, mem, p, lun, kind);
        WalkSettles(t, mem[1..], p + 1, lun, kind);
        WalkWrites(t, mem[1..], p + 1, lun, kind);
        EarlierSlot(t, Walk(t, mem[1..], p + 1, lun, kind).table, p, mem[0], kind, kind);
      }
    }
  }

  lemma WalkSettlesOne(table: seq<bv8>, mem: seq<PartitionEntry>, p: nat, lun: nat, kind: UpdateType)
      returns (t: seq<bv8>)
    requires |table| == TABLE_SIZE && p + |mem| <= MAX_ENTRIES
    requires mem != [] && !Skipped(mem[0], lun) && (kind.Attributes? ==> Admits(table, p, mem[0]))
    ensures |t| == TABLE_SIZE && SlotAgrees(t, p, mem[0], kind)
    ensures Walk(table, mem, p, lun, kind).table == Walk(t, mem[1..], p + 1, lun, kind).table
    ensures Walk(table, mem, p, lun, kind).dirty
         == (!SlotAgrees(table, p, mem[0], kind) || Walk(t, mem[1..], p + 1, lun, kind).dirty)
    ensures Agrees(t, mem[1..], p + 1, lun, kind) == Agrees(table, mem[1..], p + 1, lun, kind)
    ensures Admitted(t, mem[1..], p + 1, lun) == Admitted(table, mem[1..], p + 1, lun)
  {
    hide LongLongBytes, VisitGuid, VisitAttributes, Splice, HasAttributes, SlotGuid;
    t := Visit(table, p, mem[0], kind).table;
    VisitSettles(table, p, mem[0], kind);
    VisitWrites(table, p, mem[0], kind);
    AgreesLocal(table, t, mem[1..], p + 1, lun, kind);
  }

  // ---------- When attributes are refused ----------

  /** Entries with the same GUIDs on the same LUNs; their attributes may differ. */
  ghost predicate SameShape(mem: seq<PartitionEntry>, m: seq<PartitionEntry>) {
    |m| == |mem| && forall i :: 0 <= i < |mem| ==> m[i].typeGuid == mem[i].typeGuid && m[i].lun == mem[i].lun
  }

  predicate AllHave(mem: seq<PartitionEntry>, y: bv64) { forall i :: 0 <= i < |mem| ==> mem[i].attributes == y }

  /** A slot that refused an entry keeps its attributes or gets those of a later one. */
  lemma {:induction false} RefusedSlot(table: seq<bv8>, mem: seq<PartitionEntry>, p: nat, lun: nat, y: bv64)
    requires |table| == TABLE_SIZE && p + |mem| <= MAX_ENTRIES && p < MAX_ENTRIES && AllHave(mem, y)
    ensures var b := AttributeBytes(Walk(table, mem, p, lun, Attributes).table, p);
            b == AttributeBytes(table, p) || b == LongLongBytes(y)
    decreases |mem|
  {
    hide LongLongBytes, SlotGuid, Admits;
    if mem != [] {
      var v := Visit(table, p, mem[0], Attributes);
      if Skipped(mem[0], lun) {
        RefusedSlot(table, mem[1..], p, lun, y);
      } else if v.advance {
        var w := Walk(v.table, mem[1..], p + 1, lun, Attributes);
        WalkWrites(v.table, mem[1..], p + 1, lun, Attributes);
        assert AttributeBytes(w.table, p) == AttributeBytes(v.table, p);
      } else {
        RefusedSlot(table, mem[1..], p, lun, y);
      }
    }
  }

  function WithAttributes(mem: seq<PartitionEntry>, y: bv64): (m: seq<PartitionEntry>)
    ensures SameShape(mem, m) && AllHave(m, y)
  {
    seq(|mem|, i requires 0 <= i < |mem| => mem[i].(attributes := y))
  }

  lemma OtherAttributes(bytes: seq<bv8>) returns (x: bv64, y: bv64)
    requires |bytes| == 8
    ensures LongLongBytes(x) != bytes && LongLongBytes(x) != LongLongBytes(y)
  {
    hide LongLongBytes, Word64;
    x, y := if Word64(bytes) == 0 then 1 else 0, if Word64(bytes) == 0 then 0 else 1;
    LongLongRoundTrip(bytes, x);
    LongLongRoundTrip(LongLongBytes(y), y);
    LongLongRoundTrip(LongLongBytes(y), x);
  }

  lemma {:induction false} RefusedFails(table: seq<bv8>, mem: seq<PartitionEntry>, p: nat, lun: nat)
      returns (m: seq<PartitionEntry>)
    requires |table| == TABLE_SIZE && p + |mem| <= MAX_ENTRIES && !Admitted(table, mem, p, lun)
    ensures SameShape(mem, m) && !Agrees(Walk(table, m, p, lun, Attributes).table, m, p, lun, Attributes)
    decreases |mem|
  {
    hide LongLongBytes, SlotGuid, Visit;
    var e, rest := mem[0], mem[1..];
    if Skipped(e, lun) {
      m := RefusedFails(table, rest, p, lun);
      m := [e] + m;
    } else if Admits(table, p, e) {
      var t := Visit(table, p, e, Attributes).table;
      VisitWrites(table, p, e, Attributes);
      VisitSettles(table, p, e, Attributes);
      AgreesLocal(table, t, rest, p + 1, lun, Attributes);
      m := RefusedFails(t, rest, p + 1, lun);
      m := [e] + m;
    } else {
      var x, y := OtherAttributes(AttributeBytes(table, p));
      var later := WithAttributes(rest, y);
      var first := e.(attributes := x);
      m := [first] + later;
      RefusedSlot(table, later, p, lun, y);
      RefusedVisit(table, p, first);
      assert m[1..] == later;
    }
  }

  lemma RefusedVisit(table: seq<bv8>, p: nat, e: PartitionEntry)
    requires |table| == TABLE_SIZE && p < MAX_ENTRIES && !Admits(table, p, e)
    ensures Visit(table, p, e, Attributes) == Visited(table, false, false)
  {}

  /** Attributes written alone reach the disk, whatever they are, exactly when no slot holds
      another partition's GUID: every slot in turn is blank or its entry's. */
  lemma AttributesSettle(table: seq<bv8>, mem: seq<PartitionEntry>, p: nat, lun: nat)
    requires |table| == TABLE_SIZE && p + |mem| <= MAX_ENTRIES
    ensures (forall m :: SameShape(mem, m) ==> Agrees(Walk(table, m, p, lun, Attributes).table, m, p, lun, Attributes))
            <==> Admitted(table, mem, p, lun)
  {
    hide Agrees, Walk, Admitted, SameShape;
    if Admitted(table, mem, p, lun) {
      forall m | SameShape(mem, m)
        ensures |m| == |mem| && Agrees(Walk(table, m, p, lun, Attributes).table, m, p, lun, Attributes)
      {
        ShapeAdmitted(table, mem, m, p, lun);
        WalkSettles(table, m, p, lun, Attributes);
      }
    } else {
      var m := RefusedFails(table, mem, p, lun);
    }
  }

  lemma {:induction false} ShapeAdmitted(table: seq<bv8>, mem: seq<PartitionEntry>, m: seq<PartitionEntry>, p: nat,
                                         lun: nat)
    requires |table| == TABLE_SIZE && p + |mem| <= MAX_ENTRIES && SameShape(mem, m)
    ensures |m| == |mem| && Admitted(table, mem, p, lun) == Admitted(table, m, p, lun)
    decreases |mem|
  {
    hide SlotGuid;
    if mem != [] {
      assert SameShape(mem[1..], m[1..]);
      ShapeAdmitted(table, mem[1..], m[1..], if Skipped(mem[0], lun) then p else p + 1, lun);
    }
  }

  // ---------- The same walk again ----------

  /** Attributes once written are not written again: the slots of an attribute walk depend on
      GUIDs alone, refused entries included. */
  lemma {:induction false} AttributesTwice(table: seq<bv8>, mem: seq<PartitionEntry>, p: nat, lun: nat)
    requires |table| == TABLE_SIZE && p + |mem| <= MAX_ENTRIES
    ensures !Walk(Walk(table, mem, p, lun, Attributes).table, mem, p, lun, Attributes).dirty
    decreases |mem|
  {
    hide LongLongBytes, Visit, Splice, SlotAgrees, Admits;
    if mem != [] {
      if Skipped(mem[0], lun) {
        AttributesTwice(table, mem[1..], p, lun);
      } else {
        var u := Walk(table, mem, p, lun, Attributes).table;
        WalkWrites(table, mem, p, lun, Attributes);
        SlotAdmits(table, u, p, mem[0]);
        if Admits(table, p, mem[0]) {
          var t := Visit(table, p, mem[0], Attributes).table;
          VisitSettles(table, p, mem[0], Attributes);
          WalkWrites(t, mem[1..], p + 1, lun, Attributes);
          EarlierSlot(t, u, p, mem[0], Attributes, Attributes);
          VisitSettles(u, p, mem[0], Attributes);
          VisitWrites(u, p, mem[0], Attributes);
          AttributesTwice(t, mem[1..], p + 1, lun);
        } else {
          RefusedVisit(table, p, mem[0]);
          RefusedVisit(u, p, mem[0]);
          AttributesTwice(table, mem[1..], p, lun);
        }
      }
    }
  }

  lemma SlotAdmits(t: seq<bv8>, u: seq<bv8>, p: nat, e: PartitionEntry)
    requires |t| == |u| == TABLE_SIZE && p < MAX_ENTRIES && OnlyFields(t, u, p, Attributes)
    ensures Admits(t, p, e) == Admits(u, p, e)
  {
    forall i: nat | 128 * p <= i < 128 * p + 16 ensures !MayWrite(i, p, Attributes) {
      FieldBytes(i, p, 0, 16);
    }
    assert SlotGuid(t, p) == SlotGuid(u, p);
  }

  /** Whatever the table and the request, the same walk again has nothing to write. */
  lemma WalkTwice(table: seq<bv8>, mem: seq<PartitionEntry>, p: nat, lun: nat, kind: UpdateType)
    requires |table| == TABLE_SIZE && p + |mem| <= MAX_ENTRIES
    ensures !Walk(Walk(table, mem, p, lun, kind).table, mem, p, lun, kind).dirty
  {
    hide Walk;
    if kind.Attributes? {
      AttributesTwice(table, mem, p, lun);
    } else {
      WalkSettles(table, mem, p, lun, kind);
      WalkSettles(Walk(table, mem, p, lun, kind).table, mem, p, lun, kind);
    }
  }

  /** A table that refuses: its first slot belongs to another partition, so the entry's attributes
      are not written, nothing counts as changed, and table and entry still disagree. */
  lemma RefusedTable()
    ensures var table: seq<bv8> := [2] + seq(TABLE_SIZE - 1, _ => 0);
            var e := PartitionEntry([1] + seq(15, _ => 0), [], 1, [], 0);
            && Walk(table, [e], 0, 0, Attributes) == Walked(table, false)
            && !Agrees(table, [e], 0, 0, Attributes) && !Admitted(table, [e], 0, 0)
  {
    var table: seq<bv8> := [2] + seq(TABLE_SIZE - 1, _ => 0);
    var e := PartitionEntry([1] + seq(15, _ => 0), [], 1, [], 0);
    assert SlotGuid(table, 0)[0] == 2 && AttributeBytes(table, 0)[0] == 0 && LongLongBytes(1)[0] == 1;
    RefusedVisit(table, 0, e);
    assert [e][1..] == [];
  }

  // ---------- The backup of memory ----------

  /** `bak` with the requested fields of `e`. */
  function Updated(bak: PartitionEntry, e: PartitionEntry, kind: UpdateType): PartitionEntry {
    var b := if kind.HasGuids() then bak.(typeGuid := e.typeGuid) else bak;
    if kind.HasAttributes() then b.(attributes := e.attributes) else b
  }

  function Merged(bak: seq<PartitionEntry>, mem: seq<PartitionEntry>, lun: nat,
                  kind: UpdateType): (r: seq<PartitionEntry>)
    requires |bak| == |mem|
    ensures |r| == |mem|
  {
    seq(|mem|, i requires 0 <= i < |mem| => if Skipped(mem[i], lun) then bak[i] else Updated(bak[i], mem[i], kind))
  }

  predicate SlotCovers(table: seq<bv8>, p: nat, e: PartitionEntry, bak: PartitionEntry, kind: UpdateType)
    requires |table| == TABLE_SIZE && p < MAX_ENTRIES
  {
    && (kind.HasGuids() ==> bak.typeGuid == e.typeGuid || bak.typeGuid == SlotGuid(table, p))
    && (kind.HasAttributes() ==> bak.attributes == e.attributes || HasAttributes(table, p, bak.attributes))
  }

  /** Each backup entry holds what its slot holds, or what memory holds already. */
  predicate Covers(table: seq<bv8>, mem: seq<PartitionEntry>, bak: seq<PartitionEntry>, p: nat, lun: nat,
                   kind: UpdateType)
    requires |table| == TABLE_SIZE && p + |mem| <= MAX_ENTRIES && |bak| == |mem|
    decreases |mem|
  {
    if mem == [] then true
    else if Skipped(mem[0], lun) then Covers(table, mem[1..], bak[1..], p, lun, kind)
    else SlotCovers(table, p, mem[0], bak[0], kind) && Covers(table, mem[1..], bak[1..], p + 1, lun, kind)
  }

  lemma {:induction false} CoversLocal(t: seq<bv8>, u: seq<bv8>, mem: seq<PartitionEntry>, bak: seq<PartitionEntry>,
                                       p: nat, lun: nat, kind: UpdateType)
    requires |t| == |u| == TABLE_SIZE && p + |mem| <= MAX_ENTRIES && |bak| == |mem|
    requires t[ENTRY_SIZE * p..] == u[ENTRY_SIZE * p..]
    ensures Covers(t, mem, bak, p, lun, kind) == Covers(u, mem, bak, p, lun, kind)
    decreases |mem|
  {
    hide LongLongBytes;
    if mem != [] {
      if Skipped(mem[0], lun) {
        CoversLocal(t, u, mem[1..], bak[1..], p, lun, kind);
      } else {
        SlotLocal(t, u, p);
        CoversLocal(t, u, mem[1..], bak[1..], p + 1, lun, kind);
      }
    }
  }

  lemma RefreshUpdates(table: seq<bv8>, p: nat, e: PartitionEntry, bak: PartitionEntry, kind: UpdateType)
    requires |table| == TABLE_SIZE && p < MAX_ENTRIES && SlotCovers(table, p, e, bak, kind)
    requires kind.Attributes? ==> Admits(table, p, e)
    ensures Refresh(table, p, e, bak, kind) == Updated(bak, e, kind)
  {
    GuidVisited(table, p, e, kind);
    hide LongLongBytes, Word64, VisitGuid, SlotGuid, AttributeBytes;
    var t := VisitGuid(table, p, e, kind);
    LongLongRoundTrip(AttributeBytes(t, p), e.attributes);
    LongLongRoundTrip(AttributeBytes(t, p), bak.attributes);
  }

  lemma GuidVisited(table: seq<bv8>, p: nat, e: PartitionEntry, kind: UpdateType)
    requires |table| == TABLE_SIZE && p < MAX_ENTRIES
    ensures var t := VisitGuid(table, p, e, kind);
            && AttributeBytes(t, p) == AttributeBytes(table, p)
            && if kind.HasGuids() then SlotGuid(t, p) == e.typeGuid else t == table
  {}

  lemma MergedCons(bak: seq<PartitionEntry>, mem: seq<PartitionEntry>, lun: nat, kind: UpdateType)
    requires |bak| == |mem| > 0
    ensures Merged(bak, mem, lun, kind)
         == [if Skipped(mem[0], lun) then bak[0] else Updated(bak[0], mem[0], kind)]
           + Merged(bak[1..], mem[1..], lun, kind)
  {}

  lemma WalkMergesOne(table: seq<bv8>, mem: seq<PartitionEntry>, bak: seq<PartitionEntry>, p: nat, lun: nat,
                      kind: UpdateType)
    returns (t: seq<bv8>)
    requires |table| == TABLE_SIZE && p + |mem| <= MAX_ENTRIES && |bak| == |mem|
    requires mem != [] && !Skipped(mem[0], lun) && Covers(table, mem, bak, p, lun, kind)
    requires kind.Attributes? ==> Admitted(table, mem, p, lun)
    ensures |t| == TABLE_SIZE && Covers(t, mem[1..], bak[1..], p + 1, lun, kind)
    ensures kind.Attributes? ==> Admitted(t, mem[1..], p + 1, lun)
    ensures WalkBackup(table, mem, bak, p, lun, kind)
         == [Updated(bak[0], mem[0], kind)] + WalkBackup(t, mem[1..], bak[1..], p + 1, lun, kind)
  {
    hide LongLongBytes, VisitGuid, VisitAttributes, Splice, HasAttributes, SlotGuid;
    t := Visit(table, p, mem[0], kind).table;
    VisitWrites(table, p, mem[0], kind);
    VisitSettles(table, p, mem[0], kind);
    AgreesLocal(table, t, mem[1..], p + 1, lun, kind);
    CoversLocal(table, t, mem[1..], bak[1..], p + 1, lun, kind);
    RefreshUpdates(table, p, mem[0], bak[0], kind);
  }

  lemma NothingMerged(table: seq<bv8>, mem: seq<PartitionEntry>, bak: seq<PartitionEntry>, p: nat, lun: nat,
                      kind: UpdateType)
    requires |table| == TABLE_SIZE && p <= MAX_ENTRIES && bak == mem == []
    ensures WalkBackup(table, mem, bak, p, lun, kind) == [] == Merged(bak, mem, lun, kind)
  {}

  lemma WalkMergesSkip(table: seq<bv8>, mem: seq<PartitionEntry>, bak: seq<PartitionEntry>, p: nat, lun: nat,
                       kind: UpdateType)
    requires |table| == TABLE_SIZE && p + |mem| <= MAX_ENTRIES && |bak| == |mem|
    requires mem != [] && Skipped(mem[0], lun) && Covers(table, mem, bak, p, lun, kind)
    requires kind.Attributes? ==> Admitted(table, mem, p, lun)
    ensures Covers(table, mem[1..], bak[1..], p, lun, kind)
    ensures kind.Attributes? ==> Admitted(table, mem[1..], p, lun)
    ensures WalkBackup(table, mem, bak, p, lun, kind) == [bak[0]] + WalkBackup(table, mem[1..], bak[1..], p, lun, kind)
  {
    hide Visit, Refresh;
  }

  /** A walk brings the backup of every entry of this LUN level with memory. */
  lemma {:induction false} WalkMerges(table: seq<bv8>, mem: seq<PartitionEntry>, bak: seq<PartitionEntry>, p: nat,
                                      lun: nat, kind: UpdateType)
    requires |table| == TABLE_SIZE && p + |mem| <= MAX_ENTRIES && |bak| == |mem|
    requires Covers(table, mem, bak, p, lun, kind)
    requires kind.Attributes? ==> Admitted(table, mem, p, lun)
    ensures WalkBackup(table, mem, bak, p, lun, kind) == Merged(bak, mem, lun, kind)
    decreases |mem|
  {
    hide WalkBackup, Covers, Admitted, Merged, Updated, Skipped;
    if mem == [] {
      NothingMerged(table, mem, bak, p, lun, kind);
    } else {
      MergedCons(bak, mem, lun, kind);
      if Skipped(mem[0], lun) {
        WalkMergesSkip(table, mem, bak, p, lun, kind);
        WalkMerges(table, mem[1..], bak[1..], p, lun, kind);
      } else {
        var t := WalkMergesOne(table, mem, bak, p, lun, kind);
        WalkMerges(t, mem[1..], bak[1..], p + 1, lun, kind);
      }
    }
  }

  // ---------- Keeping table, memory and backup in step ----------

  /** `mem` is `bak` with new values in the requested fields only; which entries are blank does
      not change. */
  ghost predicate ChangedOnly(bak: seq<PartitionEntry>, mem: seq<PartitionEntry>, kind: UpdateType) {
    && |bak| == |mem|
    && forall i :: 0 <= i < |mem| ==>
         && Blank(mem[i].typeGuid) == Blank(bak[i].typeGuid)
         && mem[i] == if Blank(mem[i].typeGuid) then bak[i] else Updated(bak[i], mem[i], kind)
  }

  lemma {:induction false} AgreesCovers(table: seq<bv8>, bak: seq<PartitionEntry>, mem: seq<PartitionEntry>, p: nat,
                                        lun: nat, kind: UpdateType)
    requires |table| == TABLE_SIZE && p + |mem| <= MAX_ENTRIES
    requires ChangedOnly(bak, mem, kind) && Agrees(table, bak, p, lun, All)
    ensures Covers(table, mem, bak, p, lun, kind)
    ensures kind.Attributes? ==> Admitted(table, mem, p, lun) && Agrees(table, mem, p, lun, Guids)
    ensures kind.Guids? ==> Agrees(table, mem, p, lun, Attributes)
    decreases |mem|
  {
    hide LongLongBytes;
    if mem != [] {
      assert mem[0] == if Blank(mem[0].typeGuid) then bak[0] else Updated(bak[0], mem[0], kind);
      AgreesCovers(table, bak[1..], mem[1..], if Skipped(mem[0], lun) then p else p + 1, lun, kind);
    }
  }

  /** A write of one field leaves agreement in the other. */
  lemma {:induction false} AgreesKept(t: seq<bv8>, u: seq<bv8>, mem: seq<PartitionEntry>, p: nat, lun: nat,
                                      written: UpdateType, kept: UpdateType)
    requires |t| == |u| == TABLE_SIZE && p + |mem| <= MAX_ENTRIES && OnlyFields(t, u, 0, written)
    requires (written == Attributes && kept == Guids) || (written == Guids && kept == Attributes)
    requires Agrees(t, mem, p, lun, kept)
    ensures Agrees(u, mem, p, lun, kept)
    decreases |mem|
  {
    hide LongLongBytes;
    if mem != [] {
      if Skipped(mem[0], lun) {
        AgreesKept(t, u, mem[1..], p, lun, written, kept);
      } else {
        OtherField(t, u, p, written);
        AgreesKept(t, u, mem[1..], p + 1, lun, written, kept);
      }
    }
  }

  lemma OtherField(t: seq<bv8>, u: seq<bv8>, p: nat, written: UpdateType)
    requires |t| == |u| == TABLE_SIZE && p < MAX_ENTRIES && OnlyFields(t, u, 0, written)
    ensures written == Attributes ==> SlotGuid(t, p) == SlotGuid(u, p)
    ensures written == Guids ==> AttributeBytes(t, p) == AttributeBytes(u, p)
  {
    forall i: nat | 128 * p <= i < 128 * p + 16 ensures !MayWrite(i, 0, Attributes) {
      FieldBytes(i, p, 0, 16);
    }
    forall i: nat | 128 * p + 48 <= i < 128 * p + 56 ensures !MayWrite(i, 0, Guids) {
      FieldBytes(i, p, 48, 8);
    }
  }

  lemma {:induction false} AgreesBoth(table: seq<bv8>, mem: seq<PartitionEntry>, p: nat, lun: nat)
    requires |table| == TABLE_SIZE && p + |mem| <= MAX_ENTRIES
    ensures Agrees(table, mem, p, lun, All)
            == (Agrees(table, mem, p, lun, Guids) && Agrees(table, mem, p, lun, Attributes))
    decreases |mem|
  {
    hide LongLongBytes;
    if mem != [] {
      AgreesBoth(table, mem[1..], if Skipped(mem[0], lun) then p else p + 1, lun);
    }
  }

  /** A table in step with the backup is, after the walk, in step with memory. */
  lemma WalkKeepsStep(table: seq<bv8>, bak: seq<PartitionEntry>, mem: seq<PartitionEntry>, lun: nat, kind: UpdateType)
    requires |table| == TABLE_SIZE && |mem| <= MAX_ENTRIES && kind != All
    requires ChangedOnly(bak, mem, kind) && Agrees(table, bak, 0, lun, All)
    ensures Agrees(Walk(table, mem, 0, lun, kind).table, mem, 0, lun, All)
    ensures Covers(table, mem, bak, 0, lun, kind) && (kind.Attributes? ==> Admitted(table, mem, 0, lun))
  {
    hide LongLongBytes;
    var u := Walk(table, mem, 0, lun, kind).table;
    AgreesCovers(table, bak, mem, 0, lun, kind);
    WalkSettles(table, mem, 0, lun, kind);
    WalkWrites(table, mem, 0, lun, kind);
    AgreesKept(table, u, mem, 0, lun, kind, if kind == Attributes then Guids else Attributes);
    AgreesBoth(u, mem, 0, lun);
  }

  /** Merged once, the backup covers any table. */
  lemma {:induction false} MergedCovers(table: seq<bv8>, mem: seq<PartitionEntry>, bak: seq<PartitionEntry>, p: nat,
                                        lun: nat, kind: UpdateType)
    requires |table| == TABLE_SIZE && p + |mem| <= MAX_ENTRIES && |bak| == |mem|
    ensures Covers(table, mem, Merged(bak, mem, lun, kind), p, lun, kind)
    decreases |mem|
  {
    hide LongLongBytes;
    if mem != [] {
      MergedCons(bak, mem, lun, kind);
      assert Merged(bak, mem, lun, kind)[1..] == Merged(bak[1..], mem[1..], lun, kind);
      MergedCovers(table, mem[1..], bak[1..], if Skipped(mem[0], lun) then p else p + 1, lun, kind);
    }
  }

  lemma MergedTwice(bak: seq<PartitionEntry>, mem: seq<PartitionEntry>, lun: nat, kind: UpdateType)
    requires |bak| == |mem|
    ensures Merged(Merged(bak, mem, lun, kind), mem, lun, kind) == Merged(bak, mem, lun, kind)
  {}

  /** Agreement looks at the entries of its own LUN only. */
  lemma {:induction false} AgreesOwned(table: seq<bv8>, m: seq<PartitionEntry>, n: seq<PartitionEntry>, p: nat,
                                       lun: nat, kind: UpdateType)
    requires |table| == TABLE_SIZE && p + |m| <= MAX_ENTRIES && |m| == |n|
    requires forall i :: 0 <= i < |m| ==> m[i].lun == n[i].lun && (m[i].lun == lun ==> m[i] == n[i])
    ensures Agrees(table, m, p, lun, kind) == Agrees(table, n, p, lun, kind)
    decreases |m|
  {
    hide LongLongBytes;
    if m != [] {
      AgreesOwned(table, m[1..], n[1..], if Skipped(m[0], lun) then p else p + 1, lun, kind);
    }
  }
}
