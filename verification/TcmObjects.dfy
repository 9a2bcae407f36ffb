/** What a whole report of the usual shape means: the touch data of the program that reads index,
    classification, x and y of each active object. */
module TcmObjects {
  import opened Arithmetic
  import opened BitField
  import opened TcmProgram
  import opened TcmReport

  /** The widths of an object's four fields. */
  datatype Widths = Widths(index: Octet, class_: Octet, x: Octet, y: Octet)

  function Bits(w: Widths): nat { w.index + w.class_ + w.x + w.y }

  /** FOREACH_ACTIVE_OBJECT, the four fields, FOREACH_END. */
  ghost predicate ReadsObjects(p: Program, w: Widths) {
    && |p.buffer| == MESSAGE_BUFFER_SIZE && p.length == 10
    && p.buffer[..10]
       == [TOUCH_FOREACH_ACTIVE_OBJECT, TOUCH_OBJECT_N_INDEX, w.index, TOUCH_OBJECT_N_CLASSIFICATION, w.class_,
                          TOUCH_OBJECT_N_X_POSITION, w.x, TOUCH_OBJECT_N_Y_POSITION, w.y, TOUCH_FOREACH_END]
    && 1 <= w.index <= 32 && 1 <= w.class_ <= 32 && 1 <= w.x <= 32 && 1 <= w.y <= 32
  }

  // ---------- The fields of object `j`, straight from the payload ----------

  /** The report has room for `n` objects. */
  predicate HasObjects(payload: seq<Octet>, w: Widths, n: nat) { Times(n, Bits(w)) <= 8 * |payload| }

  function IndexOf(payload: seq<Octet>, w: Widths, j: nat): nat
    requires Times(j, Bits(w)) + w.index <= 8 * |payload|
  {
    Field(payload, Times(j, Bits(w)), w.index)
  }

  function ClassOf(payload: seq<Octet>, w: Widths, j: nat): nat
    requires HasObjects(payload, w, j + 1)
  {
    TimesNext(j, Bits(w));
    Field(payload, Times(j, Bits(w)) + w.index, w.class_)
  }

  function XOf(payload: seq<Octet>, w: Widths, j: nat): nat
    requires HasObjects(payload, w, j + 1)
  {
    TimesNext(j, Bits(w));
    Field(payload, Times(j, Bits(w)) + w.index + w.class_, w.x)
  }

  function YOf(payload: seq<Octet>, w: Widths, j: nat): nat
    requires HasObjects(payload, w, j + 1)
  {
    TimesNext(j, Bits(w));
    Field(payload, Times(j, Bits(w)) + w.index + w.class_ + w.x, w.y)
  }

  /** The position of the last of `n` objects, and whether any of them is a touch. */
  function TouchOf(payload: seq<Octet>, w: Widths, n: nat): Touch
    requires HasObjects(payload, w, n)
    decreases n
  {
    if n == 0 then Touch(0, 0, 0) else
      TimesNext(n - 1, Bits(w));
      Touch(XOf(payload, w, n - 1) % 0x1_0000, YOf(payload, w, n - 1) % 0x1_0000,
            if ClassOf(payload, w, n - 1) >= 1 then 1 else TouchOf(payload, w, n - 1).status)
  }

  lemma HasFewer(payload: seq<Octet>, w: Widths, m: nat, n: nat)
    requires HasObjects(payload, w, n) && m <= n
    ensures HasObjects(payload, w, m)
  {
    if m < n {
      TimesBelow(m, n, Bits(w));
    }
  }

  predicate Touching(payload: seq<Octet>, w: Widths, j: nat) {
    HasObjects(payload, w, j + 1) && ClassOf(payload, w, j) >= 1
  }

  /** The status is set if and only if some object is classified as a touch. */
  lemma {:induction false} StatusOfAny(payload: seq<Octet>, w: Widths, n: nat)
    requires HasObjects(payload, w, n)
    ensures TouchOf(payload, w, n).status == 1 <==> exists j: nat :: j < n && Touching(payload, w, j)
    decreases n
  {
    hide XOf, YOf, ClassOf, HasObjects, Times;
    if n > 0 {
      HasFewer(payload, w, n - 1, n);
      StatusOfAny(payload, w, n - 1);
      if TouchOf(payload, w, n).status == 1 {
        if ClassOf(payload, w, n - 1) >= 1 {
          assert Touching(payload, w, n - 1);
        }
      } else {
        assert !Touching(payload, w, n - 1);
        assert TouchOf(payload, w, n - 1).status != 1;
      }
    }
  }

  // ---------- The run of the program ----------

  lemma ObjectProgram(p: Program, w: Widths, r: nat)
    requires ReadsObjects(p, w)
    ensures WellFormed(p, r)
    ensures p.buffer[0] == 1 && p.buffer[1] == 6 && p.buffer[2] == w.index && p.buffer[3] == 7
            && p.buffer[4] == w.class_
    ensures p.buffer[5] == 8 && p.buffer[6] == w.x && p.buffer[7] == 9 && p.buffer[8] == w.y && p.buffer[9] == 3
  {
    assert forall i :: 0 <= i < 10 ==> p.buffer[i] == p.buffer[..10][i];
    assert Straight(p, 9, 9) && Straight(p, 7, 9) && Straight(p, 5, 9) && Straight(p, 3, 9) && Straight(p, 1, 9);
    OneLoop(p, 9, r);
  }

  /** One of the four field opcodes on a field inside the report. */
  lemma FieldStep(p: Program, payload: seq<Octet>, s: State) returns (t: State)
    requires Sound(p, |payload|, s) && !s.halted && s.index + 1 < p.length && Reads(p.buffer[s.index])
    requires 1 <= p.buffer[s.index + 1] <= 32 && s.offset + p.buffer[s.index + 1] <= 8 * |payload|
    requires p.buffer[s.index] == TOUCH_OBJECT_N_INDEX ==> Field(payload, s.offset, p.buffer[s.index + 1]) < MAX_FINGER
    ensures Sound(p, |payload|, t) && !t.halted && Exec(p, payload, t) == Exec(p, payload, s)
    ensures t.index == s.index + 2 && t.next == s.next && t.active == s.active
    ensures var op, w := p.buffer[s.index], p.buffer[s.index + 1];
            var d := Field(payload, s.offset, w);
            && t.offset == s.offset + w && t.ok && t.data == d
            && t.touch.x == (if op == TOUCH_OBJECT_N_X_POSITION then d % 0x1_0000 else s.touch.x)
            && t.touch.y == (if op == TOUCH_OBJECT_N_Y_POSITION then d % 0x1_0000 else s.touch.y)
            && t.touch.status == (if op == TOUCH_OBJECT_N_CLASSIFICATION && d >= 1 then 1 else s.touch.status)
  {
    hide Sound, Step, Exec, Field;
    StepCases(p, payload, s);
    ExecStep(p, payload, s);
    t := Step(p, payload, s);
  }

  /** At the loop's start, in front of object `j`. */
  ghost predicate AtObject(p: Program, payload: seq<Octet>, w: Widths, s: State, j: nat) {
    && Sound(p, |payload|, s) && !s.halted && s.active && s.index == s.next == 1
    && s.offset == Times(j, Bits(w)) && HasObjects(payload, w, j) && s.touch == TouchOf(payload, w, j)
  }

  /** A whole pass: the touch data is that of one object more. */
  lemma ObjectPass(p: Program, payload: seq<Octet>, w: Widths, s: State, j: nat) returns (t: State)
    requires ReadsObjects(p, w) && AtObject(p, payload, w, s, j) && HasObjects(payload, w, j + 1)
    requires Times(j, Bits(w)) + w.index <= 8 * |payload| && IndexOf(payload, w, j) < MAX_FINGER
    ensures Sound(p, |payload|, t) && !t.halted && Exec(p, payload, t) == Exec(p, payload, s)
    ensures t.touch == TouchOf(payload, w, j + 1) && t.ok
    ensures if Times(j + 1, Bits(w)) < 8 * |payload| then AtObject(p, payload, w, t, j + 1) else t.index == 10
  {
    hide Sound, Step, Exec, Field, ReadsObjects, WellFormed, Times;
    ObjectProgram(p, w, |payload|);
    ProgramLength(p, w);
    TimesNext(j, Bits(w));
    var s1 := FieldStep(p, payload, s);
    var s2 := FieldStep(p, payload, s1);
    var s3 := FieldStep(p, payload, s2);
    var s4 := FieldStep(p, payload, s3);
    StepCases(p, payload, s4);
    ExecStep(p, payload, s4);
    t := Step(p, payload, s4);
  }

  lemma ProgramLength(p: Program, w: Widths)
    requires ReadsObjects(p, w)
    ensures p.length == 10 && 1 <= w.index <= 32 && 1 <= w.class_ <= 32 && 1 <= w.x <= 32 && 1 <= w.y <= 32
  {}

  /** An index that is no finger's, as the padding byte behind the last object may give, stops the
      decoder without touching the data. */
  lemma StopsAtIndex(p: Program, payload: seq<Octet>, w: Widths, s: State, j: nat)
    requires ReadsObjects(p, w) && AtObject(p, payload, w, s, j)
    requires Times(j, Bits(w)) + w.index <= 8 * |payload| && IndexOf(payload, w, j) >= MAX_FINGER
    ensures Exec(p, payload, s).touch == TouchOf(payload, w, j) && Exec(p, payload, s).ok
  {
    hide Sound, Step, Exec, Field, ReadsObjects, WellFormed, Times, TouchOf;
    ObjectProgram(p, w, |payload|);
    ProgramLength(p, w);
    StepCases(p, payload, s);
    ExecStep(p, payload, s);
    FinishExec(p, payload, Step(p, payload, s));
  }

  /** `n` objects with fingers' indices and then the end of the report, or an index that is none. */
  predicate HoldsObjects(payload: seq<Octet>, w: Widths, n: nat) {
    && HasObjects(payload, w, n)
    && (forall j: nat :: j < n ==> FingerAt(payload, w, j))
    && ((n > 0 && Times(n, Bits(w)) == 8 * |payload|)
        || (Times(n, Bits(w)) + w.index <= 8 * |payload| && IndexOf(payload, w, n) >= MAX_FINGER))
  }

  predicate FingerAt(payload: seq<Octet>, w: Widths, j: nat) {
    Times(j, Bits(w)) + w.index <= 8 * |payload| && IndexOf(payload, w, j) < MAX_FINGER
  }

  lemma {:induction false} ObjectsFrom(p: Program, payload: seq<Octet>, w: Widths, s: State, j: nat, n: nat)
    requires ReadsObjects(p, w) && HoldsObjects(payload, w, n) && j <= n && AtObject(p, payload, w, s, j)
    requires j < n || Times(n, Bits(w)) < 8 * |payload|
    ensures Exec(p, payload, s).touch == TouchOf(payload, w, n) && Exec(p, payload, s).ok
    decreases n - j
  {
    hide Sound, Exec, Field, ReadsObjects, Times, TouchOf, Step;
    ProgramLength(p, w);
    if j == n {
      StopsAtIndex(p, payload, w, s, n);
    } else {
      HasFewer(payload, w, j + 1, n);
      assert FingerAt(payload, w, j);
      var t := ObjectPass(p, payload, w, s, j);
      if j + 1 < n {
        TimesBelow(j + 1, n, Bits(w));
        ObjectsFrom(p, payload, w, t, j + 1, n);
      } else if Times(n, Bits(w)) < 8 * |payload| {
        ObjectsFrom(p, payload, w, t, n, n);
      } else {
        FinishExec(p, payload, t);
      }
    }
  }

  /** The decoded touch is the position of the report's last object and whether any object is a
      touch, for every number of objects and all field widths. */
  lemma ReportDecoded(p: Program, payload: seq<Octet>, w: Widths, n: nat)
    requires ReadsObjects(p, w) && |payload| <= MAX_PAYLOAD && HoldsObjects(payload, w, n)
    ensures WellFormed(p, |payload|) && Sound(p, |payload|, START)
    ensures Exec(p, payload, START).touch == TouchOf(payload, w, n) && Exec(p, payload, START).ok
  {
    hide Sound, Exec, Field, ReadsObjects, Step, WellFormed;
    ObjectProgram(p, w, |payload|);
    ProgramLength(p, w);
    StartSound(p, |payload|);
    StepCases(p, payload, START);
    ExecStep(p, payload, START);
    var s := Step(p, payload, START);
    assert AtObject(p, payload, w, s, 0);
    if n > 0 {
      TimesBelow(0, n, Bits(w));
    }
    ObjectsFrom(p, payload, w, s, 0, n);
  }

  // ---------- Padding ----------

  /** x, padding, and y. */
  ghost predicate PadsBetween(p: Program, w: Octet, v: Octet) {
    |p.buffer| == MESSAGE_BUFFER_SIZE && p.length == 5 && p.buffer[..5] == [8, w, 4, 9, v]
  }

  lemma PaddedProgram(p: Program, w: Octet, v: Octet, r: nat)
    requires PadsBetween(p, w, v)
    ensures WellFormed(p, r)
  {
    PaddedBytes(p, w, v);
    assert Straight(p, 5, 5) && Straight(p, 3, 5) && Straight(p, 2, 5) && Straight(p, 0, 5);
    StraightScan(p, 8 * r, 0, p.length, ScanOf(START));
    hide Straight, OverAll;
  }

  lemma PaddedBytes(p: Program, w: Octet, v: Octet)
    requires PadsBetween(p, w, v)
    ensures p.length == 5 <= |p.buffer|
    ensures p.buffer[0] == 8 && p.buffer[1] == w && p.buffer[2] == 4 && p.buffer[3] == 9 && p.buffer[4] == v
  {
    assert forall i :: 0 <= i < 5 ==> p.buffer[i] == p.buffer[..5][i];
  }

  /** A y behind padding is the payload's field at the first byte boundary behind x. */
  lemma PaddedPosition(p: Program, payload: seq<Octet>, w: Octet, v: Octet, at: nat)
    requires PadsBetween(p, w, v) && 1 <= w <= 32 && 1 <= v <= 32
    requires at % 8 == 0 && w <= at < w + 8 && at + v <= 8 * |payload| <= 8 * MAX_PAYLOAD
    ensures Sound(p, |payload|, START)
    ensures Exec(p, payload, START).touch
         == Touch(Field(payload, 0, w) % 0x1_0000, Field(payload, at, v) % 0x1_0000, 0)
    ensures Exec(p, payload, START).ok
  {
    hide Sound, Exec, Field, WellFormed, Step, PadsBetween;
    PaddedProgram(p, w, v, |payload|);
    PaddedBytes(p, w, v);
    StartSound(p, |payload|);
    var s1 := FieldStep(p, payload, START);
    ExecStep(p, payload, s1);
    PadStep(p, payload, s1);
    var s2 := Step(p, payload, s1);
    var s3 := FieldStep(p, payload, s2);
    FinishExec(p, payload, s3);
  }

  /** x in eight bits and y in sixteen, of every object. */
  ghost predicate Short(p: Program) {
    && |p.buffer| == MESSAGE_BUFFER_SIZE && p.length == 6
    && p.buffer[..6]
       == [TOUCH_FOREACH_ACTIVE_OBJECT, TOUCH_OBJECT_N_X_POSITION, 8, TOUCH_OBJECT_N_Y_POSITION, 16, TOUCH_FOREACH_END]
  }

  lemma ShortProgram(p: Program)
    requires Short(p)
    ensures WellFormed(p, 2)
    ensures p.buffer[0] == 1 && p.buffer[1] == 8 && p.buffer[2] == 8 && p.buffer[3] == 9 && p.buffer[4] == 16
            && p.buffer[5] == 3
  {
    assert forall i :: 0 <= i < 6 ==> p.buffer[i] == p.buffer[..6][i];
    assert Straight(p, 5, 5) && Straight(p, 3, 5) && Straight(p, 1, 5);
    OneLoop(p, 5, 2);
  }

  /** The padding byte behind every message, which is counted as part of the report. */
  const MESSAGE_PADDING: Octet := 0x5A

  /** A report of one byte and the padding. */
  function Padded(b: Octet): seq<Octet> { [b, MESSAGE_PADDING] }

  lemma FirstByte(b: Octet)
    ensures Field(Padded(b), 0, 8) < 256
  {
    FieldBits(Padded(b), 0, 8, 0);
    hide Field;
    assert Pow2(4) == 16 && Pow2(8) == 256;
  }

  lemma AtX(p: Program, b: Octet)
    requires Short(p) && Sound(p, 2, START)
    ensures var t := Step(p, Padded(b), START);
            && Sound(p, 2, t) && Exec(p, Padded(b), START) == Exec(p, Padded(b), t)
            && t == START.(index := 1, next := 1, active := true, track := t.track)
  {
    ShortProgram(p);
    hide Sound, Exec, WellFormed, Step, Item, JustCloser, Short;
    StepCases(p, Padded(b), START);
    ExecStep(p, Padded(b), START);
  }

  lemma AfterX(p: Program, b: Octet) returns (s: State)
    requires Short(p)
    ensures Sound(p, 2, START) && Sound(p, 2, s) && Exec(p, Padded(b), START) == Exec(p, Padded(b), s)
    ensures var x := Field(Padded(b), 0, 8);
            x < 256 && s == State(3, 1, true, s.objectIndex, 8, x, true, Touch(x, 0, 0), false, s.badIndex, s.track)
  {
    ShortProgram(p);
    StartSound(p, 2);
    FirstByte(b);
    hide Sound, Exec, Field, WellFormed, Step, Item, JustCloser, Short;
    AtX(p, b);
    s := FieldStep(p, Padded(b), Step(p, Padded(b), START));
  }

  lemma BehindX(p: Program, b: Octet, s: State)
    requires Short(p) && Sound(p, 2, s)
    requires s == State(3, 1, true, s.objectIndex, 8, s.data, true, s.touch, false, s.badIndex, s.track)
    ensures var t := Step(p, Padded(b), s);
            && Sound(p, 2, t) && Exec(p, Padded(b), s) == Exec(p, Padded(b), t)
            && t == State(5, 1, true, s.objectIndex, 24, s.data, false, s.touch.(y := s.data % 0x1_0000), false,
                          t.badIndex, t.track)
  {
    ShortProgram(p);
    hide Sound, Exec, WellFormed, Step, Item, JustCloser, Short;
    StepCases(p, Padded(b), s);
    ExecStep(p, Padded(b), s);
    PositionStored(p, Padded(b), s);
    ItemMoves(TOUCH_OBJECT_N_Y_POSITION, 16, Padded(b), s.(index := 5));
  }

  lemma Finished(p: Program, b: Octet, s: State)
    requires Short(p) && Sound(p, 2, s) && !s.halted && s.active && s.index == 5 && s.offset == 24
    ensures var r := Exec(p, Padded(b), s); r.ok == s.ok && r.touch == s.touch
  {
    ShortProgram(p);
    hide Sound, Exec, WellFormed, Step, JustCloser, Short;
    StepCases(p, Padded(b), s);
    ExecStep(p, Padded(b), s);
    FinishExec(p, Padded(b), Step(p, Padded(b), s));
  }

  /** A report too short for y: the y stored is x once more, and the status is an error. */
  lemma StalePosition(p: Program, b: Octet)
    requires Short(p)
    ensures Sound(p, 2, START)
    ensures var r, x := Exec(p, Padded(b), START), Field(Padded(b), 0, 8); !r.ok && r.touch == Touch(x, x, 0)
  {
    hide Sound, Exec, Field, Step, Short;
    var s := AfterX(p, b);
    BehindX(p, b, s);
    Finished(p, b, Step(p, Padded(b), s));
  }
}
