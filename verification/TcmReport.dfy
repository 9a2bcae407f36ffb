/** TcmDispatchReport of SynapticsTCMDxe.c: a small bytecode program, sent by the touch controller,
    says how to read its reports. Loops jump back on conditions that depend on the report, so
    whether a program ends is a property of the program. EFI_STATUS is unsigned, so no parse error
    ever stops the decoder: a failed read keeps the word read before. */
module TcmReport {
  import opened BitField
  import opened TcmProgram

  datatype Touch = Touch(x: nat, y: nat, status: nat)

  /** What happened since the loop start `next` was last entered: were bits skipped, was the object
      index read, and where in the report it was. The code keeps no such record. */
  datatype Track = Track(bits: bool, indexed: bool, entry: nat)

  /** The local variables between two opcodes; `badIndex` says that an object index that is no
      finger's made the decoder stop. */
  datatype State = State(index: nat, next: nat, active: bool, objectIndex: nat, offset: nat, data: nat, ok: bool,
                         touch: Touch, halted: bool, badIndex: bool, track: Track)

  const START := State(0, 0, false, 0, 0, 0, true, Touch(0, 0, 0), false, false, Track(false, false, 0))

  // ---------- One opcode ----------

  function LoopEnd(s: State, bits: nat): State {
    if s.active then
      if s.offset < bits then s.(index := s.next, track := Track(false, false, s.offset)) else s
    else
      var t := s.(objectIndex := s.objectIndex + 1);
      if t.objectIndex < MAX_FINGER then t.(index := t.next, track := Track(false, false, t.offset)) else t
  }

  /** The four opcodes that read a field of at most 32 bits. */
  function Read(op: Octet, w: Octet, payload: seq<Octet>, s: State): State {
    var field := Parse(payload, s.offset, w);
    var d := if field.Some? then field.value else s.data;
    var t := s.(data := d, ok := field.Some?, offset := s.offset + w);
    if op == TOUCH_OBJECT_N_INDEX then
      if d >= MAX_FINGER then s.(data := d, ok := field.Some?, halted := true, badIndex := true)
      else t.(objectIndex := d)
    else if op == TOUCH_OBJECT_N_CLASSIFICATION
      then t.(touch := t.touch.(status := if d >= 1 then 1 else t.touch.status))
    else if op == TOUCH_OBJECT_N_X_POSITION then t.(touch := t.touch.(x := d % 0x1_0000))
    else t.(touch := t.touch.(y := d % 0x1_0000))
  }

  predicate Reads(op: Octet) { TOUCH_OBJECT_N_INDEX <= op <= TOUCH_OBJECT_N_Y_POSITION }

  /** An opcode with an operand; `s.index` is behind both. */
  function Item(op: Octet, w: Octet, payload: seq<Octet>, s: State): State {
    var t := s.(track := s.track.(bits := s.track.bits || w > 0,
                                  indexed := s.track.indexed || op == TOUCH_OBJECT_N_INDEX));
    if Reads(op) then Read(op, w, payload, t) else t.(offset := t.offset + Width(op, w))
  }

  function EnterLoop(s: State, active: bool): State {
    s.(objectIndex := 0, next := s.index, active := active, track := Track(false, false, s.offset))
  }

  function Pad(s: State): State { s.(offset := RoundUp(s.offset)) }

  /** An opcode without an operand; `s.index` is behind it. */
  function Control(op: Octet, s: State, bits: nat): State {
    if op == TOUCH_END then s.(halted := true)
    else if op == TOUCH_FOREACH_ACTIVE_OBJECT then EnterLoop(s, true)
    else if op == TOUCH_FOREACH_OBJECT then EnterLoop(s, false)
    else if op == TOUCH_FOREACH_END then LoopEnd(s, bits)
    else Pad(s)
  }

  function Step(p: Program, payload: seq<Octet>, s: State): State {
    if s.halted then s
    else if s.index >= p.length || s.index >= |p.buffer| then s.(halted := true)
    else
      var op := p.buffer[s.index];
      var t := s.(index := s.index + 1);
      if op <= TOUCH_PAD_TO_NEXT_BYTE then Control(op, t, 8 * |payload|)
      else Item(op, Operand(p, t.index), payload, t.(index := t.index + 1))
  }

  // ---------- The run and the scan ----------

  /** How often the object loop of `s` will still jump back. */
  function LeftOf(s: State): nat {
    if s.active || s.track.indexed || s.objectIndex > MAX_FINGER - 1 then 0 else MAX_FINGER - 1 - s.objectIndex
  }

  /** What a scan knows in state `s`. */
  function ScanOf(s: State): Scan {
    Scan(s.next, s.active, LeftOf(s), s.track.bits, s.track.indexed, s.offset)
  }

  ghost predicate Safe(p: Program, size: nat, s: State) { SafeFrom(p, size, s.index, ScanOf(s)) }

  /** As long as the loop may jump back, the run has come straight from its start. */
  ghost predicate Tracked(p: Program, size: nat, s: State) {
    (if s.active then s.offset < size else LeftOf(s) > 0) ==>
      && Straight(p, s.next, s.index)
      && s.track.bits == SkipsBits(p, s.next, s.index) && s.track.indexed == ReadsIndex(p, s.next, s.index)
  }

  lemma EnterScan(p: Program, size: nat, s: State, active: bool)
    requires s.index < p.length && s.index < |p.buffer|
    requires Operand(p, s.index) == if active then TOUCH_FOREACH_ACTIVE_OBJECT else TOUCH_FOREACH_OBJECT
    ensures var t := EnterLoop(s.(index := s.index + 1), active);
            Tracked(p, size, t) && Safe(p, size, s) == Safe(p, size, t)
  {}

  lemma PadScan(p: Program, size: nat, s: State)
    requires s.index < p.length && s.index < |p.buffer| && Operand(p, s.index) == TOUCH_PAD_TO_NEXT_BYTE
    requires Tracked(p, size, s)
    ensures var t := Pad(s.(index := s.index + 1)); Tracked(p, size, t) && Safe(p, size, s) == Safe(p, size, t)
  {
    var t := Pad(s.(index := s.index + 1));
    assert Safe(p, size, s) == Safe(p, size, t);
    hide SafeFrom;
    if if t.active then t.offset < size else LeftOf(t) > 0 {
      StraightNext(p, s.next, s.index);
    }
  }

  lemma ItemScan(p: Program, size: nat, payload: seq<Octet>, s: State)
    requires !s.halted && s.index < p.length && s.index + 1 < |p.buffer| && Operand(p, s.index) > TOUCH_PAD_TO_NEXT_BYTE
    requires Tracked(p, size, s)
    ensures var t := Item(Operand(p, s.index), Operand(p, s.index + 1), payload, s.(index := s.index + 2));
            !t.halted ==> Tracked(p, size, t) && Safe(p, size, s) == Safe(p, size, t)
  {
    var op, w := Operand(p, s.index), Operand(p, s.index + 1);
    ItemMoves(op, w, payload, s.(index := s.index + 2));
    var t := Item(op, w, payload, s.(index := s.index + 2));
    hide Item, Width;
    if !t.halted {
      assert ScanOf(t) == Over(ScanOf(s), op, w);
      assert Safe(p, size, s) == Safe(p, size, t);
      hide SafeFrom;
      if if t.active then t.offset < size else LeftOf(t) > 0 {
        StraightNext(p, s.next, s.index);
      }
    }
  }

  /** The end of a loop, whether it is left or not: the scan of the rest says the same before and
      after. */
  lemma EndScan(p: Program, size: nat, s: State)
    requires s.index < p.length && s.index < |p.buffer| && Operand(p, s.index) == TOUCH_FOREACH_END
    requires Tracked(p, size, s) && EndAllowed(ScanOf(s), size)
    ensures var t := LoopEnd(s.(index := s.index + 1), size);
            Tracked(p, size, t) && Safe(p, size, s) == Safe(p, size, t)
  {
    var e, c, t := s.index, ScanOf(s), LoopEnd(s.(index := s.index + 1), size);
    if t.index == e + 1 {
      assert Safe(p, size, s) == SafeFrom(p, size, e + 1, Left(p, c, e, size));
      assert ScanOf(t) == Left(p, c, e, size);
    } else {
      JumpScan(p, size, e, c);
    }
  }

  /** Programs that end on every report of `r` bytes (TcmEnding.EndingPrograms). */
  ghost predicate WellFormed(p: Program, r: nat) {
    p.length <= |p.buffer| == MESSAGE_BUFFER_SIZE && Safe(p, 8 * r, START)
  }

  /** A program fit for longer reports is fit for shorter ones. */
  lemma FitForShorter(p: Program, longer: nat, r: nat)
    requires WellFormed(p, longer) && r <= longer
    ensures WellFormed(p, r)
  {
    Shorter(p, 8 * longer, 0, ScanOf(START), 8 * r, 0);
  }

  /** One loop over the active objects whose straight body skips bits is fit for every length. */
  lemma OneLoop(p: Program, e: nat, r: nat)
    requires |p.buffer| == MESSAGE_BUFFER_SIZE && 1 <= e < |p.buffer| && p.length == e + 1
    requires p.buffer[0] == TOUCH_FOREACH_ACTIVE_OBJECT && p.buffer[e] == TOUCH_FOREACH_END
    requires Straight(p, 1, e) && SkipsBits(p, 1, e)
    ensures WellFormed(p, r)
  {
    hide Straight, SkipsBits;
    var c := Enter(1, true, 0);
    StraightScan(p, 8 * r, 1, e, c);
    StraightFlags(p, 1, e, c);
    hide OverAll;
    var d := OverAll(p, 1, e, c);
    assert SafeFrom(p, 8 * r, e + 1, Left(p, d, e, 8 * r));
    assert SafeFrom(p, 8 * r, e, d);
  }

  /** More than the offset can grow by between two loop starts. */
  const REGION := 0x18_0000
  const PASS := 0x2_0000

  const MAX_PAYLOAD := 0x1000_0000

  function JumpsDone(s: State): nat {
    if s.active then 0 else if s.track.indexed || s.objectIndex > 10 then 10 else s.objectIndex
  }

  ghost predicate Sound(p: Program, r: nat, s: State) {
    && p.length <= |p.buffer| == MESSAGE_BUFFER_SIZE
    && r <= MAX_PAYLOAD
    && s.next <= s.index <= p.length + 1
    && s.track.entry <= s.offset
    && (s.track.bits ==> s.track.entry < s.offset)
    && s.offset <= 8 * r + REGION * s.next + PASS * JumpsDone(s) + 0x100 * (s.index - s.next)
    && (!s.halted ==> Tracked(p, 8 * r, s) && Safe(p, 8 * r, s))
  }

  function JumpsLeft(s: State, bits: nat): nat {
    if s.active then (if s.track.entry < bits then bits - s.track.entry else 0)
    else if s.track.indexed || s.objectIndex > 10 then 0
    else 11 - s.objectIndex
  }

  /** Every step comes closer to the end: a later loop, or fewer jumps left, or a later opcode. */
  predicate Closer(p: Program, bits: nat, s: State, t: State) {
    || s.next < t.next
    || (s.next == t.next && JumpsLeft(t, bits) < JumpsLeft(s, bits))
    || (s.next == t.next && JumpsLeft(t, bits) <= JumpsLeft(s, bits)
        && (s.index < t.index || (s.index == t.index && t.halted)))
  }

  /** The offset stays far from wrapping a 32-bit word. */
  lemma OffsetSmall(p: Program, r: nat, s: State)
    requires Sound(p, r, s)
    ensures s.offset + 0x100 < WORD_LIMIT && 8 * r < WORD_LIMIT
  {
    assert REGION * s.next <= REGION * 513;
  }

  lemma EnterSound(p: Program, r: nat, s: State, active: bool)
    requires Sound(p, r, s) && !s.halted && s.index < p.length
    requires Operand(p, s.index) == if active then TOUCH_FOREACH_ACTIVE_OBJECT else TOUCH_FOREACH_OBJECT
    ensures var t := EnterLoop(s.(index := s.index + 1), active); Sound(p, r, t) && Closer(p, 8 * r, s, t)
  {
    EnterScan(p, 8 * r, s, active);
    hide Safe, Tracked;
    assert REGION * (s.index + 1) >= REGION * s.next + REGION;
  }

  lemma EndSound(p: Program, r: nat, s: State)
    requires Sound(p, r, s) && !s.halted && s.index < p.length && Operand(p, s.index) == TOUCH_FOREACH_END
    ensures var t := LoopEnd(s.(index := s.index + 1), 8 * r); Sound(p, r, t) && Closer(p, 8 * r, s, t)
  {
    EndScan(p, 8 * r, s);
    hide Safe, Tracked;
  }

  lemma PadSound(p: Program, r: nat, s: State)
    requires Sound(p, r, s) && !s.halted && s.index < p.length && Operand(p, s.index) == TOUCH_PAD_TO_NEXT_BYTE
    ensures var t := Pad(s.(index := s.index + 1)); Sound(p, r, t) && Closer(p, 8 * r, s, t)
  {
    PadScan(p, 8 * r, s);
    hide Safe, Tracked;
  }

  lemma ReadMoves(op: Octet, w: Octet, payload: seq<Octet>, s: State)
    requires Reads(op) && !s.halted
    ensures var t := Read(op, w, payload, s);
            && t.index == s.index && t.next == s.next && t.active == s.active && t.track == s.track
            && (op != TOUCH_OBJECT_N_INDEX ==> t.objectIndex == s.objectIndex && !t.halted)
            && t.badIndex == (t.halted || s.badIndex)
            && t.offset == if t.halted then s.offset else s.offset + w
  {
    hide Parse;
  }

  lemma ItemMoves(op: Octet, w: Octet, payload: seq<Octet>, s: State)
    requires !s.halted
    ensures var t := Item(op, w, payload, s);
            && t.index == s.index && t.next == s.next && t.active == s.active
            && t.track == Track(s.track.bits || w > 0, s.track.indexed || op == TOUCH_OBJECT_N_INDEX, s.track.entry)
            && (op != TOUCH_OBJECT_N_INDEX ==> t.objectIndex == s.objectIndex && !t.halted)
            && t.badIndex == (t.halted || s.badIndex)
            && t.offset == (if t.halted then s.offset else s.offset + Width(op, w))
            && Width(op, w) <= 0xFF && (w > 0 <==> Width(op, w) > 0)
  {
    hide Read, Width;
    Widths(op, w);
    if Reads(op) {
      ReadMoves(op, w, payload,
                s.(track := Track(s.track.bits || w > 0, s.track.indexed || op == TOUCH_OBJECT_N_INDEX,
                                  s.track.entry)));
    }
  }

  lemma ItemSound(p: Program, r: nat, payload: seq<Octet>, s: State)
    requires Sound(p, r, s) && !s.halted && s.index < p.length && Operand(p, s.index) > TOUCH_PAD_TO_NEXT_BYTE
             && r == |payload|
    ensures var t := Item(Operand(p, s.index), Operand(p, s.index + 1), payload, s.(index := s.index + 2));
            (t.halted || Sound(p, r, t)) && Closer(p, 8 * r, s, t) && s.index + 1 < |p.buffer|
  {
    var op, w := Operand(p, s.index), Operand(p, s.index + 1);
    ItemMoves(op, w, payload, s.(index := s.index + 2));
    ItemScan(p, 8 * r, payload, s);
    hide Safe, Tracked, Item;
  }

  /** One step of a well-formed program: it stays inside its buffer, keeps the offset from
      wrapping, and comes closer to the end. */
  lemma StepSound(p: Program, payload: seq<Octet>, s: State)
    requires Sound(p, |payload|, s) && !s.halted
    ensures var t := Step(p, payload, s);
            && (t.halted || Sound(p, |payload|, t))
            && Closer(p, 8 * |payload|, s, t)
            && (t.badIndex ==> t.halted || s.badIndex)
            && (t.halted ==> t.next == s.next)
  {
    hide Sound, Closer, Item, EnterLoop, LoopEnd, Pad;
    if s.index < p.length {
      Inside(p, |payload|, s);
      var op := Operand(p, s.index);
      if op == TOUCH_END {
        StopSound(p, |payload|, s, s.index + 1);
      } else if op == TOUCH_FOREACH_ACTIVE_OBJECT {
        EnterSound(p, |payload|, s, true);
      } else if op == TOUCH_FOREACH_OBJECT {
        EnterSound(p, |payload|, s, false);
      } else if op == TOUCH_FOREACH_END {
        EndSound(p, |payload|, s);
      } else if op == TOUCH_PAD_TO_NEXT_BYTE {
        PadSound(p, |payload|, s);
      } else {
        ItemSound(p, |payload|, payload, s);
        ItemMoves(op, Operand(p, s.index + 1), payload, s.(index := s.index + 2));
      }
      Steady(s, 8 * |payload|);
    } else {
      StopSound(p, |payload|, s, s.index);
    }
  }

  predicate SameFlags(s: State, t: State) { t.badIndex == s.badIndex && t.halted == s.halted }

  lemma Steady(s: State, bits: nat)
    ensures SameFlags(s, EnterLoop(s.(index := s.index + 1), true))
            && SameFlags(s, EnterLoop(s.(index := s.index + 1), false))
    ensures SameFlags(s, LoopEnd(s.(index := s.index + 1), bits)) && SameFlags(s, Pad(s.(index := s.index + 1)))
  {}

  lemma Inside(p: Program, r: nat, s: State)
    requires Sound(p, r, s) && !s.halted && s.index < p.length
    ensures s.index < |p.buffer| && Operand(p, s.index) == p.buffer[s.index]
    ensures Operand(p, s.index) > TOUCH_PAD_TO_NEXT_BYTE ==> s.index + 1 < |p.buffer|
  {}

  lemma StopSound(p: Program, r: nat, s: State, index: nat)
    requires Sound(p, r, s) && !s.halted && s.index <= index
    ensures Closer(p, 8 * r, s, s.(index := index, halted := true))
  {}

  // ---------- Whole runs ----------

  function After(p: Program, s: State): nat {
    if s.next <= p.length + 1 then p.length + 1 - s.next else 0
  }

  function Ahead(p: Program, s: State): nat {
    if s.halted || s.index > p.length + 1 then 0 else p.length + 2 - s.index
  }

  /** The state in which a well-formed program stops. Every run of one does stop: this function is
      total on them. */
  ghost function Exec(p: Program, payload: seq<Octet>, s: State): (r: State)
    requires s.halted || Sound(p, |payload|, s)
    ensures r.halted
    decreases After(p, s), JumpsLeft(s, 8 * |payload|), Ahead(p, s)
  {
    if s.halted then s else
      StepSound(p, payload, s);
      StepLess(p, payload, s);
      Exec(p, payload, Step(p, payload, s))
  }

  lemma StepLess(p: Program, payload: seq<Octet>, s: State)
    requires !s.halted && Sound(p, |payload|, s)
    ensures var t := Step(p, payload, s);
            || After(p, t) < After(p, s)
            || (After(p, t) == After(p, s) && JumpsLeft(t, 8 * |payload|) < JumpsLeft(s, 8 * |payload|))
            || (After(p, t) == After(p, s) && JumpsLeft(t, 8 * |payload|) == JumpsLeft(s, 8 * |payload|)
                && Ahead(p, t) < Ahead(p, s))
  {
    hide Safe, Tracked, Step, JumpsLeft, JumpsDone;
    StepSound(p, payload, s);
  }

  lemma StartSound(p: Program, r: nat)
    requires WellFormed(p, r) && r <= MAX_PAYLOAD
    ensures Sound(p, r, START)
  {
    hide Safe;
  }

  // ---------- Positions ----------

  /** The payload has the field an opcode asks for. */
  predicate Readable(payload: seq<Octet>, at: nat, w: Octet) { 1 <= w <= 32 && at + w <= 8 * |payload| }

  /** A position opcode stores the low 16 bits of the payload's field if the payload has it, and of
      the word read before otherwise; the status of the run says which. */
  lemma PositionStored(p: Program, payload: seq<Octet>, s: State)
    requires Sound(p, |payload|, s) && !s.halted && s.index < p.length
    requires Operand(p, s.index) == TOUCH_OBJECT_N_X_POSITION || Operand(p, s.index) == TOUCH_OBJECT_N_Y_POSITION
    ensures var w, t := Operand(p, s.index + 1), Step(p, payload, s);
            var word := if Readable(payload, s.offset, w) then Field(payload, s.offset, w) else s.data;
            && t.data == word && t.ok == Readable(payload, s.offset, w) && t.touch.status == s.touch.status
            && (Operand(p, s.index) == TOUCH_OBJECT_N_X_POSITION ==>
                t.touch.x == word % 0x1_0000 && t.touch.y == s.touch.y)
            && (Operand(p, s.index) == TOUCH_OBJECT_N_Y_POSITION ==>
                t.touch.y == word % 0x1_0000 && t.touch.x == s.touch.x)
  {
    hide Safe, Tracked, Field;
    Inside(p, |payload|, s);
  }

  /** Padding moves to the next byte boundary, by less than a byte, and does nothing else. */
  lemma PadStep(p: Program, payload: seq<Octet>, s: State)
    requires Sound(p, |payload|, s) && !s.halted && s.index < p.length && Operand(p, s.index) == 4
    ensures var t := Step(p, payload, s);
            && t == s.(index := s.index + 1, offset := t.offset)
            && t.offset % 8 == 0 && s.offset <= t.offset < s.offset + 8
  {
    hide Safe, Tracked;
    Inside(p, |payload|, s);
  }

  /** The other opcodes with an operand move over as many bits, gesture data over whole bytes only, and
      do nothing else. */
  lemma SkipStep(p: Program, payload: seq<Octet>, s: State)
    requires Sound(p, |payload|, s) && !s.halted && s.index < p.length
    requires Operand(p, s.index) == 5 || Operand(p, s.index) > 9
    ensures var op, w, t := Operand(p, s.index), Operand(p, s.index + 1), Step(p, payload, s);
            && t == s.(index := s.index + 2, offset := t.offset, track := t.track)
            && t.offset == s.offset + if (op != 0xC7 && op != 0xC8) || (w % 8 == 0 && w <= 160) then w else 160
  {
    hide Safe, Tracked;
    Inside(p, |payload|, s);
  }

  // ---------- The decoder ----------

  /** TOUCH_DATA, filled in place. */
  class TouchData {
    var touchX: nat
    var touchY: nat
    var touchStatus: nat

    function Value(): Touch
      reads this
    {
      Touch(touchX, touchY, touchStatus)
    }
  }

  lemma ExecStep(p: Program, payload: seq<Octet>, s: State)
    requires Sound(p, |payload|, s) && !s.halted
    ensures var t := Step(p, payload, s);
            && (t.halted || Sound(p, |payload|, t))
            && Exec(p, payload, s) == Exec(p, payload, t)
            && JustCloser(p, payload, s, t)
  {
    hide Sound, Step;
    StepSound(p, payload, s);
    StepLess(p, payload, s);
  }

  /** `t` precedes `s` in the order that shows the decoder to end. */
  predicate JustCloser(p: Program, payload: seq<Octet>, s: State, t: State) {
    || After(p, t) < After(p, s)
    || (After(p, t) == After(p, s) && JumpsLeft(t, 8 * |payload|) < JumpsLeft(s, 8 * |payload|))
    || (After(p, t) == After(p, s) && JumpsLeft(t, 8 * |payload|) == JumpsLeft(s, 8 * |payload|)
        && Ahead(p, t) < Ahead(p, s))
  }

  function Wrap(n: nat): nat { n % WORD_LIMIT }

  lemma NoWrap(n: nat)
    requires n < WORD_LIMIT
    ensures Wrap(n) == n
  {}

  /** The loop that steps over gesture data, on 32-bit words. */
  method SkipGesture(bitsOffset: nat, width: Octet) returns (r: nat)
    requires bitsOffset + 160 < WORD_LIMIT
    ensures r == bitsOffset + Width(TOUCH_CUSTOMER_GESTURE_INFO, width)
    ensures r == bitsOffset + if width % 8 == 0 && width <= 160 then width else 160
  {
    GestureWidths(TOUCH_CUSTOMER_GESTURE_INFO, width);
    var bitsToRead: int := width;
    var bufIdx: nat := 0;
    r := bitsOffset;
    while bitsToRead > 0
      invariant bufIdx <= 20 && r == bitsOffset + 8 * bufIdx
      invariant bitsToRead == (width as int - 8 * bufIdx) % WORD_LIMIT
      invariant (width % 8 == 0 ==> 8 * bufIdx <= width) && (bufIdx > 0 ==> width != 0)
      decreases 20 - bufIdx
    {
      if bufIdx >= 20 {
        break;
      }
      r := Wrap(r + 8);
      bitsToRead := (bitsToRead - 8) % WORD_LIMIT;
      bufIdx := bufIdx + 1;
    }
  }

  /** The cases of the switch whose opcodes have an operand; `exit` is the jump to the end. */
  method TakeItem(code: Octet, bitsToRead: Octet, payload: seq<Octet>, touchData: TouchData, ok: bool, finger: nat,
                  at: nat, word: nat, ghost s: State)
      returns (exit: bool, status: bool, objectIndex: nat, bitsOffset: nat, dataByte: nat)
    requires s == s.(ok := ok, objectIndex := finger, offset := at, data := word, touch := touchData.Value(),
                   halted := false)
    requires at + 0x100 < WORD_LIMIT && 8 * |payload| < WORD_LIMIT
    modifies touchData
    ensures var t := Item(code, bitsToRead, payload, s);
            t == s.(ok := status, objectIndex := objectIndex, offset := bitsOffset, data := dataByte,
                    touch := touchData.Value(), halted := exit, badIndex := t.badIndex, track := t.track)
  {
    hide Parse, Width, Wrap;
    exit, status, objectIndex, bitsOffset, dataByte := false, ok, finger, at, word;
    Widths(code, bitsToRead);
    NoWrap(bitsOffset + bitsToRead);
    if code == TOUCH_CUSTOMER_GESTURE_INFO || code == TOUCH_CUSTOMER_GESTURE_INFO2 {
      bitsOffset := SkipGesture(bitsOffset, bitsToRead);
      return;
    }
    if Reads(code) {
      var parsed := TcmParseSingleByte(payload, bitsOffset, bitsToRead);
      status := parsed.Some?;
      if parsed.Some? {
        dataByte := parsed.value;
      }
      if code == TOUCH_OBJECT_N_INDEX {
        if dataByte >= MAX_FINGER {
          exit := true;
          return;
        }
        objectIndex := dataByte;
      } else if code == TOUCH_OBJECT_N_CLASSIFICATION {
        touchData.touchStatus := if dataByte >= 1 then 1 else touchData.touchStatus;
      } else if code == TOUCH_OBJECT_N_X_POSITION {
        touchData.touchX := dataByte % 0x1_0000;
      } else {
        touchData.touchY := dataByte % 0x1_0000;
      }
    }
    bitsOffset := Wrap(bitsOffset + bitsToRead);
  }

  lemma StepCases(p: Program, payload: seq<Octet>, s: State)
    requires Sound(p, |payload|, s) && !s.halted && s.index < p.length
    ensures s.index < |p.buffer|
    ensures var op, t := p.buffer[s.index], Step(p, payload, s);
            if op <= TOUCH_PAD_TO_NEXT_BYTE then t == Control(op, s.(index := s.index + 1), 8 * |payload|)
            else s.index + 1 < |p.buffer| && t == Item(op, p.buffer[s.index + 1], payload, s.(index := s.index + 2))
  {
    hide Sound, Item, Control;
    Inside(p, |payload|, s);
  }

  /** The other cases. */
  method TakeControl(code: Octet, bits: nat, here: nat, start: nat, only: bool, finger: nat, at: nat, ghost s: State)
      returns (exit: bool, index: nat, next: nat, activeOnly: bool, objectIndex: nat, bitsOffset: nat)
    requires s == s.(index := here, next := start, active := only, objectIndex := finger, offset := at, halted := false)
    requires code <= TOUCH_PAD_TO_NEXT_BYTE && at + 0x100 < WORD_LIMIT
    ensures var t := Control(code, s, bits);
            t == s.(index := index, next := next, active := activeOnly, objectIndex := objectIndex,
                    offset := bitsOffset, halted := exit, track := t.track)
  {
    exit, index, next, activeOnly, objectIndex, bitsOffset := false, here, start, only, finger, at;
    if code == TOUCH_END {
      exit := true;
    } else if code == TOUCH_FOREACH_ACTIVE_OBJECT || code == TOUCH_FOREACH_OBJECT {
      objectIndex := 0;
      next := index;
      activeOnly := code == TOUCH_FOREACH_ACTIVE_OBJECT;
    } else if code == TOUCH_FOREACH_END {
      if activeOnly {
        if bitsOffset < bits {
          index := next;
        }
      } else {
        objectIndex := objectIndex + 1;
        if objectIndex < MAX_FINGER {
          index := next;
        }
      }
    } else {
      bitsOffset := Wrap(bitsOffset + 7) / 8 * 8;
    }
  }

  /** One turn of the loop over opcodes. */
  method TakeOpcode(config: Program, payload: seq<Octet>, touchData: TouchData, here: nat, start: nat, only: bool,
                    finger: nat, at: nat, word: nat, ok: bool, ghost s: State)
      returns (exit: bool, index: nat, next: nat, activeOnly: bool, objectIndex: nat, bitsOffset: nat, dataByte: nat,
               status: bool)
    requires Sound(config, |payload|, s) && here < config.length
    requires s == State(here, start, only, finger, at, word, ok, touchData.Value(), false, s.badIndex, s.track)
    modifies touchData
    ensures var t := Step(config, payload, s);
            t == State(index, next, activeOnly, objectIndex, bitsOffset, dataByte, status, touchData.Value(), exit,
                       t.badIndex, t.track)
  {
    hide Sound, Item, Control, Step, Operand;
    OffsetSmall(config, |payload|, s);
    StepCases(config, payload, s);
    var code := config.buffer[here];
    exit, index, next, activeOnly, objectIndex, bitsOffset := false, here + 1, start, only, finger, at;
    dataByte, status := word, ok;
    if code <= TOUCH_PAD_TO_NEXT_BYTE {
      exit, index, next, activeOnly, objectIndex, bitsOffset :=
        TakeControl(code, 8 * |payload|, index, next, activeOnly, objectIndex, bitsOffset, s.(index := index));
    } else {
      var bitsToRead := config.buffer[index];
      index := index + 1;
      exit, status, objectIndex, bitsOffset, dataByte :=
        TakeItem(code, bitsToRead, payload, touchData, status, objectIndex, bitsOffset, dataByte, s.(index := index));
    }
  }

  /** TcmDispatchReport: the loop over opcodes ends, and leaves what the run of the program leaves. */
  method TcmDispatchReport(config: Program, payload: seq<Octet>, touchData: TouchData) returns (status: bool)
    requires config.length > 0 ==> WellFormed(config, |payload|)
    requires |payload| <= MAX_PAYLOAD
    modifies touchData
    ensures config.length == 0 ==> !status && unchanged(touchData)
    ensures config.length > 0 ==> Sound(config, |payload|, START) && status == Exec(config, payload, START).ok
    ensures config.length > 0 ==> touchData.Value() == Exec(config, payload, START).touch
  {
    if config.length == 0 {
      return false;
    }
    hide Exec, Sound, WellFormed, JumpsLeft, After, Ahead, Step;
    StartSound(config, |payload|);
    touchData.touchX, touchData.touchY, touchData.touchStatus := 0, 0, 0;
    status := true;
    var index: nat, next: nat, objectIndex: nat, bitsOffset: nat, dataByte: nat := 0, 0, 0, 0, 0;
    var activeOnly, exit := false, false;
    ghost var s := START;
    while !exit && index < config.length
      modifies touchData
      invariant s == State(index, next, activeOnly, objectIndex, bitsOffset, dataByte, status, touchData.Value(), exit,
                           s.badIndex, s.track)
      invariant exit || Sound(config, |payload|, s)
      invariant Exec(config, payload, START) == Exec(config, payload, s)
      decreases After(config, s), JumpsLeft(s, 8 * |payload|), Ahead(config, s)
    {
      ExecStep(config, payload, s);
      exit, index, next, activeOnly, objectIndex, bitsOffset, dataByte, status :=
        TakeOpcode(config, payload, touchData, index, next, activeOnly, objectIndex, bitsOffset, dataByte, status, s);
      s := Step(config, payload, s);
    }
    FinishExec(config, payload, s);
  }

  lemma FinishExec(p: Program, payload: seq<Octet>, s: State)
    requires s.halted || (s.index >= p.length && Sound(p, |payload|, s))
    ensures Exec(p, payload, s).ok == s.ok && Exec(p, payload, s).touch == s.touch
  {
    if !s.halted {
      assert Exec(p, payload, s) == Exec(p, payload, s.(halted := true));
    }
  }
}
