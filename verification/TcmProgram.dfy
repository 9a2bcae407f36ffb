/** The report programs of SynapticsTCMDxe.c, and a scan of one that tells whether it ends on every
    report of a given length. */
module TcmProgram {
  import opened BitField

  const MAX_FINGER := 10
  const MESSAGE_BUFFER_SIZE := 512

  const TOUCH_END := 0
  const TOUCH_FOREACH_ACTIVE_OBJECT := 1
  const TOUCH_FOREACH_OBJECT := 2
  const TOUCH_FOREACH_END := 3
  const TOUCH_PAD_TO_NEXT_BYTE := 4
  const TOUCH_OBJECT_N_INDEX := 6
  const TOUCH_OBJECT_N_CLASSIFICATION := 7
  const TOUCH_OBJECT_N_X_POSITION := 8
  const TOUCH_OBJECT_N_Y_POSITION := 9
  const TOUCH_CUSTOMER_GESTURE_INFO := 0xC7
  const TOUCH_CUSTOMER_GESTURE_INFO2 := 0xC8

  /** TCM_BUFFER: a fixed buffer and how much of it is program. */
  datatype Program = Program(buffer: seq<Octet>, length: nat)

  /** The byte after an opcode; well-formed programs only ask for bytes of the buffer. */
  function Operand(p: Program, i: nat): Octet {
    if i < |p.buffer| then p.buffer[i] else 0
  }

  predicate Gesture(op: Octet) { op == TOUCH_CUSTOMER_GESTURE_INFO || op == TOUCH_CUSTOMER_GESTURE_INFO2 }

  /** How far an opcode moves. Gesture data is skipped a byte at a time, at most twenty, by a loop
      whose unsigned countdown misses zero unless the width is a multiple of eight. */
  function Width(op: Octet, w: Octet): nat {
    if Gesture(op) && w != 0 && (w % 8 != 0 || w > 160) then 160 else w
  }

  lemma Widths(op: Octet, w: Octet)
    ensures Width(op, w) <= 0xFF && (w > 0 <==> Width(op, w) > 0) && (!Gesture(op) ==> Width(op, w) == w)
    ensures Gesture(op) ==> Width(op, w) == Width(TOUCH_CUSTOMER_GESTURE_INFO, w)
  {}

  /** Whole bytes of gesture data up to twenty are skipped as asked; anything else skips twenty. */
  lemma GestureWidths(op: Octet, w: Octet)
    requires op == 0xC7 || op == 0xC8
    ensures Width(op, w) == if w % 8 == 0 && w <= 160 then w else 160
  {}

  function RoundUp(n: nat): nat { (n + 7) / 8 * 8 }

  function Max(a: nat, b: nat): nat { if a < b then b else a }

  // ---------- Straight stretches ----------

  /** From `i` to `e` there are only opcodes that skip or pad, operands included. */
  ghost predicate Straight(p: Program, i: nat, e: nat)
    decreases e - i
  {
    || i == e
    || (i < e && i < p.length && i < |p.buffer|
        && if Operand(p, i) == TOUCH_PAD_TO_NEXT_BYTE then Straight(p, i + 1, e)
           else Operand(p, i) > TOUCH_PAD_TO_NEXT_BYTE && i + 2 <= e && i + 1 < |p.buffer| && Straight(p, i + 2, e))
  }

  /** The offset behind a straight stretch entered at offset `at`. */
  function Behind(p: Program, i: nat, e: nat, at: nat): nat
    decreases e - i
  {
    if i >= e then at
    else if Operand(p, i) == TOUCH_PAD_TO_NEXT_BYTE then Behind(p, i + 1, e, RoundUp(at))
    else Behind(p, i + 2, e, at + Width(Operand(p, i), Operand(p, i + 1)))
  }

  predicate SkipsBits(p: Program, i: nat, e: nat)
    decreases e - i
  {
    if i >= e then false
    else if Operand(p, i) == TOUCH_PAD_TO_NEXT_BYTE then SkipsBits(p, i + 1, e)
    else Operand(p, i + 1) > 0 || SkipsBits(p, i + 2, e)
  }

  predicate ReadsIndex(p: Program, i: nat, e: nat)
    decreases e - i
  {
    if i >= e then false
    else if Operand(p, i) == TOUCH_PAD_TO_NEXT_BYTE then ReadsIndex(p, i + 1, e)
    else Operand(p, i) == TOUCH_OBJECT_N_INDEX || ReadsIndex(p, i + 2, e)
  }

  /** `left` passes more over the straight body from `start` to `e`. */
  function Repeat(p: Program, start: nat, e: nat, at: nat, left: nat): nat
    decreases left
  {
    if left == 0 then at else Repeat(p, start, e, Behind(p, start, e, at), left - 1)
  }

  // ---------- The scan ----------

  /** What a scan knows: the loop it is in, how often an object loop will still jump back, what has
      happened since the loop's start, and the offset. */
  datatype Scan = Scan(start: nat, active: bool, left: nat, bits: bool, indexed: bool, at: nat)

  function Enter(start: nat, active: bool, at: nat): Scan {
    Scan(start, active, if active then 0 else MAX_FINGER - 1, false, false, at)
  }

  function Over(c: Scan, op: Octet, w: Octet): Scan {
    c.(left := if op == TOUCH_OBJECT_N_INDEX then 0 else c.left, bits := c.bits || w > 0,
       indexed := c.indexed || op == TOUCH_OBJECT_N_INDEX, at := c.at + Width(op, w))
  }

  /** Behind the end of its loop: the report is used up, or the body has run ten times. */
  function Left(p: Program, c: Scan, e: nat, size: nat): Scan {
    if c.active then c.(at := Max(c.at, size)) else c.(left := 0, at := Repeat(p, c.start, e, c.at, c.left))
  }

  /** A loop end that is passed at last: in an active-object loop whose body skips bits or with the
      report used up, in an object loop whose body reads no index. */
  predicate EndAllowed(c: Scan, size: nat) {
    if c.active then c.bits || c.at >= size else !c.indexed
  }

  /** From position `i` on, every loop end is passed at last, on reports of `size` bits, and every
      operand is in the buffer. Loops need not be closed. */
  ghost predicate SafeFrom(p: Program, size: nat, i: nat, c: Scan)
    decreases p.length - i
  {
    i < p.length ==>
      var op := Operand(p, i);
      i < |p.buffer| &&
      if op == TOUCH_END then true
      else if op == TOUCH_FOREACH_ACTIVE_OBJECT then SafeFrom(p, size, i + 1, Enter(i + 1, true, c.at))
      else if op == TOUCH_FOREACH_OBJECT then SafeFrom(p, size, i + 1, Enter(i + 1, false, c.at))
      else if op == TOUCH_FOREACH_END then EndAllowed(c, size) && SafeFrom(p, size, i + 1, Left(p, c, i, size))
      else if op == TOUCH_PAD_TO_NEXT_BYTE then SafeFrom(p, size, i + 1, c.(at := RoundUp(c.at)))
      else i + 1 < |p.buffer| && SafeFrom(p, size, i + 2, Over(c, op, Operand(p, i + 1)))
  }

  // ---------- Straight stretches and the scan ----------

  /** The scan behind a straight stretch. */
  function OverAll(p: Program, i: nat, e: nat, c: Scan): Scan
    decreases e - i
  {
    if i >= e then c
    else if Operand(p, i) == TOUCH_PAD_TO_NEXT_BYTE then OverAll(p, i + 1, e, c.(at := RoundUp(c.at)))
    else OverAll(p, i + 2, e, Over(c, Operand(p, i), Operand(p, i + 1)))
  }

  lemma {:induction false} StraightScan(p: Program, size: nat, i: nat, e: nat, c: Scan)
    requires Straight(p, i, e)
    ensures SafeFrom(p, size, i, c) == SafeFrom(p, size, e, OverAll(p, i, e, c))
    decreases e - i
  {
    hide Width;
    if i < e {
      if Operand(p, i) == TOUCH_PAD_TO_NEXT_BYTE {
        StraightScan(p, size, i + 1, e, c.(at := RoundUp(c.at)));
      } else {
        StraightScan(p, size, i + 2, e, Over(c, Operand(p, i), Operand(p, i + 1)));
      }
    }
  }

  lemma {:induction false} StraightFlags(p: Program, i: nat, e: nat, c: Scan)
    ensures var d := OverAll(p, i, e, c);
            && d.start == c.start && d.active == c.active && d.left == (if ReadsIndex(p, i, e) then 0 else c.left)
            && d.bits == (c.bits || SkipsBits(p, i, e)) && d.indexed == (c.indexed || ReadsIndex(p, i, e))
            && d.at == Behind(p, i, e, c.at)
    decreases e - i
  {
    hide Width;
    if i < e {
      if Operand(p, i) == TOUCH_PAD_TO_NEXT_BYTE {
        StraightFlags(p, i + 1, e, c.(at := RoundUp(c.at)));
      } else {
        StraightFlags(p, i + 2, e, Over(c, Operand(p, i), Operand(p, i + 1)));
      }
    }
  }

  /** One opcode more. */
  lemma {:induction false} StraightNext(p: Program, i: nat, j: nat)
    requires Straight(p, i, j) && i <= j < p.length && j < |p.buffer|
    ensures Operand(p, j) == TOUCH_PAD_TO_NEXT_BYTE ==>
      && Straight(p, i, j + 1)
      && SkipsBits(p, i, j + 1) == SkipsBits(p, i, j) && ReadsIndex(p, i, j + 1) == ReadsIndex(p, i, j)
    ensures Operand(p, j) > TOUCH_PAD_TO_NEXT_BYTE && j + 1 < |p.buffer| ==>
      && Straight(p, i, j + 2)
      && SkipsBits(p, i, j + 2) == (SkipsBits(p, i, j) || Operand(p, j + 1) > 0)
      && ReadsIndex(p, i, j + 2) == (ReadsIndex(p, i, j) || Operand(p, j) == TOUCH_OBJECT_N_INDEX)
    decreases j - i
  {
    if i < j {
      StraightNext(p, if Operand(p, i) == TOUCH_PAD_TO_NEXT_BYTE then i + 1 else i + 2, j);
    }
  }

  // ---------- Later offsets ----------

  /** Offset `b` is as good as `a`: it is as far, or the report is used up. */
  predicate AsFar(a: nat, b: nat, size: nat) { a <= b || size <= b }

  lemma RoundUpFar(a: nat, b: nat, size: nat)
    requires AsFar(a, b, size)
    ensures AsFar(RoundUp(a), RoundUp(b), size) && RoundUp(a) >= a
  {}

  lemma {:induction false} BehindFar(p: Program, i: nat, e: nat, a: nat, b: nat, size: nat)
    requires AsFar(a, b, size)
    ensures AsFar(Behind(p, i, e, a), Behind(p, i, e, b), size)
    decreases e - i
  {
    hide Width, RoundUp;
    if i < e {
      if Operand(p, i) == TOUCH_PAD_TO_NEXT_BYTE {
        RoundUpFar(a, b, size);
        BehindFar(p, i + 1, e, RoundUp(a), RoundUp(b), size);
      } else {
        var w := Width(Operand(p, i), Operand(p, i + 1));
        BehindFar(p, i + 2, e, a + w, b + w, size);
      }
    }
  }

  lemma {:induction false} RepeatFar(p: Program, start: nat, e: nat, a: nat, b: nat, left: nat, size: nat)
    requires AsFar(a, b, size)
    ensures AsFar(Repeat(p, start, e, a, left), Repeat(p, start, e, b, left), size)
    decreases left
  {
    hide Behind;
    if left > 0 {
      BehindFar(p, start, e, a, b, size);
      RepeatFar(p, start, e, Behind(p, start, e, a), Behind(p, start, e, b), left - 1, size);
    }
  }

  /** Safe on longer reports, or from an earlier offset, is safe on shorter ones from a later. */
  lemma {:induction false} Shorter(p: Program, size: nat, i: nat, c: Scan, less: nat, at: nat)
    requires SafeFrom(p, size, i, c) && less <= size && AsFar(c.at, at, less)
    ensures SafeFrom(p, less, i, c.(at := at))
    decreases p.length - i
  {
    hide Width, RoundUp, Repeat;
    if i < p.length {
      var op := Operand(p, i);
      if op == TOUCH_FOREACH_ACTIVE_OBJECT || op == TOUCH_FOREACH_OBJECT {
        Shorter(p, size, i + 1, Enter(i + 1, op == TOUCH_FOREACH_ACTIVE_OBJECT, c.at), less, at);
      } else if op == TOUCH_FOREACH_END {
        RepeatFar(p, c.start, i, c.at, at, c.left, less);
        Shorter(p, size, i + 1, Left(p, c, i, size), less, Left(p, c.(at := at), i, less).at);
      } else if op == TOUCH_PAD_TO_NEXT_BYTE {
        RoundUpFar(c.at, at, less);
        Shorter(p, size, i + 1, c.(at := RoundUp(c.at)), less, RoundUp(at));
      } else if op > TOUCH_PAD_TO_NEXT_BYTE {
        var w := Operand(p, i + 1);
        Shorter(p, size, i + 2, Over(c, op, w), less, at + Width(op, w));
      }
    }
  }

  /** Behind the report's end the offset does not matter. */
  lemma Capped(p: Program, size: nat, i: nat, c: Scan, at: nat)
    requires c.at >= size && at >= size
    ensures SafeFrom(p, size, i, c) == SafeFrom(p, size, i, c.(at := at))
  {
    if SafeFrom(p, size, i, c) {
      Shorter(p, size, i, c, size, at);
    }
    if SafeFrom(p, size, i, c.(at := at)) {
      Shorter(p, size, i, c.(at := at), size, c.at);
    }
  }

  /** Going back to the loop's start is as safe as the end it is done from. */
  lemma JumpScan(p: Program, size: nat, e: nat, c: Scan)
    requires e < p.length && e < |p.buffer| && Operand(p, e) == TOUCH_FOREACH_END && Straight(p, c.start, e)
    requires c.bits == SkipsBits(p, c.start, e) && c.indexed == ReadsIndex(p, c.start, e)
    requires EndAllowed(c, size) && if c.active then c.left == 0 && c.at < size else c.left > 0
    ensures var d := Scan(c.start, c.active, if c.active then 0 else c.left - 1, false, false, c.at);
            SafeFrom(p, size, c.start, d) == SafeFrom(p, size, e, c)
  {
    hide Straight, SkipsBits, ReadsIndex, Behind, OverAll;
    var d := Scan(c.start, c.active, if c.active then 0 else c.left - 1, false, false, c.at);
    StraightScan(p, size, c.start, e, d);
    StraightFlags(p, c.start, e, d);
    var f := OverAll(p, c.start, e, d);
    assert SafeFrom(p, size, e, f) == SafeFrom(p, size, e + 1, Left(p, f, e, size));
    assert SafeFrom(p, size, e, c) == SafeFrom(p, size, e + 1, Left(p, c, e, size));
    if c.active {
      Capped(p, size, e + 1, Left(p, c, e, size), Left(p, f, e, size).at);
    }
  }
}
