/** Which programs end on every report of a given length: exactly those TcmReport.WellFormed admits.
    A program that is not admitted runs for ever on the report of that many zeros. */
module TcmEnding {
  import opened BitField
  import opened TcmProgram
  import opened TcmReport
  import opened TcmLoops

  /** Every operand scanned is in the buffer; the code reads past it otherwise. */
  ghost predicate OperandsInside(p: Program, i: nat)
    decreases p.length - i
  {
    i < p.length ==>
      var op := Operand(p, i);
      if op == TOUCH_END then true
      else if op <= TOUCH_PAD_TO_NEXT_BYTE then OperandsInside(p, i + 1)
      else i + 1 < |p.buffer| && OperandsInside(p, i + 2)
  }

  ghost predicate Ends(p: Program, payload: seq<Octet>) {
    exists n: nat :: Steps(p, payload, START, n).halted
  }

  /** On every report of at most `longest` bytes. */
  ghost predicate EndsOnEveryReport(p: Program, longest: nat) {
    forall payload: seq<Octet> :: |payload| <= longest ==> Ends(p, payload)
  }

  // ---------- Admitted programs end ----------

  lemma {:induction false} SoundEnds(p: Program, payload: seq<Octet>, s: State) returns (n: nat)
    requires s.halted || Sound(p, |payload|, s)
    ensures Steps(p, payload, s, n).halted
    decreases After(p, s), JumpsLeft(s, 8 * |payload|), Ahead(p, s)
  {
    hide Sound, Step;
    n := 0;
    if !s.halted {
      ExecStep(p, payload, s);
      n := SoundEnds(p, payload, Step(p, payload, s));
      n := n + 1;
    }
  }

  // ---------- A report of zeros ----------

  predicate Zero(payload: seq<Octet>) { forall i :: 0 <= i < |payload| ==> payload[i] == 0 }

  lemma {:induction false} ZeroField(payload: seq<Octet>, at: nat, n: nat)
    requires Zero(payload) && at + n <= 8 * |payload|
    ensures Field(payload, at, n) == 0
    decreases n
  {
    if n > 0 {
      ZeroBits(at % 8);
      ZeroField(payload, at + 1, n - 1);
    }
  }

  lemma ZeroItem(op: Octet, w: Octet, payload: seq<Octet>, s: State)
    requires Zero(payload) && !s.halted && s.data == 0
    ensures var t := Item(op, w, payload, s);
            !t.halted && t.data == 0 && t.objectIndex == if op == TOUCH_OBJECT_N_INDEX then 0 else s.objectIndex
  {
    hide Field;
    if 1 <= w <= 32 && s.offset + w <= 8 * |payload| {
      ZeroField(payload, s.offset, w);
    }
  }

  // ---------- Other programs do not ----------

  /** From position `i` of an object loop on, an end of it comes behind a read of the index. */
  ghost predicate Again(p: Program, i: nat, indexed: bool)
    decreases p.length - i
  {
    && i < p.length
    && var op := Operand(p, i);
       if op == TOUCH_FOREACH_END then indexed || Again(p, i + 1, indexed)
       else if op == TOUCH_PAD_TO_NEXT_BYTE then Again(p, i + 1, indexed)
       else if op > TOUCH_PAD_TO_NEXT_BYTE then Again(p, i + 2, indexed || op == TOUCH_OBJECT_N_INDEX)
       else false
  }

  lemma {:induction false} AgainUnsafe(p: Program, size: nat, i: nat, c: Scan)
    requires !c.active && Again(p, i, c.indexed)
    ensures !SafeFrom(p, size, i, c)
    decreases p.length - i
  {
    hide Width, RoundUp, Repeat;
    var op := Operand(p, i);
    if op == TOUCH_FOREACH_END {
      if !c.indexed {
        AgainUnsafe(p, size, i + 1, Left(p, c, i, size));
      }
    } else if op == TOUCH_PAD_TO_NEXT_BYTE {
      AgainUnsafe(p, size, i + 1, c.(at := RoundUp(c.at)));
    } else if op > TOUCH_PAD_TO_NEXT_BYTE {
      AgainUnsafe(p, size, i + 2, Over(c, op, Operand(p, i + 1)));
    }
  }

  predicate HasPad(p: Program, i: nat, e: nat)
    decreases e - i
  {
    i < e && (Operand(p, i) == TOUCH_PAD_TO_NEXT_BYTE || HasPad(p, i + 2, e))
  }

  lemma RoundUpTwice(n: nat)
    ensures RoundUp(RoundUp(n)) == RoundUp(n)
  {}

  /** A stretch that skips no bits rounds the offset up, if it does anything. */
  lemma {:induction false} BehindNoBits(p: Program, i: nat, e: nat, at: nat)
    requires Straight(p, i, e) && !SkipsBits(p, i, e)
    ensures Behind(p, i, e, at) == if HasPad(p, i, e) then RoundUp(at) else at
    decreases e - i
  {
    hide RoundUp;
    if i < e {
      if Operand(p, i) == TOUCH_PAD_TO_NEXT_BYTE {
        BehindNoBits(p, i + 1, e, RoundUp(at));
        RoundUpTwice(at);
      } else {
        Widths(Operand(p, i), Operand(p, i + 1));
        BehindNoBits(p, i + 2, e, at);
      }
    }
  }

  lemma {:induction false} PadNext(p: Program, i: nat, j: nat)
    requires Straight(p, i, j) && i <= j < p.length && j < |p.buffer|
    ensures Operand(p, j) > TOUCH_PAD_TO_NEXT_BYTE ==> HasPad(p, i, j + 2) == HasPad(p, i, j)
    decreases j - i
  {
    if i < j && Operand(p, i) != TOUCH_PAD_TO_NEXT_BYTE {
      PadNext(p, i + 2, j);
    }
  }

  /** A state from which a report of `r` zeros never ends. */
  ghost predicate Doomed(p: Program, r: nat, s: State) {
    && p.length <= |p.buffer| == MESSAGE_BUFFER_SIZE
    && !s.halted && s.data == 0 && s.next <= s.index
    && OperandsInside(p, s.index) && OperandsInside(p, s.next)
    && Tracked(p, 8 * r, s) && !Safe(p, 8 * r, s)
    && (s.active && s.offset < 8 * r && !s.track.bits && HasPad(p, s.next, s.index) ==> RoundUp(s.offset) == s.offset)
    && (!s.active ==> Again(p, s.next, false) == Again(p, s.index, s.track.indexed))
    && (!s.active && s.track.indexed ==> s.objectIndex == 0)
  }

  lemma DoomedInside(p: Program, r: nat, s: State)
    requires Doomed(p, r, s)
    ensures s.index < p.length && Operand(p, s.index) == p.buffer[s.index] != TOUCH_END
    ensures Operand(p, s.index) > TOUCH_PAD_TO_NEXT_BYTE ==> s.index + 1 < |p.buffer|
  {}

  lemma DoomedEnter(p: Program, r: nat, s: State, active: bool)
    requires Doomed(p, r, s)
    requires Operand(p, s.index) == if active then TOUCH_FOREACH_ACTIVE_OBJECT else TOUCH_FOREACH_OBJECT
    ensures Doomed(p, r, EnterLoop(s.(index := s.index + 1), active))
  {
    DoomedInside(p, r, s);
    EnterScan(p, 8 * r, s, active);
    hide Safe, Tracked, Again;
  }

  lemma DoomedPad(p: Program, r: nat, s: State)
    requires Doomed(p, r, s) && Operand(p, s.index) == TOUCH_PAD_TO_NEXT_BYTE
    ensures Doomed(p, r, Pad(s.(index := s.index + 1)))
  {
    DoomedInside(p, r, s);
    PadScan(p, 8 * r, s);
    RoundUpTwice(s.offset);
    hide Safe, Tracked, RoundUp;
  }

  lemma DoomedItem(p: Program, payload: seq<Octet>, s: State)
    requires Doomed(p, |payload|, s) && Zero(payload) && Operand(p, s.index) > TOUCH_PAD_TO_NEXT_BYTE
    ensures Doomed(p, |payload|, Item(Operand(p, s.index), Operand(p, s.index + 1), payload, s.(index := s.index + 2)))
  {
    var op, w := Operand(p, s.index), Operand(p, s.index + 1);
    DoomedInside(p, |payload|, s);
    ItemMoves(op, w, payload, s.(index := s.index + 2));
    ZeroItem(op, w, payload, s.(index := s.index + 2));
    ItemScan(p, 8 * |payload|, payload, s);
    var t := Item(op, w, payload, s.(index := s.index + 2));
    if t.active && t.offset < 8 * |payload| {
      PadNext(p, s.next, s.index);
    }
    hide Safe, Tracked, RoundUp, Item, HasPad;
  }

  lemma DoomedEnd(p: Program, r: nat, s: State)
    requires Doomed(p, r, s) && Operand(p, s.index) == TOUCH_FOREACH_END
    ensures Doomed(p, r, LoopEnd(s.(index := s.index + 1), 8 * r))
  {
    DoomedInside(p, r, s);
    var t := LoopEnd(s.(index := s.index + 1), 8 * r);
    if EndAllowed(ScanOf(s), 8 * r) {
      EndScan(p, 8 * r, s);
    } else if s.active {
      StraightScan(p, 8 * r, s.next, s.index, ScanOf(t));
      StraightFlags(p, s.next, s.index, ScanOf(t));
      BehindNoBits(p, s.next, s.index, s.offset);
    } else {
      AgainUnsafe(p, 8 * r, s.next, ScanOf(t));
    }
    hide Safe, SafeFrom, RoundUp;
  }

  lemma DoomedStep(p: Program, payload: seq<Octet>, s: State)
    requires Doomed(p, |payload|, s) && Zero(payload)
    ensures Doomed(p, |payload|, Step(p, payload, s))
  {
    DoomedInside(p, |payload|, s);
    DoomedRuns(p, |payload|, s);
    hide Doomed, Item, EnterLoop, LoopEnd, Pad, Zero;
    var op := Operand(p, s.index);
    if op == TOUCH_FOREACH_ACTIVE_OBJECT || op == TOUCH_FOREACH_OBJECT {
      DoomedEnter(p, |payload|, s, op == TOUCH_FOREACH_ACTIVE_OBJECT);
    } else if op == TOUCH_FOREACH_END {
      DoomedEnd(p, |payload|, s);
    } else if op == TOUCH_PAD_TO_NEXT_BYTE {
      DoomedPad(p, |payload|, s);
    } else {
      DoomedItem(p, payload, s);
    }
  }

  lemma DoomedRuns(p: Program, r: nat, s: State)
    requires Doomed(p, r, s)
    ensures !s.halted && |p.buffer| == MESSAGE_BUFFER_SIZE
  {}

  lemma {:induction false} DoomedForever(p: Program, payload: seq<Octet>, s: State, n: nat)
    requires Doomed(p, |payload|, s) && Zero(payload)
    ensures !Steps(p, payload, s, n).halted
    decreases n
  {
    DoomedRuns(p, |payload|, s);
    if n > 0 {
      hide Doomed, Step;
      DoomedStep(p, payload, s);
      DoomedForever(p, payload, Step(p, payload, s), n - 1);
    }
  }

  /** The programs that end on every report of at most `longest` bytes are exactly the ones well-formed
      for that length; the others do not end on that many zeros. */
  lemma EndingPrograms(p: Program, longest: nat)
    requires p.length <= |p.buffer| == MESSAGE_BUFFER_SIZE && OperandsInside(p, 0) && longest <= MAX_PAYLOAD
    ensures EndsOnEveryReport(p, longest) <==> WellFormed(p, longest)
    ensures WellFormed(p, longest) <==> Ends(p, seq(longest, i => 0))
  {
    var zeros: seq<Octet> := seq(longest, i => 0);
    if WellFormed(p, longest) {
      hide Sound, WellFormed;
      forall payload: seq<Octet> | |payload| <= longest
        ensures Ends(p, payload)
      {
        FitForShorter(p, longest, |payload|);
        StartSound(p, |payload|);
        var n := SoundEnds(p, payload, START);
      }
      assert Ends(p, zeros);
    } else {
      assert Doomed(p, |zeros|, START);
      hide Doomed, WellFormed;
      forall n: nat
        ensures !Steps(p, zeros, START, n).halted
      {
        DoomedForever(p, zeros, START, n);
      }
      assert !Ends(p, zeros);
    }
  }

  // ---------- Programs ----------

  /** An active-object loop that reads an index of no bits never ends, on any report. */
  lemma EndlessProgram(p: Program, payload: seq<Octet>)
    requires |p.buffer| == MESSAGE_BUFFER_SIZE && p.length == 4 && payload != []
    requires p.buffer[..4] == [TOUCH_FOREACH_ACTIVE_OBJECT, TOUCH_OBJECT_N_INDEX, 0, TOUCH_FOREACH_END]
    ensures !Ends(p, payload)
  {
    assert forall i :: 0 <= i < 4 ==> p.buffer[i] == p.buffer[..4][i];
    var s := Step(p, payload, START);
    assert AtStart(p, s, 3) && s.active && s.data == 0 && s.offset == 0;
    assert BodyBits(p, 1, 3) == 0;
    hide Step;
    ActiveLeft(p, payload, s, 3);
    forall n: nat
      ensures !Steps(p, payload, START, n).halted
    {
      if n > 0 {
        assert !LeftAfter(p, payload, s, 3, n - 1);
      }
    }
  }

  /** x in eight bits of every object, and then an empty loop. */
  ghost predicate Draining(p: Program) {
    && |p.buffer| == MESSAGE_BUFFER_SIZE && p.length == 6
    && p.buffer[..6] == [TOUCH_FOREACH_ACTIVE_OBJECT, TOUCH_OBJECT_N_X_POSITION, 8, TOUCH_FOREACH_END,
                               TOUCH_FOREACH_ACTIVE_OBJECT, TOUCH_FOREACH_END]
  }

  lemma DrainingBytes(p: Program)
    requires Draining(p)
    ensures |p.buffer| == MESSAGE_BUFFER_SIZE && p.length == 6
    ensures p.buffer[0] == 1 && p.buffer[1] == 8 && p.buffer[2] == 8 && p.buffer[3] == 3 && p.buffer[4] == 1
            && p.buffer[5] == 3
  {
    assert forall i :: 0 <= i < 6 ==> p.buffer[i] == p.buffer[..6][i];
  }

  lemma DrainingSafe(p: Program, size: nat)
    requires Draining(p)
    ensures Safe(p, size, START)
  {
    DrainingBytes(p);
    hide Draining;
    var c := Scan(1, true, 0, true, false, 8);
    var d := Enter(5, true, Max(8, size));
    assert SafeFrom(p, size, 6, Left(p, d, 5, size));
    assert SafeFrom(p, size, 5, d);
    assert SafeFrom(p, size, 4, Left(p, c, 3, size));
    assert SafeFrom(p, size, 3, c);
    assert SafeFrom(p, size, 1, Enter(1, true, 0));
  }

  /** Behind a loop that uses up the report, even an empty loop ends. */
  lemma DrainedProgram(p: Program, longest: nat)
    requires Draining(p) && longest <= MAX_PAYLOAD
    ensures WellFormed(p, longest) && EndsOnEveryReport(p, longest)
  {
    DrainingBytes(p);
    DrainingSafe(p, 8 * longest);
    hide Draining, Safe;
    assert OperandsInside(p, 6) && OperandsInside(p, 5) && OperandsInside(p, 4);
    assert OperandsInside(p, 3) && OperandsInside(p, 1);
    EndingPrograms(p, longest);
  }

  /** 254 skips of 255 bits, ten times over, and then an empty loop over the active objects. */
  ghost predicate Skipping(p: Program) {
    && |p.buffer| == p.length == MESSAGE_BUFFER_SIZE
    && p.buffer[0] == TOUCH_FOREACH_OBJECT && p.buffer[509] == TOUCH_FOREACH_END
    && p.buffer[510] == TOUCH_FOREACH_ACTIVE_OBJECT && p.buffer[511] == TOUCH_FOREACH_END
    && forall k: nat :: k < 254 ==> p.buffer[1 + 2 * k] == 5 && p.buffer[2 + 2 * k] == 255
  }

  lemma SkippingAt(p: Program, k: nat)
    requires Skipping(p) && 1 <= k <= 254
    ensures |p.buffer| == p.length == MESSAGE_BUFFER_SIZE && p.buffer[509 - 2 * k] == 5 && p.buffer[510 - 2 * k] == 255
  {
    assert p.buffer[1 + 2 * (254 - k)] == 5 && p.buffer[2 + 2 * (254 - k)] == 255;
  }

  lemma {:induction false} SkippingBody(p: Program, k: nat, at: nat)
    requires Skipping(p) && k <= 254
    ensures SkipsFrom(p, 509 - 2 * k, 509, at, 255 * k)
    decreases k
  {
    var i, e := 509 - 2 * k, 509;
    if k > 0 {
      SkippingAt(p, k);
      hide Skipping;
      SkippingBody(p, k - 1, at + 255);
      SkipsOne(p, i, e, at, 255 * (k - 1));
    }
  }

  /** A straight stretch that skips `n` bits and reads no index. */
  ghost predicate SkipsFrom(p: Program, i: nat, e: nat, at: nat, n: nat) {
    && Straight(p, i, e) && Behind(p, i, e, at) == at + n
    && !ReadsIndex(p, i, e) && OperandsInside(p, i) == OperandsInside(p, e)
  }

  lemma SkipsOne(p: Program, i: nat, e: nat, at: nat, n: nat)
    requires i + 2 <= e && i + 1 < |p.buffer| && i < p.length && p.buffer[i] == 5 && p.buffer[i + 1] == 255
    requires SkipsFrom(p, i + 2, e, at + 255, n)
    ensures SkipsFrom(p, i, e, at, n + 255)
  {}

  /** It skips 647700 bits. On reports that short it ends, and on longer ones it does not. */
  lemma SkippingProgram(p: Program, longest: nat)
    requires Skipping(p) && longest <= MAX_PAYLOAD
    ensures EndsOnEveryReport(p, longest) <==> 8 * longest <= 647700
  {
    var size, c := 8 * longest, Enter(1, false, 0);
    SkippingBody(p, 254, 0);
    StraightScan(p, size, 1, 509, c);
    StraightFlags(p, 1, 509, c);
    var d := OverAll(p, 1, 509, c);
    forall a: nat
      ensures Behind(p, 1, 509, a) == a + 64770
    {
      SkippingBody(p, 254, a);
    }
    RepeatAdds(p, 1, 509, 64770, 64770, 9);
    var e := Left(p, d, 509, size);
    assert e.at == 647700;
    var f := Enter(511, true, 647700);
    assert SafeFrom(p, size, 512, Left(p, f, 511, size));
    assert SafeFrom(p, size, 511, f) == (647700 >= size);
    assert SafeFrom(p, size, 510, e) == SafeFrom(p, size, 511, f);
    assert SafeFrom(p, size, 509, d) == SafeFrom(p, size, 510, e);
    assert SafeFrom(p, size, 0, ScanOf(START)) == SafeFrom(p, size, 1, c);
    assert OperandsInside(p, 512) && OperandsInside(p, 511) && OperandsInside(p, 510) && OperandsInside(p, 509);
    EndingPrograms(p, longest);
  }

  lemma {:induction false} RepeatAdds(p: Program, start: nat, e: nat, b: nat, at: nat, left: nat)
    requires forall a: nat :: Behind(p, start, e, a) == a + b
    ensures Repeat(p, start, e, at, left) == at + b * left
    decreases left
  {
    hide Behind;
    if left > 0 {
      RepeatAdds(p, start, e, b, at + b, left - 1);
      assert b * left == b + b * (left - 1);
    }
  }
}
