/** How often the loops of a report program run, and which never end. */
module TcmLoops {
  import opened Arithmetic
  import opened BitField
  import opened TcmProgram
  import opened TcmReport

  /** Positions `i` up to `e` hold opcodes with operands only. */
  ghost predicate Body(p: Program, i: nat, e: nat)
    decreases e - i
  {
    i == e || (i + 2 <= e <= |p.buffer| && e <= p.length && Operand(p, i) > TOUCH_PAD_TO_NEXT_BYTE && Body(p, i + 2, e))
  }

  /** The bits one pass over the body skips. */
  function BodyBits(p: Program, i: nat, e: nat): nat
    decreases e - i
  {
    if i + 2 > e then 0 else Width(Operand(p, i), Operand(p, i + 1)) + BodyBits(p, i + 2, e)
  }

  ghost predicate NoIndex(p: Program, i: nat, e: nat)
    decreases e - i
  {
    i + 2 <= e ==> Operand(p, i) != TOUCH_OBJECT_N_INDEX && NoIndex(p, i + 2, e)
  }

  /** The words a pass over the body takes for object indices, and the word it ends with: a field
      that cannot be read gives the word before it once more. */
  datatype Pass = Pass(words: seq<nat>, data: nat)

  function BodyWords(p: Program, payload: seq<Octet>, i: nat, e: nat, at: nat, data: nat): Pass
    decreases e - i
  {
    if i + 2 > e then Pass([], data) else
      var op, w := Operand(p, i), Operand(p, i + 1);
      var d := if Reads(op) then Parse(payload, at, w).UnwrapOr(data) else data;
      var rest := BodyWords(p, payload, i + 2, e, at + Width(op, w), d);
      Pass(if op == TOUCH_OBJECT_N_INDEX then [d] + rest.words else rest.words, rest.data)
  }

  predicate Fingers(words: seq<nat>) { forall k :: 0 <= k < |words| ==> words[k] < MAX_FINGER }

  lemma {:induction false} NoIndexNoWords(p: Program, payload: seq<Octet>, i: nat, e: nat, at: nat, data: nat)
    ensures NoIndex(p, i, e) <==> BodyWords(p, payload, i, e, at, data).words == []
    decreases e - i
  {
    hide Parse;
    if i + 2 <= e {
      var op, w := Operand(p, i), Operand(p, i + 1);
      var d := if Reads(op) then Parse(payload, at, w).UnwrapOr(data) else data;
      NoIndexNoWords(p, payload, i + 2, e, at + Width(op, w), d);
    }
  }

  /** One opcode of a straight body. */
  lemma BodyStep(p: Program, payload: seq<Octet>, s: State, e: nat)
    requires !s.halted && s.index < e < p.length <= |p.buffer| && Body(p, s.index, e)
    ensures var op, w, t := Operand(p, s.index), Operand(p, s.index + 1), Step(p, payload, s);
            var d := if Reads(op) then Parse(payload, s.offset, w).UnwrapOr(s.data) else s.data;
            && t.halted == (op == TOUCH_OBJECT_N_INDEX && d >= MAX_FINGER)
            && (!t.halted ==>
                  && t.index == s.index + 2 && t.next == s.next && t.active == s.active && t.data == d
                  && t.offset == s.offset + Width(op, w) && Body(p, t.index, e)
                  && t.objectIndex == if op == TOUCH_OBJECT_N_INDEX then d else s.objectIndex)
  {
    hide Parse, Item, Width;
    var op, w := Operand(p, s.index), Operand(p, s.index + 1);
    assert Step(p, payload, s) == Item(op, w, payload, s.(index := s.index + 2));
    hide Step;
    ItemWord(op, w, payload, s.(index := s.index + 2));
    ItemMoves(op, w, payload, s.(index := s.index + 2));
  }

  lemma ItemWord(op: Octet, w: Octet, payload: seq<Octet>, s: State)
    requires !s.halted
    ensures var d, t := if Reads(op) then Parse(payload, s.offset, w).UnwrapOr(s.data)
            else s.data, Item(op, w, payload, s);
            && t.halted == (op == TOUCH_OBJECT_N_INDEX && d >= MAX_FINGER)
            && (!t.halted ==> t.data == d && t.objectIndex == if op == TOUCH_OBJECT_N_INDEX then d else s.objectIndex)
  {
    hide Parse, Width;
  }

  /** How often the rest of the run stands before position `e`. */
  ghost function Visits(p: Program, payload: seq<Octet>, s: State, e: nat): nat
    requires s.halted || Sound(p, |payload|, s)
    decreases After(p, s), JumpsLeft(s, 8 * |payload|), Ahead(p, s)
  {
    if s.halted then 0 else
      ExecStep(p, payload, s);
      (if s.index == e then 1 else 0) + Visits(p, payload, Step(p, payload, s), e)
  }

  lemma VisitsStep(p: Program, payload: seq<Octet>, s: State, e: nat)
    requires Sound(p, |payload|, s) && !s.halted
    ensures var t := Step(p, payload, s);
            && (t.halted || Sound(p, |payload|, t))
            && Exec(p, payload, s) == Exec(p, payload, t) && JustCloser(p, payload, s, t)
            && Visits(p, payload, s, e) == (if s.index == e then 1 else 0) + Visits(p, payload, t, e)
  {
    hide Sound, Step, Exec;
    ExecStep(p, payload, s);
  }

  /** A pass over the body without an index that is no finger's: straight to its end. */
  lemma {:induction false} BodyWalk(p: Program, payload: seq<Octet>, s: State, e: nat) returns (t: State)
    requires Sound(p, |payload|, s) && !s.halted && s.index <= e < p.length && Body(p, s.index, e)
    requires Fingers(BodyWords(p, payload, s.index, e, s.offset, s.data).words)
    ensures Sound(p, |payload|, t) && !t.halted && t.index == e && t.next == s.next && t.active == s.active
    ensures t.offset == s.offset + BodyBits(p, s.index, e) && t.track.entry == s.track.entry
    ensures t.data == BodyWords(p, payload, s.index, e, s.offset, s.data).data
    ensures NoIndex(p, s.index, e) ==> t.objectIndex == s.objectIndex && t.track.indexed == s.track.indexed
    ensures Exec(p, payload, t) == Exec(p, payload, s) && Visits(p, payload, t, e) == Visits(p, payload, s, e)
    decreases e - s.index
  {
    hide Sound, Step, Exec, Visits, Item, Safe, Tracked, JumpsLeft, Ahead, After, Parse, Width, Reads, Body, Fingers;
    if s.index == e {
      t := s;
    } else {
      assert p.length <= |p.buffer| by {
        BufferHolds(p, |payload|, s);
      }
      StepCases(p, payload, s);
      VisitsStep(p, payload, s, e);
      var u := Step(p, payload, s);
      BodyOne(p, s.index, e);
      ItemMoves(p.buffer[s.index], p.buffer[s.index + 1], payload, s.(index := s.index + 2));
      BodyStep(p, payload, s, e);
      FirstWord(p, payload, s.index, e, s.offset, s.data);
      t := BodyWalk(p, payload, u, e);
    }
  }

  lemma BufferHolds(p: Program, r: nat, s: State)
    requires Sound(p, r, s)
    ensures p.length <= |p.buffer|
  {}

  lemma BodyOne(p: Program, i: nat, e: nat)
    requires Body(p, i, e) && i < e
    ensures i + 2 <= e <= |p.buffer| && Operand(p, i) > TOUCH_PAD_TO_NEXT_BYTE && Body(p, i + 2, e)
  {}

  /** The first word of a pass, and the rest. */
  lemma FirstWord(p: Program, payload: seq<Octet>, i: nat, e: nat, at: nat, data: nat)
    requires i + 2 <= e && Fingers(BodyWords(p, payload, i, e, at, data).words)
    ensures var op, w := Operand(p, i), Operand(p, i + 1);
            var d := if Reads(op) then Parse(payload, at, w).UnwrapOr(data) else data;
            var pass := BodyWords(p, payload, i, e, at, data);
            var rest := BodyWords(p, payload, i + 2, e, at + Width(op, w), d);
            && (op == TOUCH_OBJECT_N_INDEX ==> d < MAX_FINGER)
            && Fingers(rest.words) && pass.data == rest.data
            && pass.words == if op == TOUCH_OBJECT_N_INDEX then [d] + rest.words else rest.words
  {
    hide Parse, Width, Reads;
    var op, w := Operand(p, i), Operand(p, i + 1);
    var d := if Reads(op) then Parse(payload, at, w).UnwrapOr(data) else data;
    var pass, rest := BodyWords(p, payload, i, e, at, data), BodyWords(p, payload, i + 2, e, at + Width(op, w), d);
    assert pass.words == if op == TOUCH_OBJECT_N_INDEX then [d] + rest.words else rest.words;
    assert op == TOUCH_OBJECT_N_INDEX ==> pass.words[0] == d;
    forall j | 0 <= j < |rest.words|
      ensures rest.words[j] < MAX_FINGER
    {
      assert rest.words[j] == pass.words[if op == TOUCH_OBJECT_N_INDEX then j + 1 else j];
    }
  }

  // ---------- Loops that were left ----------

  /** Nothing jumps back any more to the loop that started at `s.next`. */
  predicate Spent(s: State, bits: nat) {
    if s.active then s.offset >= bits else s.objectIndex >= MAX_FINGER || s.track.indexed
  }

  lemma {:induction false} SpentStep(p: Program, payload: seq<Octet>, s: State, e: nat)
    requires Sound(p, |payload|, s) && !s.halted && s.index > e && (s.next > e || Spent(s, 8 * |payload|))
    ensures var t := Step(p, payload, s); t.halted || (t.index > e && (t.next > e || Spent(t, 8 * |payload|)))
  {
    hide Item;
    if s.index < p.length {
      Inside(p, |payload|, s);
      var op := Operand(p, s.index);
      if op > TOUCH_PAD_TO_NEXT_BYTE {
        var w := Operand(p, s.index + 1);
        ItemMoves(op, w, payload, s.(index := s.index + 2));
      } else if op == TOUCH_FOREACH_END {
        EndPassed(p, |payload|, s);
      }
    }
  }

  lemma EndPassed(p: Program, r: nat, s: State)
    requires Sound(p, r, s) && !s.halted && s.index < p.length && Operand(p, s.index) == TOUCH_FOREACH_END
    ensures if s.active then s.track.entry < s.offset || s.offset >= 8 * r else !s.track.indexed
  {}

  lemma {:induction false} Gone(p: Program, payload: seq<Octet>, s: State, e: nat)
    requires s.halted || (Sound(p, |payload|, s) && s.index > e && (s.next > e || Spent(s, 8 * |payload|)))
    ensures Visits(p, payload, s, e) == 0
    decreases After(p, s), JumpsLeft(s, 8 * |payload|), Ahead(p, s)
  {
    hide Sound, Step, Spent;
    if !s.halted {
      VisitsStep(p, payload, s, e);
      SpentStep(p, payload, s, e);
      Gone(p, payload, Step(p, payload, s), e);
    }
  }

  // ---------- How often a body runs ----------

  /** max(1, ceil(rest / b)); with nothing left to read, a body that skips nothing runs once too. */
  function Passes(rest: int, b: nat): nat
    requires b > 0 || rest <= 0
  {
    if rest <= b then 1 else (rest + b - 1) / b
  }

  lemma PassesStep(rest: int, b: nat)
    requires b > 0
    ensures rest > b ==> Passes(rest, b) == 1 + Passes(rest - b, b)
  {
    if rest > b {
      hide *;
      PassesMany(rest, b);
      DivStep(rest + b - 1, b);
      if rest - b <= b {
        DivStep(rest - 1, b);
        SmallQuotient(rest - 1 - b, b);
        OnePass(rest - b, b);
      } else {
        PassesMany(rest - b, b);
      }
    }
  }

  lemma PassesMany(rest: int, b: nat)
    requires rest > b > 0
    ensures Passes(rest, b) == (rest + b - 1) / b
  {}

  lemma SmallQuotient(x: nat, b: nat)
    requires x < b
    ensures x / b == 0
  {}

  /** At the start of a loop whose straight body ends at `e`. */
  ghost predicate LoopStart(p: Program, r: nat, s: State, e: nat) {
    && Sound(p, r, s) && !s.halted
    && s.index == s.next <= e < p.length && Body(p, s.index, e) && Operand(p, e) == TOUCH_FOREACH_END
    && s.track == Track(false, false, s.offset)
  }

  lemma EndStep(p: Program, payload: seq<Octet>, s: State)
    requires Sound(p, |payload|, s) && !s.halted && s.index < p.length && Operand(p, s.index) == TOUCH_FOREACH_END
    ensures Step(p, payload, s) == LoopEnd(s.(index := s.index + 1), 8 * |payload|)
  {
    Inside(p, |payload|, s);
  }

  /** No pass that an active-object loop of `b` bits a pass makes reads an index that is no finger's. */
  ghost predicate NoStop(p: Program, payload: seq<Octet>, i: nat, e: nat, at: nat, data: nat)
    decreases 8 * |payload| - at
  {
    var pass, b := BodyWords(p, payload, i, e, at, data), BodyBits(p, i, e);
    Fingers(pass.words) && (b > 0 && at + b < 8 * |payload| ==> NoStop(p, payload, i, e, at + b, pass.data))
  }

  lemma {:induction false} ActiveLoop(p: Program, payload: seq<Octet>, s: State, e: nat) returns (u: State)
    requires LoopStart(p, |payload|, s, e) && s.active && NoStop(p, payload, s.index, e, s.offset, s.data)
    ensures var b := BodyBits(p, s.index, e);
            && (b > 0 || s.offset >= 8 * |payload|)
            && Visits(p, payload, s, e) == Passes(8 * |payload| - s.offset, b)
            && u.index == e + 1 && u.offset == s.offset + Passes(8 * |payload| - s.offset, b) * b
            && (u.halted || Sound(p, |payload|, u)) && Exec(p, payload, u) == Exec(p, payload, s)
    decreases 8 * |payload| - s.offset
  {
    hide Sound, Step, Exec, Visits, Body, BodyBits, BodyWords, Fingers, Safe, Tracked, Passes, JustCloser;
    var b := BodyBits(p, s.index, e);
    var t := BodyWalk(p, payload, s, e);
    EndPassed(p, |payload|, t);
    VisitsStep(p, payload, t, e);
    EndStep(p, payload, t);
    if b > 0 {
      PassesStep(8 * |payload| - s.offset, b);
    }
    u := Step(p, payload, t);
    if t.offset < 8 * |payload| {
      ghost var again := u;
      u := ActiveLoop(p, payload, again, e);
      var k := Passes(8 * |payload| - again.offset, b);
      assert (1 + k) * b == b + k * b;
    } else {
      Gone(p, payload, u, e);
      OnePass(8 * |payload| - s.offset, b);
    }
  }

  lemma OnePass(rest: int, b: nat)
    requires rest <= b
    ensures Passes(rest, b) == 1 && Passes(rest, b) * b == b
  {}

  /** The body of an active-object loop entered at bit `o` runs exactly max(1, ceil((8r - o) / b))
      times, `b` being the bits it skips, on every report of `r` bytes on which none of these passes
      reads an object index out of range. */
  lemma ActiveLoopCount(p: Program, payload: seq<Octet>, s: State, e: nat)
    requires Sound(p, |payload|, s) && !s.halted && s.index < e < p.length
    requires Operand(p, s.index) == TOUCH_FOREACH_ACTIVE_OBJECT && NoStop(p, payload, s.index + 1, e, s.offset, s.data)
    requires Body(p, s.index + 1, e) && Operand(p, e) == TOUCH_FOREACH_END
    ensures var b := BodyBits(p, s.index + 1, e);
            && (b > 0 || s.offset >= 8 * |payload|)
            && Visits(p, payload, s, e) == Passes(8 * |payload| - s.offset, b)
  {
    hide Sound, Exec, Visits, Body, BodyBits, Safe, Tracked, Passes, JustCloser;
    Inside(p, |payload|, s);
    VisitsStep(p, payload, s, e);
    var u := ActiveLoop(p, payload, Step(p, payload, s), e);
  }

  lemma {:induction false} ObjectLoop(p: Program, payload: seq<Octet>, s: State, e: nat) returns (u: State)
    requires LoopStart(p, |payload|, s, e) && !s.active && NoIndex(p, s.index, e) && s.objectIndex < MAX_FINGER
    ensures Visits(p, payload, s, e) == MAX_FINGER - s.objectIndex
    ensures u.index == e + 1 && u.offset == s.offset + (MAX_FINGER - s.objectIndex) * BodyBits(p, s.index, e)
    ensures (u.halted || Sound(p, |payload|, u)) && Exec(p, payload, u) == Exec(p, payload, s)
    decreases MAX_FINGER - s.objectIndex
  {
    hide Sound, Step, Exec, Visits, Body, BodyBits, NoIndex, Safe, Tracked, JustCloser;
    var b := BodyBits(p, s.index, e);
    NoIndexNoWords(p, payload, s.index, e, s.offset, s.data);
    var t := BodyWalk(p, payload, s, e);
    VisitsStep(p, payload, t, e);
    EndStep(p, payload, t);
    u := Step(p, payload, t);
    if t.objectIndex + 1 < MAX_FINGER {
      ghost var again := u;
      u := ObjectLoop(p, payload, again, e);
      var k := MAX_FINGER - again.objectIndex;
      assert (1 + k) * b == b + k * b;
    } else {
      Gone(p, payload, u, e);
    }
  }

  /** The body of an object loop runs exactly ten times, whatever the report holds. */
  lemma ObjectLoopCount(p: Program, payload: seq<Octet>, s: State, e: nat)
    requires Sound(p, |payload|, s) && !s.halted && s.index < e < p.length
    requires Operand(p, s.index) == TOUCH_FOREACH_OBJECT
    requires Body(p, s.index + 1, e) && NoIndex(p, s.index + 1, e) && Operand(p, e) == TOUCH_FOREACH_END
    ensures Visits(p, payload, s, e) == MAX_FINGER
  {
    hide Sound, Exec, Visits, Body, BodyBits, NoIndex, Safe, Tracked, JustCloser;
    Inside(p, |payload|, s);
    VisitsStep(p, payload, s, e);
    var u := ObjectLoop(p, payload, Step(p, payload, s), e);
  }

  // ---------- When a loop is left ----------

  ghost function Steps(p: Program, payload: seq<Octet>, s: State, n: nat): State
    decreases n
  {
    if n == 0 then s else Steps(p, payload, Step(p, payload, s), n - 1)
  }

  lemma {:induction false} StepsAdd(p: Program, payload: seq<Octet>, s: State, m: nat, n: nat)
    ensures Steps(p, payload, s, m + n) == Steps(p, payload, Steps(p, payload, s, m), n)
    decreases m
  {
    hide Step;
    if m > 0 {
      StepsAdd(p, payload, Step(p, payload, s), m - 1, n);
    }
  }

  /** The run stops, or goes on behind position `e`, within `n` steps. */
  ghost predicate LeftAfter(p: Program, payload: seq<Octet>, s: State, e: nat, n: nat) {
    var t := Steps(p, payload, s, n);
    t.halted || t.index > e
  }

  ghost predicate Leaves(p: Program, payload: seq<Octet>, s: State, e: nat) {
    exists n: nat :: LeftAfter(p, payload, s, e, n)
  }

  lemma LeavesLater(p: Program, payload: seq<Octet>, s: State, m: nat, e: nat)
    requires Leaves(p, payload, Steps(p, payload, s, m), e)
    ensures Leaves(p, payload, s, e)
  {
    var n: nat :| LeftAfter(p, payload, Steps(p, payload, s, m), e, n);
    StepsAdd(p, payload, s, m, n);
    assert LeftAfter(p, payload, s, e, m + n);
  }

  /** At the start of a loop whose straight body, from `s.index` to `e`, closes there. */
  ghost predicate AtStart(p: Program, s: State, e: nat) {
    && !s.halted && s.index == s.next <= e < p.length <= |p.buffer|
    && Body(p, s.index, e) && Operand(p, e) == TOUCH_FOREACH_END
  }

  /** The first `k` opcodes of a pass without an index that is no finger's. */
  lemma {:induction false} BodyRuns(p: Program, payload: seq<Octet>, s: State, e: nat, k: nat)
    requires !s.halted && s.index + 2 * k <= e < p.length <= |p.buffer| && Body(p, s.index, e)
    requires Fingers(BodyWords(p, payload, s.index, e, s.offset, s.data).words)
    ensures var t := Steps(p, payload, s, k);
            && !t.halted && t.index == s.index + 2 * k && t.next == s.next && t.active == s.active
            && (t.index == e ==>
                  var pass := BodyWords(p, payload, s.index, e, s.offset, s.data);
                  && t.offset == s.offset + BodyBits(p, s.index, e) && t.data == pass.data
                  && t.objectIndex == if pass.words == [] then s.objectIndex else pass.words[|pass.words| - 1])
    decreases k
  {
    hide Parse, Step, Width, Reads, Fingers;
    if k == 0 {
      assert s.index == e ==> BodyWords(p, payload, s.index, e, s.offset, s.data) == Pass([], s.data);
    } else {
      hide BodyWords;
      FirstWord(p, payload, s.index, e, s.offset, s.data);
      BodyStep(p, payload, s, e);
      BodyRuns(p, payload, Step(p, payload, s), e, k - 1);
    }
  }

  /** An index that is no finger's stops the decoder within the pass. */
  lemma {:induction false} BodyStops(p: Program, payload: seq<Octet>, s: State, e: nat)
    requires !s.halted && s.index <= e < p.length <= |p.buffer| && Body(p, s.index, e)
    requires !Fingers(BodyWords(p, payload, s.index, e, s.offset, s.data).words)
    ensures Leaves(p, payload, s, e)
    decreases e - s.index
  {
    hide Parse, Step, Width, Reads;
    BodyStep(p, payload, s, e);
    var t := Step(p, payload, s);
    assert Steps(p, payload, s, 1) == Steps(p, payload, t, 0) == t;
    if t.halted {
      assert LeftAfter(p, payload, s, e, 1);
    } else {
      BodyStops(p, payload, t, e);
      LeavesLater(p, payload, s, 1, e);
    }
  }

  /** A pass and its loop end. */
  lemma PassEnds(p: Program, payload: seq<Octet>, s: State, e: nat) returns (n: nat, t: State)
    requires AtStart(p, s, e) && Fingers(BodyWords(p, payload, s.index, e, s.offset, s.data).words)
    ensures n == (e - s.index) / 2 + 1 && t == Steps(p, payload, s, n)
    ensures forall k: nat :: k < n ==> !LeftAfter(p, payload, s, e, k)
    ensures var pass := BodyWords(p, payload, s.index, e, s.offset, s.data);
            var index := if pass.words == [] then s.objectIndex else pass.words[|pass.words| - 1];
            var offset := s.offset + BodyBits(p, s.index, e);
            && t.offset == offset && t.data == pass.data && t.active == s.active && !t.halted && t.next == s.next
            && (!s.active ==> t.objectIndex == index + 1)
            && t.index == if (if s.active then offset < 8 * |payload| else index + 1 < MAX_FINGER) then s.next
               else e + 1
  {
    hide Parse, Width, Reads, BodyBits, BodyWords;
    BodyEven(p, s.index, e);
    var m := (e - s.index) / 2;
    n := m + 1;
    BodyRuns(p, payload, s, e, m);
    StepsAdd(p, payload, s, m, 1);
    var u := Steps(p, payload, s, m);
    t := Step(p, payload, u);
    assert Steps(p, payload, u, 1) == Steps(p, payload, t, 0);
    forall k: nat | k < n
      ensures !LeftAfter(p, payload, s, e, k)
    {
      BodyRuns(p, payload, s, e, k);
    }
  }

  lemma {:induction false} BodyEven(p: Program, i: nat, e: nat)
    requires Body(p, i, e)
    ensures i <= e && (e - i) % 2 == 0
    decreases e - i
  {
    if i != e {
      BodyEven(p, i + 2, e);
    }
  }

  // ---------- Active-object loops ----------

  lemma {:induction false} StaleWords(p: Program, payload: seq<Octet>, i: nat, e: nat, at: nat, data: nat)
    requires BodyBits(p, i, e) == 0
    ensures var pass := BodyWords(p, payload, i, e, at, data);
            pass.data == data && forall k :: 0 <= k < |pass.words| ==> pass.words[k] == data
    decreases e - i
  {
    if i + 2 <= e {
      Widths(Operand(p, i), Operand(p, i + 1));
      StaleWords(p, payload, i + 2, e, at, data);
    }
  }

  lemma {:induction false} ActiveStays(p: Program, payload: seq<Octet>, s: State, e: nat, n: nat)
    requires AtStart(p, s, e) && s.active && BodyBits(p, s.index, e) == 0 && s.offset < 8 * |payload|
    requires NoIndex(p, s.index, e) || s.data < MAX_FINGER
    ensures !LeftAfter(p, payload, s, e, n)
    decreases n
  {
    hide Step, Steps, BodyWords, LeftAfter, Body, NoIndex;
    StaleWords(p, payload, s.index, e, s.offset, s.data);
    NoIndexNoWords(p, payload, s.index, e, s.offset, s.data);
    var m, t := PassEnds(p, payload, s, e);
    if n >= m {
      ActiveStays(p, payload, t, e, n - m);
      LeftLater(p, payload, s, e, m, n - m);
    }
  }

  lemma LeftLater(p: Program, payload: seq<Octet>, s: State, e: nat, m: nat, n: nat)
    ensures LeftAfter(p, payload, s, e, m + n) == LeftAfter(p, payload, Steps(p, payload, s, m), e, n)
  {
    StepsAdd(p, payload, s, m, n);
  }

  lemma {:induction false} ActiveEnds(p: Program, payload: seq<Octet>, s: State, e: nat)
    requires AtStart(p, s, e) && s.active && (BodyBits(p, s.index, e) > 0 || s.offset >= 8 * |payload|)
    ensures Leaves(p, payload, s, e)
    decreases 8 * |payload| - s.offset
  {
    hide Step, Steps, BodyWords, Body;
    if !Fingers(BodyWords(p, payload, s.index, e, s.offset, s.data).words) {
      BodyStops(p, payload, s, e);
    } else {
      var m, t := PassEnds(p, payload, s, e);
      if t.index == e + 1 {
        assert LeftAfter(p, payload, s, e, m);
      } else {
        ActiveEnds(p, payload, t, e);
        LeavesLater(p, payload, s, m, e);
      }
    }
  }

  /** An active-object loop with a straight body is left, or the decoder stops in it, if and only
      if the body skips bits, or the report is used up, or the body reads an object index from a
      word kept from before that is no finger's. */
  lemma ActiveLeft(p: Program, payload: seq<Octet>, s: State, e: nat)
    requires AtStart(p, s, e) && s.active
    ensures Leaves(p, payload, s, e)
            <==> (BodyBits(p, s.index, e) > 0 || s.offset >= 8 * |payload|
                  || (!NoIndex(p, s.index, e) && s.data >= MAX_FINGER))
  {
    hide Step, Steps, BodyWords, Body, LeftAfter, NoIndex, BodyBits;
    if BodyBits(p, s.index, e) > 0 || s.offset >= 8 * |payload| {
      ActiveEnds(p, payload, s, e);
    } else if !NoIndex(p, s.index, e) && s.data >= MAX_FINGER {
      StaleWords(p, payload, s.index, e, s.offset, s.data);
      NoIndexNoWords(p, payload, s.index, e, s.offset, s.data);
      var words := BodyWords(p, payload, s.index, e, s.offset, s.data).words;
      assert words[0] >= MAX_FINGER;
      BodyStops(p, payload, s, e);
    } else {
      forall n: nat
        ensures !LeftAfter(p, payload, s, e, n)
      {
        ActiveStays(p, payload, s, e, n);
      }
    }
  }

  // ---------- Object loops ----------

  /** Pass `j` of a loop whose first pass starts at bit `at` with word `data`. */
  function PassAt(p: Program, payload: seq<Octet>, i: nat, e: nat, at: nat, data: nat, j: nat): Pass
    decreases j
  {
    var pass := BodyWords(p, payload, i, e, at, data);
    if j == 0 then pass else PassAt(p, payload, i, e, at + BodyBits(p, i, e), pass.data, j - 1)
  }

  /** A pass that reads an index that is no finger's, or ends with the last finger's. */
  predicate LastFinger(words: seq<nat>) {
    !Fingers(words) || (words != [] && words[|words| - 1] >= MAX_FINGER - 1)
  }

  predicate LeavesAt(p: Program, payload: seq<Octet>, i: nat, e: nat, at: nat, data: nat, j: nat) {
    LastFinger(PassAt(p, payload, i, e, at, data, j).words)
  }

  lemma {:induction false} ObjectEnds(p: Program, payload: seq<Octet>, s: State, e: nat, j: nat)
    requires AtStart(p, s, e) && !s.active && !NoIndex(p, s.index, e)
    requires LeavesAt(p, payload, s.index, e, s.offset, s.data, j)
    ensures Leaves(p, payload, s, e)
    decreases j
  {
    hide Step, Steps, BodyWords, Body, NoIndex, BodyBits;
    var words := BodyWords(p, payload, s.index, e, s.offset, s.data).words;
    NoIndexNoWords(p, payload, s.index, e, s.offset, s.data);
    if !Fingers(words) {
      BodyStops(p, payload, s, e);
    } else {
      var m, t := PassEnds(p, payload, s, e);
      if t.index == e + 1 {
        assert LeftAfter(p, payload, s, e, m);
      } else {
        ObjectEnds(p, payload, t, e, j - 1);
        LeavesLater(p, payload, s, m, e);
      }
    }
  }

  lemma {:induction false} ObjectCounts(p: Program, payload: seq<Octet>, s: State, e: nat)
    requires AtStart(p, s, e) && !s.active && NoIndex(p, s.index, e)
    ensures Leaves(p, payload, s, e)
    decreases MAX_FINGER - s.objectIndex
  {
    hide Step, Steps, BodyWords, Body, NoIndex, BodyBits;
    NoIndexNoWords(p, payload, s.index, e, s.offset, s.data);
    var m, t := PassEnds(p, payload, s, e);
    if t.index == e + 1 {
      assert LeftAfter(p, payload, s, e, m);
    } else {
      ObjectCounts(p, payload, t, e);
      LeavesLater(p, payload, s, m, e);
    }
  }

  lemma {:induction false} ObjectStays(p: Program, payload: seq<Octet>, s: State, e: nat, n: nat)
    requires AtStart(p, s, e) && !s.active && !NoIndex(p, s.index, e)
    requires forall j: nat :: !LeavesAt(p, payload, s.index, e, s.offset, s.data, j)
    ensures !LeftAfter(p, payload, s, e, n)
    decreases n
  {
    hide Step, Steps, BodyWords, LeftAfter, Body, NoIndex, BodyBits;
    NoIndexNoWords(p, payload, s.index, e, s.offset, s.data);
    assert !LeavesAt(p, payload, s.index, e, s.offset, s.data, 0);
    var m, t := PassEnds(p, payload, s, e);
    if n >= m {
      forall j: nat
        ensures !LeavesAt(p, payload, t.index, e, t.offset, t.data, j)
      {
        assert !LeavesAt(p, payload, s.index, e, s.offset, s.data, j + 1);
      }
      ObjectStays(p, payload, t, e, n - m);
      LeftLater(p, payload, s, e, m, n - m);
    }
  }

  /** Behind the end of the report every pass is the one before. */
  lemma {:induction false} PassesRepeat(p: Program, payload: seq<Octet>, i: nat, e: nat, at: nat, data: nat)
    requires at >= 8 * |payload|
    ensures var pass := BodyWords(p, payload, i, e, at, data);
            pass.data == data && forall k :: 0 <= k < |pass.words| ==> pass.words[k] == data
    decreases e - i
  {
    if i + 2 <= e {
      var op, w := Operand(p, i), Operand(p, i + 1);
      PassesRepeat(p, payload, i + 2, e, at + Width(op, w), data);
    }
  }

  /** Once the report is used up, or if the body skips nothing, the passes are all alike. */
  lemma {:induction false} StaleLeaves(p: Program, payload: seq<Octet>, i: nat, e: nat, at: nat, data: nat, j: nat)
    requires at >= 8 * |payload| || BodyBits(p, i, e) == 0
    ensures LeavesAt(p, payload, i, e, at, data, j) == LeavesAt(p, payload, i, e, at, data, 0)
    decreases j
  {
    hide BodyWords, BodyBits, NoIndex;
    if j > 0 {
      var b := BodyBits(p, i, e);
      StaleLeaves(p, payload, i, e, at + b, data, j - 1);
      forall a | a == at || a == at + b
        ensures var pass := BodyWords(p, payload, i, e, a, data);
                pass.data == data && forall k :: 0 <= k < |pass.words| ==> pass.words[k] == data
        ensures NoIndex(p, i, e) <==> BodyWords(p, payload, i, e, a, data).words == []
      {
        NoIndexNoWords(p, payload, i, e, a, data);
        if b == 0 {
          StaleWords(p, payload, i, e, a, data);
        } else {
          PassesRepeat(p, payload, i, e, a, data);
        }
      }
      AllAlike(BodyWords(p, payload, i, e, at, data).words, BodyWords(p, payload, i, e, at + b, data).words, data);
    }
  }

  lemma AllAlike(a: seq<nat>, b: seq<nat>, data: nat)
    requires (a == [] <==> b == []) && (forall k :: 0 <= k < |a| ==> a[k] == data)
    requires forall k :: 0 <= k < |b| ==> b[k] == data
    ensures LastFinger(a) == LastFinger(b)
  {
    if a != [] {
      assert a[0] == data && b[0] == data;
    }
  }

  /** If some pass leaves the loop, one does that starts no later than behind the report's end. */
  lemma {:induction false} LeavesSoon(p: Program, payload: seq<Octet>, i: nat, e: nat, at: nat, data: nat, j: nat)
      returns (k: nat)
    requires LeavesAt(p, payload, i, e, at, data, j)
    ensures LeavesAt(p, payload, i, e, at, data, k) && k <= Nat(8 * |payload| - at)
    decreases j
  {
    hide BodyWords, BodyBits, LastFinger;
    var b := BodyBits(p, i, e);
    if at >= 8 * |payload| || b == 0 {
      StaleLeaves(p, payload, i, e, at, data, j);
      k := 0;
    } else if j == 0 {
      k := 0;
    } else {
      k := LeavesSoon(p, payload, i, e, at + b, BodyWords(p, payload, i, e, at, data).data, j - 1);
      k := k + 1;
    }
  }

  function Nat(n: int): nat { if n < 0 then 0 else n }

  /** An object loop with a straight body is left, or the decoder stops in it, if and only if the
      body reads no object index, or some pass reads an index that is no finger's or ends with the
      last finger's. What cannot be read any more repeats the word before, so it is enough to look
      at one pass for each bit of the report, and one more. */
  lemma ObjectLeft(p: Program, payload: seq<Octet>, s: State, e: nat)
    requires AtStart(p, s, e) && !s.active
    ensures Leaves(p, payload, s, e)
            <==> (NoIndex(p, s.index, e)
                  || exists j :: 0 <= j <= 8 * |payload| && LeavesAt(p, payload, s.index, e, s.offset, s.data, j))
  {
    hide Step, Steps, BodyWords, Body, LeftAfter, NoIndex, BodyBits, LeavesAt;
    if NoIndex(p, s.index, e) {
      ObjectCounts(p, payload, s, e);
    } else if j: nat :| LeavesAt(p, payload, s.index, e, s.offset, s.data, j) {
      ObjectEnds(p, payload, s, e, j);
      var k := LeavesSoon(p, payload, s.index, e, s.offset, s.data, j);
      assert k <= 8 * |payload| && LeavesAt(p, payload, s.index, e, s.offset, s.data, k);
    } else {
      forall n: nat
        ensures !LeftAfter(p, payload, s, e, n)
      {
        ObjectStays(p, payload, s, e, n);
      }
    }
  }
}
