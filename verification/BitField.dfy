/** TcmParseSingleByte of SynapticsTCMDxe.c: a bit field of 1 to 32 bits that may straddle bytes,
    least significant bit first. Words are naturals below 2^32; C's shifts and masks are written
    as bitwise functions on naturals. */
module BitField {

  type Octet = x: nat | x < 256

  const WORD_LIMIT := 0x1_0000_0000

  datatype Option<T> = None | Some(value: T) {
    function UnwrapOr(default: T): T {
      if Some? then value else default
    }
  }

  function Pow2(n: nat): (r: nat)
    ensures r > 0
  {
    if n == 0 then 1 else 2 * Pow2(n - 1)
  }

  /** Bitwise `|`. */
  function NatOr(a: nat, b: nat): nat {
    if a == 0 then b else (if a % 2 == 1 || b % 2 == 1 then 1 else 0) + 2 * NatOr(a / 2, b / 2)
  }

  /** Bitwise `&`. */
  function NatAnd(a: nat, b: nat): nat {
    if a == 0 then 0 else (if a % 2 == 1 && b % 2 == 1 then 1 else 0) + 2 * NatAnd(a / 2, b / 2)
  }

  /** `>>` by `n`, a halving each. */
  function NatShiftRight(a: nat, n: nat): nat
    decreases n, a
  {
    if n == 0 then a else NatShiftRight(a / 2, n - 1)
  }

  /** `<<` by `n`, a doubling each. */
  function NatShiftLeft(a: nat, n: nat): nat
    decreases n, a
  {
    if n == 0 then a else 2 * NatShiftLeft(a, n - 1)
  }

  /** Bit `k` of `v`. */
  function NatBit(v: nat, k: nat): nat
    decreases k
  {
    if k == 0 then v % 2 else NatBit(v / 2, k - 1)
  }

  // ---------- The field ----------

  /** Bit `i` of the payload, counted from the low end of its first byte. */
  function PayloadBit(payload: seq<Octet>, i: nat): nat
    requires i < 8 * |payload|
  {
    NatBit(payload[i / 8], i % 8)
  }

  /** The number whose bit `k` is payload bit `at + k`, for `k` below `n`. */
  function Field(payload: seq<Octet>, at: nat, n: nat): nat
    requires at + n <= 8 * |payload|
    decreases n
  {
    if n == 0 then 0 else PayloadBit(payload, at) + 2 * Field(payload, at + 1, n - 1)
  }

  lemma {:induction false} BitIsBit(v: nat, k: nat)
    ensures 0 <= NatBit(v, k) <= 1
    decreases k
  {
    if k > 0 {
      BitIsBit(v / 2, k - 1);
    }
  }

  /** The field's bits are the payload's, and it has no others. */
  lemma {:induction false} FieldBits(payload: seq<Octet>, at: nat, n: nat, k: nat)
    requires at + n <= 8 * |payload|
    ensures Field(payload, at, n) < Pow2(n)
    ensures NatBit(Field(payload, at, n), k) == if k < n then PayloadBit(payload, at + k) else 0
    decreases n
  {
    if n == 0 {
      ZeroBits(k);
    } else {
      var rest := Field(payload, at + 1, n - 1);
      assert PayloadBit(payload, at) <= 1 by {
        BitIsBit(payload[at / 8], at % 8);
      }
      hide PayloadBit;
      FieldBits(payload, at + 1, n - 1, if k > 0 then k - 1 else 0);
      assert Field(payload, at, n) / 2 == rest && Field(payload, at, n) % 2 == PayloadBit(payload, at);
    }
  }

  lemma {:induction false} ZeroBits(k: nat)
    ensures NatBit(0, k) == 0
    decreases k
  {
    if k > 0 {
      ZeroBits(k - 1);
    }
  }

  /** Two numbers with the same bits are the same number. */
  lemma {:induction false} SameBits(v: nat, w: nat)
    requires forall k: nat :: NatBit(v, k) == NatBit(w, k)
    ensures v == w
    decreases v + w
  {
    assert NatBit(v, 0) == NatBit(w, 0);
    if v != 0 || w != 0 {
      forall k: nat
        ensures NatBit(v / 2, k) == NatBit(w / 2, k)
      {
        assert NatBit(v, k + 1) == NatBit(w, k + 1);
      }
      SameBits(v / 2, w / 2);
    }
  }

  lemma {:induction false} OrAboveLow(a: nat, n: nat, c: nat)
    requires a < Pow2(n)
    ensures NatOr(a, NatShiftLeft(c, n)) == a + NatShiftLeft(c, n)
    decreases n
  {
    if n > 0 {
      assert NatShiftLeft(c, n) == 2 * NatShiftLeft(c, n - 1);
      OrAboveLow(a / 2, n - 1, c);
    }
  }

  lemma {:induction false} FieldSplits(payload: seq<Octet>, at: nat, m: nat, n: nat)
    requires at + m + n <= 8 * |payload|
    ensures Field(payload, at, m + n) == Field(payload, at, m) + NatShiftLeft(Field(payload, at + m, n), m)
    decreases m
  {
    hide PayloadBit;
    if m > 0 {
      FieldSplits(payload, at + 1, m - 1, n);
      assert at + 1 + (m - 1) == at + m;
    }
  }

  /** Reading `m + n` bits is reading `m` bits and, above them, the next `n`. */
  lemma FieldAppend(payload: seq<Octet>, at: nat, m: nat, n: nat)
    requires at + m + n <= 8 * |payload|
    ensures Field(payload, at, m + n) == NatOr(Field(payload, at, m), NatShiftLeft(Field(payload, at + m, n), m))
  {
    hide PayloadBit, NatOr, NatShiftLeft, Field;
    FieldSplits(payload, at, m, n);
    FieldBits(payload, at, m, 0);
    OrAboveLow(Field(payload, at, m), m, Field(payload, at + m, n));
  }

  // ---------- One byte of the loop ----------

  /** The low `n` bits of `v` from bit `s` on. */
  function Low(v: nat, s: nat, n: nat): nat
    decreases n
  {
    if n == 0 then 0 else NatBit(v, s) + 2 * Low(v, s + 1, n - 1)
  }

  lemma {:induction false} ShiftHalves(v: nat, s: nat)
    ensures NatShiftRight(v, s) % 2 == NatBit(v, s) && NatShiftRight(v, s) / 2 == NatShiftRight(v, s + 1)
    decreases s, v
  {
    if s > 0 {
      ShiftHalves(v / 2, s - 1);
    }
  }

  lemma {:induction false} ShiftThenMask(v: nat, s: nat, n: nat)
    ensures NatAnd(NatShiftRight(v, s), Pow2(n) - 1) == Low(v, s, n)
    decreases n
  {
    ShiftHalves(v, s);
    if n > 0 {
      assert (Pow2(n) - 1) / 2 == Pow2(n - 1) - 1;
      ShiftThenMask(v, s + 1, n - 1);
      BitIsBit(v, s);
      AndZero(NatShiftRight(v, s), Pow2(n) - 1);
    } else {
      AndNone(NatShiftRight(v, s));
    }
  }

  lemma AndZero(a: nat, b: nat)
    ensures NatAnd(a, b) == (if a % 2 == 1 && b % 2 == 1 then 1 else 0) + 2 * NatAnd(a / 2, b / 2)
  {}

  lemma {:induction false} AndNone(a: nat)
    ensures NatAnd(a, 0) == 0
  {
    if a > 0 {
      AndNone(a / 2);
    }
  }

  lemma {:induction false} LowIsField(payload: seq<Octet>, at: nat, n: nat)
    requires at + n <= 8 * |payload| && at % 8 + n <= 8
    ensures n > 0 ==> Low(payload[at / 8], at % 8, n) == Field(payload, at, n)
    decreases n
  {
    if n > 1 {
      assert (at + 1) / 8 == at / 8 && (at + 1) % 8 == at % 8 + 1;
      LowIsField(payload, at + 1, n - 1);
    }
  }

  /** `0xff >> (8 - n)` is a mask of `n` ones. */
  lemma Mask(n: nat)
    requires n <= 8
    ensures NatShiftRight(255, 8 - n) == Pow2(n) - 1
  {
    assert Pow2(1) == 2 && Pow2(2) == 4 && Pow2(3) == 8 && Pow2(4) == 16;
    assert Pow2(5) == 32 && Pow2(6) == 64 && Pow2(7) == 128 && Pow2(8) == 256;
    assert NatShiftRight(255, 0) == 255 && NatShiftRight(127, 0) == 127 && NatShiftRight(63, 0) == 63
           && NatShiftRight(31, 0) == 31;
  }

  lemma EmptyField(payload: seq<Octet>, at: nat)
    requires at <= 8 * |payload|
    ensures Field(payload, at, 0) == 0
  {}

  // ---------- The extractor ----------

  /** Masking and shifting the next byte in extends the field. */
  lemma NextBits(payload: seq<Octet>, start: nat, done: nat, n: nat)
    requires var at := start + done; n > 0 && at % 8 + n <= 8 && at + n <= 8 * |payload|
    ensures var at := start + done;
            NatOr(Field(payload, start, done),
                  NatShiftLeft(NatAnd(NatShiftRight(payload[at / 8], at % 8), NatShiftRight(255, 8 - n)), done))
            == Field(payload, start, done + n)
  {
    hide Field, NatOr, NatShiftLeft, NatShiftRight, NatAnd, Low, Pow2;
    var at := start + done;
    Mask(n);
    ShiftThenMask(payload[at / 8], at % 8, n);
    LowIsField(payload, at, n);
    FieldAppend(payload, start, done, n);
  }

  /** What a request of `n` bits from bit `at` yields: 1 to 32 bits that lie in the payload. */
  function Parse(payload: seq<Octet>, at: nat, n: nat): Option<nat> {
    if 1 <= n <= 32 && at + n <= 8 * |payload| then Some(Field(payload, at, n)) else None
  }

  /** TcmParseSingleByte. The sums are 32-bit in C; callers keep them from wrapping
      (TcmReport.StepSound). */
  method TcmParseSingleByte(payload: seq<Octet>, bitsOffset: nat, bitsToRead: nat) returns (outputData: Option<nat>)
    requires bitsOffset + bitsToRead < WORD_LIMIT && 8 * |payload| < WORD_LIMIT
    ensures outputData == Parse(payload, bitsOffset, bitsToRead)
    ensures outputData.Some? ==> outputData.value < WORD_LIMIT
  {
    if bitsToRead == 0 || bitsToRead > 32 {
      return None;
    }
    if bitsOffset + bitsToRead > 8 * |payload| {
      return None;
    }
    hide Field, NatOr, NatShiftLeft, NatShiftRight, NatAnd, Low, Pow2;
    EmptyField(payload, bitsOffset);
    var output, remainingBits := 0, bitsToRead;
    var bitOffset, byteOffset := bitsOffset % 8, bitsOffset / 8;
    while remainingBits > 0
      invariant 0 <= remainingBits <= bitsToRead
      invariant remainingBits > 0 ==> 8 * byteOffset + bitOffset == bitsOffset + (bitsToRead - remainingBits)
      invariant 0 <= bitOffset < 8
      invariant output == Field(payload, bitsOffset, bitsToRead - remainingBits)
    {
      var done := bitsToRead - remainingBits;
      ghost var at := bitsOffset + done;
      assert byteOffset == at / 8 && bitOffset == at % 8;
      var byteData := NatShiftRight(payload[byteOffset], bitOffset);
      var availableBits := 8 - bitOffset;
      var dataBits := if availableBits < remainingBits then availableBits else remainingBits;
      var mask := NatShiftRight(255, 8 - dataBits);
      byteData := NatAnd(byteData, mask);
      NextBits(payload, bitsOffset, done, dataBits);
      output := NatOr(output, NatShiftLeft(byteData, done));
      bitOffset := 0;
      byteOffset := byteOffset + 1;
      remainingBits := remainingBits - dataBits;
    }
    FieldBits(payload, bitsOffset, bitsToRead, 0);
    Pow2Limit(bitsToRead);
    return Some(output);
  }

  lemma Pow2Limit(n: nat)
    requires n <= 32
    ensures Pow2(n) <= WORD_LIMIT
  {
    Pow2Grows(n, 32);
    Doubled8(0, 1);
    Doubled8(8, 0x100);
    Doubled8(16, 0x1_0000);
    Doubled8(24, 0x100_0000);
  }

  lemma Doubled8(n: nat, p: nat)
    requires Pow2(n) == p
    ensures Pow2(n + 8) == 256 * p
  {
    assert Pow2(n + 1) == 2 * p && Pow2(n + 2) == 4 * p && Pow2(n + 3) == 8 * p && Pow2(n + 4) == 16 * p;
    assert Pow2(n + 5) == 32 * p && Pow2(n + 6) == 64 * p && Pow2(n + 7) == 128 * p;
  }

  lemma {:induction false} Pow2Grows(m: nat, n: nat)
    requires m <= n
    ensures Pow2(m) <= Pow2(n)
    decreases n
  {
    if m < n {
      Pow2Grows(m, n - 1);
    }
  }
}
