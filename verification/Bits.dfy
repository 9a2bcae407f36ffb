/** 32-bit words seen as rows of bits, and the C operations that act on them. */
module Bits {

  predicate Low(x: bv32) { x & 1 == 1 }

  function Half(x: bv32): bv32 { x >> 1 }

  function Double(x: bv32): bv32 { x << 1 }

  function Or(x: bv32, y: bv32): bv32 { x | y }

  function And(x: bv32, y: bv32): bv32 { x & y }

  /** C's `data >> 1` on a signed `int`: the sign bit stays. */
  function ArithmeticHalf(x: bv32): bv32 { Or(Half(x), And(x, 0x80000000)) }

  /** C's `x << n`, one place at a time. */
  function ShiftLeft(x: bv32, n: nat): bv32
    decreases n
  {
    if n == 0 then x else Double(ShiftLeft(x, n - 1))
  }

  /** Bit `k` of `x`, counted from the least significant one. */
  predicate Bit(x: bv32, k: nat)
    decreases k
  {
    if k == 0 then Low(x) else Bit(Half(x), k - 1)
  }

  /** All 32 bits in the opposite order, by swapping ever larger neighbours. */
  function Reverse(x: bv32): bv32 {
    var a := ((x >> 1) & 0x55555555) | ((x & 0x55555555) << 1);
    var b := ((a >> 2) & 0x33333333) | ((a & 0x33333333) << 2);
    var c := ((b >> 4) & 0x0F0F0F0F) | ((b & 0x0F0F0F0F) << 4);
    var d := ((c >> 8) & 0x00FF00FF) | ((c & 0x00FF00FF) << 8);
    (d >> 16) | (d << 16)
  }

  lemma OrStep(x: bv32, y: bv32)
    ensures Low(Or(x, y)) == (Low(x) || Low(y))
    ensures Half(Or(x, y)) == Or(Half(x), Half(y))
  {}

  lemma AndStep(x: bv32, y: bv32)
    ensures Low(And(x, y)) == (Low(x) && Low(y))
    ensures Half(And(x, y)) == And(Half(x), Half(y))
  {}

  lemma {:induction false} OrBit(x: bv32, y: bv32, k: nat)
    ensures Bit(Or(x, y), k) == (Bit(x, k) || Bit(y, k))
    decreases k
  {
    OrStep(x, y);
    if k > 0 {
      OrBit(Half(x), Half(y), k - 1);
    }
  }

  lemma {:induction false} AndBit(x: bv32, y: bv32, k: nat)
    ensures Bit(And(x, y), k) == (Bit(x, k) && Bit(y, k))
    decreases k
  {
    AndStep(x, y);
    if k > 0 {
      AndBit(Half(x), Half(y), k - 1);
    }
  }

  lemma {:induction false} SmallBit(k: nat)
    ensures !Bit(0, k) && Bit(1, k) == (k == 0)
    decreases k
  {
    if k > 0 {
      assert Half(0) == 0 && Half(1) == 0;
      SmallBit(k - 1);
    }
  }

  lemma {:induction false} PowerBit(j: bv32, k: nat)
    requires j < 32
    ensures Bit(1 << j, k) == (k == j as int)
    decreases k
  {
    if j == 0 {
      assert (1 as bv32) << j == 1;
      SmallBit(k);
    } else {
      assert Half(1 << j) == 1 << (j - 1) && !Low(1 << j) && (j - 1) as int == j as int - 1;
      if k > 0 {
        PowerBit(j - 1, k - 1);
      }
    }
  }

  lemma TopBit(x: bv32, k: nat)
    ensures Bit(And(x, 0x80000000), k) == (k == 31 && Bit(x, 31))
  {
    PowerBit(31, k);
    AndBit(x, 0x80000000, k);
  }

  lemma HighBit(x: bv32)
    ensures Bit(x, 31) == (And(x, 0x80000000) != 0)
  {
    TopBit(x, 31);
    SmallBit(31);
    PowerBit(31, 31);
    assert And(x, 0x80000000) == 0 || And(x, 0x80000000) == 0x80000000;
  }

  lemma ArithmeticHalfBit(x: bv32, k: nat)
    requires k < 31
    ensures Bit(ArithmeticHalf(x), k) == Bit(x, k + 1)
  {
    OrBit(Half(x), And(x, 0x80000000), k);
    TopBit(x, k);
  }

  lemma HalfOfDouble(x: bv32)
    ensures Or(Half(Double(x)), And(x, 0x80000000)) == x && !Low(Double(x))
  {}

  lemma DoubleBit(x: bv32, k: nat)
    requires k < 32
    ensures Bit(Double(x), k) == (k > 0 && Bit(x, k - 1))
  {
    HalfOfDouble(x);
    if k > 0 {
      OrBit(Half(Double(x)), And(x, 0x80000000), k - 1);
      TopBit(x, k - 1);
    }
  }

  lemma {:induction false} ShiftLeftBit(x: bv32, n: nat, k: nat)
    requires n < 32 && k < 32
    ensures Bit(ShiftLeft(x, n), k) == (k >= n && Bit(x, k - n))
    decreases n
  {
    if n > 0 {
      DoubleBit(ShiftLeft(x, n - 1), k);
      if k > 0 {
        ShiftLeftBit(x, n - 1, k - 1);
      }
    }
  }

  lemma ReverseStep(x: bv32)
    ensures Half(Reverse(x)) == Reverse(Double(x))
    ensures Low(Reverse(x)) == (And(x, 0x80000000) != 0)
  {}

  lemma {:induction false} ReverseBit(x: bv32, k: nat)
    requires k < 32
    ensures Bit(Reverse(x), k) == Bit(x, 31 - k)
    decreases k
  {
    ReverseStep(x);
    if k == 0 {
      HighBit(x);
    } else {
      ReverseBit(Double(x), k - 1);
      DoubleBit(x, 32 - k);
    }
  }

  /** `x` fits in its `n` low bits. */
  predicate Fits(x: bv32, n: nat)
    decreases n
  {
    if n == 0 then x == 0 else Fits(Half(x), n - 1)
  }

  lemma HalfBelow(x: bv32, j: bv32)
    requires 0 < j <= 31
    ensures x < 1 << j ==> Half(x) < 1 << (j - 1)
    ensures (j - 1) as int == j as int - 1
  {}

  lemma {:induction false} FitsBelow(x: bv32, j: bv32)
    requires j < 32 && x < 1 << j
    ensures Fits(x, j as int)
    decreases j as int
  {
    if j == 0 {
      assert x == 0;
    } else {
      HalfBelow(x, j);
      FitsBelow(Half(x), j - 1);
    }
  }

  lemma EveryWordFits(x: bv32)
    ensures Fits(x, 32)
  {
    assert Half(x) < 1 << 31;
    FitsBelow(Half(x), 31);
  }

  lemma Rejoin(x: bv32, y: bv32)
    requires Low(x) == Low(y) && Half(x) == Half(y)
    ensures x == y
  {}

  /** Two words of `n` bits with the same bits are the same word. */
  lemma {:induction false} Extensional(x: bv32, y: bv32, n: nat)
    requires Fits(x, n) && Fits(y, n)
    requires forall k: nat :: k < n ==> Bit(x, k) == Bit(y, k)
    ensures x == y
    decreases n
  {
    if n > 0 {
      assert Bit(x, 0) == Bit(y, 0);
      forall k: nat | k < n - 1 ensures Bit(Half(x), k) == Bit(Half(y), k) {
        assert Bit(x, k + 1) == Bit(y, k + 1);
      }
      Extensional(Half(x), Half(y), n - 1);
      Rejoin(x, y);
    }
  }

  lemma {:induction false} FitsBit(x: bv32, n: nat, k: nat)
    requires Fits(x, n) && k >= n
    ensures !Bit(x, k)
    decreases n
  {
    if n == 0 {
      SmallBit(k);
    } else {
      FitsBit(Half(x), n - 1, k - 1);
    }
  }

  lemma {:induction false} ShiftLeftDouble(x: bv32, n: nat)
    ensures ShiftLeft(Double(x), n) == Double(ShiftLeft(x, n))
    decreases n
  {
    if n > 0 {
      ShiftLeftDouble(x, n - 1);
    }
  }
}
