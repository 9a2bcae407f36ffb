/** The CRC-32 of `crc32.c`: a most-significant-bit-first loop over bit-reflected
    bytes, proved to be the table-driven CRC of section 8 of RFC 1952. */
module Crc32 {
  import opened Bits

  const POLYNOMIAL: bv32 := 0x04C11DB7
  const RESIDUE: bv32 := 0x2144DF1C

  // ---------- The reference: RFC 1952, section 8 ----------

  function Xor(x: bv32, y: bv32): bv32 { x ^ y }

  function Shift(r: bv32): bv32 {
    if Low(r) then Xor(Half(r), 0xEDB88320) else Half(r)
  }

  function Shifts(r: bv32, n: nat): bv32
    decreases n, r
  {
    if n == 0 then r else Shifts(Shift(r), n - 1)
  }

  function TableEntry(n: bv32): bv32 { Shifts(n, 8) }

  function Byte(b: bv8): bv32 { b as bv32 }

  function Index(c: bv32, b: bv8): bv32 { (c ^ (b as bv32)) & 0xFF }

  function Update(c: bv32, s: seq<bv8>): bv32
    decreases |s|
  {
    if s == [] then c else Update(Xor(TableEntry(Index(c, s[0])), c >> 8), s[1..])
  }

  function Crc(s: seq<bv8>): bv32 { Xor(Update(0xFFFFFFFF, s), 0xFFFFFFFF) }

  // ---------- The register as a linear machine ----------

  lemma XorStep(x: bv32, y: bv32)
    ensures Low(Xor(x, y)) == (Low(x) != Low(y))
    ensures Half(Xor(x, y)) == Xor(Half(x), Half(y))
  {}

  lemma XorShuffle(a: bv32, b: bv32, c: bv32)
    ensures Xor(Xor(a, c), b) == Xor(Xor(a, b), c)
    ensures Xor(a, Xor(b, c)) == Xor(Xor(a, b), c)
    ensures Xor(Xor(a, c), Xor(b, c)) == Xor(a, b)
  {}

  lemma ShiftLinear(a: bv32, b: bv32)
    ensures Shift(Xor(a, b)) == Xor(Shift(a), Shift(b))
  {
    XorStep(a, b);
    XorShuffle(Half(a), Half(b), 0xEDB88320);
  }

  lemma {:induction false} ShiftsLinear(a: bv32, b: bv32, n: nat)
    ensures Shifts(Xor(a, b), n) == Xor(Shifts(a, n), Shifts(b, n))
    decreases n
  {
    if n > 0 {
      ShiftLinear(a, b);
      ShiftsLinear(Shift(a), Shift(b), n - 1);
    }
  }

  lemma ShiftInjective(a: bv32, b: bv32)
    requires Shift(a) == Shift(b)
    ensures a == b
  {}

  lemma {:induction false} ShiftsInjective(a: bv32, b: bv32, n: nat)
    requires Shifts(a, n) == Shifts(b, n)
    ensures a == b
    decreases n
  {
    if n > 0 {
      ShiftsInjective(Shift(a), Shift(b), n - 1);
      ShiftInjective(a, b);
    }
  }

  lemma {:induction false} ShiftsAdd(r: bv32, m: nat, n: nat)
    ensures Shifts(Shifts(r, m), n) == Shifts(r, m + n)
    decreases m
  {
    if m > 0 {
      ShiftsAdd(Shift(r), m - 1, n);
    }
  }

  lemma EvenShift(z: bv32, n: nat)
    requires n > 0 && !Low(z)
    ensures Shifts(z, n) == Shifts(Half(z), n - 1)
  {}

  lemma LowByteClear(z: bv32)
    requires z & 0xFF == 0
    ensures !Low(z) && !Low(z >> 1) && !Low(z >> 2) && !Low(z >> 3)
    ensures !Low(z >> 4) && !Low(z >> 5) && !Low(z >> 6) && !Low(z >> 7)
    ensures Half(z) == z >> 1 && Half(z >> 1) == z >> 2 && Half(z >> 2) == z >> 3 && Half(z >> 3) == z >> 4
    ensures Half(z >> 4) == z >> 5 && Half(z >> 5) == z >> 6 && Half(z >> 6) == z >> 7 && Half(z >> 7) == z >> 8
  {}

  lemma ShiftsOfHighBits(z: bv32)
    requires z & 0xFF == 0
    ensures Shifts(z, 8) == z >> 8
  {
    LowByteClear(z);
    EvenShift(z, 8);
    EvenShift(z >> 1, 7);
    EvenShift(z >> 2, 6);
    EvenShift(z >> 3, 5);
    EvenShift(z >> 4, 4);
    EvenShift(z >> 5, 3);
    EvenShift(z >> 6, 2);
    EvenShift(z >> 7, 1);
  }

  lemma SplitIndex(c: bv32, b: bv8)
    ensures Xor(Index(c, b), Xor(c, Byte(b)) & 0xFFFFFF00) == Xor(c, Byte(b))
    ensures (Xor(c, Byte(b)) & 0xFFFFFF00) & 0xFF == 0
    ensures (Xor(c, Byte(b)) & 0xFFFFFF00) >> 8 == c >> 8
  {}

  /** One step of the table algorithm is eight single shifts. */
  lemma ByteStep(c: bv32, b: bv8)
    ensures Xor(TableEntry(Index(c, b)), c >> 8) == Shifts(Xor(c, Byte(b)), 8)
  {
    var high := Xor(c, Byte(b)) & 0xFFFFFF00;
    SplitIndex(c, b);
    ShiftsLinear(Index(c, b), high, 8);
    ShiftsOfHighBits(high);
  }

  lemma {:induction false} UpdateAppend(c: bv32, s: seq<bv8>, t: seq<bv8>)
    ensures Update(c, s + t) == Update(Update(c, s), t)
    decreases |s|
  {
    if s == [] {
      assert s + t == t;
    } else {
      assert (s + t)[1..] == s[1..] + t;
      UpdateAppend(Xor(TableEntry(Index(c, s[0])), c >> 8), s[1..], t);
    }
  }

  lemma UpdateOne(c: bv32, b: bv8)
    ensures Update(c, [b]) == Shifts(Xor(c, Byte(b)), 8)
  {
    ByteStep(c, b);
    assert [b][1..] == [];
  }

  lemma {:induction false} UpdateInjective(c: bv32, d: bv32, s: seq<bv8>)
    requires Update(c, s) == Update(d, s)
    ensures c == d
    decreases |s|
  {
    if s != [] {
      ByteStep(c, s[0]);
      ByteStep(d, s[0]);
      UpdateInjective(Shifts(Xor(c, Byte(s[0])), 8), Shifts(Xor(d, Byte(s[0])), 8), s[1..]);
      ShiftsInjective(Xor(c, Byte(s[0])), Xor(d, Byte(s[0])), 8);
      XorCancel(c, d, Byte(s[0]));
    }
  }

  lemma XorCancel(c: bv32, d: bv32, w: bv32)
    ensures Xor(c, w) == Xor(d, w) ==> c == d
    ensures Xor(w, c) == Xor(w, d) ==> c == d
  {}

  // ---------- Bytes and little-endian words ----------

  function Join(first: bv8, rest: bv32): bv32 { Xor(Byte(first), rest << 8) }

  function First(w: bv32): bv8 { (w & 0xFF) as bv8 }

  function Rest(w: bv32): bv32 { w >> 8 }

  /** The bytes of `s` as a word, first byte least significant. */
  function Word(s: seq<bv8>): bv32
    decreases |s|
  {
    if s == [] then 0 else Join(s[0], Word(s[1..]))
  }

  /** The `n` low bytes of `w`, least significant first. */
  function LittleEndian(w: bv32, n: nat): (s: seq<bv8>)
    ensures |s| == n
    decreases n, w
  {
    if n == 0 then [] else [First(w)] + LittleEndian(Rest(w), n - 1)
  }

  /** `w` fits in its `n` low bytes. */
  predicate FitsBytes(w: bv32, n: nat) {
    if n == 0 then w == 0
    else if n == 1 then w <= 0xFF
    else if n == 2 then w <= 0xFFFF
    else n == 3 ==> w <= 0xFFFFFF
  }

  lemma JoinRest(b: bv8, tail: bv32)
    requires tail <= 0xFFFFFF
    ensures Rest(Join(b, tail)) == tail
  {}

  lemma JoinFirst(b: bv8, tail: bv32)
    ensures First(Join(b, tail)) == b
  {}

  lemma JoinParts(w: bv32)
    ensures Join(First(w), Rest(w)) == w
  {}

  lemma FitsRest(w: bv32, n: nat)
    requires n > 0 && FitsBytes(w, n)
    ensures FitsBytes(Rest(w), n - 1)
  {}

  lemma FitsJoin(b: bv8, tail: bv32, n: nat)
    requires n <= 3 && FitsBytes(tail, n)
    ensures FitsBytes(Join(b, tail), n + 1) && tail <= 0xFFFFFF
  {}

  lemma {:induction false} WordFitsBytes(s: seq<bv8>)
    requires |s| <= 4
    ensures FitsBytes(Word(s), |s|)
    decreases |s|
  {
    if s != [] {
      WordFitsBytes(s[1..]);
      FitsJoin(s[0], Word(s[1..]), |s| - 1);
    }
  }

  /** Reading up to four bytes as a word and storing the word again. */
  lemma {:induction false} WordLittleEndian(s: seq<bv8>)
    requires |s| <= 4
    ensures LittleEndian(Word(s), |s|) == s
    decreases |s|
  {
    if s != [] {
      hide Join, First, Rest, FitsBytes;
      var tail := Word(s[1..]);
      WordFitsBytes(s[1..]);
      FitsJoin(s[0], tail, |s| - 1);
      JoinFirst(s[0], tail);
      JoinRest(s[0], tail);
      WordLittleEndian(s[1..]);
    }
  }

  /** Storing a word and reading it back, least significant byte first. */
  lemma {:induction false} LittleEndianWord(w: bv32, n: nat)
    requires FitsBytes(w, n)
    ensures Word(LittleEndian(w, n)) == w
    decreases n
  {
    if n > 0 {
      FitsRest(w, n);
      LittleEndianWord(Rest(w), n - 1);
      JoinParts(w);
      assert LittleEndian(w, n)[1..] == LittleEndian(Rest(w), n - 1);
    }
  }

  /** Position `k` of a stored word. */
  lemma NextByte(stored: seq<bv8>, k: nat, w: bv32)
    requires k < |stored| && stored[k..] == LittleEndian(w, |stored| - k)
    ensures stored[k] == First(w) && stored[k + 1..] == LittleEndian(Rest(w), |stored| - k - 1)
  {
    assert stored[k..][1..] == stored[k + 1..];
  }

  /** The byte store loop of get_result_array. */
  method GetResultArray(reflectedRegs: bv32) returns (res: array<bv8>)
    ensures fresh(res) && res[..] == LittleEndian(reflectedRegs, 4)
  {
    hide LittleEndian, First, Rest;
    res := new bv8[4];
    ghost var stored := LittleEndian(reflectedRegs, 4);
    var rest := reflectedRegs;
    for i := 0 to 4
      invariant stored[i..] == LittleEndian(rest, 4 - i)
      invariant forall j :: 0 <= j < i ==> res[j] == stored[j]
    {
      NextByte(stored, i, rest);
      res[i] := First(rest);
      rest := Rest(rest);
    }
    assert res[..] == stored;
  }

  // ---------- Bursts and the residue ----------

  lemma TailShift(tail: bv32)
    requires tail <= 0xFFFFFF
    ensures (tail << 8) & 0xFF == 0 && (tail << 8) >> 8 == tail
  {}

  lemma SplitWordShifts(c: bv32, b: bv8, tail: bv32)
    requires tail <= 0xFFFFFF
    ensures Shifts(Xor(c, Join(b, tail)), 8) == Xor(Shifts(Xor(c, Byte(b)), 8), tail)
  {
    TailShift(tail);
    XorShuffle(c, Byte(b), tail << 8);
    ShiftsLinear(Xor(c, Byte(b)), tail << 8, 8);
    ShiftsOfHighBits(tail << 8);
  }

  /** Feeding up to four bytes is xoring their word in and shifting it through. */
  lemma {:induction false} UpdateWord(c: bv32, s: seq<bv8>)
    requires |s| <= 4
    ensures Update(c, s) == Shifts(Xor(c, Word(s)), 8 * |s|)
    decreases |s|
  {
    if s == [] {
      XorZero(c);
    } else {
      WordFitsBytes(s[1..]);
      FitsJoin(s[0], Word(s[1..]), |s| - 1);
      ByteStep(c, s[0]);
      UpdateWord(Shifts(Xor(c, Byte(s[0])), 8), s[1..]);
      SplitWordShifts(c, s[0], Word(s[1..]));
      ShiftsAdd(Xor(c, Word(s)), 8, 8 * |s[1..]|);
    }
  }

  lemma XorZero(c: bv32)
    ensures Xor(c, 0) == c
    ensures Xor(Xor(c, 0xFFFFFFFF), 0xFFFFFFFF) == c
    ensures Xor(c, Xor(c, 0xFFFFFFFF)) == 0xFFFFFFFF
  {}

  /** Any change confined to (at most) four consecutive bytes changes the CRC. */
  lemma BurstDetected(p: seq<bv8>, x: seq<bv8>, y: seq<bv8>, q: seq<bv8>)
    requires |x| == |y| <= 4 && x != y
    ensures Crc(p + x + q) != Crc(p + y + q)
  {
    var c := Update(0xFFFFFFFF, p);
    if Crc(p + x + q) == Crc(p + y + q) {
      XorCancel(Update(0xFFFFFFFF, p + x + q), Update(0xFFFFFFFF, p + y + q), 0xFFFFFFFF);
      UpdateAppend(0xFFFFFFFF, p + x, q);
      UpdateAppend(0xFFFFFFFF, p + y, q);
      UpdateInjective(Update(0xFFFFFFFF, p + x), Update(0xFFFFFFFF, p + y), q);
      UpdateAppend(0xFFFFFFFF, p, x);
      UpdateAppend(0xFFFFFFFF, p, y);
      UpdateWord(c, x);
      UpdateWord(c, y);
      ShiftsInjective(Xor(c, Word(x)), Xor(c, Word(y)), 8 * |x|);
      XorCancel(Word(x), Word(y), c);
      WordLittleEndian(x);
      WordLittleEndian(y);
    }
  }

  /** A message followed by its own stored CRC always has the same CRC. */
  lemma Residue(m: seq<bv8>)
    ensures Crc(m + LittleEndian(Crc(m), 4)) == RESIDUE
  {
    var c := Update(0xFFFFFFFF, m);
    var tail := LittleEndian(Crc(m), 4);
    LittleEndianWord(Crc(m), 4);
    UpdateAppend(0xFFFFFFFF, m, tail);
    UpdateWord(c, tail);
    XorZero(c);
    ResidueRegister();
  }

  lemma ResidueRegister()
    ensures Xor(Shifts(0xFFFFFFFF, 32), 0xFFFFFFFF) == RESIDUE
  {
    assert Shifts(0xFFFFFFFF, 8) == 0x2DFD1072;
    SecondByte();
    ShiftsOfHighBits(0xBE26ED00);
    FourthByte();
    ShiftsAdd(0xFFFFFFFF, 8, 8);
    ShiftsAdd(0xFFFFFFFF, 16, 8);
    ShiftsAdd(0xFFFFFFFF, 24, 8);
  }

  lemma SecondByte()
    ensures Shifts(0x2DFD1072, 8) == 0xBE26ED00
  {
    assert Shifts(0x2DFD1072, 4) == 0x39B1F1CF;
    assert Shifts(0x39B1F1CF, 4) == 0xBE26ED00;
    ShiftsAdd(0x2DFD1072, 4, 4);
  }

  lemma FourthByte()
    ensures Shifts(0x00BE26ED, 8) == 0xDEBB20E3
  {
    assert Shifts(0x00BE26ED, 4) == 0x86D830BA;
    assert Shifts(0x86D830BA, 4) == 0xDEBB20E3;
    ShiftsAdd(0x00BE26ED, 4, 4);
  }

  // ---------- What the starting register is for ----------

  /** Zero bytes in front of a message count. */
  lemma LeadingZero(m: seq<bv8>)
    ensures Crc([]) == 0 && Crc([0] + m) != Crc(m)
  {
    var one: seq<bv8> := [0];
    UpdateOne(0xFFFFFFFF, 0);
    assert Shifts(0xFFFFFFFF, 8) == 0x2DFD1072;
    UpdateAppend(0xFFFFFFFF, one, m);
    if Crc(one + m) == Crc(m) {
      XorCancel(Update(0xFFFFFFFF, one + m), Update(0xFFFFFFFF, m), 0xFFFFFFFF);
      UpdateInjective(Update(0xFFFFFFFF, one), 0xFFFFFFFF, m);
    }
  }

  lemma Digit(c: bv32, b: bv8, mixed: bv32, middle: bv32, after: bv32)
    requires Xor(c, Byte(b)) == mixed && Shifts(mixed, 4) == middle && Shifts(middle, 4) == after
    ensures Update(c, [b]) == after
  {
    UpdateOne(c, b);
    ShiftsAdd(Xor(c, Byte(b)), 4, 4);
  }

  lemma ThreeBytes(c: bv32, b0: bv8, b1: bv8, b2: bv8)
    ensures Update(c, [b0, b1, b2]) == Update(Update(Update(c, [b0]), [b1]), [b2])
  {
    assert [b0, b1, b2] == [b0] + [b1] + [b2];
    UpdateAppend(c, [b0] + [b1], [b2]);
    UpdateAppend(c, [b0], [b1]);
  }

  lemma FirstThree()
    ensures Update(0xFFFFFFFF, [0x31, 0x32, 0x33]) == 0x77B79C2D
  {
    Digit(0xFFFFFFFF, 0x31, 0xFFFFFFCE, 0xAFF51D84, 0x7C231048);
    Digit(0x7C231048, 0x32, 0x7C23107A, 0xD11492EF, 0xB0ACBB32);
    Digit(0xB0ACBB32, 0x33, 0xB0ACBB01, 0x16BDDBD4, 0x77B79C2D);
    ThreeBytes(0xFFFFFFFF, 0x31, 0x32, 0x33);
  }

  lemma MiddleThree()
    ensures Update(0x77B79C2D, [0x34, 0x35, 0x36]) == 0xF68D2C9E
  {
    Digit(0x77B79C2D, 0x34, 0x77B79C19, 0xF774EA85, 0x641C1F5C);
    Digit(0x641C1F5C, 0x35, 0x641C1F69, 0xF64E52B2, 0x340AC5E3);
    Digit(0x340AC5E3, 0x36, 0x340AC5D5, 0x682BFDA9, 0xF68D2C9E);
    ThreeBytes(0x77B79C2D, 0x34, 0x35, 0x36);
  }

  lemma LastThree()
    ensures Update(0xF68D2C9E, [0x37, 0x38, 0x39]) == 0x340BC6D9
  {
    Digit(0xF68D2C9E, 0x37, 0xF68D2CA9, 0xFF67418E, 0xAFFC9660);
    Digit(0xAFFC9660, 0x38, 0xAFFC9658, 0xE7474A45, 0x651F2550);
    Digit(0x651F2550, 0x39, 0x651F2569, 0xF65E6112, 0x340BC6D9);
    ThreeBytes(0xF68D2C9E, 0x37, 0x38, 0x39);
  }

  /** The published check value: the CRC of the text 123456789. */
  lemma CheckValue()
    ensures Crc([0x31, 0x32, 0x33, 0x34, 0x35, 0x36, 0x37, 0x38, 0x39]) == 0xCBF43926
  {
    var p: seq<bv8>, q: seq<bv8>, r: seq<bv8> := [0x31, 0x32, 0x33], [0x34, 0x35, 0x36], [0x37, 0x38, 0x39];
    assert p + q + r == [0x31, 0x32, 0x33, 0x34, 0x35, 0x36, 0x37, 0x38, 0x39];
    FirstThree();
    MiddleThree();
    LastThree();
    hide Update;
    UpdateAppend(0xFFFFFFFF, p + q, r);
    UpdateAppend(0xFFFFFFFF, p, q);
  }

  // ---------- reflect ----------

  /** `y` holds the `len` low bits of `x` in the opposite order, and nothing else. */
  ghost predicate Reflection(x: bv32, y: bv32, len: nat) {
    forall k: nat :: k < 32 ==> Bit(y, k) == (k < len && Bit(x, len - 1 - k))
  }

  ghost predicate Reflecting(data: bv32, ref: bv32, d: bv32, n: nat, len: nat)
    requires n <= len
  {
    && (forall k: nat :: k < 32 ==> Bit(ref, k) == (len - n <= k < len && Bit(data, len - 1 - k)))
    && (forall k: nat :: k < len - n ==> Bit(d, k) == Bit(data, k + n))
  }

  function Place(ref: bv32, d: bv32, p: nat): bv32 {
    if Low(d) then Or(ref, ShiftLeft(1, p)) else ref
  }

  lemma PlaceBit(ref: bv32, d: bv32, p: nat, k: nat)
    requires p < 32 && k < 32
    ensures Bit(Place(ref, d, p), k) == (Bit(ref, k) || (k == p && Bit(d, 0)))
  {
    OrBit(ref, ShiftLeft(1, p), k);
    ShiftLeftBit(1, p, k);
    if k >= p {
      SmallBit(k - p);
    }
  }

  lemma ReflectedSoFar(data: bv32, ref: bv32, d: bv32, n: nat, len: nat, k: nat)
    requires n < len <= 32 && k < 32 && Reflecting(data, ref, d, n, len)
    ensures Bit(Place(ref, d, (len - 1) - n), k) == (len - (n + 1) <= k < len && Bit(data, len - 1 - k))
  {
    assert Bit(d, 0) == Bit(data, 0 + n);
    PlaceBit(ref, d, (len - 1) - n, k);
  }

  lemma StillToReflect(data: bv32, ref: bv32, d: bv32, n: nat, len: nat, k: nat)
    requires k + 1 < len - n && len <= 32 && Reflecting(data, ref, d, n, len)
    ensures Bit(ArithmeticHalf(d), k) == Bit(data, k + (n + 1))
  {
    ArithmeticHalfBit(d, k);
    assert Bit(d, k + 1) == Bit(data, k + 1 + n);
  }

  lemma ReflectStep(data: bv32, ref: bv32, d: bv32, n: nat, len: nat)
    requires n < len <= 32 && Reflecting(data, ref, d, n, len)
    ensures Reflecting(data, Place(ref, d, (len - 1) - n), ArithmeticHalf(d), n + 1, len)
  {
    var r, e := Place(ref, d, (len - 1) - n), ArithmeticHalf(d);
    forall k: nat | k < 32 ensures Bit(r, k) == (len - (n + 1) <= k < len && Bit(data, len - 1 - k)) {
      ReflectedSoFar(data, ref, d, n, len, k);
    }
    forall k: nat | k < len - (n + 1) ensures Bit(e, k) == Bit(data, k + (n + 1)) {
      StillToReflect(data, ref, d, n, len, k);
    }
  }

  method Reflect(data: bv32, len: nat) returns (ref: bv32)
    requires len <= 32
    ensures Reflection(data, ref, len)
  {
    ref := 0;
    var d := data;
    forall k: nat ensures !Bit(ref, k) {
      SmallBit(k);
    }
    for i := 0 to len
      invariant Reflecting(data, ref, d, i, len)
    {
      ReflectStep(data, ref, d, i, len);
      if Low(d) {
        ref := Or(ref, ShiftLeft(1, (len - 1) - i));
      }
      d := ArithmeticHalf(d);
    }
  }

  /** Reflecting an `n`-bit value twice gives it back. */
  lemma ReflectionInvolutive(x: bv32, y: bv32, z: bv32, n: nat)
    requires n <= 32 && Fits(x, n)
    requires Reflection(x, y, n) && Reflection(y, z, n)
    ensures z == x
  {
    forall k: nat | k < 32 ensures Bit(x, k) == Bit(z, k) {
      if k < n {
        assert Bit(y, n - 1 - k) == Bit(x, k);
      } else {
        FitsBit(x, n, k);
      }
    }
    EveryWordFits(x);
    EveryWordFits(z);
    Extensional(x, z, 32);
  }

  // ---------- The register loop simulates the reference ----------

  lemma FullReflection(x: bv32, y: bv32)
    requires Reflection(x, y, 32)
    ensures y == Reverse(x)
  {
    forall k: nat | k < 32 ensures Bit(y, k) == Bit(Reverse(x), k) {
      ReverseBit(x, k);
    }
    EveryWordFits(y);
    EveryWordFits(Reverse(x));
    Extensional(y, Reverse(x), 32);
  }

  lemma ByteReflection(b: bv8, d: bv32)
    requires Reflection(Byte(b), d, 8)
    ensures ShiftLeft(d, 24) == Reverse(Byte(b))
  {
    var x := Byte(b);
    ByteFits(b);
    forall k: nat | k < 32 ensures Bit(ShiftLeft(d, 24), k) == Bit(Reverse(x), k) {
      ShiftLeftBit(d, 24, k);
      ReverseBit(x, k);
      if k < 24 {
        FitsBit(x, 8, 31 - k);
      }
    }
    EveryWordFits(ShiftLeft(d, 24));
    EveryWordFits(Reverse(x));
    Extensional(ShiftLeft(d, 24), Reverse(x), 32);
  }

  lemma ByteFits(b: bv8)
    ensures Fits(Byte(b), 8)
  {
    assert Byte(b) < 1 << 8;
    FitsBelow(Byte(b), 8);
  }

  function Seventh(d: bv32): bv32 { (d >> 7) & 1 }

  lemma SeventhBit(d: bv32)
    ensures Bit(d, 7) == (Seventh(d) == 1)
  {
    assert Bit(Half(Half(Half(d))), 4) == Bit(Half(Half(d)), 5) == Bit(Half(d), 6) == Bit(d, 7);
    assert Bit(Half(Half(Half(Half(d)))), 3) == Bit(Half(Half(Half(d))), 4);
  }

  lemma DataBit(data: bv32, rest: bv32)
    requires ShiftLeft(data, 24) == Reverse(rest)
    ensures (Seventh(data) == 1) == Low(rest)
  {
    hide Seventh, ShiftLeft, Reverse, Half, Double, Low;
    SeventhBit(data);
    ShiftLeftBit(data, 24, 31);
    ReverseBit(rest, 31);
    LowestBit(rest);
  }

  lemma LowestBit(x: bv32)
    ensures Bit(x, 0) == Low(x)
  {}

  lemma DataDoubled(data: bv32, rest: bv32)
    requires ShiftLeft(data, 24) == Reverse(rest)
    ensures ShiftLeft(Double(data), 24) == Reverse(Half(rest))
  {
    hide ShiftLeft, Reverse, Half, Double;
    ShiftLeftDouble(data, 24);
    ReverseHalf(rest);
  }

  lemma ReverseHalf(x: bv32)
    ensures Reverse(Half(x)) == Double(Reverse(x))
  {
    forall k: nat | k < 32 ensures Bit(Reverse(Half(x)), k) == Bit(Double(Reverse(x)), k) {
      ReverseBit(Half(x), k);
      DoubleBit(Reverse(x), k);
      EveryWordFits(x);
      FitsBit(x, 32, 32);
      if k > 0 {
        ReverseBit(x, k - 1);
      }
    }
    EveryWordFits(Reverse(Half(x)));
    EveryWordFits(Double(Reverse(x)));
    Extensional(Reverse(Half(x)), Double(Reverse(x)), 32);
  }

  lemma ReversePolynomial(x: bv32)
    ensures Reverse(Xor(x, POLYNOMIAL)) == Xor(Reverse(x), 0xEDB88320)
    ensures Reverse(0xFFFFFFFF) == 0xFFFFFFFF
  {}

  /** The register after one turn of the bit loop. */
  function MsbStep(regs: bv32, msb: bool): bv32 {
    if (And(regs, 0x80000000) != 0) != msb then Xor(Double(regs), POLYNOMIAL) else Double(regs)
  }

  lemma MsbStepSimulates(regs: bv32, rest: bv32)
    ensures Xor(Reverse(MsbStep(regs, Low(rest))), Half(rest)) == Shift(Xor(Reverse(regs), rest))
  {
    XorStep(Reverse(regs), rest);
    ReverseStep(regs);
    ReversePolynomial(Double(regs));
    XorShuffle(Half(Reverse(regs)), Half(rest), 0xEDB88320);
  }

  lemma RegisterTop(regs: bv32)
    ensures ((regs >> 31) & 1 == 1) == (And(regs, 0x80000000) != 0)
  {}

  lemma ReverseReflects(x: bv32)
    ensures Reflection(x, Reverse(x), 32)
  {
    forall k: nat | k < 32 ensures Bit(Reverse(x), k) == Bit(x, 31 - k) {
      ReverseBit(x, k);
    }
  }

  lemma ReflectionUnique(x: bv32, y: bv32, z: bv32)
    requires Reflection(x, y, 32) && Reflection(x, z, 32)
    ensures y == z
  {
    FullReflection(x, y);
    FullReflection(x, z);
  }

  /** The bit loop over one reflected byte, on a register that mirrors `r`. */
  method FeedByte(start: bv32, reflected: bv32, ghost r: bv32, ghost b: bv8) returns (regs: bv32)
    requires Reflection(start, r, 32) && Reflection(Byte(b), reflected, 8)
    ensures Reflection(regs, Update(r, [b]), 32)
  {
    regs := start;
    var dataByte := reflected;
    ghost var rest := Byte(b);
    ByteFits(b);
    FullReflection(start, r);
    ByteReflection(b, reflected);
    for j := 0 to 8
      invariant ShiftLeft(dataByte, 24) == Reverse(rest) && Fits(rest, 8 - j)
      invariant Shifts(Xor(Reverse(regs), rest), 8 - j) == Shifts(Xor(r, Byte(b)), 8)
    {
      DataBit(dataByte, rest);
      DataDoubled(dataByte, rest);
      RegisterTop(regs);
      MsbStepSimulates(regs, rest);
      var msb := Seventh(dataByte);
      var regsMsb := (regs >> 31) & 1;
      regs := Double(regs);
      if (regsMsb == 1) != (msb == 1) {
        regs := Xor(regs, POLYNOMIAL);
      }
      dataByte, rest := Double(dataByte), Half(rest);
    }
    XorZero(Reverse(regs));
    UpdateOne(r, b);
    ReverseReflects(regs);
  }

  lemma OnesReflect()
    ensures Reflection(0xFFFFFFFF, 0xFFFFFFFF, 32)
  {
    ReversePolynomial(0);
    ReverseReflects(0xFFFFFFFF);
  }

  lemma UpdateExtend(c: bv32, s: seq<bv8>, i: nat)
    requires i < |s|
    ensures Update(Update(c, s[..i]), [s[i]]) == Update(c, s[..i + 1])
  {
    assert s[..i + 1] == s[..i] + [s[i]];
    UpdateAppend(c, s[..i], [s[i]]);
  }

  /** calculate_crc32 computes the CRC of RFC 1952. */
  method CalculateCrc32(buffer: seq<bv8>) returns (crc: bv32)
    ensures crc == Crc(buffer)
  {
    var ones: bv32 := 0xFFFFFFFF;
    var regs := ones;
    ghost var r := ones;
    OnesReflect();
    for i := 0 to |buffer|
      invariant r == Update(ones, buffer[..i]) && Reflection(regs, r, 32)
    {
      UpdateExtend(ones, buffer, i);
      var dataByte := Reflect(Byte(buffer[i]), 8);
      regs := FeedByte(regs, dataByte, r, buffer[i]);
      r := Update(ones, buffer[..i + 1]);
    }
    assert buffer[..|buffer|] == buffer;
    var reflectedRegs := Reflect(regs, 32);
    ReflectionUnique(regs, reflectedRegs, r);
    crc := Xor(reflectedRegs, ones);
  }
}
