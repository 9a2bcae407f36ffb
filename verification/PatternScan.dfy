/** FindPattern and CopyMemory of the kernel patcher's Utilities.c. A pattern is text, two hex
    digits or a question mark for each byte; the scan never re-tests the byte on which a partial
    match breaks off, so it can run past an occurrence. */
module PatternScan {
  const BLANK: bv8 := 0x20
  const WILDCARD: bv8 := 0x3F

  // ---------- Pattern text ----------

  datatype Token = Any | Exact(high: bv8, low: bv8)

  /** GET_BITS: a letter in either case, or a digit, or zero for anything else. */
  function GetBits(x: bv8): bv8 {
    if 0x41 <= x & 0xDF <= 0x46 then (x & 0xDF) - 0x41 + 0xA else if 0x30 <= x <= 0x39 then x - 0x30 else 0
  }

  function GetByte(a: bv8, b: bv8): bv8 { (GetBits(a) << 4) | GetBits(b) }

  function HexDigit(n: bv8): bv8 { if n < 10 then 0x30 + n else 0x41 + (n - 10) }

  function Hex(b: bv8): Token { Exact(HexDigit(b >> 4), HexDigit(b & 0xF)) }

  lemma DigitBits(n: bv8)
    requires n <= 0xF
    ensures GetBits(HexDigit(n)) == n && HexDigit(n) != 0 && HexDigit(n) != WILDCARD
  {}

  /** A hex digit in either case has its value; any other character counts as zero. */
  lemma DigitValues(x: bv8)
    ensures 0x30 <= x <= 0x39 ==> GetBits(x) == x - 0x30
    ensures 0x41 <= x <= 0x46 ==> GetBits(x) == x - 0x41 + 10
    ensures 0x61 <= x <= 0x66 ==> GetBits(x) == x - 0x61 + 10
    ensures !(0x30 <= x <= 0x39) && !(0x41 <= x <= 0x46) && !(0x61 <= x <= 0x66) ==> GetBits(x) == 0
  {}

  lemma Nibbles(b: bv8)
    ensures b >> 4 <= 0xF && b & 0xF <= 0xF && ((b >> 4) << 4) | (b & 0xF) == b
  {}

  /** A byte written as two hex digits is read back as that byte. */
  lemma HexReadsBack(b: bv8)
    ensures Readable(Hex(b)) && forall x: bv8 :: Fits(Hex(b), x) <==> x == b
  {
    Nibbles(b);
    DigitBits(b >> 4);
    DigitBits(b & 0xF);
  }

  predicate Readable(t: Token) { t.Exact? ==> t.high != 0 && t.high != WILDCARD && t.low != 0 }

  /** Byte `x` is one the token stands for. */
  predicate Fits(t: Token, x: bv8) { t.Any? || x == GetByte(t.high, t.low) }

  function Chars(t: Token): seq<bv8> { if t.Any? then [WILDCARD] else [t.high, t.low] }

  /** The text of a pattern, terminated. */
  function Text(pat: seq<Token>): (r: seq<bv8>)
    ensures |r| > 0
    decreases |pat|
  {
    if pat == [] then [0] else if |pat| == 1 then Chars(pat[0]) + [0] else Chars(pat[0]) + [BLANK] + Text(pat[1..])
  }

  /** The tokens can be told apart, and the last is a byte: behind a final question mark the code
      reads past the end of the text. */
  predicate WellFormed(pat: seq<Token>) {
    (forall k :: 0 <= k < |pat| ==> Readable(pat[k])) && (pat != [] ==> pat[|pat| - 1].Exact?)
  }

  lemma TextHead(pat: seq<Token>, k: nat)
    requires WellFormed(pat) && k < |pat|
    ensures var t := Text(pat[k..]);
            && t[0] != 0 && (t[0] == WILDCARD <==> pat[k].Any?)
            && |t| >= 3 && (t[2] == 0 <==> k == |pat| - 1)
            && (pat[k].Exact? ==> t[0] == pat[k].high && t[1] == pat[k].low)
            && (k < |pat| - 1 ==> t[if pat[k].Any? then 2 else 3..] == Text(pat[k + 1..]) && |t| > 3)
  {
    var rest := pat[k..];
    assert rest[0] == pat[k] && rest[1..] == pat[k + 1..];
    if k < |pat| - 1 {
      var next := pat[k + 1..];
      assert next[0] == pat[k + 1] && Text(next)[0] == Chars(pat[k + 1])[0];
    }
  }

  // ---------- Occurrences ----------

  /** The first `k` tokens fit the bytes from `at` on. */
  predicate Prefix(mem: seq<bv8>, pat: seq<Token>, at: int, k: nat) {
    0 <= at && at + k <= |mem| && k <= |pat| && forall j :: 0 <= j < k ==> Fits(pat[j], mem[at + j])
  }

  predicate Occurs(mem: seq<bv8>, pat: seq<Token>, at: int) { Prefix(mem, pat, at, |pat|) }

  /** The first `k` tokens fit the `k` bytes before `at`. */
  predicate EndsBefore(mem: seq<bv8>, pat: seq<Token>, at: int, k: nat) { Prefix(mem, pat, at - k, k) }

  predicate FirstAt(mem: seq<bv8>, pat: seq<Token>, at: int) {
    Occurs(mem, pat, at) && forall i :: 0 <= i < at ==> !Occurs(mem, pat, i)
  }

  /** The tokens matched when the scan comes to byte `i`, if it has not stopped by then. */
  function Matched(mem: seq<bv8>, pat: seq<Token>, i: nat): (k: nat)
    requires i <= |mem| && pat != []
    ensures k < |pat|
    decreases i
  {
    if i == 0 then 0 else
      var k := Matched(mem, pat, i - 1);
      if Fits(pat[k], mem[i - 1]) && k + 1 < |pat| then k + 1 else 0
  }

  /** Where the scan stops: the first place at which it completes a match. */
  function Scan(mem: seq<bv8>, pat: seq<Token>, i: nat): (r: int)
    requires i <= |mem| && pat != []
    decreases |mem| - i
  {
    if i == |mem| then -1 else
      var k := Matched(mem, pat, i);
      if Fits(pat[k], mem[i]) && k + 1 == |pat| then i - k else Scan(mem, pat, i + 1)
  }

  /** While nothing has been found, what is matched is a prefix that ends here. */
  lemma {:induction false} MatchedPrefix(mem: seq<bv8>, pat: seq<Token>, i: nat)
    requires i <= |mem| && pat != []
    ensures EndsBefore(mem, pat, i, Matched(mem, pat, i))
    decreases i
  {
    if i > 0 {
      MatchedPrefix(mem, pat, i - 1);
    }
  }

  /** A place found is an occurrence. */
  lemma {:induction false} ScanSound(mem: seq<bv8>, pat: seq<Token>, i: nat)
    requires i <= |mem| && pat != []
    ensures Scan(mem, pat, i) >= 0 ==> Occurs(mem, pat, Scan(mem, pat, i))
    ensures Scan(mem, pat, i) == -1 || 0 <= Scan(mem, pat, i) <= |mem| - |pat|
    decreases |mem| - i
  {
    if i < |mem| {
      MatchedPrefix(mem, pat, i);
      ScanSound(mem, pat, i + 1);
    }
  }

  lemma {:induction false} MatchedFrom(mem: seq<bv8>, pat: seq<Token>, p: nat, j: nat)
    requires pat != [] && Occurs(mem, pat, p) && Matched(mem, pat, p) == 0 && j < |pat|
    ensures Matched(mem, pat, p + j) == j
    decreases j
  {
    if j > 0 {
      MatchedFrom(mem, pat, p, j - 1);
    }
  }

  /** Where the match under way began, none was. */
  lemma {:induction false} MatchBegan(mem: seq<bv8>, pat: seq<Token>, i: nat)
    requires i <= |mem| && pat != []
    ensures var k := Matched(mem, pat, i); k <= i && Matched(mem, pat, i - k) == 0
    decreases i
  {
    if i > 0 {
      MatchBegan(mem, pat, i - 1);
    }
  }

  /** The scan only ever finds a place at which no match was under way. */
  lemma {:induction false} FoundAfresh(mem: seq<bv8>, pat: seq<Token>, i: nat)
    requires i <= |mem| && pat != []
    ensures var r := Scan(mem, pat, i); r >= 0 ==> r <= |mem| && Matched(mem, pat, r) == 0
    decreases |mem| - i
  {
    if i < |mem| {
      MatchBegan(mem, pat, i);
      FoundAfresh(mem, pat, i + 1);
    }
  }

  /** An occurrence at which no match is under way. */
  predicate Fresh(mem: seq<bv8>, pat: seq<Token>, at: int)
    requires pat != []
  {
    Occurs(mem, pat, at) && Matched(mem, pat, at) == 0
  }

  predicate FirstFresh(mem: seq<bv8>, pat: seq<Token>, at: int)
    requires pat != []
  {
    Fresh(mem, pat, at) && forall i :: 0 <= i < at ==> !Fresh(mem, pat, i)
  }

  lemma {:induction false} ScanReaches(mem: seq<bv8>, pat: seq<Token>, p: nat, i: nat)
    requires pat != [] && FirstFresh(mem, pat, p) && i < p + |pat|
    ensures Scan(mem, pat, i) == p
    decreases p + |pat| - i
  {
    hide Scan, Matched, GetByte;
    var k := Matched(mem, pat, i);
    MatchedPrefix(mem, pat, i);
    MatchBegan(mem, pat, i);
    ScanStep(mem, pat, i);
    if i >= p {
      MatchedFrom(mem, pat, p, i - p);
    }
    if Fits(pat[k], mem[i]) && k + 1 == |pat| {
      assert Fresh(mem, pat, i - k);
    } else {
      ScanReaches(mem, pat, p, i + 1);
    }
  }

  lemma {:induction false} LeastFresh(mem: seq<bv8>, pat: seq<Token>, n: nat) returns (p: nat)
    requires pat != [] && Fresh(mem, pat, n)
    ensures FirstFresh(mem, pat, p)
    decreases n
  {
    if i :| 0 <= i < n && Fresh(mem, pat, i) {
      p := LeastFresh(mem, pat, i);
    } else {
      p := n;
    }
  }

  /** What the scan returns, for every memory and pattern: the first occurrence at which no match is
      under way, and nothing if and only if there is none. */
  lemma ScanExact(mem: seq<bv8>, pat: seq<Token>, p: nat)
    requires pat != []
    ensures Scan(mem, pat, 0) == p <==> FirstFresh(mem, pat, p)
    ensures Scan(mem, pat, 0) < 0 <==> forall i: nat :: !Fresh(mem, pat, i)
  {
    hide Scan, Matched;
    var r := Scan(mem, pat, 0);
    ScanSound(mem, pat, 0);
    FoundAfresh(mem, pat, 0);
    if r >= 0 {
      assert Fresh(mem, pat, r);
      var q := LeastFresh(mem, pat, r);
      ScanReaches(mem, pat, q, 0);
    }
    forall i: nat | Fresh(mem, pat, i)
      ensures r >= 0
    {
      var q := LeastFresh(mem, pat, i);
      ScanReaches(mem, pat, q, 0);
    }
  }

  /** The first occurrence is found if and only if no match is under way there. */
  lemma FirstFound(mem: seq<bv8>, pat: seq<Token>, p: nat)
    requires pat != [] && FirstAt(mem, pat, p)
    ensures Scan(mem, pat, 0) == p <==> Matched(mem, pat, p) == 0
  {
    ScanExact(mem, pat, p);
  }

  /** What a caller can check of the memory: it is enough that no shorter prefix of the pattern
      ends just before the first occurrence. */
  lemma FoundBehindNone(mem: seq<bv8>, pat: seq<Token>, p: nat)
    requires pat != [] && FirstAt(mem, pat, p)
    requires forall k: nat :: 0 < k < |pat| ==> !EndsBefore(mem, pat, p, k)
    ensures Scan(mem, pat, 0) == p
  {
    MatchedPrefix(mem, pat, p);
    FirstFound(mem, pat, p);
  }

  const ACTLR_READ := [Hex(0x28), Hex(0x10), Hex(0x38), Hex(0xD5)]

  /** Not every occurrence is found: behind a doubled first byte the pattern is missed. */
  lemma Missed()
    ensures var mem := [0x28, 0x28, 0x10, 0x38, 0xD5]; FirstAt(mem, ACTLR_READ, 1) && Scan(mem, ACTLR_READ, 0) == -1
  {
    var mem: seq<bv8> := [0x28, 0x28, 0x10, 0x38, 0xD5];
    HexReadsBack(0x28);
    HexReadsBack(0x10);
    HexReadsBack(0x38);
    HexReadsBack(0xD5);
    assert !Fits(ACTLR_READ[1], mem[1]);
    assert Occurs(mem, ACTLR_READ, 1);
    assert Matched(mem, ACTLR_READ, 1) == 1 && Matched(mem, ACTLR_READ, 2) == 0 && Matched(mem, ACTLR_READ, 3) == 0;
    assert Matched(mem, ACTLR_READ, 4) == 0;
  }

  // ---------- The scan ----------

  /** FindPattern: an address, or 0 for none. */
  method FindPattern(mem: array<bv8>, baseAddress: nat, pattern: seq<bv8>, ghost pat: seq<Token>)
      returns (firstMatch: nat)
    requires baseAddress > 0 && WellFormed(pat) && pattern == Text(pat)
    ensures pat == [] ==> firstMatch == 0
    ensures pat != [] ==> firstMatch == var r := Scan(mem[..], pat, 0); if r < 0 then 0 else baseAddress + r
  {
    hide Text, GetByte, Matched, Scan, WellFormed, Fits, Reading;
    ScanStart(mem[..], pat);
    ReadingStart(pattern, pat);
    firstMatch := 0;
    var currentPattern, current := 0, baseAddress;
    ghost var k := 0;
    ghost var s := mem[..];
    while current < baseAddress + mem.Length
      invariant baseAddress <= current <= baseAddress + mem.Length
      invariant pat == [] ==> firstMatch == 0 && current == baseAddress
      invariant pat != [] ==> k < |pat| && k == Matched(s, pat, current - baseAddress) <= current - baseAddress
      invariant pat != [] ==> Scan(s, pat, 0) == Scan(s, pat, current - baseAddress)
      invariant Reading(pattern, pat, currentPattern, k)
      invariant firstMatch == if k == 0 then 0 else current - k
    {
      if pat == [] {
        ReadingEmpty(pattern, pat, currentPattern, k);
      } else {
        ReadingToken(pattern, pat, currentPattern, k);
        ScanStep(s, pat, current - baseAddress);
      }
      var byte := pattern[currentPattern];
      if byte == 0 {
        return;
      }
      if byte == WILDCARD || mem[current - baseAddress] == GetByte(byte, pattern[currentPattern + 1]) {
        if firstMatch == 0 {
          firstMatch := current;
        }
        if pattern[currentPattern + 2] == 0 {
          return;
        }
        currentPattern := currentPattern + if byte == WILDCARD then 2 else 3;
        k := k + 1;
      } else {
        ReadingStart(pattern, pat);
        currentPattern := 0;
        firstMatch := 0;
        k := 0;
      }
      current := current + 1;
    }
    return 0;
  }

  /** The text from `at` on is that of the tokens from `k` on. */
  predicate Reading(pattern: seq<bv8>, pat: seq<Token>, at: nat, k: nat) {
    k <= |pat| && at <= |pattern| && pattern[at..] == Text(pat[k..])
  }

  lemma ReadingStart(pattern: seq<bv8>, pat: seq<Token>)
    requires pattern == Text(pat)
    ensures Reading(pattern, pat, 0, 0)
  {
    assert pat[0..] == pat && pattern[0..] == pattern;
  }

  lemma ReadingEmpty(pattern: seq<bv8>, pat: seq<Token>, at: nat, k: nat)
    requires Reading(pattern, pat, at, k) && pat == []
    ensures at < |pattern| && pattern[at] == 0
  {
    EmptyText(pat[k..]);
    assert pattern[at] == pattern[at..][0];
  }

  lemma ReadingToken(pattern: seq<bv8>, pat: seq<Token>, at: nat, k: nat)
    requires Reading(pattern, pat, at, k) && WellFormed(pat) && k < |pat|
    ensures at + 2 < |pattern| && pattern[at] != 0 && (pattern[at] == WILDCARD <==> pat[k].Any?)
    ensures pat[k].Exact? ==> pattern[at] == pat[k].high && pattern[at + 1] == pat[k].low
    ensures pattern[at + 2] == 0 <==> k == |pat| - 1
    ensures k < |pat| - 1 ==> Reading(pattern, pat, at + if pat[k].Any? then 2 else 3, k + 1)
  {
    hide Text, WellFormed;
    TextHead(pat, k);
    var t := Text(pat[k..]);
    assert pattern[at] == t[0] && pattern[at + 1] == t[1] && pattern[at + 2] == t[2];
    if k < |pat| - 1 {
      var n := if pat[k].Any? then 2 else 3;
      assert pattern[at + n..] == t[n..];
    }
  }

  lemma ScanStart(mem: seq<bv8>, pat: seq<Token>)
    ensures pat != [] ==> Matched(mem, pat, 0) == 0 && Scan(mem, pat, |mem|) == -1
  {}

  lemma ScanStep(mem: seq<bv8>, pat: seq<Token>, i: nat)
    requires pat != [] && i < |mem|
    ensures var k := Matched(mem, pat, i);
            && Fits(pat[k], mem[i]) == (pat[k].Any? || mem[i] == GetByte(pat[k].high, pat[k].low))
            && (Fits(pat[k], mem[i]) && k + 1 == |pat| ==> Scan(mem, pat, i) == i - k)
            && (Fits(pat[k], mem[i]) && k + 1 < |pat| ==>
                Scan(mem, pat, i) == Scan(mem, pat, i + 1) && Matched(mem, pat, i + 1) == k + 1)
            && (!Fits(pat[k], mem[i]) ==> Scan(mem, pat, i) == Scan(mem, pat, i + 1) && Matched(mem, pat, i + 1) == 0)
  {}

  lemma EmptyText(pat: seq<Token>)
    requires pat == []
    ensures Text(pat) == [0] && pat[0..] == pat
  {}
}
