/** KernelErrataPatcherApplyReadACTLREL1Patches: reads of ACTLR_EL1 are searched for and replaced by
    a load of zero, at most three of them. */
module ErrataPatcher {
  import opened Gpt
  import opened PatternScan

  /** mov x8, #0 */
  const FIXED: seq<bv8> := [0x08, 0x00, 0x80, 0xD2]

  const MAX_PATCHES := 3

  /** Memory after up to `n` searches, each followed by a rewrite of what it found. */
  function Patched(mem: seq<bv8>, n: nat): (r: seq<bv8>)
    ensures |r| == |mem|
    decreases n
  {
    var p := Scan(mem, ACTLR_READ, 0);
    if n == 0 || p < 0 || p + 4 > |mem| then mem else Patched(Splice(mem, p, FIXED), n - 1)
  }

  /** The places rewritten, in order. */
  function Sites(mem: seq<bv8>, n: nat): (r: seq<int>)
    ensures |r| <= n
    decreases n
  {
    var p := Scan(mem, ACTLR_READ, 0);
    if n == 0 || p < 0 || p + 4 > |mem| then [] else [p] + Sites(Splice(mem, p, FIXED), n - 1)
  }

  lemma ReadBytes()
    ensures |ACTLR_READ| == 4 && forall k, x: bv8 :: 0 <= k < 4 ==>
      (Fits(ACTLR_READ[k], x) <==> x == [0x28, 0x10, 0x38, 0xD5][k])
  {
    HexReadsBack(0x28);
    HexReadsBack(0x10);
    HexReadsBack(0x38);
    HexReadsBack(0xD5);
  }

  /** The pattern stands for mrs x8, actlr_el1 and nothing else. */
  lemma ReadOccurs(mem: seq<bv8>, at: int)
    ensures Occurs(mem, ACTLR_READ, at) <==> 0 <= at && at + 4 <= |mem| && mem[at..at + 4] == [0x28, 0x10, 0x38, 0xD5]
  {
    ReadBytes();
    hide GetByte, ACTLR_READ, Fits;
    if Occurs(mem, ACTLR_READ, at) {
      forall k | 0 <= k < 4
        ensures mem[at..at + 4][k] == [0x28, 0x10, 0x38, 0xD5][k]
      {
        assert Fits(ACTLR_READ[k], mem[at + k]);
      }
    }
    if 0 <= at && at + 4 <= |mem| && mem[at..at + 4] == [0x28, 0x10, 0x38, 0xD5] {
      forall k | 0 <= k < 4
        ensures Fits(ACTLR_READ[k], mem[at + k])
      {
        assert mem[at + k] == mem[at..at + 4][k];
      }
    }
  }

  /** The rewritten bytes occur nowhere in the pattern, so later matches lie beside the rewrite and
      were there before it. */
  lemma MatchesBeside(mem: seq<bv8>, p: nat, q: int)
    requires Occurs(mem, ACTLR_READ, p) && Occurs(Splice(mem, p, FIXED), ACTLR_READ, q)
    ensures Occurs(mem, ACTLR_READ, q) && (q + 4 <= p || p + 4 <= q)
  {
    hide GetByte;
    ReadBytes();
    var now := Splice(mem, p, FIXED);
    forall k | 0 <= k < 4
      ensures now[p + k] == FIXED[k] && now[q + k] == [0x28, 0x10, 0x38, 0xD5][k]
    {
      assert Fits(ACTLR_READ[k], now[q + k]);
    }
    assert now[p] == 0x08 && now[p + 1] == 0x00 && now[p + 2] == 0x80 && now[p + 3] == 0xD2;
    assert now[q] == 0x28 && now[q + 1] == 0x10 && now[q + 2] == 0x38 && now[q + 3] == 0xD5;
    forall k | 0 <= k < 4
      ensures Fits(ACTLR_READ[k], mem[q + k])
    {
      assert Fits(ACTLR_READ[k], now[q + k]) && !(p <= q + k < p + 4);
      assert now[q + k] == mem[q + k];
    }
  }

  predicate InSite(i: int, site: int) { site <= i < site + 4 }

  /** Outside the sites nothing differs. */
  ghost predicate OnlySites(mem: seq<bv8>, r: seq<bv8>, sites: seq<int>) {
    |r| == |mem| && forall i :: 0 <= i < |mem| && (forall k :: 0 <= k < |sites| ==> !InSite(i, sites[k])) ==>
      r[i] == mem[i]
  }

  predicate Apart(sites: seq<int>) {
    forall j, k :: 0 <= j < k < |sites| ==> sites[j] + 4 <= sites[k] || sites[k] + 4 <= sites[j]
  }

  /** `r` is `mem` with the new instruction at `sites`, each of which held the old one in `mem`, no
      two overlapping. */
  ghost predicate RewrittenAt(mem: seq<bv8>, r: seq<bv8>, sites: seq<int>) {
    && OnlySites(mem, r, sites)
    && Apart(sites)
    && (forall k :: 0 <= k < |sites| ==> Occurs(mem, ACTLR_READ, sites[k]) && Holds(r, sites[k]))
  }

  predicate Holds(r: seq<bv8>, at: int) { 0 <= at && at + 4 <= |r| && r[at..at + 4] == [0x08, 0x00, 0x80, 0xD2] }

  lemma RewrittenFirst(mem: seq<bv8>, p: nat, r: seq<bv8>, rest: seq<int>)
    requires Occurs(mem, ACTLR_READ, p) && p + 4 <= |mem| && RewrittenAt(Splice(mem, p, FIXED), r, rest)
    ensures RewrittenAt(mem, r, [p] + rest)
  {
    assert |r| == |mem|;
    hide ACTLR_READ, Splice, OnlySites, Occurs;
    var next := Splice(mem, p, FIXED);
    forall k | 0 <= k < |rest|
      ensures Occurs(mem, ACTLR_READ, rest[k]) && (rest[k] + 4 <= p || p + 4 <= rest[k])
    {
      MatchesBeside(mem, p, rest[k]);
    }
    FirstSite(mem, p, rest, r, next);
    Elsewhere(mem, p, rest, r, next, [p] + rest);
  }

  /** Every place rewritten was a read of ACTLR_EL1 from the start; those places hold the new
      instruction, all other bytes are as they were; and with searches to spare nothing is found
      any more. */
  lemma {:induction false} PatchedSites(mem: seq<bv8>, n: nat)
    ensures RewrittenAt(mem, Patched(mem, n), Sites(mem, n))
    ensures |Sites(mem, n)| < n ==> Scan(Patched(mem, n), ACTLR_READ, 0) < 0
    decreases n
  {
    var p := Scan(mem, ACTLR_READ, 0);
    ReadLength();
    ScanSound(mem, ACTLR_READ, 0);
    if n > 0 && p >= 0 {
      hide Scan, ACTLR_READ, Splice, RewrittenAt, Occurs;
      var next := Splice(mem, p, FIXED);
      PatchedSites(next, n - 1);
      RewrittenFirst(mem, p, Patched(next, n - 1), Sites(next, n - 1));
    }
  }

  lemma ReadLength()
    ensures |ACTLR_READ| == 4 && ACTLR_READ != []
  {}

  lemma SpliceByte(mem: seq<bv8>, p: nat, i: nat)
    requires p + 4 <= |mem| && i < |mem|
    ensures Splice(mem, p, FIXED)[i] == if InSite(i, p) then FIXED[i - p] else mem[i]
  {}

  lemma Elsewhere(mem: seq<bv8>, p: nat, rest: seq<int>, r: seq<bv8>, next: seq<bv8>, sites: seq<int>)
    requires p + 4 <= |mem| && next == Splice(mem, p, FIXED) && |r| == |mem| && sites == [p] + rest
    requires OnlySites(next, r, rest)
    ensures OnlySites(mem, r, sites)
  {
    hide Splice;
    forall i | 0 <= i < |mem| && forall k :: 0 <= k < |sites| ==> !InSite(i, sites[k])
      ensures r[i] == mem[i]
    {
      assert !InSite(i, sites[0]);
      assert forall k :: 0 <= k < |rest| ==> rest[k] == sites[k + 1];
      SpliceByte(mem, p, i);
    }
  }

  lemma FirstSite(mem: seq<bv8>, p: nat, rest: seq<int>, r: seq<bv8>, next: seq<bv8>)
    requires p + 4 <= |mem| && next == Splice(mem, p, FIXED) && |r| == |mem|
    requires forall k :: 0 <= k < |rest| ==> rest[k] + 4 <= p || p + 4 <= rest[k]
    requires OnlySites(next, r, rest)
    ensures Holds(r, p)
  {
    forall i | p <= i < p + 4
      ensures r[i] == next[i]
    {
      assert forall k :: 0 <= k < |rest| ==> !InSite(i, rest[k]);
    }
  }

  // ---------- The loop ----------

  /** CopyMemory from a buffer outside the patched range. */
  method CopyMemory(mem: array<bv8>, destination: nat, source: seq<bv8>)
    requires destination + |source| <= mem.Length
    modifies mem
    ensures mem[..] == Splice(old(mem[..]), destination, source)
  {
    for i := 0 to |source|
      invariant forall j :: 0 <= j < mem.Length ==>
                  mem[j] == if destination <= j < destination + i then source[j - destination] else old(mem[j])
    {
      mem[destination + i] := source[i];
    }
  }

  method KernelErrataPatcherApplyReadACTLREL1Patches(mem: array<bv8>, base: nat, isInFirmwareContext: bool)
    requires base > 0
    modifies mem
    ensures mem[..] == Patched(old(mem[..]), if isInFirmwareContext then 1 else 3)
  {
    hide Scan, ACTLR_READ, Splice, FIXED;
    FixedLength();
    ReadLength();
    PatternText();
    var pattern := ACTLR_READ_TEXT;
    ghost var was := mem[..];
    ghost var limit := if isInFirmwareContext then 1 else MAX_PATCHES;
    ScanSound(was, ACTLR_READ, 0);
    var illegalInstruction := FindPattern(mem, base, pattern, ACTLR_READ);
    var patchCounter := 0;
    ghost var done := 0;
    while illegalInstruction != 0
      invariant 0 <= done <= limit && (illegalInstruction != 0 ==> done < limit)
                && (!isInFirmwareContext ==> patchCounter == done)
      invariant illegalInstruction != 0 || done < limit ==>
          illegalInstruction == var r := Scan(mem[..], ACTLR_READ, 0); if r < 0 then 0 else base + r
      invariant Patched(was, limit) == Patched(mem[..], limit - done)
      decreases limit - done
    {
      ScanSound(mem[..], ACTLR_READ, 0);
      CopyMemory(mem, illegalInstruction - base, FIXED);
      done := done + 1;
      if isInFirmwareContext {
        illegalInstruction := 0;
      } else {
        patchCounter := patchCounter + 1;
        if patchCounter != MAX_PATCHES {
          illegalInstruction := FindPattern(mem, base, pattern, ACTLR_READ);
        } else {
          illegalInstruction := 0;
        }
      }
    }
  }

  lemma FixedLength()
    ensures |FIXED| == 4
  {}

  /** "28 10 38 D5" */
  const ACTLR_READ_TEXT: seq<bv8> := [0x32, 0x38, 0x20, 0x31, 0x30, 0x20, 0x33, 0x38, 0x20, 0x44, 0x35, 0]

  lemma PatternText()
    ensures WellFormed(ACTLR_READ) && ACTLR_READ_TEXT == Text(ACTLR_READ)
  {
    assert Hex(0x28) == Exact(0x32, 0x38) && Hex(0x10) == Exact(0x31, 0x30) && Hex(0x38) == Exact(0x33, 0x38)
           && Hex(0xD5) == Exact(0x44, 0x35);
    var p := ACTLR_READ;
    assert p[1..] == [p[1], p[2], p[3]] && p[1..][1..] == [p[2], p[3]] && p[1..][1..][1..] == [p[3]];
    assert Text(p[1..][1..][1..]) == [0x44, 0x35, 0];
    assert Text(p[1..][1..]) == [0x33, 0x38, 0x20, 0x44, 0x35, 0];
    assert Text(p[1..]) == [0x31, 0x30, 0x20, 0x33, 0x38, 0x20, 0x44, 0x35, 0];
  }
}
