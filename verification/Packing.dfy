/** Python's struct.pack as mkbootimg.py uses it, one field a call; zero-terminated strings; and
    output files. */
module Packing {
  import opened Arithmetic
  import opened BitField

  type Bytes = seq<Octet>

  /** 'I', 'Q' and '<n>s'. */
  datatype Field = U32(v: int) | U64(v: int) | Text(n: nat, s: Bytes)

  /** Other integers make pack raise an error. */
  predicate Packs(f: Field) {
    match f
    case U32(v) => 0 <= v < 0x1_0000_0000
    case U64(v) => 0 <= v < 0x1_0000_0000_0000_0000
    case Text(_, _) => true
  }

  function Zeros(n: nat): (r: Bytes)
    ensures |r| == n && forall i :: 0 <= i < n ==> r[i] == 0
  {
    seq(n, i => 0)
  }

  function PackedBytes(v: nat, n: nat): (r: Bytes)
    ensures |r| == n
    decreases n, v
  {
    if n == 0 then [] else [v % 256] + PackedBytes(v / 256, n - 1)
  }

  function Value(s: Bytes): nat
    decreases |s|
  {
    if s == [] then 0 else s[0] + 256 * Value(s[1..])
  }

  function Width(f: Field): nat {
    match f
    case U32(_) => 4
    case U64(_) => 8
    case Text(n, _) => n
  }

  /** Text is cut off or filled up with zeros. */
  function Pack(f: Field): (r: Bytes)
    requires Packs(f)
    ensures |r| == Width(f)
  {
    match f
    case U32(v) => PackedBytes(v, 4)
    case U64(v) => PackedBytes(v, 8)
    case Text(n, s) => if |s| >= n then s[..n] else s + Zeros(n - |s|)
  }

  lemma {:induction false} ValueFits(v: nat, n: nat, limit: nat)
    requires v < limit && limit == Pow256(n)
    ensures Value(PackedBytes(v, n)) == v
    decreases n
  {
    if n > 0 {
      ValueFits(v / 256, n - 1, Pow256(n - 1));
      assert PackedBytes(v, n)[1..] == PackedBytes(v / 256, n - 1);
    }
  }

  function Pow256(n: nat): nat {
    if n == 0 then 1 else 256 * Pow256(n - 1)
  }

  /** A packed integer reads back. */
  lemma IntegerReadsBack(f: Field)
    requires Packs(f) && !f.Text?
    ensures Value(Pack(f)) == f.v
  {
    assert Pow256(1) == 0x100 && Pow256(2) == 0x1_0000 && Pow256(3) == 0x100_0000 && Pow256(4) == 0x1_0000_0000;
    assert Pow256(5) == 0x100_0000_0000 && Pow256(6) == 0x1_0000_0000_0000 && Pow256(7) == 0x100_0000_0000_0000;
    assert Pow256(8) == 0x1_0000_0000_0000_0000;
    ValueFits(f.v, Width(f), Pow256(Width(f)));
  }

  predicate AllPack(fs: seq<Field>) { forall i :: 0 <= i < |fs| ==> Packs(fs[i]) }

  function PackAll(fs: seq<Field>): (r: Bytes)
    requires AllPack(fs)
    ensures |r| == Size(fs)
    decreases |fs|
  {
    if fs == [] then [] else Pack(fs[0]) + PackAll(fs[1..])
  }

  function Size(fs: seq<Field>): nat
    decreases |fs|
  {
    if fs == [] then 0 else Width(fs[0]) + Size(fs[1..])
  }

  lemma PackNone()
    ensures PackAll([]) == []
  {}

  lemma {:induction false} PackNext(fs: seq<Field>, f: Field)
    requires AllPack(fs) && Packs(f)
    ensures PackAll(fs + [f]) == PackAll(fs) + Pack(f)
    decreases |fs|
  {
    hide Pack, Width;
    if fs == [] {
      assert [f][1..] == [];
      assert PackAll([f]) == Pack(f) + PackAll([]);
    } else {
      PackNext(fs[1..], f);
      assert (fs + [f])[1..] == fs[1..] + [f];
      assert Pack(fs[0]) + (PackAll(fs[1..]) + Pack(f)) == Pack(fs[0]) + PackAll(fs[1..]) + Pack(f);
    }
  }

  lemma {:induction false} SizeAppend(a: seq<Field>, b: seq<Field>)
    ensures Size(a + b) == Size(a) + Size(b)
    decreases |a|
  {
    if a == [] {
      assert a + b == b;
    } else {
      SizeAppend(a[1..], b);
      assert (a + b)[1..] == a[1..] + b;
    }
  }

  /** Field `k` stands where the sizes of those before it put it. */
  lemma {:induction false} FieldAt(fs: seq<Field>, k: nat)
    requires AllPack(fs) && k < |fs|
    ensures Size(fs[..k]) + Width(fs[k]) <= Size(fs)
    ensures PackAll(fs)[Size(fs[..k])..Size(fs[..k]) + Width(fs[k])] == Pack(fs[k])
    decreases k
  {
    hide Pack, Width, Packs;
    var head, tail := Pack(fs[0]), PackAll(fs[1..]);
    assert PackAll(fs) == head + tail && Size(fs) == Width(fs[0]) + Size(fs[1..]);
    if k > 0 {
      FieldAt(fs[1..], k - 1);
      assert fs[..k][1..] == fs[1..][..k - 1] && fs[..k][0] == fs[0];
      var at := Size(fs[1..][..k - 1]);
      assert Size(fs[..k]) == Width(fs[0]) + at;
      hide PackAll, Size;
      Shifted(head, tail, at, at + Width(fs[k]));
    } else {
      assert fs[..0] == [];
    }
  }

  // ---------- Padding ----------

  ghost predicate PowerOfTwo(page: nat) { exists n: nat {:trigger Pow2(n)} :: page == Pow2(n) }

  lemma Shifted(head: Bytes, tail: Bytes, lo: nat, hi: nat)
    requires lo <= hi <= |tail|
    ensures (head + tail)[|head| + lo..|head| + hi] == tail[lo..hi]
  {}

  lemma {:induction false} MaskIsRemainder(x: nat, n: nat)
    ensures NatAnd(x, Pow2(n) - 1) == Mod(x, Pow2(n))
    decreases n
  {
    if n == 0 {
      AndNone(x);
    } else {
      hide Times, Div, Mod, NatAnd;
      var p := Pow2(n - 1);
      MaskIsRemainder(x / 2, n - 1);
      AndZero(x, Pow2(n) - 1);
      assert (Pow2(n) - 1) / 2 == p - 1 && (Pow2(n) - 1) % 2 == 1;
      DivMod(x / 2, p);
      var q, r := Div(x / 2, p), Mod(x / 2, p);
      TimesDouble(q, p);
      DivUnique(x, q, 2 * r + x % 2, Pow2(n));
    }
  }

  lemma {:induction false} AndAtMost(a: nat, b: nat)
    ensures NatAnd(a, b) <= b
    decreases a
  {
    if a > 0 {
      AndAtMost(a / 2, b / 2);
    }
  }

  /** The zeros pad_file writes at position `at`. */
  function Pad(at: nat, page: nat): nat
    requires page > 0
  {
    AndAtMost(at, page - 1);
    NatAnd(page - NatAnd(at, page - 1), page - 1)
  }

  /** get_number_of_pages */
  function Pages(size: nat, page: nat): nat
    requires page > 0
  {
    Div(size + page - 1, page)
  }

  /** Padding reaches the next multiple of the page, and no further. */
  lemma PadReaches(at: nat, page: nat)
    requires PowerOfTwo(page)
    ensures page > 0 && Pad(at, page) < page && at + Pad(at, page) == Times(Pages(at, page), page)
  {
    hide Times, Div, Mod, NatAnd;
    var n: nat :| page == Pow2(n);
    MaskIsRemainder(at, n);
    DivMod(at, page);
    var q, r := Div(at, page), Mod(at, page);
    MaskIsRemainder(page - r, n);
    TimesNext(0, page);
    TimesNext(q, page);
    if r == 0 {
      DivUnique(page, 1, 0, page);
      DivUnique(at + page - 1, q, page - 1, page);
    } else {
      DivUnique(page - r, 0, page - r, page);
      DivUnique(at + page - 1, q + 1, r - 1, page);
    }
  }

  /** A section with its padding, when it starts at a multiple of the page. */
  function Padded(s: Bytes, page: nat): (r: Bytes)
    requires page > 0
    ensures |r| == |s| + Pad(|s|, page)
  {
    s + Zeros(Pad(|s|, page))
  }

  ghost predicate Aligned(n: nat, page: nat) { exists k: nat {:trigger Times(k, page)} :: n == Times(k, page) }

  lemma PadFromAligned(at: nat, size: nat, page: nat)
    requires PowerOfTwo(page) && Aligned(at, page)
    ensures page > 0 && Pad(at + size, page) == Pad(size, page) && Aligned(at + size + Pad(size, page), page)
  {
    hide Times, Div, Mod, NatAnd, Pad;
    PadReaches(size, page);
    PadReaches(at + size, page);
    var k: nat :| at == Times(k, page);
    var x := size + page - 1;
    DivMod(x, page);
    TimesAdd(k, Div(x, page), page);
    DivUnique(at + x, k + Div(x, page), Mod(x, page), page);
    assert at + x == at + size + page - 1;
  }

  // ---------- Strings ----------

  /** The bytes up to the first zero. */
  function CString(s: Bytes): Bytes
    decreases |s|
  {
    if s == [] || s[0] == 0 then [] else [s[0]] + CString(s[1..])
  }

  lemma {:induction false} CStringEnds(s: Bytes, rest: Bytes)
    requires 0 !in s && (rest == [] || rest[0] == 0)
    ensures CString(s + rest) == s
    decreases |s|
  {
    if s == [] {
      assert s + rest == rest;
    } else {
      CStringEnds(s[1..], rest);
      assert (s + rest)[1..] == s[1..] + rest;
    }
  }

  // ---------- Files ----------

  /** An output file opened for writing. */
  class OutFile {
    var data: Bytes

    constructor ()
      ensures data == []
    {
      data := [];
    }

    /** A pack and a write; an error leaves the file as it was. */
    method WriteField(f: Field) returns (ok: bool)
      modifies this
      ensures ok == Packs(f)
      ensures data == if ok then old(data) + Pack(f) else old(data)
    {
      ok := Packs(f);
      if ok {
        data := data + Pack(f);
      }
    }

    /** Writes until one raises an error. */
    method WriteFields(fs: seq<Field>) returns (ok: bool)
      modifies this
      ensures ok == AllPack(fs)
      ensures ok ==> data == old(data) + PackAll(fs)
    {
      hide Pack, Packs, PackAll;
      var i := 0;
      ok := true;
      PackNone();
      assert fs[..0] == [];
      while i < |fs|
        invariant 0 <= i <= |fs| && AllPack(fs[..i]) && data == old(data) + PackAll(fs[..i])
      {
        ok := WriteField(fs[i]);
        if !ok {
          return;
        }
        assert fs[..i + 1] == fs[..i] + [fs[i]];
        PackNext(fs[..i], fs[i]);
        i := i + 1;
      }
      assert fs[..|fs|] == fs;
    }

    /** pad_file */
    method PadFile(padding: nat)
      requires PowerOfTwo(padding)
      modifies this
      ensures padding > 0 && data == old(data) + Zeros(Pad(|old(data)|, padding))
    {
      hide NatAnd, Pow2, Times, Pages;
      PadReaches(|data|, padding);
      AndAtMost(|data|, padding - 1);
      var pad := NatAnd(padding - NatAnd(|data|, padding - 1), padding - 1);
      data := data + Zeros(pad);
    }

    /** write_padded_file; a file that was not given leaves no trace. */
    method WritePaddedFile(f: Option<Bytes>, padding: nat)
      requires PowerOfTwo(padding)
      modifies this
      ensures f.None? ==> data == old(data)
      ensures f.Some? ==> padding > 0 && data == old(data) + f.value + Zeros(Pad(|old(data)| + |f.value|, padding))
    {
      if f.None? {
        return;
      }
      data := data + f.value;
      PadFile(padding);
    }
  }
}
