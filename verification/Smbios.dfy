/** LogSmbiosData of PlatformSmbiosDxe.c: a record's formatted area followed by its set of strings,
    each terminated and the set terminated once more (section 6.1.3 of DSP0134). */
module Smbios {
  import opened BitField
  import opened Packing

  /** A formatted area says its own length in its second byte. */
  predicate IsTemplate(t: Bytes) { |t| >= 4 && t[1] == |t| }

  predicate IsString(s: Bytes) { 0 !in s }

  predicate AreStrings(strings: seq<Bytes>) { forall i :: 0 <= i < |strings| ==> IsString(strings[i]) }

  function Strings(strings: seq<Bytes>): Bytes
    decreases |strings|
  {
    if strings == [] then [] else strings[0] + [0] + Strings(strings[1..])
  }

  function StringsSize(strings: seq<Bytes>): (n: nat)
    ensures n == |Strings(strings)|
    decreases |strings|
  {
    if strings == [] then 0 else |strings[0]| + 1 + StringsSize(strings[1..])
  }

  /** The string set: an empty one is two zeros. */
  function StringSet(strings: seq<Bytes>): Bytes {
    Strings(strings) + (if strings == [] then [0] else []) + [0]
  }

  // ---------- Reading a record ----------

  /** What a reader of the standard finds from the start of the string set on. */
  function ReadStrings(b: Bytes): seq<Bytes>
    decreases |b|
  {
    if b == [] || b[0] == 0 then [] else
      var s := CString(b);
      CStringLength(b);
      [s] + ReadStrings(b[if |s| < |b| then |s| + 1 else |s|..])
  }

  lemma {:induction false} CStringLength(b: Bytes)
    ensures |CString(b)| <= |b| && (b != [] && b[0] != 0 ==> |CString(b)| > 0)
    decreases |b|
  {
    if b != [] && b[0] != 0 {
      CStringLength(b[1..]);
    }
  }

  /** The bytes a reader takes the set to have: up to the first two zeros, or just those. */
  function SetLength(b: Bytes): nat
    decreases |b|
  {
    if |b| < 2 then |b| else if b[0] == 0 && b[1] == 0 then 2 else 1 + SetLength(b[1..])
  }

  predicate NoneEmpty(strings: seq<Bytes>) { forall i :: 0 <= i < |strings| ==> strings[i] != [] }

  lemma ReadFirst(s: Bytes, rest: Bytes)
    requires IsString(s) && s != []
    ensures ReadStrings(s + ([0] + rest)) == [s] + ReadStrings(rest)
  {
    hide CString;
    var b := s + ([0] + rest);
    CStringEnds(s, [0] + rest);
    assert b[0] == s[0] && s[0] in s;
    assert b[|s| + 1..] == rest;
  }

  lemma {:induction false} ReadBack(strings: seq<Bytes>, tail: Bytes)
    requires AreStrings(strings) && NoneEmpty(strings) && tail != [] && tail[0] == 0
    ensures ReadStrings(Strings(strings) + tail) == strings
    decreases |strings|
  {
    var b := Strings(strings) + tail;
    if strings == [] {
      assert b == tail;
    } else {
      var s := strings[0];
      var rest := Strings(strings[1..]) + tail;
      assert IsString(s) && b == s + ([0] + rest);
      assert AreStrings(strings[1..]) && NoneEmpty(strings[1..]);
      hide ReadStrings, IsString;
      ReadFirst(s, rest);
      ReadBack(strings[1..], tail);
    }
  }

  lemma {:induction false} ReadNoEmpty(b: Bytes)
    ensures NoneEmpty(ReadStrings(b))
    decreases |b|
  {
    if b != [] && b[0] != 0 {
      CStringLength(b);
      var s := CString(b);
      ReadNoEmpty(b[if |s| < |b| then |s| + 1 else |s|..]);
    }
  }

  /** The list reads back exactly when it holds no empty string. */
  lemma StringsReadBack(strings: seq<Bytes>)
    requires AreStrings(strings)
    ensures ReadStrings(StringSet(strings)) == strings <==> NoneEmpty(strings)
  {
    if NoneEmpty(strings) {
      if strings == [] {
        assert StringSet(strings)[0] == 0;
      } else {
        assert StringSet(strings) == Strings(strings) + [0];
        ReadBack(strings, [0]);
      }
    } else {
      ReadNoEmpty(StringSet(strings));
    }
  }

  /** A list with an empty string in the middle: all behind it is lost. */
  lemma EmptyStringHides()
    ensures ReadStrings(StringSet([[0x41], [], [0x42]])) == [[0x41]]
  {
    var strings: seq<Bytes> := [[0x41], [], [0x42]];
    assert strings[1..] == [[], [0x42]] && strings[1..][1..] == [[0x42]] && strings[1..][1..][1..] == [];
    assert Strings([[0x42]]) == [0x42, 0];
    assert Strings([[], [0x42]]) == [0] + [0x42, 0];
    assert StringSet(strings) == [0x41] + ([0] + [0, 0x42, 0, 0]);
    ReadFirst([0x41], [0, 0x42, 0, 0]);
  }

  lemma {:induction false} LengthSkips(s: Bytes, b: Bytes)
    requires IsString(s) && (s == [] ==> |b| >= 2)
    requires s != [] ==> |b| >= 1
    ensures SetLength(s + b) == |s| + SetLength(b)
    decreases |s|
  {
    if s == [] {
      assert s + b == b;
    } else {
      assert (s + b)[1..] == s[1..] + b;
      if |s| > 1 || |b| >= 2 {
        LengthSkips(s[1..], b);
      }
    }
  }

  lemma {:induction false} LengthOfStrings(strings: seq<Bytes>)
    requires AreStrings(strings) && NoneEmpty(strings) && strings != []
    ensures SetLength(Strings(strings) + [0]) == |Strings(strings)| + 1
    decreases |strings|
  {
    var s := strings[0];
    var rest := Strings(strings[1..]) + [0];
    assert IsString(s) && Strings(strings) + [0] == s + ([0] + rest);
    LengthSkips(s, [0] + rest);
    if |strings| == 1 {
      assert [0] + rest == [0, 0];
    } else {
      assert AreStrings(strings[1..]) && NoneEmpty(strings[1..]);
      assert strings[1..][0] == strings[1] && strings[1] != [] && IsString(strings[1]);
      assert rest[0] == strings[1][0] && strings[1][0] in strings[1];
      assert ([0] + rest)[1..] == rest;
      LengthOfStrings(strings[1..]);
    }
  }

  /** A reader's first two zeros in a row are the record's last two bytes. */
  lemma SetEndsRecord(strings: seq<Bytes>)
    requires AreStrings(strings) && NoneEmpty(strings)
    ensures SetLength(StringSet(strings)) == |StringSet(strings)|
  {
    if strings == [] {
      assert StringSet(strings) == [0, 0];
    } else {
      assert StringSet(strings) == Strings(strings) + [0];
      LengthOfStrings(strings);
    }
  }

  lemma {:induction false} StringsEnd(strings: seq<Bytes>)
    requires strings != []
    ensures var b := Strings(strings); b != [] && b[|b| - 1] == 0
    decreases |strings|
  {
    if |strings| > 1 {
      StringsEnd(strings[1..]);
    }
  }

  /** Every string set, the empty one too, ends in two zeros. */
  lemma EndsInTwoZeros(strings: seq<Bytes>)
    ensures var b := StringSet(strings); |b| >= 2 && b[|b| - 2..] == [0, 0]
    ensures strings == [] ==> StringSet(strings) == [0, 0]
  {
    if strings != [] {
      hide Strings;
      StringsEnd(strings);
    }
  }

  // ---------- Packing ----------

  /** How the call ends. A missing string pack is counted for in the size and then read. */
  datatype Outcome = NoProtocol | NoMemory | ReadsNull | Logged(record: Bytes)

  /** CopyMem into the record. */
  method CopyMem(record: array<Octet>, at: nat, source: Bytes)
    requires at + |source| <= record.Length
    modifies record
    ensures record[..] == old(record[..at]) + source + old(record[at + |source|..])
  {
    for i := 0 to |source|
      invariant forall k :: 0 <= k < record.Length ==>
        record[k] == if at <= k < at + i then source[k - at] else old(record[k])
    {
      record[at + i] := source[i];
    }
  }

  /** The loop that adds up the sizes of the strings with their terminators. */
  method PackSize(strings: seq<Bytes>) returns (size: nat)
    ensures size == |Strings(strings)|
  {
    size := 0;
    var index := 0;
    assert strings[..0] == [];
    while index < |strings|
      invariant 0 <= index <= |strings| && size == |Strings(strings[..index])|
    {
      StringsNext(strings, index);
      size := size + |strings[index]| + 1;
      index := index + 1;
    }
    assert strings[..index] == strings;
  }

  lemma {:induction false} StringsAppend(a: seq<Bytes>, s: Bytes)
    ensures Strings(a + [s]) == Strings(a) + s + [0]
    decreases |a|
  {
    if a == [] {
      assert (a + [s])[1..] == [];
    } else {
      StringsAppend(a[1..], s);
      assert (a + [s])[1..] == a[1..] + [s];
    }
  }

  lemma StringsNext(strings: seq<Bytes>, i: nat)
    requires i < |strings|
    ensures Strings(strings[..i + 1]) == Strings(strings[..i]) + strings[i] + [0]
  {
    assert strings[..i + 1] == strings[..i] + [strings[i]];
    StringsAppend(strings[..i], strings[i]);
  }

  lemma {:induction false} StringsPrefix(strings: seq<Bytes>, i: nat)
    requires i <= |strings|
    ensures |Strings(strings[..i])| <= |Strings(strings)|
    decreases |strings| - i
  {
    if i < |strings| {
      StringsNext(strings, i);
      StringsPrefix(strings, i + 1);
    } else {
      assert strings[..i] == strings;
    }
  }

  /** LogSmbiosData up to the call that hands the record over; `located` and `pool` say whether the
      protocol and the memory were there. The record fills exactly what was allocated, and is the
      template and the string set. */
  method LogSmbiosData(template: Bytes, stringPack: Option<seq<Bytes>>, located: bool, pool: bool) returns (r: Outcome)
    requires IsTemplate(template)
    ensures r == if !located then NoProtocol else if !pool then NoMemory else if stringPack.None? then ReadsNull
                 else Logged(template + StringSet(stringPack.value))
  {
    hide Strings;
    if !located {
      return NoProtocol;
    }
    var size := |template|;
    if stringPack.None? {
      size := size + 2;
    } else {
      var strings := PackSize(stringPack.value);
      size := size + strings + (if stringPack.value == [] then 1 else 0) + 1;
    }
    if !pool {
      return NoMemory;
    }
    var record := new Octet[size](i => 0);
    CopyMem(record, 0, template);
    if stringPack.None? {
      return ReadsNull;
    }
    var strings := stringPack.value;
    var str: nat := record[1];
    var index := 0;
    NoStrings();
    assert strings[..0] == [];
    while index < |strings|
      invariant 0 <= index <= |strings|
      invariant str == |template| + |Strings(strings[..index])| && str <= size
      invariant record[..] == template + Strings(strings[..index]) + Zeros(size - str)
    {
      StringsNext(strings, index);
      StringsPrefix(strings, index + 1);
      ghost var was := record[..];
      CopyMem(record, str, strings[index] + [0]);
      Overwrite(template + Strings(strings[..index]), size, strings[index] + [0], was);
      Regrouped(template, Strings(strings[..index]), strings[index], [0]);
      str := str + |strings[index]| + 1;
      index := index + 1;
    }
    assert strings[..index] == strings;
    RecordEnds(template, strings, size, record[..]);
    ghost var was := record[..];
    record[str] := 0;
    assert record[..] == was[str := 0];
    return Logged(record[..]);
  }

  lemma Regrouped(a: Bytes, b: Bytes, c: Bytes, d: Bytes)
    ensures a + b + (c + d) == a + (b + c + d)
  {}

  /** The last terminator. */
  lemma RecordEnds(template: Bytes, strings: seq<Bytes>, size: nat, was: Bytes)
    requires size == |template| + |StringSet(strings)|
    requires was == template + Strings(strings) + Zeros(size - |template| - |Strings(strings)|)
    ensures var n := |template| + |Strings(strings)|; n < |was| && was[n := 0] == template + StringSet(strings)
  {
    hide Strings;
    NoStrings();
  }

  lemma NoStrings()
    ensures Strings([]) == []
  {}

  lemma Overwrite(head: Bytes, size: nat, s: Bytes, was: Bytes)
    requires |head| + |s| <= size && was == head + Zeros(size - |head|)
    ensures was[..|head|] + s + was[|head| + |s|..] == head + s + Zeros(size - |head| - |s|)
  {}
}
