/** The framebuffer of FrameBufferSerialPortLib.c as bytes and as pixels, and FbConDrawglyph.
    Positions are counted in pixels: every pointer move in the code is a multiple of the bytes of
    one pixel. */
module FramePixels {
  import opened Arithmetic
  import opened BitField
  import opened Crc32
  import opened Gpt

  const FONT_WIDTH := 5
  const FONT_HEIGHT := 12

  type Pixel = seq<bv8>

  /** The bytes a color is stored as, low byte first; beyond four bytes the word has run out. */
  function PixelBytes(color: bv32, bpp: nat): (r: Pixel)
    ensures |r| == bpp
  {
    LittleEndian(color, bpp)
  }

  function PixelAt(bytes: seq<bv8>, bpp: nat, i: nat): Pixel {
    if i * bpp + bpp <= |bytes| then bytes[i * bpp..i * bpp + bpp] else []
  }

  /** The first `n` pixels. */
  function Pixels(bytes: seq<bv8>, bpp: nat, n: nat): (r: seq<Pixel>)
    ensures |r| == n
  {
    seq(n, i requires 0 <= i < n => PixelAt(bytes, bpp, i))
  }

  lemma PixelApart(bytes: seq<bv8>, bpp: nat, n: nat, i: nat, j: nat, px: Pixel)
    requires |bytes| == n * bpp && i < n && j < n && |px| == bpp && i * bpp + bpp <= |bytes|
    ensures PixelAt(Splice(bytes, i * bpp, px), bpp, j) == if j == i then px else PixelAt(bytes, bpp, j)
  {
    if j < i {
      MulGrows(j, i, bpp);
    } else if i < j {
      MulGrows(i, j, bpp);
    }
    MulGrows(j, n, bpp);
    SliceApart(bytes, i * bpp, j * bpp, px);
  }

  lemma SliceApart(bytes: seq<bv8>, a: nat, b: nat, px: Pixel)
    requires a + |px| <= |bytes| && b + |px| <= |bytes| && (a == b || b + |px| <= a || a + |px| <= b)
    ensures Splice(bytes, a, px)[b..b + |px|] == if a == b then px else bytes[b..b + |px|]
  {}

  lemma StoredPixel(bytes: seq<bv8>, bpp: nat, n: nat, i: nat, px: Pixel)
    requires |bytes| == n * bpp && i < n && |px| == bpp
    ensures i * bpp + bpp <= |bytes|
    ensures Pixels(Splice(bytes, i * bpp, px), bpp, n) == Pixels(bytes, bpp, n)[i := px]
  {
    MulGrows(i, n, bpp);
    hide PixelAt, Splice;
    var stored := Splice(bytes, i * bpp, px);
    forall j | 0 <= j < n
      ensures Pixels(stored, bpp, n)[j] == Pixels(bytes, bpp, n)[i := px][j]
    {
      PixelApart(bytes, bpp, n, i, j, px);
    }
  }

  // ---------- Painting ----------

  datatype Ink = Leave | Put(px: Pixel)

  /** `row` laid over `screen` from `p` on. */
  function Overlay(screen: seq<Pixel>, p: nat, row: seq<Ink>): (r: seq<Pixel>)
    ensures |r| == |screen|
  {
    seq(|screen|, i requires 0 <= i < |screen| =>
      if p <= i < p + |row| && row[i - p].Put? then row[i - p].px else screen[i])
  }

  /** `rows` laid over `screen`, each `stride` pixels after the one before. */
  function OverlayRows(screen: seq<Pixel>, p: nat, stride: nat, rows: seq<seq<Ink>>): (r: seq<Pixel>)
    ensures |r| == |screen|
    decreases |rows|
  {
    if rows == [] then screen else OverlayRows(Overlay(screen, p, rows[0]), p + stride, stride, rows[1..])
  }

  lemma OverlayNext(screen: seq<Pixel>, p: nat, row: seq<Ink>, ink: Ink)
    requires p + |row| < |screen|
    ensures Overlay(screen, p, row + [ink])
         == if ink.Put? then Overlay(screen, p, row)[p + |row| := ink.px] else Overlay(screen, p, row)
  {}

  lemma {:induction false} OverlayRowsNext(screen: seq<Pixel>, p: nat, stride: nat, rows: seq<seq<Ink>>, row: seq<Ink>)
    ensures OverlayRows(screen, p, stride, rows + [row])
         == Overlay(OverlayRows(screen, p, stride, rows), p + |rows| * stride, row)
    decreases |rows|
  {
    if rows != [] {
      OverlayRowsNext(Overlay(screen, p, rows[0]), p + stride, stride, rows[1..], row);
      assert (rows + [row])[1..] == rows[1..] + [row];
      assert p + |rows| * stride == p + stride + (|rows| - 1) * stride;
    } else {
      assert OverlayRows(Overlay(screen, p, row), p + stride, stride, []) == Overlay(screen, p, row);
    }
  }

  /** Pixel `i` is where row `r` puts its column `c`. */
  predicate Hits(p: nat, stride: nat, i: nat, r: nat, c: nat) { i == p + r * stride + c }

  predicate Rectangle(rows: seq<seq<Ink>>, width: nat) {
    forall r :: 0 <= r < |rows| ==> |rows[r]| == width
  }

  lemma OverlayAt(screen: seq<Pixel>, p: nat, row: seq<Ink>, i: nat)
    requires i < |screen|
    ensures Overlay(screen, p, row)[i] == if p <= i < p + |row| && row[i - p].Put? then row[i - p].px else screen[i]
  {}

  lemma {:induction false} OverlayRowsAbove(screen: seq<Pixel>, p: nat, stride: nat, rows: seq<seq<Ink>>, i: nat)
    requires i < p && i < |screen|
    ensures OverlayRows(screen, p, stride, rows)[i] == screen[i]
    decreases |rows|
  {
    if rows != [] {
      hide Overlay;
      OverlayAt(screen, p, rows[0], i);
      OverlayRowsAbove(Overlay(screen, p, rows[0]), p + stride, stride, rows[1..], i);
    }
  }

  lemma HitsBelow(p: nat, stride: nat, i: nat, r: nat, c: nat)
    requires r > 0
    ensures Hits(p, stride, i, r, c) <==> Hits(p + stride, stride, i, r - 1, c)
    ensures Hits(p, stride, i, r, c) ==> p + stride <= i
  {
    assert r * stride == stride + (r - 1) * stride;
  }

  /** A pixel some row reaches is what that row puts there. */
  lemma {:induction false} OverlayRowsHit(screen: seq<Pixel>, p: nat, stride: nat, rows: seq<seq<Ink>>, width: nat,
                                          i: nat, r: nat, c: nat)
    requires Rectangle(rows, width) && width <= stride && i < |screen| && r < |rows| && c < width
             && Hits(p, stride, i, r, c)
    ensures OverlayRows(screen, p, stride, rows)[i] == if rows[r][c].Put? then rows[r][c].px else screen[i]
    decreases |rows|
  {
    hide Overlay;
    OverlayAt(screen, p, rows[0], i);
    var next := Overlay(screen, p, rows[0]);
    if r == 0 {
      OverlayRowsAbove(next, p + stride, stride, rows[1..], i);
    } else {
      HitsBelow(p, stride, i, r, c);
      OverlayRowsHit(next, p + stride, stride, rows[1..], width, i, r - 1, c);
    }
  }

  /** Pixel `i` lies in none of the `n` rows. */
  ghost predicate Missed(p: nat, stride: nat, n: nat, width: nat, i: nat) {
    forall r: nat, c: nat :: r < n && c < width ==> !Hits(p, stride, i, r, c)
  }

  lemma {:induction false} OverlayRowsMiss(screen: seq<Pixel>, p: nat, stride: nat, rows: seq<seq<Ink>>, width: nat,
                                           i: nat)
    requires Rectangle(rows, width) && i < |screen| && Missed(p, stride, |rows|, width, i)
    ensures OverlayRows(screen, p, stride, rows)[i] == screen[i]
    decreases |rows|
  {
    if rows != [] {
      OverlayAt(screen, p, rows[0], i);
      MissedFirst(p, stride, |rows|, width, i);
      MissedBelow(p, stride, |rows|, width, i);
      hide Overlay, Missed;
      OverlayRowsMiss(Overlay(screen, p, rows[0]), p + stride, stride, rows[1..], width, i);
    }
  }

  lemma MissedFirst(p: nat, stride: nat, n: nat, width: nat, i: nat)
    requires n > 0 && Missed(p, stride, n, width, i)
    ensures i < p || p + width <= i
  {
    assert i >= p ==> i == p + 0 * stride + (i - p);
    assert i < p || !(i - p < width) || Hits(p, stride, i, 0, i - p);
  }

  lemma MissedBelow(p: nat, stride: nat, n: nat, width: nat, i: nat)
    requires n > 0 && Missed(p, stride, n, width, i)
    ensures Missed(p + stride, stride, n - 1, width, i)
  {
    hide Hits;
    var below := p + stride;
    forall r: nat, c: nat | r < n - 1 && c < width
      ensures !Hits(below, stride, i, r, c)
    {
      HitsBelow(p, stride, i, r + 1, c);
    }
  }

  // ---------- FbConDrawglyph ----------

  /** Row `r` of a cell: the half of the glyph it lies in, and there bits `5 * row` to `5 * row + 4`. */
  function GlyphBit(glyph: seq<nat>, scale: nat, r: nat, c: nat): nat
    requires |glyph| == 2 && scale > 0 && r < FONT_HEIGHT * scale
  {
    NatBit(glyph[if r / scale < 6 then 0 else 1], (r / scale) % 6 * 5 + c / scale)
  }

  /** One pixel row of a glyph: five bits of `data`, `scale` pixels each. */
  function GlyphRow(data: nat, scale: nat, fg: Pixel, n: nat): (r: seq<Ink>)
    ensures |r| == Times(n, scale)
  {
    if n == 0 then []
    else
      TimesNext(n - 1, scale);
      GlyphRow(data, scale, fg, n - 1) + Same(if NatBit(data, n - 1) == 1 then Put(fg) else Leave, scale)
  }

  function Same(ink: Ink, n: nat): (r: seq<Ink>)
    ensures |r| == n && forall k :: 0 <= k < n ==> r[k] == ink
  {
    seq(n, i => ink)
  }

  /** Row `k` of half a glyph. */
  function HalfRow(data: nat, scale: nat, fg: Pixel, k: nat): (r: seq<Ink>)
    ensures |r| == FONT_WIDTH * scale
  {
    if scale == 0 then [] else GlyphRow(NatShiftRight(data, 5 * (k / scale)), scale, fg, FONT_WIDTH)
  }

  function HalfRows(data: nat, scale: nat, fg: Pixel, n: nat): (r: seq<seq<Ink>>)
    ensures |r| == n && Rectangle(r, FONT_WIDTH * scale)
  {
    seq(n, k requires 0 <= k < n => HalfRow(data, scale, fg, k))
  }

  function BackRows(scale: nat, bg: Pixel, n: nat): (r: seq<seq<Ink>>)
    ensures |r| == n && Rectangle(r, FONT_WIDTH * scale)
  {
    seq(n, k => Same(Put(bg), FONT_WIDTH * scale))
  }

  /** What FbConDrawglyph leaves: the background over the cell, then both halves of the glyph. */
  function Drawn(screen: seq<Pixel>, p: nat, stride: nat, scale: nat, glyph: seq<nat>, fg: Pixel,
                 bg: Pixel): (r: seq<Pixel>)
    requires |glyph| == 2
    ensures |r| == |screen|
  {
    OverlayRows(OverlayRows(screen, p, stride, BackRows(scale, bg, 12 * scale)), p, stride,
                HalfRows(glyph[0], scale, fg, 6 * scale) + HalfRows(glyph[1], scale, fg, 6 * scale))
  }

  lemma RowNext(screen: seq<Pixel>, p: nat, row: seq<Ink>, ink: Ink, j: nat)
    requires p + |row| + j < |screen|
    ensures Overlay(screen, p, row + Same(ink, j + 1)) ==
            if ink.Put? then Overlay(screen, p, row + Same(ink, j))[p + |row| + j := ink.px]
            else Overlay(screen, p, row + Same(ink, j))
  {
    hide Overlay;
    OverlayNext(screen, p, row + Same(ink, j), ink);
    assert row + Same(ink, j) + [ink] == row + Same(ink, j + 1);
  }

  lemma RowDone(data: nat, scale: nat, fg: Pixel, x: nat)
    ensures var row, ink := GlyphRow(data, scale, fg, x), if NatBit(data, x) == 1 then Put(fg) else Leave;
            row + Same(ink, 0) == row && row + Same(ink, scale) == GlyphRow(data, scale, fg, x + 1)
    ensures GlyphRow(data, scale, fg, 0) == []
  {}

  lemma NoRows(screen: seq<Pixel>, p: nat, stride: nat, scale: nat, px: Pixel, data: nat)
    ensures OverlayRows(screen, p, stride, BackRows(scale, px, 0)) == screen
    ensures OverlayRows(screen, p, stride, HalfRows(data, scale, px, 0)) == screen
  {}

  lemma BackRowsNext(screen: seq<Pixel>, p: nat, stride: nat, scale: nat, bg: Pixel, k: nat)
    ensures OverlayRows(screen, p, stride, BackRows(scale, bg, k + 1))
         == Overlay(OverlayRows(screen, p, stride, BackRows(scale, bg, k)), p + Times(k, stride),
                    Same(Put(bg), FONT_WIDTH * scale))
  {
    hide OverlayRows, Overlay;
    var row := Same(Put(bg), FONT_WIDTH * scale);
    OverlayRowsNext(screen, p, stride, BackRows(scale, bg, k), row);
    assert BackRows(scale, bg, k) + [row] == BackRows(scale, bg, k + 1);
  }

  /** Row `i` of line `y` shows the line's five bits. */
  lemma HalfRowsNext(screen: seq<Pixel>, p: nat, stride: nat, data: nat, scale: nat, fg: Pixel, y: nat, i: nat)
    requires i < scale
    ensures var k := Times(y, scale) + i;
            OverlayRows(screen, p, stride, HalfRows(data, scale, fg, k + 1)) ==
            Overlay(OverlayRows(screen, p, stride, HalfRows(data, scale, fg, k)), p + Times(k, stride),
                    GlyphRow(NatShiftRight(data, 5 * y), scale, fg, FONT_WIDTH))
  {
    hide OverlayRows, Overlay, GlyphRow, NatShiftRight;
    var k := Times(y, scale) + i;
    var row := HalfRow(data, scale, fg, k);
    Quotient(k, y, i, scale);
    OverlayRowsNext(screen, p, stride, HalfRows(data, scale, fg, k), row);
    assert HalfRows(data, scale, fg, k) + [row] == HalfRows(data, scale, fg, k + 1);
  }

  lemma {:induction false} ShiftedBit(v: nat, n: nat, k: nat)
    ensures NatBit(NatShiftRight(v, n), k) == NatBit(v, n + k)
    decreases n, v
  {
    if n > 0 {
      ShiftedBit(v / 2, n - 1, k);
    }
  }

  lemma {:induction false} GlyphRowAt(data: nat, scale: nat, fg: Pixel, n: nat, c: nat)
    requires scale > 0 && c < n * scale
    ensures GlyphRow(data, scale, fg, n)[c] == if NatBit(data, c / scale) == 1 then Put(fg) else Leave
    decreases n
  {
    hide NatBit;
    var before := GlyphRow(data, scale, fg, n - 1);
    var m := (n - 1) * scale;
    assert n * scale == m + scale && |before| == m;
    if c < m {
      GlyphRowAt(data, scale, fg, n - 1, c);
    } else {
      Quotient(c, n - 1, c - m, scale);
    }
  }

  lemma QuotientBound(r: nat, n: nat, scale: nat)
    requires scale > 0 && r < n * scale
    ensures r / scale < n && r / scale >= 0
  {
    var q := r / scale;
    assert r == q * scale + r % scale;
    if n < q {
      MulGrows(n, q, scale);
    }
  }

  lemma HalfRowAt(data: nat, scale: nat, fg: Pixel, k: nat, c: nat)
    requires scale > 0 && k < 6 * scale && c < 5 * scale
    ensures HalfRow(data, scale, fg, k)[c] == if NatBit(data, 5 * (k / scale) + c / scale) == 1 then Put(fg) else Leave
  {
    hide GlyphRow, NatBit, NatShiftRight;
    QuotientBound(k, 6, scale);
    QuotientBound(c, 5, scale);
    GlyphRowAt(NatShiftRight(data, 5 * (k / scale)), scale, fg, 5, c);
    ShiftedBit(data, 5 * (k / scale), c / scale);
  }

  lemma LowerHalf(r: nat, scale: nat)
    requires scale > 0 && 6 * scale <= r < 12 * scale
    ensures r / scale == (r - 6 * scale) / scale + 6 && 6 <= r / scale < 12
            && (r / scale) % 6 == (r - 6 * scale) / scale
  {
    var k := r - 6 * scale;
    QuotientBound(k, 6, scale);
    assert r == (k / scale + 6) * scale + k % scale;
    Quotient(r, k / scale + 6, k % scale, scale);
  }

  /** Row `r` of the two halves together, column `c`. */
  lemma GlyphRowsAt(glyph: seq<nat>, scale: nat, fg: Pixel, r: nat, c: nat)
    requires |glyph| == 2 && scale > 0 && r < 12 * scale && c < 5 * scale
    ensures var rows := HalfRows(glyph[0], scale, fg, 6 * scale) + HalfRows(glyph[1], scale, fg, 6 * scale);
            rows[r][c] == if GlyphBit(glyph, scale, r, c) == 1 then Put(fg) else Leave
  {
    hide HalfRow, NatBit;
    if r < 6 * scale {
      QuotientBound(r, 6, scale);
      HalfRowAt(glyph[0], scale, fg, r, c);
    } else {
      LowerHalf(r, scale);
      HalfRowAt(glyph[1], scale, fg, r - 6 * scale, c);
    }
  }

  /** The picture: row `r` and column `c` of the cell show the foreground where the glyph has its
      bit and the background elsewhere. */
  lemma GlyphPixel(screen: seq<Pixel>, p: nat, stride: nat, scale: nat, glyph: seq<nat>, fg: Pixel, bg: Pixel, i: nat,
                   r: nat, c: nat)
    requires |glyph| == 2 && 5 * scale <= stride && i < |screen|
    requires r < 12 * scale && c < 5 * scale && i == p + r * stride + c
    ensures Drawn(screen, p, stride, scale, glyph, fg, bg)[i] == if GlyphBit(glyph, scale, r, c) == 1 then fg else bg
  {
    assert Hits(p, stride, i, r, c);
    hide HalfRow, OverlayRows, GlyphBit, Hits, NatBit;
    var back := BackRows(scale, bg, 12 * scale);
    var rows := HalfRows(glyph[0], scale, fg, 6 * scale) + HalfRows(glyph[1], scale, fg, 6 * scale);
    OverlayRowsHit(screen, p, stride, back, 5 * scale, i, r, c);
    OverlayRowsHit(OverlayRows(screen, p, stride, back), p, stride, rows, 5 * scale, i, r, c);
    GlyphRowsAt(glyph, scale, fg, r, c);
    assert back[r][c] == Put(bg);
  }

  /** No pixel outside the cell changes. */
  lemma GlyphOutside(screen: seq<Pixel>, p: nat, stride: nat, scale: nat, glyph: seq<nat>, fg: Pixel, bg: Pixel, i: nat)
    requires |glyph| == 2 && i < |screen|
    requires forall r: nat, c: nat :: r < 12 * scale && c < 5 * scale ==> !Hits(p, stride, i, r, c)
    ensures Drawn(screen, p, stride, scale, glyph, fg, bg)[i] == screen[i]
  {
    assert Missed(p, stride, 12 * scale, 5 * scale, i);
    hide HalfRow, OverlayRows, Missed;
    var back := BackRows(scale, bg, 12 * scale);
    var rows := HalfRows(glyph[0], scale, fg, 6 * scale) + HalfRows(glyph[1], scale, fg, 6 * scale);
    OverlayRowsMiss(screen, p, stride, back, 5 * scale, i);
    OverlayRowsMiss(OverlayRows(screen, p, stride, back), p, stride, rows, 5 * scale, i);
  }

  lemma {:induction false} OverlayRowsAppend(screen: seq<Pixel>, p: nat, stride: nat, a: seq<seq<Ink>>,
                                             b: seq<seq<Ink>>)
    ensures OverlayRows(screen, p, stride, a + b)
            == OverlayRows(OverlayRows(screen, p, stride, a), p + |a| * stride, stride, b)
    decreases |a|
  {
    if a == [] {
      assert a + b == b;
    } else {
      OverlayRowsAppend(Overlay(screen, p, a[0]), p + stride, stride, a[1..], b);
      assert (a + b)[1..] == a[1..] + b;
      assert p + |a| * stride == p + stride + (|a| - 1) * stride;
    }
  }

  // ---------- The loops ----------

  /** The memory of the screen, `n` pixels of `bpp` bytes. */
  class FrameBuffer {
    const bytes: array<bv8>
    const bpp: nat
    const n: nat

    ghost predicate Valid() { bytes.Length == n * bpp }

    constructor (bytes: array<bv8>, bpp: nat, n: nat)
      requires bytes.Length == n * bpp
      ensures Valid() && this.bytes == bytes && this.bpp == bpp && this.n == n
    {
      this.bytes, this.bpp, this.n := bytes, bpp, n;
    }

    ghost function Screen(): (s: seq<Pixel>)
      reads bytes
      ensures |s| == n
    {
      Pixels(bytes[..], bpp, n)
    }

    /** The loop over the bytes of one pixel. */
    method PutPixel(i: nat, color: bv32)
      requires Valid() && i < n
      modifies bytes
      ensures Screen() == old(Screen())[i := PixelBytes(color, bpp)]
    {
      hide LittleEndian;
      var at := i * bpp;
      ghost var was := bytes[..];
      StoredPixel(was, bpp, n, i, PixelBytes(color, bpp));
      var rest := color;
      var k := 0;
      ghost var px := PixelBytes(color, bpp);
      while k < bpp
        invariant 0 <= k <= bpp && px[k..] == LittleEndian(rest, bpp - k)
        invariant forall j :: 0 <= j < bytes.Length ==> bytes[j] == if at <= j < at + k then px[j - at] else was[j]
      {
        NextByte(px, k, rest);
        bytes[at + k] := First(rest);
        rest := Rest(rest);
        k := k + 1;
      }
      assert bytes[..] == Splice(was, at, px);
    }

    /** One row of background; `p` moves on by the row. */
    method BackRow(start: nat, scale: nat, bg: bv32) returns (p: nat)
      requires Valid() && start + 5 * scale <= n
      modifies bytes
      ensures Screen() == Overlay(old(Screen()), start, Same(Put(PixelBytes(bg, bpp)), 5 * scale))
      ensures p == start + 5 * scale
    {
      hide PixelBytes, Overlay, Times;
      p := start;
      ghost var ink := Put(PixelBytes(bg, bpp));
      ghost var was := Screen();
      Multiples(scale, 0);
      OverlayNothing(was, start, Same(ink, 0));
      var x := 0;
      while x < FONT_WIDTH
        invariant 0 <= x <= 5 && p == start + Times(x, scale)
        invariant Screen() == Overlay(was, start, Same(ink, Times(x, scale)))
      {
        TimesBelow(x, 5, scale);
        var j := 0;
        while j < scale
          invariant 0 <= j <= scale && p == start + Times(x, scale) + j
          invariant Screen() == Overlay(was, start, Same(ink, Times(x, scale) + j))
        {
          OverlayNext(was, start, Same(ink, Times(x, scale) + j), ink);
          assert Same(ink, Times(x, scale) + j) + [ink] == Same(ink, Times(x, scale) + j + 1);
          PutPixel(p, bg);
          p := p + 1;
          j := j + 1;
        }
        TimesNext(x, scale);
        x := x + 1;
      }
    }

    /** One row of glyph: the five low bits of `word`, which is left shifted past them. */
    method InkRow(start: nat, scale: nat, word: nat, fg: bv32) returns (p: nat, data: nat)
      requires Valid() && start + 5 * scale <= n
      modifies bytes
      ensures Screen() == Overlay(old(Screen()), start, GlyphRow(word, scale, PixelBytes(fg, bpp), 5))
      ensures p == start + 5 * scale && data == NatShiftRight(word, 5)
    {
      hide PixelBytes, Overlay, NatBit, NatShiftRight, Times, GlyphRow, Same, Pixels;
      RowDone(word, scale, PixelBytes(fg, bpp), 0);
      p, data := start, word;
      ghost var px := PixelBytes(fg, bpp);
      ghost var was := Screen();
      Multiples(scale, 0);
      OverlayNothing(was, start, []);
      ShiftNone(word);
      var x := 0;
      while x < FONT_WIDTH
        invariant 0 <= x <= 5 && p == start + Times(x, scale) && data == NatShiftRight(word, x)
        invariant Screen() == Overlay(was, start, GlyphRow(word, scale, px, x))
      {
        ShiftHalves(word, x);
        TimesBelow(x, 5, scale);
        ghost var row := GlyphRow(word, scale, px, x);
        ghost var ink := if data % 2 == 1 then Put(px) else Leave;
        RowDone(word, scale, px, x);
        var j := 0;
        while j < scale
          invariant 0 <= j <= scale && p == start + Times(x, scale) + j
          invariant Screen() == Overlay(was, start, row + Same(ink, j))
        {
          RowNext(was, start, row, ink, j);
          if data % 2 == 1 {
            PutPixel(p, fg);
          }
          p := p + 1;
          j := j + 1;
        }
        TimesNext(x, scale);
        data := data / 2;
        x := x + 1;
      }
    }

    /** Six background lines of a cell, `scale` rows each. */
    method BackHalf(start: nat, stride: nat, scale: nat, bg: bv32) returns (p: nat)
      requires Valid() && CellFits(start, stride, scale, 6, n)
      modifies bytes
      ensures Screen() == OverlayRows(old(Screen()), start, stride, BackRows(scale, PixelBytes(bg, bpp), 6 * scale))
      ensures p == start + Times(6 * scale, stride)
    {
      hide PixelBytes, Overlay, CellFits, Times, OverlayRows, BackRows, Same, Pixels;
      NoRows(Screen(), start, stride, scale, PixelBytes(bg, bpp), 0);
      Multiples(scale, stride);
      p := start;
      ghost var px := PixelBytes(bg, bpp);
      ghost var was := Screen();
      CellNarrow(start, stride, scale, 6, n);
      var y := 0;
      while y < FONT_HEIGHT / 2
        invariant 0 <= y <= 6 && p == start + Times(Times(y, scale), stride)
        invariant Screen() == OverlayRows(was, start, stride, BackRows(scale, px, Times(y, scale)))
      {
        var i := 0;
        while i < scale
          invariant 0 <= i <= scale && p == start + Times(Times(y, scale) + i, stride)
          invariant Screen() == OverlayRows(was, start, stride, BackRows(scale, px, Times(y, scale) + i))
        {
          ghost var k := Times(y, scale) + i;
          RowFits(start, stride, scale, 6, n, y, i);
          BackRowsNext(was, start, stride, scale, px, k);
          p := BackRow(p, scale, bg);
          p := p + (stride - 5 * scale);
          i := i + 1;
        }
        TimesNext(y, scale);
        y := y + 1;
      }
    }

    /** Half a glyph, six lines of five bits, `scale` rows each. */
    method InkHalf(start: nat, stride: nat, scale: nat, word: nat, fg: bv32) returns (p: nat)
      requires Valid() && CellFits(start, stride, scale, 6, n)
      modifies bytes
      ensures Screen()
              == OverlayRows(old(Screen()), start, stride, HalfRows(word, scale, PixelBytes(fg, bpp), 6 * scale))
      ensures p == start + Times(6 * scale, stride)
    {
      hide PixelBytes, Overlay, CellFits, GlyphRow, NatShiftRight, Times, OverlayRows, HalfRows, HalfRow, Pixels;
      NoRows(Screen(), start, stride, scale, PixelBytes(fg, bpp), word);
      Multiples(scale, stride);
      p := start;
      ghost var px := PixelBytes(fg, bpp);
      ghost var was := Screen();
      CellNarrow(start, stride, scale, 6, n);
      ShiftNone(word);
      var data, y := word, 0;
      while y < FONT_HEIGHT / 2
        invariant 0 <= y <= 6 && p == start + Times(Times(y, scale), stride)
        invariant scale > 0 ==> data == NatShiftRight(word, 5 * y)
        invariant Screen() == OverlayRows(was, start, stride, HalfRows(word, scale, px, Times(y, scale)))
      {
        var temp, i := data, 0;
        while i < scale
          invariant 0 <= i <= scale && p == start + Times(Times(y, scale) + i, stride)
          invariant i > 0 ==> data == NatShiftRight(word, 5 * y + 5)
          invariant Screen() == OverlayRows(was, start, stride, HalfRows(word, scale, px, Times(y, scale) + i))
        {
          ghost var k := Times(y, scale) + i;
          RowFits(start, stride, scale, 6, n, y, i);
          HalfRowsNext(was, start, stride, word, scale, px, y, i);
          p, data := InkRow(p, scale, temp, fg);
          ShiftMore(word, 5 * y, 5);
          p := p + (stride - 5 * scale);
          i := i + 1;
        }
        TimesNext(y, scale);
        y := y + 1;
      }
    }

    /** FbConDrawglyph. */
    method DrawGlyph(start: nat, stride: nat, glyph: seq<nat>, scale: nat, fg: bv32, bg: bv32)
      requires Valid() && |glyph| == 2 && CellFits(start, stride, scale, 12, n)
      modifies bytes
      ensures Screen() == Drawn(old(Screen()), start, stride, scale, glyph, PixelBytes(fg, bpp), PixelBytes(bg, bpp))
    {
      hide PixelBytes, OverlayRows, CellFits, HalfRow;
      CellHalves(start, stride, scale, n);
      ghost var screen, f, b := Screen(), PixelBytes(fg, bpp), PixelBytes(bg, bpp);
      var bgPixels := BackHalf(start, stride, scale, bg);
      bgPixels := BackHalf(bgPixels, stride, scale, bg);
      OverlayRowsAppend(screen, start, stride, BackRows(scale, b, 6 * scale), BackRows(scale, b, 6 * scale));
      assert BackRows(scale, b, 6 * scale) + BackRows(scale, b, 6 * scale) == BackRows(scale, b, 12 * scale);
      ghost var back := Screen();
      var pixels := InkHalf(start, stride, scale, glyph[0], fg);
      pixels := InkHalf(pixels, stride, scale, glyph[1], fg);
      OverlayRowsAppend(back, start, stride, HalfRows(glyph[0], scale, f, 6 * scale),
                        HalfRows(glyph[1], scale, f, 6 * scale));
    }
  }

  /** A cell of `lines` glyph lines from pixel `start` on lies among the `n` pixels. */
  ghost predicate CellFits(start: nat, stride: nat, scale: nat, lines: nat, n: nat) {
    5 * scale <= stride && (lines * scale > 0 ==> start + (lines * scale - 1) * stride + 5 * scale <= n)
  }

  lemma CellNarrow(start: nat, stride: nat, scale: nat, lines: nat, n: nat)
    requires CellFits(start, stride, scale, lines, n)
    ensures 5 * scale <= stride
  {}

  lemma RowFits(start: nat, stride: nat, scale: nat, lines: nat, n: nat, y: nat, i: nat)
    requires CellFits(start, stride, scale, lines, n) && y < lines && i < scale
    ensures var k := Times(y, scale) + i;
            start + Times(k, stride) + 5 * scale <= n && Times(k + 1, stride) == Times(k, stride) + stride
  {
    MulGrows(y, lines, scale);
    var k, last := y * scale + i, lines * scale - 1;
    if k < last {
      MulGrows(k, last, stride);
    }
  }

  lemma Multiples(scale: nat, stride: nat)
    ensures Times(0, scale) == 0 && Times(5, scale) == 5 * scale && Times(6, scale) == 6 * scale
            && Times(0, stride) == 0
  {}

  lemma CellHalves(start: nat, stride: nat, scale: nat, n: nat)
    requires CellFits(start, stride, scale, 12, n)
    ensures CellFits(start, stride, scale, 6, n) && CellFits(start + Times(6 * scale, stride), stride, scale, 6, n)
  {
    if scale > 0 {
      MulGrows(6 * scale - 1, 12 * scale - 1, stride);
      var a, b := 6 * scale, 6 * scale - 1;
      assert a * stride + b * stride == (a + b) * stride;
    }
  }

  lemma ShiftNone(v: nat)
    ensures NatShiftRight(v, 0) == v
  {}

  lemma {:induction false} ShiftMore(v: nat, m: nat, n: nat)
    ensures NatShiftRight(NatShiftRight(v, m), n) == NatShiftRight(v, m + n)
    decreases m, v
  {
    if m > 0 {
      ShiftMore(v / 2, m - 1, n);
    }
  }

  lemma OverlayNothing(screen: seq<Pixel>, p: nat, row: seq<Ink>)
    requires row == []
    ensures Overlay(screen, p, row) == screen
  {}
}
