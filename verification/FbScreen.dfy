/** What the console shows, by row and column of the screen: every pixel after a character, wherever
    the cursor stands. */
module FbScreen {
  import opened Arithmetic
  import opened BitField
  import opened Crc32
  import opened FramePixels
  import opened FbConsole

  // ---------- Bytes of a pixel ----------

  /** A pixel holds the color's bytes, lowest first, and zeros behind the fourth. */
  lemma PixelByte(color: bv32, bpp: nat)
    ensures var px := PixelBytes(color, bpp);
            && (bpp > 0 ==> px[0] == (color & 0xFF) as bv8)
            && (bpp > 1 ==> px[1] == ((color >> 8) & 0xFF) as bv8)
            && (bpp > 2 ==> px[2] == ((color >> 16) & 0xFF) as bv8)
            && (bpp > 3 ==> px[3] == ((color >> 24) & 0xFF) as bv8)
            && forall k :: 4 <= k < bpp ==> px[k] == 0
  {
    var one := Rest(color);
    var two := Rest(one);
    var three := Rest(two);
    RestShifts(color);
    hide First, Rest;
    if bpp > 0 {
      BytesNext(color, bpp);
    }
    if bpp > 1 {
      BytesNext(one, bpp - 1);
    }
    if bpp > 2 {
      BytesNext(two, bpp - 2);
    }
    if bpp > 3 {
      BytesNext(three, bpp - 3);
      ZeroBytes(bpp - 4);
    }
  }

  lemma BytesNext(w: bv32, n: nat)
    requires n > 0
    ensures LittleEndian(w, n) == [First(w)] + LittleEndian(Rest(w), n - 1)
  {}

  lemma RestShifts(w: bv32)
    ensures First(w) == (w & 0xFF) as bv8 && First(Rest(w)) == ((w >> 8) & 0xFF) as bv8
    ensures First(Rest(Rest(w))) == ((w >> 16) & 0xFF) as bv8
    ensures First(Rest(Rest(Rest(w)))) == ((w >> 24) & 0xFF) as bv8 && Rest(Rest(Rest(Rest(w)))) == 0
  {}

  lemma {:induction false} ZeroBytes(n: nat)
    ensures forall k :: 0 <= k < n ==> LittleEndian(0, n)[k] == 0
    decreases n
  {
    if n > 0 {
      assert First(0) == 0 && Rest(0) == 0;
      ZeroBytes(n - 1);
    }
  }

  // ---------- Rows and columns ----------

  /** The pixel in a row and column of the screen. */
  function At(g: Geometry, screen: seq<Pixel>, row: nat, col: nat): Pixel
    requires |screen| == g.width * g.height && row < g.height && col < g.width
  {
    OnScreen(g, row, col);
    screen[row * g.width + col]
  }

  lemma OnScreen(g: Geometry, row: nat, col: nat)
    requires row < g.height && col < g.width
    ensures row * g.width + col < g.width * g.height
  {
    MulGrows(row, g.height, g.width);
  }

  lemma OnePlace(width: nat, row: int, col: int, r: int, c: int)
    requires 0 <= col < width && 0 <= c < width && row * width + col == r * width + c
    ensures row == r && col == c
  {
    Quotient(row * width + col, row, col, width);
    Quotient(row * width + col, r, c, width);
  }

  /** The 12 rows and 5 columns of the character at the cursor, times the scale; every character takes 6
      columns. */
  predicate InCell(g: Geometry, v: View, row: nat, col: nat) {
    && 12 * v.y <= row < 12 * v.y + 12 * g.scale
    && 6 * (v.x * g.scale) <= col < 6 * (v.x * g.scale) + 5 * g.scale
  }

  /** The 12 rows of the line at `y`, times the scale. */
  predicate InLine(g: Geometry, y: int, row: nat) { 12 * y <= row < 12 * y + 12 * g.scale }

  /** What the glyph of `c` has in row `r` and column `k` of its cell: each of its two words holds six lines
      of five bits, the leftmost lowest. */
  predicate Lit(font: seq<nat>, c: Char, scale: nat, r: nat, k: nat)
    requires FontOk(font) && 32 <= c <= 127 && scale > 0 && r < 12 * scale
  {
    UpperOrLower(r, scale);
    NatBit(font[2 * (c - 32) + if r < 6 * scale then 0 else 1], (r / scale) % 6 * 5 + k / scale) == 1
  }

  lemma UpperOrLower(r: nat, scale: nat)
    requires scale > 0
    ensures r < 6 * scale <==> r / scale < 6
  {
    DivMod(r, scale);
    if r / scale < 6 {
      TimesBelow(r / scale, 6, scale);
    } else if r / scale > 6 {
      TimesBelow(6, r / scale, scale);
    }
  }

  lemma LitGlyph(font: seq<nat>, c: Char, scale: nat, r: nat, k: nat)
    requires FontOk(font) && 32 <= c <= 127 && scale > 0 && r < 12 * scale
    ensures Lit(font, c, scale, r, k) == (GlyphBit(Glyph(font, c), scale, r, k) == 1)
  {
    UpperOrLower(r, scale);
    hide NatBit;
  }

  // ---------- One glyph, one line ----------

  lemma StartsAt(g: Geometry, v: View)
    ensures CellStart(g, v) == (12 * v.y) * g.width + 6 * (v.x * g.scale)
    ensures LineStart(g, v.y) == (12 * v.y) * g.width
  {}

  lemma RowBelow(width: nat, top: int, r: nat)
    ensures (top + r) * width == top * width + r * width
  {}

  lemma BesideCell(g: Geometry, v: View, row: nat, col: nat, p: nat, i: nat, r: nat, k: nat)
    requires CursorOk(g, v) && row < g.height && col < g.width && !InCell(g, v, row, col)
    requires p == Nat(CellStart(g, v)) && i == row * g.width + col && r < 12 * g.scale && k < 5 * g.scale
    ensures !Hits(p, g.width, i, r, k)
  {
    CellColumns(g, v);
    CellFrom(g, v);
    hide Nat, CellStart, Hits, CursorOk, MaxX, MaxY, Columns;
    Beside(g.width, row, col, 12 * v.y, 6 * (v.x * g.scale), g.scale, p, i, r, k);
  }

  lemma CellFrom(g: Geometry, v: View)
    requires CursorOk(g, v)
    ensures v.x >= 0 && v.y >= 0 && v.x * g.scale >= 0
    ensures Nat(CellStart(g, v)) == (12 * v.y) * g.width + 6 * (v.x * g.scale)
  {
    hide CellStart, MaxX, MaxY;
    StartsAt(g, v);
    Products(v.x, v.y, g.scale, g.width);
  }

  lemma Products(x: nat, y: nat, scale: nat, width: nat)
    ensures x * scale >= 0 && (12 * y) * width >= 0
  {}

  lemma Beside(width: nat, row: nat, col: nat, top: nat, left: nat, scale: nat, p: nat, i: nat, r: nat, k: nat)
    requires p == top * width + left && i == row * width + col
    requires col < width && left + 5 * scale <= width && r < 12 * scale && k < 5 * scale
    requires !(top <= row < top + 12 * scale && left <= col < left + 5 * scale)
    ensures !Hits(p, width, i, r, k)
  {
    if Hits(p, width, i, r, k) {
      RowBelow(width, top, r);
      OnePlace(width, row, col, top + r, left + k);
    }
  }

  lemma InsideCell(g: Geometry, v: View, row: nat, col: nat)
    requires CursorOk(g, v) && g.height > 0 && row < g.height && col < g.width && InCell(g, v, row, col)
    ensures var r, k := row - 12 * v.y, col - 6 * (v.x * g.scale);
            row * g.width + col == CellStart(g, v) + r * g.width + k
  {
    StartsAt(g, v);
    RowBelow(g.width, 12 * v.y, row - 12 * v.y);
  }

  lemma GlyphBeside(g: Geometry, s: Style, c: Char, v: View, row: nat, col: nat)
    requires CursorOk(g, v) && FontOk(s.font) && 32 <= c <= 127 && row < g.height && col < g.width
    requires !InCell(g, v, row, col) && 5 * g.scale <= g.width
    ensures At(g, WithGlyph(g, s, c, v), row, col) == At(g, v.screen, row, col)
  {
    OnScreen(g, row, col);
    var start, i := Nat(CellStart(g, v)), row * g.width + col;
    forall r: nat, k: nat | r < 12 * g.scale && k < 5 * g.scale
      ensures !Hits(start, g.width, i, r, k)
    {
      BesideCell(g, v, row, col, start, i, r, k);
    }
    hide Drawn, Hits, PixelBytes, CursorOk, CellStart, InCell;
    GlyphOutside(v.screen, start, g.width, g.scale, Glyph(s.font, c), PixelBytes(s.fg, g.bpp),
                 PixelBytes(s.bg, g.bpp), i);
  }

  lemma GlyphInside(g: Geometry, s: Style, c: Char, v: View, row: nat, col: nat, r: nat, k: nat)
    requires |v.screen| == g.width * g.height && FontOk(s.font) && 32 <= c <= 127 && row < g.height && col < g.width
    requires g.scale > 0 && r < 12 * g.scale && k < 5 * g.scale <= g.width
    requires row * g.width + col == CellStart(g, v) + r * g.width + k && CellStart(g, v) >= 0
    ensures At(g, WithGlyph(g, s, c, v), row, col)
         == if Lit(s.font, c, g.scale, r, k) then PixelBytes(s.fg, g.bpp) else PixelBytes(s.bg, g.bpp)
  {
    OnScreen(g, row, col);
    LitGlyph(s.font, c, g.scale, r, k);
    hide Drawn, GlyphBit, Lit, PixelBytes, Glyph, CellStart;
    GlyphPixel(v.screen, CellStart(g, v), g.width, g.scale, Glyph(s.font, c), PixelBytes(s.fg, g.bpp),
               PixelBytes(s.bg, g.bpp), row * g.width + col, r, k);
  }

  lemma GlyphShown(g: Geometry, s: Style, c: Char, v: View, row: nat, col: nat)
    requires CursorOk(g, v) && g.height > 0 && FontOk(s.font) && 32 <= c <= 127 && row < g.height && col < g.width
    ensures At(g, WithGlyph(g, s, c, v), row, col)
         == if !InCell(g, v, row, col) then At(g, v.screen, row, col)
            else if Lit(s.font, c, g.scale, row - 12 * v.y, col - 6 * (v.x * g.scale)) then PixelBytes(s.fg, g.bpp)
            else PixelBytes(s.bg, g.bpp)
  {
    hide WithGlyph, PixelBytes, CellStart, Lit, CellFits;
    CellInside(g, v);
    CellColumns(g, v);
    if InCell(g, v, row, col) {
      InsideCell(g, v, row, col);
      GlyphInside(g, s, c, v, row, col, row - 12 * v.y, col - 6 * (v.x * g.scale));
    } else {
      GlyphBeside(g, s, c, v, row, col);
    }
  }

  /** A pixel of zero bytes. */
  function Zeros(g: Geometry): Pixel { seq(g.bpp, _ => 0) }

  lemma ZeroPixel(g: Geometry)
    ensures PixelBytes(0, g.bpp) == Zeros(g)
  {
    ZeroBytes(g.bpp);
  }

  lemma ClearedAt(screen: seq<Pixel>, start: nat, count: nat, z: Pixel, i: nat)
    requires i < |screen|
    ensures Overlay(screen, start, Same(Put(z), count))[i] == if start <= i < start + count then z else screen[i]
  {}

  lemma RowsBetween(width: nat, row: nat, col: nat, top: nat, rows: nat)
    requires col < width
    ensures top * width <= row * width + col < top * width + rows * width <==> top <= row < top + rows
  {
    RowBelow(width, top, rows);
    RowOrder(width, row, col, top);
    RowOrder(width, row, col, top + rows);
  }

  lemma LineSizes(g: Geometry, y: nat)
    ensures Nat(LineStart(g, y)) == (12 * y) * g.width
    ensures FONT_HEIGHT * g.width * g.scale == (12 * g.scale) * g.width
  {}

  lemma LineShown(g: Geometry, screen: seq<Pixel>, y: nat, row: nat, col: nat)
    requires |screen| == g.width * g.height && row < g.height && col < g.width
    ensures At(g, WithLineCleared(g, screen, y), row, col)
         == if InLine(g, y, row) then Zeros(g) else At(g, screen, row, col)
  {
    ZeroPixel(g);
    OnScreen(g, row, col);
    LineSizes(g, y);
    hide Overlay, PixelBytes, LineStart, Same, Zeros, Nat;
    var start, count := (12 * y) * g.width, (12 * g.scale) * g.width;
    assert WithLineCleared(g, screen, y) == Overlay(screen, start, Same(Put(Zeros(g)), count));
    ClearedAt(screen, start, count, Zeros(g), row * g.width + col);
    RowsBetween(g.width, row, col, 12 * y, 12 * g.scale);
  }

  lemma RowOrder(width: nat, row: nat, col: nat, top: nat)
    requires col < width
    ensures row * width + col < top * width <==> row < top
  {
    if row < top {
      MulGrows(row, top, width);
    } else if top < row {
      MulGrows(top, row, width);
    }
  }
  // ---------- Characters ----------

  predicate Visible(v: View, c: Char, title: bool) { 32 <= c <= 127 && (c != 32 || title || v.x > 0) }

  /** The cursor is in the last column. */
  predicate AtEnd(g: Geometry, v: View)
    requires g.scale > 0
  {
    v.x + 1 >= g.width / 6 / g.scale
  }

  /** No line fits below the one at the cursor. */
  predicate AtBottom(g: Geometry, v: View) { v.y + 2 * g.scale >= (g.height - 1) / 12 }

  /** What is in the cell of a visible character. */
  function Shown(g: Geometry, s: Style, c: Char, v: View, row: nat, col: nat): Pixel
    requires g.scale > 0 && FontOk(s.font) && 32 <= c <= 127 && InCell(g, v, row, col)
  {
    PixelBytes(if Lit(s.font, c, g.scale, row - 12 * v.y, col - 6 * (v.x * g.scale)) then s.fg else s.bg, g.bpp)
  }

  /** One pass, completely. A newline, and a visible character in the last column, go to the start of the
      next line and leave it zeroed, or jump back with the cursor at the top if no line fits below; a
      carriage return goes to the line's start; a visible character is shown in its cell before
      anything else; no other pixel changes, and no other character does anything. */
  lemma PassShown(g: Geometry, s: Style, c: Char, title: bool, v: View, row: nat, col: nat)
    requires CursorOk(g, v) && g.height > 0 && FontOk(s.font) && row < g.height && col < g.width
    ensures var p := Paint(g, s, c, title, v);
            var visible := Visible(v, c, title);
            var feeds := c == 10 || (visible && AtEnd(g, v));
            && p.again == (feeds && AtBottom(g, v))
            && p.view.x == (if feeds || c == 13 then 0 else if visible then v.x + 1 else v.x)
            && p.view.y == (if p.again then 0 else if feeds then v.y + g.scale else v.y)
            && |p.view.screen| == |v.screen|
            && At(g, p.view.screen, row, col)
               == if visible && InCell(g, v, row, col) then Shown(g, s, c, v, row, col)
                  else if feeds && !p.again && InLine(g, v.y + g.scale, row) then Zeros(g)
                  else At(g, v.screen, row, col)
  {
    var w := if Visible(v, c, title) then View(WithGlyph(g, s, c, v), v.x + 1, v.y) else v;
    if Visible(v, c, title) {
      GlyphShown(g, s, c, v, row, col);
    }
    LineShown(g, w.screen, v.y + g.scale, row, col);
    hide WithGlyph, WithLineCleared, PixelBytes, Lit, At, Zeros;
  }

  /** A newline goes to the start of the next line, or of the second from the top if no line fits below,
      and zeroes the pixel rows of the line it goes to; no other pixel changes. */
  lemma NewlineShown(g: Geometry, s: Style, title: bool, v: View, row: nat, col: nat)
    requires Roomy(g) && CursorOk(g, v) && FontOk(s.font) && row < g.height && col < g.width
    ensures var w := PutChar(g, s, 10, title, v);
            && w.x == 0 && w.y == (if v.y + 2 * g.scale >= (g.height - 1) / 12 then g.scale else v.y + g.scale)
            && |w.screen| == |v.screen|
            && At(g, w.screen, row, col)
               == if 12 * w.y <= row < 12 * w.y + 12 * g.scale then seq(g.bpp, _ => 0) else At(g, v.screen, row, col)
  {
    PassShown(g, s, 10, title, v, row, col);
    PaintKeepsCursor(g, s, 10, title, v);
    PassShown(g, s, 10, title, Paint(g, s, 10, title, v).view, row, col);
    hide Paint, At, Lit, PixelBytes;
  }

  /** A carriage return goes to the start of the line; any other control character, and any beyond 127,
      does nothing, and so does a space at the start of a line that is no title. */
  lemma ReturnShown(g: Geometry, s: Style, c: Char, title: bool, v: View)
    requires g.scale > 0 && FontOk(s.font) && v.x >= 0 && c != 10 && !Visible(v, c, title)
    ensures PutChar(g, s, c, title, v) == if c == 13 then v.(x := 0) else v
  {}

  /** A visible character is shown in the cell at the cursor, and the cursor moves one column on; from
      the last column to the start of the next line, which is zeroed. No other pixel changes. */
  lemma CharShown(g: Geometry, s: Style, c: Char, title: bool, v: View, row: nat, col: nat)
    requires CursorOk(g, v) && g.height > 0 && FontOk(s.font) && row < g.height && col < g.width
    requires Visible(v, c, title) && !(AtEnd(g, v) && AtBottom(g, v))
    ensures var w := PutChar(g, s, c, title, v);
            && w.x == (if AtEnd(g, v) then 0 else v.x + 1) && w.y == (if AtEnd(g, v) then v.y + g.scale else v.y)
            && |w.screen| == |v.screen|
            && At(g, w.screen, row, col)
               == if InCell(g, v, row, col) then Shown(g, s, c, v, row, col)
                  else if AtEnd(g, v) && InLine(g, w.y, row) then Zeros(g)
                  else At(g, v.screen, row, col)
  {
    PassShown(g, s, c, title, v, row, col);
    hide Paint, At, Lit, PixelBytes, Zeros;
  }

  /** At the end of the last line that fits, a visible character is shown twice: there, and again at the
      top left by the jump back. */
  lemma CharShownTwice(g: Geometry, s: Style, c: Char, title: bool, v: View, row: nat, col: nat)
    requires Roomy(g) && CursorOk(g, v) && FontOk(s.font) && row < g.height && col < g.width
    requires 32 <= c <= 127 && (c != 32 || title) && AtEnd(g, v) && AtBottom(g, v) && g.width / 6 / g.scale > 1
    ensures var w, top := PutChar(g, s, c, title, v), View(v.screen, 0, 0);
            && w.x == 1 && w.y == 0 && |w.screen| == |v.screen|
            && At(g, w.screen, row, col)
               == if InCell(g, top, row, col) then Shown(g, s, c, top, row, col)
                  else if InCell(g, v, row, col) then Shown(g, s, c, v, row, col)
                  else At(g, v.screen, row, col)
  {
    PassShown(g, s, c, title, v, row, col);
    PaintKeepsCursor(g, s, c, title, v);
    PassShown(g, s, c, title, Paint(g, s, c, title, v).view, row, col);
    hide Paint, At, Lit, PixelBytes, Zeros;
  }

  /** Text is written a character at a time, from left to right: in two parts as in one. */
  lemma {:induction false} TextInParts(g: Geometry, s: Style, t: seq<Char>, u: seq<Char>, v: View)
    requires g.scale > 0 && FontOk(s.font)
    ensures PutAll(g, s, t + u, v) == PutAll(g, s, u, PutAll(g, s, t, v))
    ensures forall c: Char :: PutAll(g, s, [c], v) == PutChar(g, s, c, false, v)
    decreases |t|
  {
    hide PutChar;
    if t == [] {
      assert t + u == u;
    } else {
      assert (t + u)[1..] == t[1..] + u;
      TextInParts(g, s, t[1..], u, PutChar(g, s, t[0], false, v));
    }
    forall c: Char
      ensures PutAll(g, s, [c], v) == PutChar(g, s, c, false, v)
    {
      assert [c][1..] == [];
    }
  }
}
