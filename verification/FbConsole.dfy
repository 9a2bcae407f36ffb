/** The text console of FrameBufferSerialPortLib.c: a cursor, and FbConPutCharWithFactor, which
    starts over by a jump when it runs off the bottom. The framebuffer is bounded by nothing but
    the cursor. */
module FbConsole {
  import opened Arithmetic
  import opened FramePixels

  const WHITE: bv32 := 0xffffffff
  const BLACK: bv32 := 0xff000000
  const YELLOW: bv32 := 0xffffff00

  type Char = c: nat | c < 256

  const NEWLINE: Char := 10
  const RETURN: Char := 13
  const SPACE: Char := 32

  datatype Geometry = Geometry(width: nat, height: nat, bpp: nat, scale: nat)

  function MaxX(g: Geometry): int { g.width / (FONT_WIDTH + 1) }

  /** On 64-bit words: without any height the difference wraps. */
  function MaxY(g: Geometry): int {
    if g.height == 0 then 0xFFFF_FFFF_FFFF_FFFF / FONT_HEIGHT else (g.height - 1) / FONT_HEIGHT
  }

  /** Characters on a line. */
  function Columns(g: Geometry): int
    requires g.scale > 0
  {
    MaxX(g) / g.scale
  }

  /** A screen of at least one column and more than two lines. */
  predicate Roomy(g: Geometry) {
    g.scale > 0 && g.height > 0 && Columns(g) >= 1 && MaxY(g) > 2 * g.scale
  }

  datatype View = View(screen: seq<Pixel>, x: int, y: int)

  predicate CursorOk(g: Geometry, v: View) {
    && g.scale > 0
    && |v.screen| == g.width * g.height
    && 0 <= v.x < Columns(g)
    && 0 <= v.y < MaxY(g) - g.scale
  }

  // ---------- What a character does ----------

  /** Everything but the cursor that painting depends on. */
  datatype Style = Style(font: seq<nat>, fg: bv32, bg: bv32)

  predicate FontOk(font: seq<nat>) { |font| == 192 }

  function LineStart(g: Geometry, y: int): int { y * (FONT_HEIGHT * g.width) }

  function CellStart(g: Geometry, v: View): int { LineStart(g, v.y) + v.x * g.scale * (FONT_WIDTH + 1) }

  function Glyph(font: seq<nat>, c: Char): (r: seq<nat>)
    requires FontOk(font) && 32 <= c <= 127
    ensures |r| == 2
  {
    font[(c - 32) * 2..(c - 32) * 2 + 2]
  }

  function Nat(i: int): nat { if i < 0 then 0 else i }

  function WithGlyph(g: Geometry, s: Style, c: Char, v: View): (r: seq<Pixel>)
    requires FontOk(s.font) && 32 <= c <= 127
    ensures |r| == |v.screen|
  {
    Drawn(v.screen, Nat(CellStart(g, v)), g.width, g.scale, Glyph(s.font, c), PixelBytes(s.fg, g.bpp),
          PixelBytes(s.bg, g.bpp))
  }

  function WithLineCleared(g: Geometry, screen: seq<Pixel>, y: int): (r: seq<Pixel>)
    ensures |r| == |screen|
  {
    Overlay(screen, Nat(LineStart(g, y)), Same(Put(PixelBytes(0, g.bpp)), FONT_HEIGHT * g.width * g.scale))
  }

  /** One pass from the label `paint`; `again` is the jump back to it. */
  datatype Pass = Pass(view: View, again: bool)

  function LineFeed(g: Geometry, v: View): Pass {
    var y := v.y + g.scale;
    if y >= MaxY(g) - g.scale then Pass(View(v.screen, 0, 0), true)
    else Pass(View(WithLineCleared(g, v.screen, y), 0, y), false)
  }

  function Paint(g: Geometry, s: Style, c: Char, title: bool, v: View): Pass
    requires g.scale > 0 && FontOk(s.font)
  {
    if c == NEWLINE then LineFeed(g, v)
    else if c == RETURN then Pass(v.(x := 0), false)
    else if c < 32 || c > 127 then Pass(v, false)
    else if v.x == 0 && c == SPACE && !title then Pass(v, false)
    else
      var w := View(WithGlyph(g, s, c, v), v.x + 1, v.y);
      if w.x >= Columns(g) then LineFeed(g, w) else Pass(w, false)
  }

  /** The whole of FbConPutCharWithFactor on a screen with room: at most one jump back. */
  function PutChar(g: Geometry, s: Style, c: Char, title: bool, v: View): View
    requires g.scale > 0 && FontOk(s.font)
  {
    var first := Paint(g, s, c, title, v);
    if first.again then Paint(g, s, c, title, first.view).view else first.view
  }

  function PutAll(g: Geometry, s: Style, text: seq<Char>, v: View): View
    requires g.scale > 0 && FontOk(s.font)
    decreases |text|
  {
    if text == [] then v else PutAll(g, s, text[1..], PutChar(g, s, text[0], false, v))
  }

  /** Between passes and between characters the cursor stays in its bounds, and a second jump back
      never follows the first. */
  lemma PaintKeepsCursor(g: Geometry, s: Style, c: Char, title: bool, v: View)
    requires Roomy(g) && FontOk(s.font) && CursorOk(g, v)
    ensures var first := Paint(g, s, c, title, v);
            && CursorOk(g, first.view)
            && (first.again ==> !Paint(g, s, c, title, first.view).again)
            && CursorOk(g, PutChar(g, s, c, title, v))
  {
    hide WithGlyph, WithLineCleared;
  }

  lemma {:induction false} StreamKeepsCursor(g: Geometry, s: Style, text: seq<Char>, v: View)
    requires Roomy(g) && FontOk(s.font) && CursorOk(g, v)
    ensures CursorOk(g, PutAll(g, s, text, v))
    decreases |text|
  {
    if text != [] {
      PaintKeepsCursor(g, s, text[0], false, v);
      StreamKeepsCursor(g, s, text[1..], PutChar(g, s, text[0], false, v));
    }
  }

  // ---------- Characters that never end ----------

  /** `n` passes in a row end in the jump back. */
  ghost predicate GoesOn(g: Geometry, s: Style, c: Char, title: bool, v: View, n: nat)
    requires g.scale > 0 && FontOk(s.font)
    decreases n
  {
    n == 0 || (Paint(g, s, c, title, v).again && GoesOn(g, s, c, title, Paint(g, s, c, title, v).view, n - 1))
  }

  /** The characters a screen without room loops on. */
  predicate Endless(g: Geometry, c: Char, title: bool)
    requires g.scale > 0
  {
    MaxY(g) <= 2 * g.scale && (c == NEWLINE || (32 <= c <= 127 && Columns(g) <= 1 && (c != SPACE || title)))
  }

  lemma {:induction false} EndlessPasses(g: Geometry, s: Style, c: Char, title: bool, v: View, n: nat)
    requires g.scale > 0 && FontOk(s.font) && v.x >= 0 && v.y >= 0 && Endless(g, c, title)
    ensures GoesOn(g, s, c, title, v, n)
    decreases n
  {
    hide WithGlyph, WithLineCleared;
    if n > 0 {
      EndlessPasses(g, s, c, title, Paint(g, s, c, title, v).view, n - 1);
    }
  }

  /** Painting a character jumps back for ever exactly on screens of at most two lines, and there
      for a newline, or for a visible character when a line holds no more than one. */
  lemma PaintForever(g: Geometry, s: Style, c: Char, title: bool, v: View)
    requires g.scale > 0 && FontOk(s.font) && v.x >= 0 && v.y >= 0
    ensures (forall n: nat :: GoesOn(g, s, c, title, v, n)) <==> Endless(g, c, title)
  {
    if Endless(g, c, title) {
      forall n: nat
        ensures GoesOn(g, s, c, title, v, n)
      {
        EndlessPasses(g, s, c, title, v, n);
      }
    } else {
      hide WithGlyph, WithLineCleared;
      var first := Paint(g, s, c, title, v);
      if first.again {
        assert !Paint(g, s, c, title, first.view).again;
        assert !GoesOn(g, s, c, title, first.view, 1);
      }
      assert !GoesOn(g, s, c, title, v, 2);
    }
  }

  /** At scale 1, the tallest screen that hangs on a newline and the lowest that does not. */
  lemma TwoLines(s: Style, v: View)
    requires FontOk(s.font) && v.x >= 0 && v.y >= 0
    ensures forall n: nat :: GoesOn(Geometry(6, 36, 4, 1), s, NEWLINE, false, v, n)
    ensures !GoesOn(Geometry(6, 37, 4, 1), s, NEWLINE, false, v, 2)
  {
    hide WithLineCleared;
    PaintForever(Geometry(6, 36, 4, 1), s, NEWLINE, false, v);
    assert !Paint(Geometry(6, 37, 4, 1), s, NEWLINE, false, View(v.screen, 0, 0)).again;
    assert !GoesOn(Geometry(6, 37, 4, 1), s, NEWLINE, false, View(v.screen, 0, 0), 1);
  }

  // ---------- Nothing outside the framebuffer ----------

  lemma LineInside(g: Geometry, y: int)
    requires g.scale > 0 && g.height > 0 && 0 <= y < MaxY(g) - g.scale
    ensures LineStart(g, y) >= 0 && LineStart(g, y) + FONT_HEIGHT * g.width * g.scale <= g.width * g.height
  {
    var rows := 12 * (y + g.scale);
    assert rows <= g.height;
    assert LineStart(g, y) + 12 * g.width * g.scale == rows * g.width;
    if rows < g.height {
      MulGrows(rows, g.height, g.width);
    }
  }

  lemma CellColumns(g: Geometry, v: View)
    requires CursorOk(g, v)
    ensures 6 * (v.x * g.scale) + 6 * g.scale <= g.width
  {
    var columns := (v.x + 1) * g.scale;
    assert columns <= MaxX(g) by {
      assert MaxX(g) == Columns(g) * g.scale + MaxX(g) % g.scale;
      if v.x + 1 < Columns(g) {
        MulGrows(v.x + 1, Columns(g), g.scale);
      }
    }
    assert columns == v.x * g.scale + g.scale;
  }

  lemma CellInside(g: Geometry, v: View)
    requires CursorOk(g, v) && g.height > 0
    ensures CellStart(g, v) >= 0 && CellFits(CellStart(g, v), g.width, g.scale, 12, g.width * g.height)
  {
    LineInside(g, v.y);
    CellColumns(g, v);
    var last := 12 * g.scale - 1;
    assert last * g.width + g.width == 12 * g.width * g.scale;
  }

  // ---------- The console ----------

  class Console {
    const g: Geometry
    const font: seq<nat>
    const fb: FrameBuffer
    var x: int
    var y: int
    var maxX: int
    var maxY: int
    var foreground: bv32
    var background: bv32
    var initialized: bool

    /** Everything but the cursor. */
    ghost predicate Set()
      reads this
    {
      && fb.Valid() && fb.bpp == g.bpp && fb.n == g.width * g.height
      && Roomy(g) && FontOk(font)
      && (initialized ==> maxX == MaxX(g) && maxY == MaxY(g))
    }

    ghost predicate Valid()
      reads this
    {
      Set() && (initialized ==> 0 <= x < Columns(g) && 0 <= y < MaxY(g) - g.scale)
    }

    ghost function Now(): View
      reads this, fb.bytes
    {
      View(fb.Screen(), x, y)
    }

    ghost function Colors(): Style
      reads this
    {
      Style(font, foreground, background)
    }

    constructor (g: Geometry, font: seq<nat>, fb: FrameBuffer)
      requires fb.Valid() && fb.bpp == g.bpp && fb.n == g.width * g.height && Roomy(g) && FontOk(font)
      ensures Valid() && !initialized && this.g == g && this.fb == fb && this.font == font
    {
      this.g, this.font, this.fb := g, font, fb;
      x, y, maxX, maxY, foreground, background, initialized := 0, 0, 0, 0, 0, 0, false;
    }

    /** SerialPortInitialize and FbConReset. */
    method SerialPortInitialize()
      requires Valid()
      modifies this
      ensures Valid() && initialized
      ensures old(initialized) ==> unchanged(this)
      ensures !old(initialized) ==> x == y == 0 && foreground == 0xffffffff && background == 0xff000000
    {
      if initialized {
        return;
      }
      x, y := 0, 0;
      maxX := g.width / (FONT_WIDTH + 1);
      maxY := (g.height - 1) / FONT_HEIGHT;
      foreground, background := WHITE, BLACK;
      initialized := true;
    }

    /** ZeroMem over whole pixels. */
    method ZeroPixels(start: nat, count: nat)
      requires Set() && start + count <= fb.n
      modifies fb.bytes
      ensures fb.Screen() == Overlay(old(fb.Screen()), start, Same(Put(PixelBytes(0, g.bpp)), count))
    {
      hide PixelBytes, Overlay;
      ghost var was, ink := fb.Screen(), Put(PixelBytes(0, g.bpp));
      OverlayNothing(was, start, Same(ink, 0));
      for i := 0 to count
        invariant fb.Screen() == Overlay(was, start, Same(ink, i))
      {
        OverlayNext(was, start, Same(ink, i), ink);
        assert Same(ink, i) + [ink] == Same(ink, i + 1);
        fb.PutPixel(start + i, 0);
      }
    }

    /** The label `newline`. */
    method NewLine() returns (again: bool)
      requires Set() && initialized && 0 <= y
      modifies this`x, this`y, fb.bytes
      ensures Pass(Now(), again) == LineFeed(g, old(Now()))
    {
      hide Overlay, PixelBytes;
      y := y + g.scale;
      x := 0;
      if y >= maxY - g.scale {
        y := 0;
        again := true;
      } else {
        LineInside(g, y);
        var pixels := y * (FONT_HEIGHT * g.width);
        ZeroPixels(pixels, FONT_HEIGHT * g.width * g.scale);
        again := false;
      }
    }

    /** From the label `paint` to the end or to the jump back. */
    method PaintPass(c: Char, title: bool) returns (again: bool)
      requires Valid() && initialized
      modifies this`x, this`y, fb.bytes
      ensures Pass(Now(), again) == Paint(g, Colors(), c, title, old(Now()))
    {
      hide Drawn, CellFits, LineFeed, PixelBytes;
      if c > 127 {
        return false;
      }
      if c < 32 {
        if c == NEWLINE {
          again := NewLine();
          return;
        }
        if c == RETURN {
          x := 0;
        }
        return false;
      }
      if x == 0 && c == SPACE && !title {
        return false;
      }
      CellInside(g, Now());
      var pixels := y * (FONT_HEIGHT * g.width) + x * g.scale * (FONT_WIDTH + 1);
      fb.DrawGlyph(pixels, g.width, font[(c - 32) * 2..(c - 32) * 2 + 2], g.scale, foreground, background);
      x := x + 1;
      if x >= maxX / g.scale {
        again := NewLine();
      } else {
        again := false;
      }
    }

    /** FbConPutCharWithFactor: it ends, after at most two passes, with the cursor in bounds. */
    method FbConPutCharWithFactor(c: Char, title: bool) returns (passes: nat)
      requires Valid()
      modifies this`x, this`y, fb.bytes
      ensures Valid() && passes <= 2
      ensures Now() == if initialized then PutChar(g, Colors(), c, title, old(Now())) else old(Now())
    {
      passes := 0;
      if !initialized {
        return;
      }
      hide Paint;
      PaintKeepsCursor(g, Colors(), c, title, Now());
      ghost var first := Paint(g, Colors(), c, title, Now());
      var again := true;
      while again
        invariant Valid() && initialized && passes <= 2 && (passes == 0 ==> again) && (passes == 2 ==> !again)
        invariant Now() == if passes == 0 then old(Now()) else if passes == 1 then first.view
                  else PutChar(g, Colors(), c, title, old(Now()))
        invariant passes == 1 ==> again == first.again
        invariant passes == 2 ==> first.again
        decreases 2 - passes
      {
        again := PaintPass(c, title);
        passes := passes + 1;
      }
    }

    /** SerialPortWrite. */
    method SerialPortWrite(buffer: seq<Char>)
      requires Valid()
      modifies this`x, this`y, fb.bytes
      ensures Valid()
      ensures Now() == if initialized then PutAll(g, Colors(), buffer, old(Now())) else old(Now())
    {
      hide PutChar, CursorOk;
      var i := 0;
      while i < |buffer|
        invariant 0 <= i <= |buffer| && Valid()
        invariant initialized ==> PutAll(g, Colors(), buffer[i..], Now()) == PutAll(g, Colors(), buffer, old(Now()))
        invariant !initialized ==> Now() == old(Now())
      {
        assert buffer[i..][1..] == buffer[i + 1..];
        var passes := FbConPutCharWithFactor(buffer[i], false);
        i := i + 1;
      }
    }

    /** SerialPortWriteCritical: the same text in yellow, and the color put back. */
    method SerialPortWriteCritical(buffer: seq<Char>)
      requires Valid()
      modifies this`x, this`y, this`foreground, fb.bytes
      ensures Valid() && Colors() == old(Colors())
      ensures Now() == if initialized then PutAll(g, Style(font, 0xffffff00, background), buffer, old(Now()))
              else old(Now())
    {
      hide PutAll, Roomy;
      var currentForeground := foreground;
      foreground := YELLOW;
      SerialPortWrite(buffer);
      foreground := currentForeground;
    }
  }
}
