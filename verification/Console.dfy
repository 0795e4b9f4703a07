/**
 * The frame buffer console: a cursor that wraps with gotos
 * (Silicon/Samsung/ExynosPkg/Library/FrameBufferSerialPortLib/FrameBufferSerialPortLib.c,
 * lines 80-163 and 296-311).  Cache flushes and interrupt masking have no effect here.
 */
module Console {
  import opened Division
  import opened Glyph

  /** The panel and the magnification; the width and height are in pixels. */
  datatype Panel = Panel(width: nat, height: nat, bpp: nat, scale: nat)

  predicate Usable(p: Panel) {
    p.scale > 0 && p.height > 0
  }

  /** m_MaxPosition, in characters. */
  function MaxX(p: Panel): nat {
    p.width / (FONT_WIDTH + 1)
  }

  function MaxY(p: Panel): nat
    requires Usable(p)
  {
    (p.height - 1) / FONT_HEIGHT
  }

  /** A cell fits the panel. */
  predicate PanelOk(p: Panel): (r: bool)
    ensures r ==> Usable(p)
  {
    p.bpp > 0 && p.scale > 0 && CellCols(p.scale) <= p.width && CellRows(p.scale) <= p.height
  }

  /** Characters in a line at this magnification. */
  function PerLine(p: Panel): nat
    requires Usable(p)
  {
    MaxX(p) / p.scale
  }

  datatype Cursor = Cursor(x: nat, y: nat)

  const HOME := Cursor(0, 0)

  // ---- the cursor machine ----

  type Char = c: int | 0 <= c < 0x100

  const NEWLINE: Char := 0x0A
  const RETURN: Char := 0x0D
  const SPACE: Char := 0x20

  /** What happens to a character: the message type decides whether a leading space is kept. */
  datatype Fate = Ignored | Returns | Breaks | Painted

  function FateOf(c: Char, title: bool, x: nat): Fate {
    if c > 127 then Ignored
    else if c == NEWLINE then Breaks
    else if c == RETURN then Returns
    else if c < 32 || (x == 0 && c == SPACE && !title) then Ignored
    else Painted
  }

  /** The line break: the cursor, and whether the screen has been wrapped. */
  function Broken(p: Panel, at: Cursor): (Cursor, bool)
    requires Usable(p)
  {
    if at.y + p.scale >= MaxY(p) - p.scale then (HOME, true) else (Cursor(0, at.y + p.scale), false)
  }

  /** One pass from the label paint: the cursor, and whether control jumps back to paint. */
  function Pass(p: Panel, at: Cursor, c: Char, title: bool): (Cursor, bool)
    requires Usable(p)
  {
    match FateOf(c, title, at.x)
    case Ignored => (at, false)
    case Returns => (at.(x := 0), false)
    case Breaks => Broken(p, at)
    case Painted => if at.x + 1 >= PerLine(p) then Broken(p, at) else (at.(x := at.x + 1), false)
  }

  /** n passes, as long as control jumps back. */
  function Passes(p: Panel, at: Cursor, c: Char, title: bool, n: nat): (Cursor, bool)
    requires Usable(p)
  {
    if n == 0 then (at, true)
    else
      var (next, again) := Passes(p, at, c, title, n - 1);
      if again then Pass(p, next, c, title) else (next, false)
  }

  /** The character is done with after finitely many passes. */
  ghost predicate Finishes(p: Panel, at: Cursor, c: Char, title: bool)
    requires Usable(p)
  {
    exists n: nat :: !Passes(p, at, c, title, n).1
  }

  /** More than two magnified rows: the screen can be wrapped without wrapping again at once. */
  predicate Tall(p: Panel)
    requires Usable(p)
  {
    2 * p.scale < MaxY(p)
  }

  lemma BrokenAgain(p: Panel, at: Cursor)
    requires Usable(p)
    ensures Broken(p, at).1 ==> Broken(p, at).0 == HOME
    ensures Broken(p, HOME).1 <==> !Tall(p)
    ensures Tall(p) ==> Broken(p, HOME).0 == Cursor(0, p.scale)
    ensures !Tall(p) ==> Broken(p, at).1
  {
  }

  /** On a panel that is not tall the home position is a fixed point of a line break. */
  lemma {:induction false} NeverFinishes(p: Panel, at: Cursor, c: Char, title: bool, n: nat)
    requires Usable(p) && !Tall(p)
    requires FateOf(c, title, at.x) == Breaks
      || (FateOf(c, title, at.x) == Painted && at.x + 1 >= PerLine(p) && FateOf(c, title, 0) == Painted && PerLine(p) <= 1)
    ensures Passes(p, at, c, title, n).1 && (n > 0 ==> Passes(p, at, c, title, n).0 == HOME)
  {
    hide MaxY;
    if n > 0 {
      NeverFinishes(p, at, c, title, n - 1);
      BrokenAgain(p, Passes(p, at, c, title, n - 1).0);
    }
  }

  /**
   * A line break is done with exactly on a tall panel.  There any character is done with
   * after two passes.
   */
  lemma NewlineFinishes(p: Panel, at: Cursor, title: bool)
    requires Usable(p)
    ensures Finishes(p, at, NEWLINE, title) <==> Tall(p)
  {
    if Tall(p) {
      TwoPasses(p, at, NEWLINE, title);
    } else {
      forall n: nat
        ensures Passes(p, at, NEWLINE, title, n).1
      {
        NeverFinishes(p, at, NEWLINE, title, n);
      }
    }
  }

  lemma TwoPasses(p: Panel, at: Cursor, c: Char, title: bool)
    requires Usable(p) && Tall(p)
    ensures !Passes(p, at, c, title, 2).1
    ensures Pass(p, at, c, title).1 ==> Pass(p, at, c, title).0 == HOME && !Pass(p, HOME, c, title).1
  {
    hide MaxY;
    BrokenAgain(p, at);
    assert Passes(p, at, c, title, 0) == (at, true);
    assert Passes(p, at, c, title, 1) == Pass(p, at, c, title);
  }

  /** Where any other character is concerned, a panel that is not tall but holds two characters in a line will do. */
  lemma PaintingFinishes(p: Panel, at: Cursor, c: Char, title: bool)
    requires Usable(p) && FateOf(c, title, at.x) != Breaks
    ensures Finishes(p, at, c, title) <==>
      Tall(p) || PerLine(p) > 1 || FateOf(c, title, at.x) != Painted || FateOf(c, title, 0) != Painted
  {
    hide MaxY;
    if Tall(p) {
      TwoPasses(p, at, c, title);
    } else if PerLine(p) > 1 || FateOf(c, title, at.x) != Painted || FateOf(c, title, 0) != Painted {
      BrokenAgain(p, at);
      assert Passes(p, at, c, title, 0) == (at, true);
      assert Passes(p, at, c, title, 1) == Pass(p, at, c, title);
      assert !Passes(p, at, c, title, 2).1;
    } else {
      forall n: nat
        ensures Passes(p, at, c, title, n).1
      {
        NeverFinishes(p, at, c, title, n);
      }
    }
  }

  /** The cursor after a character, on a tall panel. */
  function Put(p: Panel, at: Cursor, c: Char, title: bool): Cursor
    requires Usable(p)
  {
    var (next, again) := Pass(p, at, c, title);
    if again then Pass(p, next, c, title).0 else next
  }

  /** The cursors that a run can reach. */
  predicate CursorOk(p: Panel, at: Cursor)
    requires Usable(p)
  {
    (at.x == 0 || at.x < PerLine(p)) && (at.y == 0 || at.y < MaxY(p) - p.scale)
  }

  lemma PutStaysInside(p: Panel, at: Cursor, c: Char, title: bool)
    requires Usable(p) && CursorOk(p, at)
    ensures CursorOk(p, Pass(p, at, c, title).0) && CursorOk(p, Put(p, at, c, title))
  {
    hide MaxY, PerLine;
  }

  function PutAll(p: Panel, at: Cursor, text: seq<Char>, title: bool): Cursor
    requires Usable(p)
  {
    if text == [] then at else Put(p, PutAll(p, at, text[..|text| - 1], title), text[|text| - 1], title)
  }

  lemma {:induction false} TextStaysInside(p: Panel, text: seq<Char>, title: bool)
    requires Usable(p)
    ensures CursorOk(p, PutAll(p, HOME, text, title))
  {
    hide CursorOk, Put;
    if text == [] {
      HomeOk(p);
    } else {
      TextStaysInside(p, text[..|text| - 1], title);
      PutStaysInside(p, PutAll(p, HOME, text[..|text| - 1], title), text[|text| - 1], title);
    }
  }

  lemma HomeOk(p: Panel)
    requires Usable(p)
    ensures CursorOk(p, HOME)
  {
  }

  // ---- cells inside the frame buffer ----

  /** Where the character at the cursor is drawn. */
  function AreaAt(p: Panel, at: Cursor): Area
    requires Usable(p)
  {
    Area(at.y * (p.bpp * FONT_HEIGHT * p.width) + at.x * p.scale * (p.bpp * (FONT_WIDTH + 1)), p.width, p.bpp)
  }

  function CellAt(p: Panel, at: Cursor, glyph0: Word, glyph1: Word, foreground: Word, background: Word): Cell
    requires Usable(p)
  {
    Cell(AreaAt(p, at), p.scale, glyph0, glyph1, foreground, background)
  }

  /** The first line and column of the cell. */
  function LineOf(at: Cursor): nat {
    FONT_HEIGHT * at.y
  }

  function ColumnOf(p: Panel, at: Cursor): nat {
    at.x * p.scale * (FONT_WIDTH + 1)
  }

  lemma AreaIs(p: Panel, at: Cursor, q: nat)
    requires Usable(p)
    ensures At(AreaAt(p, at), q) == (LineOf(at) * p.width + ColumnOf(p, at) + q) * p.bpp
  {
    var y, x := at.y, at.x * p.scale;
    assert y * (p.bpp * FONT_HEIGHT * p.width) == (FONT_HEIGHT * y * p.width) * p.bpp;
    assert x * (p.bpp * (FONT_WIDTH + 1)) == (x * (FONT_WIDTH + 1)) * p.bpp;
  }

  /** From every reachable cursor the cell's lines and columns lie on the panel. */
  lemma CellOnPanel(p: Panel, at: Cursor)
    requires PanelOk(p) && CursorOk(p, at)
    ensures LineOf(at) + CellRows(p.scale) <= p.height
    ensures ColumnOf(p, at) + CellCols(p.scale) <= p.width
  {
    SplitQuotient(p.width, FONT_WIDTH + 1);
    SplitQuotient(MaxX(p), p.scale);
    if at.x > 0 {
      ProductMonotone(at.x + 1, PerLine(p), p.scale);
      assert (at.x + 1) * p.scale == at.x * p.scale + p.scale;
    }
    if at.y > 0 {
      assert FONT_HEIGHT * MaxY(p) <= p.height - 1;
    }
  }

  /** So the cell lies inside the frame buffer. */
  lemma CellInside(p: Panel, at: Cursor, c: Cell)
    requires PanelOk(p) && CursorOk(p, at) && c.area == AreaAt(p, at) && c.scale == p.scale
    ensures CellOk(c) && Inside(c, p.width * p.height * p.bpp)
  {
    CellOnPanel(p, at);
    hide LineOf, ColumnOf, CellRows, CellCols, LineAt, AreaAt, At;
    var rows, cols := CellRows(p.scale), CellCols(p.scale);
    RowsPositive(p.scale);
    var q := LineAt(p.width, rows - 1) + cols;
    AreaIs(p, at, q);
    AreaShape(p, at);
    PixelsFit(LineOf(at), rows, ColumnOf(p, at), cols, p.width, p.height);
    ProductMonotone(LineOf(at) * p.width + ColumnOf(p, at) + q, p.width * p.height, p.bpp);
  }

  lemma AreaShape(p: Panel, at: Cursor)
    requires Usable(p)
    ensures AreaAt(p, at).line == p.width && AreaAt(p, at).bpp == p.bpp
  {
  }

  lemma RowsPositive(scale: nat)
    requires scale > 0
    ensures CellRows(scale) > 0 && CellCols(scale) > 0
  {
  }

  /** The last pixel of a rectangle that lies on the panel is one of the panel's. */
  lemma PixelsFit(line: nat, rows: nat, col: nat, cols: nat, width: nat, height: nat)
    requires 0 < rows && line + rows <= height && col + cols <= width
    ensures line * width + col + (LineAt(width, rows - 1) + cols) <= width * height
  {
    assert line * width + (rows - 1) * width == (line + rows - 1) * width;
    ProductMonotone(line + rows - 1, height - 1, width);
    assert (height - 1) * width == height * width - width;
  }

  // ---- the frame buffer ----

  /** The console's look: the font, two words for each character from the space on, and the colours. */
  datatype Look = Look(font: seq<Word>, foreground: Word, background: Word)

  predicate LookOk(l: Look) {
    |l.font| == 2 * (128 - 32)
  }

  function CellFor(p: Panel, l: Look, at: Cursor, c: Char): Cell
    requires Usable(p) && LookOk(l) && 32 <= c <= 127
  {
    CellAt(p, at, l.font[(c - 32) * 2], l.font[(c - 32) * 2 + 1], l.foreground, l.background)
  }

  /** The frame buffer with a character drawn at the cursor. */
  ghost function Drawing(p: Panel, l: Look, at: Cursor, c: Char, frame: seq<Byte>): (r: seq<Byte>)
    requires PanelOk(p) && LookOk(l) && 32 <= c <= 127
    ensures |r| == |frame|
  {
    var cell := CellFor(p, l, at, c);
    seq(|frame|, i requires 0 <= i < |frame| => CellByte(cell, frame[i], i))
  }

  /** The first byte of the line of characters at y, and the bytes that a line break clears. */
  function LineStart(p: Panel, y: nat): nat {
    y * (p.bpp * FONT_HEIGHT * p.width)
  }

  function LineBytes(p: Panel): nat {
    p.bpp * FONT_HEIGHT * p.width * p.scale
  }

  ghost function Clearing(p: Panel, y: nat, frame: seq<Byte>): (r: seq<Byte>)
    ensures |r| == |frame|
  {
    seq(|frame|, i requires 0 <= i < |frame| => if LineStart(p, y) <= i < LineStart(p, y) + LineBytes(p) then 0 else frame[i])
  }

  /** What one pass does to the frame buffer. */
  ghost function PassFrame(p: Panel, l: Look, at: Cursor, c: Char, title: bool, frame: seq<Byte>): (r: seq<Byte>)
    requires PanelOk(p) && LookOk(l)
    ensures |r| == |frame|
  {
    var fate := FateOf(c, title, at.x);
    var drawn := if fate == Painted then Drawing(p, l, at, c, frame) else frame;
    if fate == Breaks || (fate == Painted && at.x + 1 >= PerLine(p)) then
      var (next, again) := Broken(p, at);
      if again then drawn else Clearing(p, next.y, drawn)
    else drawn
  }

  ghost function PutFrame(p: Panel, l: Look, at: Cursor, c: Char, title: bool, frame: seq<Byte>): (r: seq<Byte>)
    requires PanelOk(p) && LookOk(l)
    ensures |r| == |frame|
  {
    var (next, again) := Pass(p, at, c, title);
    var f := PassFrame(p, l, at, c, title, frame);
    if again then PassFrame(p, l, next, c, title, f) else f
  }

  /** A character that wraps the screen is drawn twice: at the end of the last line and at the home position. */
  lemma WrapRepaints(p: Panel, l: Look, at: Cursor, c: Char, title: bool, frame: seq<Byte>)
    requires PanelOk(p) && LookOk(l) && Tall(p) && PerLine(p) > 1
    requires FateOf(c, title, 0) == Painted && at.x + 1 >= PerLine(p) && at.y + p.scale >= MaxY(p) - p.scale
    ensures Put(p, at, c, title) == Cursor(1, 0)
    ensures PutFrame(p, l, at, c, title, frame) == Drawing(p, l, HOME, c, Drawing(p, l, at, c, frame))
  {
    hide Drawing, Clearing, MaxY, PerLine;
  }

  // ---- texts ----

  /** The frame buffer after a text, character by character. */
  ghost function TextFrame(p: Panel, l: Look, at: Cursor, text: seq<Char>, title: bool, frame: seq<Byte>): (r: seq<Byte>)
    requires PanelOk(p) && LookOk(l)
    ensures |r| == |frame|
  {
    if text == [] then frame
    else
      var before, c := text[..|text| - 1], text[|text| - 1];
      PutFrame(p, l, PutAll(p, at, before, title), c, title, TextFrame(p, l, at, before, title, frame))
  }

  /** Characters that are painted wherever the cursor is. */
  predicate Visible(c: Char) {
    SPACE < c <= 127
  }

  function Behind(at: Cursor, n: nat): Cursor {
    at.(x := at.x + n)
  }

  /** A byte of the cell at the cursor: line r, column col, byte k of the pixel. */
  function CellPlace(p: Panel, at: Cursor, r: nat, col: nat, k: nat): nat
    requires Usable(p)
  {
    At(AreaAt(p, at), r * p.width + col) + k
  }

  /** A pixel in a column behind the cell. */
  lemma ColumnOutside(c: Cell, was: Byte, r: nat, col: nat, k: nat)
    requires CellOk(c) && CellCols(c.scale) <= col < c.area.line && k < c.area.bpp
    ensures CellByte(c, was, At(c.area, LineAt(c.area.line, r) + col) + k) == was
  {
    hide CellCols, CellRows, ColourByte, GlyphBit, At, LineAt, RowOf, ColOf, PixelOf;
    var q := LineAt(c.area.line, r) + col;
    BaseFirst(c.area, q);
    PixelBytes(c.area, At(c.area, q) + k, q);
    RowCol(c.area, r, col);
  }

  /** The pixel's place, counted from a cell further right: one line up, or before the cell. */
  lemma PlaceFromLater(p: Panel, at: Cursor, d: nat, r: nat, col: nat, k: nat)
    requires Usable(p) && p.bpp > 0 && d > 0 && col < CellCols(p.scale) && k < p.bpp
    requires ColumnOf(p, Behind(at, d)) + CellCols(p.scale) <= p.width
    ensures var area, right := AreaAt(p, Behind(at, d)), d * p.scale * (FONT_WIDTH + 1);
      && right + CellCols(p.scale) <= p.width && col < right
      && (r > 0 ==> CellPlace(p, at, r, col, k) == At(area, LineAt(p.width, r - 1) + (p.width + col - right)) + k)
      && (r == 0 ==> CellPlace(p, at, r, col, k) < area.base)
  {
    hide AreaAt, ColumnOf, LineOf, CellCols, At;
    var b, right := Behind(at, d), d * p.scale * (FONT_WIDTH + 1);
    ColumnsApart(p, at, d);
    AreaIs(p, at, r * p.width + col);
    if r > 0 {
      AreaIs(p, b, LineAt(p.width, r - 1) + (p.width + col - right));
      OneLineUp(r, p.width);
      SameLine(at, b);
    } else {
      AreaIs(p, b, 0);
      StartOf(AreaAt(p, b));
      SameLine(at, b);
      LeftOf(CellPlace(p, at, r, col, k), LineOf(at) * p.width + ColumnOf(p, at) + col, LineOf(b) * p.width + ColumnOf(p, b), p.bpp, k);
    }
  }

  lemma OneLineUp(r: nat, width: nat)
    requires r > 0
    ensures r * width == LineAt(width, r - 1) + width
  {
  }

  lemma SameLine(at: Cursor, b: Cursor)
    requires at.y == b.y
    ensures LineOf(at) == LineOf(b)
  {
  }

  /** A cell further right in the line does not cover the pixel. */
  lemma LaterCellApart(p: Panel, at: Cursor, c: Cell, d: nat, r: nat, col: nat, k: nat, was: Byte)
    requires PanelOk(p) && CursorOk(p, Behind(at, d)) && d > 0 && col < CellCols(p.scale) && k < p.bpp
    requires c.area == AreaAt(p, Behind(at, d)) && c.scale == p.scale
    ensures CellByte(c, was, CellPlace(p, at, r, col, k)) == was
  {
    CellOnPanel(p, Behind(at, d));
    AreaShape(p, Behind(at, d));
    hide AreaAt, ColumnOf, LineOf, CellCols, CellRows, CellPlace, SpotByte, CursorOk, At, LineAt;
    PlaceFromLater(p, at, d, r, col, k);
    if r > 0 {
      ColumnOutside(c, was, r - 1, p.width + col - d * p.scale * (FONT_WIDTH + 1), k);
    }
  }

  /** Drawing it leaves the pixel. */
  lemma LaterDrawn(p: Panel, l: Look, at: Cursor, c: Char, d: nat, frame: seq<Byte>, r: nat, col: nat, k: nat)
    requires PanelOk(p) && LookOk(l) && CursorOk(p, Behind(at, d)) && d > 0 && Visible(c)
    requires col < CellCols(p.scale) && k < p.bpp && CellPlace(p, at, r, col, k) < |frame|
    ensures Drawing(p, l, Behind(at, d), c, frame)[CellPlace(p, at, r, col, k)] == frame[CellPlace(p, at, r, col, k)]
  {
    var place := CellPlace(p, at, r, col, k);
    LaterCellApart(p, at, CellFor(p, l, Behind(at, d), c), d, r, col, k, frame[place]);
    hide CellByte, AreaAt, CellPlace, CellCols, CursorOk;
  }

  lemma LeftOf(place: nat, m: nat, n: nat, bpp: nat, k: nat)
    requires place == m * bpp + k && k < bpp && m < n
    ensures place < n * bpp
  {
    ProductMonotone(m + 1, n, bpp);
    assert (m + 1) * bpp == m * bpp + bpp;
  }

  /** Cells of a line are a column of pixels apart. */
  lemma ColumnsApart(p: Panel, at: Cursor, d: nat)
    requires Usable(p) && d > 0
    ensures var right := d * p.scale * (FONT_WIDTH + 1);
      && ColumnOf(p, Behind(at, d)) == ColumnOf(p, at) + right && right > CellCols(p.scale)
  {
    var u := p.scale * (FONT_WIDTH + 1);
    ProductMonotone(1, d, u);
    assert (at.x + d) * p.scale * (FONT_WIDTH + 1) == at.x * u + d * u;
    assert at.x * p.scale * (FONT_WIDTH + 1) == at.x * u && d * p.scale * (FONT_WIDTH + 1) == d * u;
  }

  /** The character drawn at its own place. */
  lemma OwnCellShown(p: Panel, l: Look, at: Cursor, c: Char, frame: seq<Byte>, r: nat, col: nat, k: nat)
    requires PanelOk(p) && LookOk(l) && CursorOk(p, at) && Visible(c)
    requires |frame| == p.width * p.height * p.bpp && r < CellRows(p.scale) && col < CellCols(p.scale) && k < p.bpp
    ensures CellPlace(p, at, r, col, k) < |frame|
    ensures Drawing(p, l, at, c, frame)[CellPlace(p, at, r, col, k)] == GlyphByte(p, l, c, r, col, k)
  {
    var cell := CellFor(p, l, at, c);
    CellInside(p, at, cell);
    RowInside(cell, |frame|, r);
    TwoHalves(p.scale);
    hide AreaAt, CellByte, GlyphBit, ColourByte, CellRows, CellCols;
    AreaShape(p, at);
    PlaceInside(cell.area, r, col, CellCols(p.scale), k, |frame|);
    PixelShown(cell, frame, Drawing(p, l, at, c, frame), r, col, k);
  }

  lemma PlaceInside(a: Area, r: nat, col: nat, cols: nat, k: nat, size: nat)
    requires AreaOk(a) && col < cols && k < a.bpp && At(a, LineAt(a.line, r) + cols) <= size
    ensures At(a, r * a.line + col) + k < size
  {
    ProductMonotone(r * a.line + col + 1, r * a.line + cols, a.bpp);
    assert (r * a.line + col + 1) * a.bpp == (r * a.line + col) * a.bpp + a.bpp;
  }

  /** The byte that a character's picture has there. */
  function GlyphByte(p: Panel, l: Look, c: Char, r: nat, col: nat, k: nat): Byte
    requires Usable(p) && LookOk(l) && Visible(c)
  {
    var cell := CellFor(p, l, HOME, c);
    ColourByte(if GlyphBit(cell, r / p.scale, col / p.scale) then l.foreground else l.background, k)
  }

  /** A visible text that fits what is left of the line moves the cursor and draws one character after the other. */
  lemma {:induction false} TextAdvances(p: Panel, l: Look, at: Cursor, text: seq<Char>, title: bool, frame: seq<Byte>)
    requires PanelOk(p) && LookOk(l) && CursorOk(p, at) && at.x + |text| < PerLine(p)
    requires forall i :: 0 <= i < |text| ==> Visible(text[i])
    ensures PutAll(p, at, text, title) == Behind(at, |text|)
    ensures text != [] ==>
      var n := |text| - 1;
      Visible(text[n]) &&
      TextFrame(p, l, at, text, title, frame) == Drawing(p, l, Behind(at, n), text[n], TextFrame(p, l, at, text[..n], title, frame))
  {
    hide Drawing, Clearing, PerLine, PanelOk, CursorOk;
    if text != [] {
      TextAdvances(p, l, at, text[..|text| - 1], title, frame);
    }
  }

  /** After such a text, every pixel of every character's cell shows that character. */
  lemma {:induction false} TextShown(p: Panel, l: Look, at: Cursor, text: seq<Char>, title: bool, frame: seq<Byte>,
                                     j: nat, r: nat, col: nat, k: nat)
    requires PanelOk(p) && LookOk(l) && CursorOk(p, at) && at.x + |text| < PerLine(p)
    requires |frame| == p.width * p.height * p.bpp
    requires forall i :: 0 <= i < |text| ==> Visible(text[i])
    requires j < |text| && r < CellRows(p.scale) && col < CellCols(p.scale) && k < p.bpp
    ensures CellPlace(p, Behind(at, j), r, col, k) < |frame|
    ensures TextFrame(p, l, at, text, title, frame)[CellPlace(p, Behind(at, j), r, col, k)] == GlyphByte(p, l, text[j], r, col, k)
  {
    hide PanelOk, CellPlace, GlyphByte, Drawing, TextFrame, CellRows, CellCols, PerLine, MaxY;
    var n := |text| - 1;
    TextAdvances(p, l, at, text, title, frame);
    var before := TextFrame(p, l, at, text[..n], title, frame);
    if j == n {
      OwnCellShown(p, l, Behind(at, n), text[n], before, r, col, k);
    } else {
      TextShown(p, l, at, text[..n], title, frame, j, r, col, k);
      LaterDrawn(p, l, Behind(at, j), text[n], n - j, before, r, col, k);
    }
  }

  /** The line cleared by a break lies inside the frame buffer. */
  lemma LineInside(p: Panel, y: nat)
    requires PanelOk(p) && y < MaxY(p) - p.scale
    ensures LineStart(p, y) + LineBytes(p) <= p.width * p.height * p.bpp
  {
    var k := p.bpp * FONT_HEIGHT * p.width;
    assert LineBytes(p) == p.scale * k;
    assert LineStart(p, y) + LineBytes(p) == (y + p.scale) * k;
    ProductMonotone(y + p.scale, MaxY(p), k);
    LinesFit(p, k);
  }

  lemma LinesFit(p: Panel, k: nat)
    requires PanelOk(p) && k == p.bpp * FONT_HEIGHT * p.width
    ensures MaxY(p) * k <= p.width * p.height * p.bpp
  {
    var a := p.width * p.bpp;
    assert MaxY(p) * FONT_HEIGHT <= p.height;
    ProductMonotone(MaxY(p) * FONT_HEIGHT, p.height, a);
    assert MaxY(p) * k == MaxY(p) * FONT_HEIGHT * a;
    assert p.height * a == p.width * p.height * p.bpp;
  }

  // ---- the console ----

  class FbCon {
    const panel: Panel
    const look: Look
    const frame: array<Byte>
    var x: nat
    var y: nat

    function At(): Cursor
      reads this
    {
      Cursor(x, y)
    }

    ghost predicate Valid()
      reads this
    {
      && PanelOk(panel) && Tall(panel) && LookOk(look)
      && frame.Length == panel.width * panel.height * panel.bpp && CursorOk(panel, At())
    }

    /** FbConReset on the frame buffer of a panel. */
    constructor (panel: Panel, look: Look, frame: array<Byte>)
      requires PanelOk(panel) && Tall(panel) && LookOk(look) && frame.Length == panel.width * panel.height * panel.bpp
      ensures Valid() && this.panel == panel && this.look == look && this.frame == frame && At() == HOME
    {
      this.panel, this.look, this.frame := panel, look, frame;
      x, y := 0, 0;
    }

    /** ZeroMem on the line of characters at the cursor. */
    method ClearLine()
      requires Valid() && y < MaxY(panel) - panel.scale
      modifies frame
      ensures frame[..] == Clearing(panel, y, old(frame[..]))
    {
      LineInside(panel, y);
      var start, n := LineStart(panel, y), LineBytes(panel);
      hide LineStart, LineBytes;
      for k := 0 to n
        invariant forall i :: 0 <= i < frame.Length ==> frame[i] == if start <= i < start + k then 0 else old(frame[i])
      {
        frame[start + k] := 0;
      }
      assert frame[..] == Clearing(panel, y, old(frame[..]));
    }

    /** The code behind the label newline; true if the screen wraps and control jumps back to paint. */
    method NewLine() returns (again: bool)
      requires Valid()
      modifies this`x, this`y, frame
      ensures Valid() && (At(), again) == Broken(panel, old(At()))
      ensures frame[..] == if again then old(frame[..]) else Clearing(panel, y, old(frame[..]))
    {
      hide PanelOk, LineStart, LineBytes;
      y := y + panel.scale;
      x := 0;
      if y >= MaxY(panel) - panel.scale {
        y := 0;
        return true;
      }
      ClearLine();
      return false;
    }

    /** The drawing at the cursor. */
    method Draw(c: Char)
      requires Valid() && 32 <= c <= 127
      modifies frame
      ensures frame[..] == Drawing(panel, look, At(), c, old(frame[..]))
    {
      var cell := CellFor(panel, look, At(), c);
      CellInside(panel, At(), cell);
      hide Inside, CellByte;
      DrawGlyph(frame, cell);
      assert frame[..] == Drawing(panel, look, At(), c, old(frame[..]));
    }

    /** One pass from the label paint. */
    method Paint(c: Char, title: bool) returns (again: bool)
      requires Valid()
      modifies this`x, this`y, frame
      ensures Valid() && (At(), again) == Pass(panel, old(At()), c, title)
      ensures frame[..] == PassFrame(panel, look, old(At()), c, title, old(frame[..]))
    {
      hide PanelOk, LookOk, Tall, Drawing, Clearing, MaxY, PerLine, Broken;
      if c > 127 {
        return false;
      }
      if c < 32 {
        if c == NEWLINE {
          again := NewLine();
          return;
        } else if c == RETURN {
          x := 0;
          return false;
        }
        return false;
      }
      if x == 0 && c == SPACE && !title {
        return false;
      }
      Draw(c);
      if x + 1 >= PerLine(panel) {
        again := NewLine();
        return;
      }
      x := x + 1;
      return false;
    }

    /** FbConPutCharWithFactor; title is for the two message types that keep leading spaces. */
    method PutChar(c: Char, title: bool)
      requires Valid()
      modifies this`x, this`y, frame
      ensures Valid() && At() == Put(panel, old(At()), c, title)
      ensures frame[..] == PutFrame(panel, look, old(At()), c, title, old(frame[..]))
    {
      hide PanelOk, LookOk, Tall, Pass, PassFrame;
      TwoPasses(panel, At(), c, title);
      ghost var at, was := At(), frame[..];
      ghost var n := 0;
      var again := true;
      while again
        invariant Valid() && n <= 2
        invariant n == 0 ==> again && At() == at && frame[..] == was
        invariant n == 1 ==> (At(), again) == Pass(panel, at, c, title) && frame[..] == PassFrame(panel, look, at, c, title, was)
        invariant n == 2 ==> !again && At() == Put(panel, at, c, title) && frame[..] == PutFrame(panel, look, at, c, title, was)
        decreases 2 - n
      {
        again := Paint(c, title);
        n := n + 1;
      }
    }

    /** SerialPortWrite. */
    method Write(text: seq<Char>)
      requires Valid()
      modifies this`x, this`y, frame
      ensures Valid() && At() == PutAll(panel, old(At()), text, false)
      ensures frame[..] == TextFrame(panel, look, old(At()), text, false, old(frame[..]))
    {
      hide Put, PutFrame, PanelOk, Tall, LookOk;
      for i := 0 to |text|
        invariant Valid() && At() == PutAll(panel, old(At()), text[..i], false)
        invariant frame[..] == TextFrame(panel, look, old(At()), text[..i], false, old(frame[..]))
      {
        assert text[..i + 1][..i] == text[..i];
        PutChar(text[i], false);
      }
      assert text[..|text|] == text;
    }
  }
}
