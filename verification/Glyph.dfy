/**
 * Drawing a glyph of the 5x12 font with a running pointer: FbConDrawglyph in
 * Silicon/Samsung/ExynosPkg/Library/FrameBufferSerialPortLib/FrameBufferSerialPortLib.c.
 */
module Glyph {
  import opened Division

  type Byte = b: int | 0 <= b < 0x100

  type Word = w: int | 0 <= w < 0x1_0000_0000

  const FONT_WIDTH := 5
  const FONT_HEIGHT := 12
  const HALF := FONT_HEIGHT / 2

  /** Rows and columns of a magnified cell, and the rows of half of it. */
  function CellRows(scale: nat): nat {
    12 * scale
  }

  function HalfRows(scale: nat): nat {
    6 * scale
  }

  function CellCols(scale: nat): nat {
    5 * scale
  }

  lemma TwoHalves(scale: nat)
    ensures HalfRows(scale) + HalfRows(scale) == CellRows(scale)
    ensures HalfRows(scale) == HALF * scale && CellRows(scale) == FONT_HEIGHT * scale && CellCols(scale) == FONT_WIDTH * scale
  {
  }

  // ---- bits and colours ----

  /** w >> n. */
  function Shifted(w: Word, n: nat): Word {
    if n == 0 then w else Shifted(w, n - 1) / 2
  }

  /** Bit n of w. */
  predicate Bit(w: Word, n: nat) {
    Shifted(w, n) % 2 == 1
  }

  /** Byte k of a colour, the lowest first. */
  function ColourRest(colour: Word, k: nat): Word {
    if k == 0 then colour else ColourRest(colour, k - 1) / 0x100
  }

  function ColourByte(colour: Word, k: nat): Byte {
    ColourRest(colour, k) % 0x100
  }

  // ---- where a byte lies ----

  /** A picture area: its first byte, the pixels in a line of the frame buffer, the bytes in a pixel. */
  datatype Area = Area(base: nat, line: nat, bpp: nat)

  predicate AreaOk(a: Area) {
    a.line > 0 && a.bpp > 0
  }

  /** The number of the pixel that byte p belongs to, counted from the area's first. */
  function PixelOf(a: Area, p: nat): nat
    requires AreaOk(a) && p >= a.base
  {
    (p - a.base) / a.bpp
  }

  function RowOf(a: Area, q: nat): nat
    requires AreaOk(a)
  {
    q / a.line
  }

  function ColOf(a: Area, q: nat): nat
    requires AreaOk(a)
  {
    q % a.line
  }

  /** The first byte of pixel q. */
  function At(a: Area, q: nat): nat {
    a.base + q * a.bpp
  }

  /** Byte p lies in pixel q at the distance p - At(a, q) from its start. */
  lemma PixelBytes(a: Area, p: nat, q: nat)
    requires AreaOk(a)
    ensures At(a, q + 1) == At(a, q) + a.bpp
    ensures p >= a.base ==> (PixelOf(a, p) == q <==> At(a, q) <= p < At(a, q + 1))
    ensures p >= a.base && PixelOf(a, p) == q ==> (p - a.base) % a.bpp == p - At(a, q)
  {
    assert (q + 1) * a.bpp == q * a.bpp + a.bpp;
    if p >= a.base {
      var n := p - a.base;
      SplitQuotient(n, a.bpp);
      if At(a, q) <= p < At(a, q + 1) {
        QuotientUnique(n, a.bpp, q, n - q * a.bpp);
      }
    }
  }

  /** The number of the first pixel of line r. */
  function LineAt(line: nat, r: nat): nat {
    r * line
  }

  lemma RowCol(a: Area, r: nat, c: nat)
    requires AreaOk(a) && c < a.line
    ensures RowOf(a, LineAt(a.line, r) + c) == r && ColOf(a, LineAt(a.line, r) + c) == c
  {
    var q := LineAt(a.line, r) + c;
    QuotientUnique(q, a.line, r, c);
    SplitQuotient(q, a.line);
  }

  // ---- ink ----

  /** What is laid over the area: a block of rows filled, or half a glyph, magnified. */
  datatype Ink = Solid | Half(word: Word)

  /** The font coordinate of a magnified one. */
  function Shrunk(n: nat, scale: nat): nat
    requires scale > 0
  {
    n / scale
  }

  /** Does the ink cover row r, column c? */
  predicate Covers(ink: Ink, scale: nat, r: nat, c: nat)
    requires scale > 0
  {
    match ink
    case Solid => true
    case Half(word) => Bit(word, FONT_WIDTH * Shrunk(r, scale) + Shrunk(c, scale))
  }

  datatype Layer = Layer(area: Area, scale: nat, ink: Ink, colour: Word)

  predicate LayerOk(l: Layer) {
    AreaOk(l.area) && l.scale > 0 && CellCols(l.scale) <= l.area.line
  }

  /** Pixel q is inked, taken for itself. */
  predicate Inked(l: Layer, q: nat)
    requires LayerOk(l)
  {
    ColOf(l.area, q) < CellCols(l.scale) && Covers(l.ink, l.scale, RowOf(l.area, q), ColOf(l.area, q))
  }

  /** Byte p when the layer's first q pixels have been laid over old. */
  function LaidByte(l: Layer, old_: Byte, p: nat, q: nat): Byte
    requires LayerOk(l)
  {
    if p >= l.area.base && PixelOf(l.area, p) < q && Inked(l, PixelOf(l.area, p))
    then ColourByte(l.colour, (p - l.area.base) % l.area.bpp) else old_
  }

  ghost predicate Laid(l: Layer, was: seq<Byte>, now: seq<Byte>, q: nat)
    requires LayerOk(l)
  {
    |now| == |was| && forall p :: 0 <= p < |was| ==> now[p] == LaidByte(l, was[p], p, q)
  }

  lemma NothingLaid(l: Layer, was: seq<Byte>)
    requires LayerOk(l)
    ensures Laid(l, was, was, 0)
  {
  }

  /** Pixels that are not inked may be passed over. */
  lemma PassedOver(l: Layer, was: seq<Byte>, now: seq<Byte>, q: nat, q': nat)
    requires LayerOk(l) && Laid(l, was, now, q) && q <= q' && forall k :: q <= k < q' ==> !Inked(l, k)
    ensures Laid(l, was, now, q')
  {
    hide Inked, PixelOf, ColourByte;
  }

  /** An inked pixel has been painted. */
  lemma PixelPainted(l: Layer, was: seq<Byte>, m: seq<Byte>, now: seq<Byte>, q: nat)
    requires LayerOk(l) && Laid(l, was, m, q) && Inked(l, q) && |now| == |m|
    requires forall p :: 0 <= p < |m| ==>
      now[p] == if At(l.area, q) <= p < At(l.area, q) + l.area.bpp then ColourByte(l.colour, p - At(l.area, q)) else m[p]
    ensures Laid(l, was, now, q + 1)
  {
    hide Inked, PixelOf, ColourByte, At, AreaOk;
    forall p | 0 <= p < |was|
      ensures now[p] == LaidByte(l, was[p], p, q + 1)
    {
      LayerArea(l);
      PixelBytes(l.area, p, q);
      BaseFirst(l.area, q);
    }
  }

  lemma LayerArea(l: Layer)
    requires LayerOk(l)
    ensures AreaOk(l.area)
  {
  }

  lemma BaseFirst(a: Area, q: nat)
    ensures a.base <= At(a, q)
  {
  }

  /** Pixels of one font column in one line share their ink. */
  lemma RunInked(l: Layer, r: nat, x: nat, j: nat)
    requires LayerOk(l) && x < FONT_WIDTH && j < l.scale
    ensures var q := LineAt(l.area.line, r) + (x * l.scale + j);
      Inked(l, q) <==> (l.ink.Solid? || Bit(l.ink.word, FONT_WIDTH * Shrunk(r, l.scale) + x))
  {
    var c := x * l.scale + j;
    assert c < CellCols(l.scale) by {
      ColumnOrder(x, l.scale);
      assert (x + 1) * l.scale == x * l.scale + l.scale;
    }
    RowCol(l.area, r, c);
    QuotientUnique(c, l.scale, x, j);
    assert Shrunk(c, l.scale) == x;
    hide Bit, Shrunk, LineAt, RowOf, ColOf;
  }

  /** Behind the glyph nothing of a line is inked. */
  lemma RestNotInked(l: Layer, r: nat, k: nat)
    requires LayerOk(l) && LineAt(l.area.line, r) + CellCols(l.scale) <= k < LineAt(l.area.line, r + 1)
    ensures !Inked(l, k)
  {
    assert LineAt(l.area.line, r + 1) == LineAt(l.area.line, r) + l.area.line;
    RowCol(l.area, r, k - LineAt(l.area.line, r));
  }

  // ---- painting ----

  /** The innermost loop: one pixel, byte by byte. */
  method PaintPixel(pixels: array<Byte>, at: nat, bpp: nat, colour: Word)
    requires at + bpp <= pixels.Length
    modifies pixels
    ensures forall p :: 0 <= p < pixels.Length ==>
      pixels[p] == if at <= p < at + bpp then ColourByte(colour, p - at) else old(pixels[p])
  {
    hide ColourRest;
    RestStep(colour, 0);
    var rest := colour;
    var p := at;
    for k := 0 to bpp
      invariant p == at + k && rest == ColourRest(colour, k)
      invariant forall i :: 0 <= i < pixels.Length ==>
        pixels[i] == if at <= i < at + k then ColourByte(colour, i - at) else old(pixels[i])
    {
      pixels[p] := rest % 0x100;
      RestStep(colour, k);
      rest := rest / 0x100;
      p := p + 1;
    }
  }

  lemma RestStep(colour: Word, k: nat)
    ensures ColourRest(colour, k + 1) == ColourRest(colour, k) / 0x100 && ColourRest(colour, 0) == colour
  {
  }

  /** The pixels of one font column in one line: r is the line, x the column. */
  method PaintRun(pixels: array<Byte>, l: Layer, at: nat, ghost was: seq<Byte>, ghost r: nat, ghost x: nat) returns (next: nat)
    requires LayerOk(l) && x < FONT_WIDTH && (l.ink.Solid? || Bit(l.ink.word, FONT_WIDTH * Shrunk(r, l.scale) + x))
    requires at == At(l.area, LineAt(l.area.line, r) + x * l.scale) && At(l.area, LineAt(l.area.line, r) + (x + 1) * l.scale) <= pixels.Length
    requires Laid(l, was, pixels[..], LineAt(l.area.line, r) + x * l.scale)
    modifies pixels
    ensures next == At(l.area, LineAt(l.area.line, r) + (x + 1) * l.scale)
    ensures Laid(l, was, pixels[..], LineAt(l.area.line, r) + (x + 1) * l.scale)
  {
    hide Laid, Inked, At, Bit, LayerOk;
    LayerArea(l);
    ghost var q := LineAt(l.area.line, r) + x * l.scale;
    assert LineAt(l.area.line, r) + (x + 1) * l.scale == q + l.scale by {
      assert (x + 1) * l.scale == x * l.scale + l.scale;
    }
    next := at;
    for j := 0 to l.scale
      invariant next == At(l.area, q + j) && Laid(l, was, pixels[..], q + j)
    {
      RunInked(l, r, x, j);
      AtStep(l.area, q + j);
      AtOrder(l.area, q + j + 1, q + l.scale);
      ghost var m := pixels[..];
      PaintPixel(pixels, next, l.area.bpp, l.colour);
      PixelPainted(l, was, m, pixels[..], q + j);
      next := next + l.area.bpp;
    }
  }

  lemma AtStep(a: Area, q: nat)
    ensures At(a, q + 1) == At(a, q) + a.bpp
  {
    assert (q + 1) * a.bpp == q * a.bpp + a.bpp;
  }

  lemma {:induction false} AtOrder(a: Area, q: nat, q': nat)
    requires q <= q'
    ensures At(a, q) <= At(a, q')
    decreases q' - q
  {
    if q < q' {
      AtStep(a, q);
      AtOrder(a, q + 1, q');
    }
  }

  /** The pixels of a font column that is not inked. */
  method SkipRun(l: Layer, at: nat, ghost was: seq<Byte>, ghost now: seq<Byte>, ghost r: nat, ghost x: nat) returns (next: nat)
    requires LayerOk(l) && x < FONT_WIDTH && l.ink.Half? && !Bit(l.ink.word, FONT_WIDTH * Shrunk(r, l.scale) + x)
    requires at == At(l.area, LineAt(l.area.line, r) + x * l.scale)
    requires Laid(l, was, now, LineAt(l.area.line, r) + x * l.scale)
    ensures next == At(l.area, LineAt(l.area.line, r) + (x + 1) * l.scale)
    ensures Laid(l, was, now, LineAt(l.area.line, r) + (x + 1) * l.scale)
  {
    hide Laid, Inked, At, Bit;
    ghost var q := LineAt(l.area.line, r) + x * l.scale;
    assert LineAt(l.area.line, r) + (x + 1) * l.scale == q + l.scale by {
      assert (x + 1) * l.scale == x * l.scale + l.scale;
    }
    next := at;
    for j := 0 to l.scale
      invariant next == At(l.area, q + j)
    {
      AtStep(l.area, q + j);
      next := next + l.area.bpp;
    }
    forall k | q <= k < q + l.scale
      ensures !Inked(l, k)
    {
      RunInked(l, r, x, k - q);
    }
    PassedOver(l, was, now, q, q + l.scale);
  }

  /** The pointer's jump from the end of the glyph to the next line. */
  lemma NextLine(l: Layer, was: seq<Byte>, now: seq<Byte>, r: nat, at: nat)
    requires LayerOk(l) && Laid(l, was, now, LineAt(l.area.line, r) + CellCols(l.scale))
    requires at == At(l.area, LineAt(l.area.line, r) + CellCols(l.scale))
    ensures Laid(l, was, now, LineAt(l.area.line, r + 1))
    ensures at + (l.area.line - CellCols(l.scale)) * l.area.bpp == At(l.area, LineAt(l.area.line, r + 1))
  {
    var q, q' := LineAt(l.area.line, r) + CellCols(l.scale), LineAt(l.area.line, r + 1);
    assert q' == LineAt(l.area.line, r) + l.area.line;
    assert (l.area.line - CellCols(l.scale)) * l.area.bpp == q' * l.area.bpp - q * l.area.bpp by {
      assert l.area.line - CellCols(l.scale) == q' - q;
      assert (q' - q) * l.area.bpp == q' * l.area.bpp - q * l.area.bpp;
    }
    hide Laid, Inked;
    forall k | q <= k < q'
      ensures !Inked(l, k)
    {
      RestNotInked(l, r, k);
    }
    PassedOver(l, was, now, q, q');
  }

  /** The area has room for lines 0 to rows - 1. */
  ghost predicate Roomy(l: Layer, rows: nat, size: nat) {
    forall r :: 0 <= r < rows ==> At(l.area, LineAt(l.area.line, r) + CellCols(l.scale)) <= size
  }

  /** One line of background. */
  method SolidLine(pixels: array<Byte>, l: Layer, at: nat, ghost was: seq<Byte>, ghost r: nat) returns (next: nat)
    requires LayerOk(l) && l.ink.Solid? && at == At(l.area, LineAt(l.area.line, r)) && Laid(l, was, pixels[..], LineAt(l.area.line, r))
    requires At(l.area, LineAt(l.area.line, r) + CellCols(l.scale)) <= pixels.Length
    modifies pixels
    ensures next == At(l.area, LineAt(l.area.line, r + 1)) && Laid(l, was, pixels[..], LineAt(l.area.line, r + 1))
  {
    hide Laid, At;
    next := at;
    for x := 0 to FONT_WIDTH
      invariant next == At(l.area, LineAt(l.area.line, r) + x * l.scale)
      invariant Laid(l, was, pixels[..], LineAt(l.area.line, r) + x * l.scale)
    {
      ColumnOrder(x, l.scale);
      AtOrder(l.area, LineAt(l.area.line, r) + (x + 1) * l.scale, LineAt(l.area.line, r) + CellCols(l.scale));
      next := PaintRun(pixels, l, next, was, r, x);
    }
    NextLine(l, was, pixels[..], r, next);
    next := next + (l.area.line - CellCols(l.scale)) * l.area.bpp;
  }

  lemma ColumnOrder(x: nat, scale: nat)
    requires x < FONT_WIDTH
    ensures (x + 1) * scale <= CellCols(scale)
  {
  }

  lemma ShiftStep(w: Word, n: nat)
    ensures Shifted(w, n + 1) == Shifted(w, n) / 2 && Shifted(w, 0) == w
  {
  }

  /** One line of half a glyph; data holds the bits of the line's font row. */
  method GlyphLine(pixels: array<Byte>, l: Layer, at: nat, temp: Word, ghost was: seq<Byte>, ghost r: nat)
    returns (next: nat, data: Word)
    requires LayerOk(l) && l.ink.Half? && at == At(l.area, LineAt(l.area.line, r)) && Laid(l, was, pixels[..], LineAt(l.area.line, r))
    requires temp == Shifted(l.ink.word, FONT_WIDTH * Shrunk(r, l.scale))
    requires At(l.area, LineAt(l.area.line, r) + CellCols(l.scale)) <= pixels.Length
    modifies pixels
    ensures next == At(l.area, LineAt(l.area.line, r + 1)) && Laid(l, was, pixels[..], LineAt(l.area.line, r + 1))
    ensures data == Shifted(l.ink.word, FONT_WIDTH * Shrunk(r, l.scale) + FONT_WIDTH)
  {
    hide Laid, At, Shifted;
    next := at;
    data := temp;
    for x := 0 to FONT_WIDTH
      invariant next == At(l.area, LineAt(l.area.line, r) + x * l.scale)
      invariant Laid(l, was, pixels[..], LineAt(l.area.line, r) + x * l.scale)
      invariant data == Shifted(l.ink.word, FONT_WIDTH * Shrunk(r, l.scale) + x)
    {
      if data % 2 == 1 {
        ColumnOrder(x, l.scale);
        AtOrder(l.area, LineAt(l.area.line, r) + (x + 1) * l.scale, LineAt(l.area.line, r) + CellCols(l.scale));
        next := PaintRun(pixels, l, next, was, r, x);
      } else {
        next := SkipRun(l, next, was, pixels[..], r, x);
      }
      ShiftStep(l.ink.word, FONT_WIDTH * Shrunk(r, l.scale) + x);
      data := data / 2;
    }
    NextLine(l, was, pixels[..], r, next);
    next := next + (l.area.line - CellCols(l.scale)) * l.area.bpp;
  }

  // ---- half a cell ----


  lemma RowAt(y: nat, i: nat, scale: nat, rows: nat)
    requires i < scale && y < rows
    ensures Shrunk(y * scale + i, scale) == y && y * scale + i < rows * scale && (y + 1) * scale == y * scale + scale
  {
    QuotientUnique(y * scale + i, scale, y, i);
    assert (y + 1) * scale == y * scale + scale;
    ProductMonotone(y + 1, rows, scale);
  }

  lemma ProductMonotone(a: nat, b: nat, d: nat)
    requires a <= b
    ensures a * d <= b * d
  {
    ProductNotNegative(b - a, d);
    assert b * d == a * d + (b - a) * d;
  }

  /** Half the background: lines first to first + 6 * scale - 1 of the layer. */
  method FillHalf(pixels: array<Byte>, l: Layer, at: nat, ghost was: seq<Byte>, ghost first: nat) returns (next: nat)
    requires LayerOk(l) && l.ink.Solid? && at == At(l.area, LineAt(l.area.line, first)) && Laid(l, was, pixels[..], LineAt(l.area.line, first))
    requires Roomy(l, first + HalfRows(l.scale), pixels.Length)
    modifies pixels
    ensures next == At(l.area, LineAt(l.area.line, first + HalfRows(l.scale)))
    ensures Laid(l, was, pixels[..], LineAt(l.area.line, first + HalfRows(l.scale)))
  {
    hide Laid, At, LayerOk;
    LayerScale(l);
    next := at;
    ghost var r := first;
    for y := 0 to HALF
      invariant r == first + y * l.scale
      invariant next == At(l.area, LineAt(l.area.line, r)) && Laid(l, was, pixels[..], LineAt(l.area.line, r))
    {
      for i := 0 to l.scale
        invariant r == first + y * l.scale + i
        invariant next == At(l.area, LineAt(l.area.line, r)) && Laid(l, was, pixels[..], LineAt(l.area.line, r))
      {
        RowAt(y, i, l.scale, HALF);
        next := SolidLine(pixels, l, next, was, r);
        r := r + 1;
      }
      RowAt(y, 0, l.scale, HALF);
    }
  }

  lemma LayerScale(l: Layer)
    requires LayerOk(l)
    ensures l.scale > 0
  {
  }

  /** Half a glyph. */
  method DrawHalf(pixels: array<Byte>, l: Layer, at: nat, ghost was: seq<Byte>) returns (next: nat)
    requires LayerOk(l) && l.ink.Half? && at == At(l.area, 0) && was == pixels[..]
    requires Roomy(l, HalfRows(l.scale), pixels.Length)
    modifies pixels
    ensures next == At(l.area, LineAt(l.area.line, HalfRows(l.scale)))
    ensures Laid(l, was, pixels[..], LineAt(l.area.line, HalfRows(l.scale)))
  {
    NothingLaid(l, was);
    ShiftStep(l.ink.word, 0);
    hide Laid, At, LayerOk, Shifted;
    LayerScale(l);
    next := at;
    var data := l.ink.word;
    ghost var r := 0;
    for y := 0 to HALF
      invariant r == y * l.scale && data == Shifted(l.ink.word, FONT_WIDTH * y)
      invariant next == At(l.area, LineAt(l.area.line, r)) && Laid(l, was, pixels[..], LineAt(l.area.line, r))
    {
      var temp := data;
      for i := 0 to l.scale
        invariant r == y * l.scale + i && temp == Shifted(l.ink.word, FONT_WIDTH * y)
        invariant i > 0 ==> data == Shifted(l.ink.word, FONT_WIDTH * y + FONT_WIDTH)
        invariant next == At(l.area, LineAt(l.area.line, r)) && Laid(l, was, pixels[..], LineAt(l.area.line, r))
      {
        RowAt(y, i, l.scale, HALF);
        next, data := GlyphLine(pixels, l, next, temp, was, r);
        r := r + 1;
      }
      RowAt(y, 0, l.scale, HALF);
    }
  }

  // ---- the picture ----

  /** A character cell: its area, the magnification, the two words of the glyph and the two colours. */
  datatype Cell = Cell(area: Area, scale: nat, glyph0: Word, glyph1: Word, foreground: Word, background: Word)

  predicate CellOk(c: Cell) {
    AreaOk(c.area) && c.scale > 0 && CellCols(c.scale) <= c.area.line
  }

  /** The glyph is set at a font row and column; each word holds six rows of five. */
  predicate GlyphBit(c: Cell, row: nat, col: nat) {
    Bit(if row < HALF then c.glyph0 else c.glyph1, FONT_WIDTH * (row % HALF) + col)
  }

  /** Where a byte lies: its pixel's row and column, and its place in the pixel. */
  datatype Spot = Spot(row: nat, col: nat, k: nat)

  function SpotOf(a: Area, p: nat): Spot
    requires AreaOk(a) && p >= a.base
  {
    Spot(RowOf(a, PixelOf(a, p)), ColOf(a, PixelOf(a, p)), (p - a.base) % a.bpp)
  }

  /** The byte at a spot of the cell: a magnified picture of the glyph. */
  function SpotByte(c: Cell, was: Byte, at: Spot): Byte
    requires CellOk(c)
  {
    if at.row < CellRows(c.scale) && at.col < CellCols(c.scale) then
      ColourByte(if GlyphBit(c, Shrunk(at.row, c.scale), Shrunk(at.col, c.scale)) then c.foreground else c.background, at.k)
    else was
  }

  /** Byte p of the frame buffer after drawing; nothing outside the cell changes. */
  function CellByte(c: Cell, was: Byte, p: nat): Byte
    requires CellOk(c)
  {
    if p < c.area.base then was else SpotByte(c, was, SpotOf(c.area, p))
  }

  ghost predicate Drawn(c: Cell, was: seq<Byte>, now: seq<Byte>)
    requires CellOk(c)
  {
    |now| == |was| && forall p :: 0 <= p < |was| ==> now[p] == CellByte(c, was[p], p)
  }

  function BackLayer(c: Cell): Layer {
    Layer(c.area, c.scale, Solid, c.background)
  }

  function UpperLayer(c: Cell): Layer {
    Layer(c.area, c.scale, Half(c.glyph0), c.foreground)
  }

  function LowerLayer(c: Cell): Layer {
    Layer(c.area.(base := At(c.area, LineAt(c.area.line, HalfRows(c.scale)))), c.scale, Half(c.glyph1), c.foreground)
  }

  /** Pixel q lies above line n exactly if its row does. */
  lemma AboveLine(a: Area, q: nat, n: nat)
    requires AreaOk(a)
    ensures q < LineAt(a.line, n) <==> RowOf(a, q) < n
    ensures q >= LineAt(a.line, n) ==>
      RowOf(a, q - LineAt(a.line, n)) == RowOf(a, q) - n && ColOf(a, q - LineAt(a.line, n)) == ColOf(a, q)
  {
    SplitQuotient(q, a.line);
    var r, c := q / a.line, q % a.line;
    if r < n {
      ProductMonotone(r + 1, n, a.line);
      assert (r + 1) * a.line == r * a.line + a.line;
    } else {
      ProductMonotone(n, r, a.line);
      assert (r - n) * a.line == r * a.line - n * a.line;
      QuotientUnique(q - n * a.line, a.line, r - n, c);
      SplitQuotient(q - n * a.line, a.line);
    }
  }

  /** The same byte seen from an area that starts k pixels later. */
  lemma LaterArea(a: Area, k: nat, p: nat)
    requires AreaOk(a)
    ensures var b := a.(base := At(a, k));
      && (p >= b.base <==> p >= a.base && PixelOf(a, p) >= k)
      && (p >= b.base ==> PixelOf(b, p) == PixelOf(a, p) - k && (p - b.base) % a.bpp == (p - a.base) % a.bpp)
  {
    if p >= a.base {
      var n := p - a.base;
      SplitQuotient(n, a.bpp);
      var q, m := n / a.bpp, n % a.bpp;
      if q >= k {
        ProductMonotone(k, q, a.bpp);
        assert (q - k) * a.bpp == q * a.bpp - k * a.bpp;
        QuotientUnique(n - k * a.bpp, a.bpp, q - k, m);
        SplitQuotient(n - k * a.bpp, a.bpp);
      } else {
        ProductMonotone(q + 1, k, a.bpp);
        assert (q + 1) * a.bpp == q * a.bpp + a.bpp;
      }
    }
  }

  lemma FontRow(row: nat, scale: nat)
    requires scale > 0
    ensures row < HalfRows(scale) <==> Shrunk(row, scale) < HALF
    ensures row < CellRows(scale) <==> Shrunk(row, scale) < FONT_HEIGHT
    ensures row >= HalfRows(scale) ==> Shrunk(row - HalfRows(scale), scale) == Shrunk(row, scale) - HALF
  {
    SplitQuotient(row, scale);
    var y := row / scale;
    if row < HalfRows(scale) {
      QuotientBelow(row, HALF, scale);
    } else {
      QuotientAtLeast(row, scale, HALF);
      assert (y - HALF) * scale == y * scale - HalfRows(scale);
      QuotientUnique(row - HalfRows(scale), scale, y - HALF, row % scale);
    }
    if row < CellRows(scale) {
      QuotientBelow(row, FONT_HEIGHT, scale);
    } else {
      QuotientAtLeast(row, scale, FONT_HEIGHT);
    }
  }

  lemma QuotientBelow(x: nat, n: nat, d: nat)
    requires d > 0 && x < n * d
    ensures x / d < n
  {
    SplitQuotient(x, d);
    if x / d >= n {
      ProductMonotone(n, x / d, d);
    }
  }

  /** The byte at a spot after a layer of so many rows. */
  function LayerByte(l: Layer, rows: nat, was: Byte, at: Spot): Byte
    requires LayerOk(l)
  {
    if at.row < rows && at.col < CellCols(l.scale) && Covers(l.ink, l.scale, at.row, at.col)
    then ColourByte(l.colour, at.k) else was
  }

  lemma LaidAtSpot(l: Layer, rows: nat, was: Byte, p: nat)
    requires LayerOk(l)
    ensures LaidByte(l, was, p, LineAt(l.area.line, rows))
      == if p < l.area.base then was else LayerByte(l, rows, was, SpotOf(l.area, p))
  {
    hide ColourByte, PixelOf, RowOf, ColOf, Covers;
    if p >= l.area.base {
      AboveLine(l.area, PixelOf(l.area, p), rows);
    }
  }

  /** The lower half's area holds the spots from the middle row on. */
  lemma LowerSpot(c: Cell, p: nat)
    requires CellOk(c)
    ensures var low := LowerLayer(c).area;
      && (p >= low.base <==> p >= c.area.base && SpotOf(c.area, p).row >= HalfRows(c.scale))
      && (p >= low.base ==> SpotOf(low, p) == SpotOf(c.area, p).(row := SpotOf(c.area, p).row - HalfRows(c.scale)))
  {
    hide PixelOf, At, RowOf, ColOf;
    LaterArea(c.area, LineAt(c.area.line, HalfRows(c.scale)), p);
    BelongsToLine(c);
    if p >= c.area.base {
      AboveLine(c.area, PixelOf(c.area, p), HalfRows(c.scale));
    }
  }

  lemma UpperCovers(c: Cell, row: nat, col: nat)
    requires c.scale > 0 && row < HalfRows(c.scale)
    ensures Covers(Half(c.glyph0), c.scale, row, col) == GlyphBit(c, Shrunk(row, c.scale), Shrunk(col, c.scale))
  {
    FontRow(row, c.scale);
    hide Bit;
  }

  lemma LowerCovers(c: Cell, row: nat, col: nat)
    requires c.scale > 0 && HalfRows(c.scale) <= row < CellRows(c.scale)
    ensures Covers(Half(c.glyph1), c.scale, row - HalfRows(c.scale), col) == GlyphBit(c, Shrunk(row, c.scale), Shrunk(col, c.scale))
  {
    FontRow(row, c.scale);
    hide Bit;
    var y := row / c.scale;
    assert HALF <= y < FONT_HEIGHT && y % HALF == y - HALF;
  }

  /** The three layers at a spot, one over the other. */
  lemma SpotsDraw(c: Cell, was: Byte, at: Spot)
    requires CellOk(c)
    requires LayerOk(BackLayer(c)) && LayerOk(UpperLayer(c)) && LayerOk(LowerLayer(c))
    ensures var m := LayerByte(BackLayer(c), CellRows(c.scale), was, at);
      var u := LayerByte(UpperLayer(c), HalfRows(c.scale), m, at);
      SpotByte(c, was, at) ==
        if at.row < HalfRows(c.scale) then u
        else LayerByte(LowerLayer(c), HalfRows(c.scale), u, at.(row := at.row - HalfRows(c.scale)))
  {
    if at.row < HalfRows(c.scale) {
      UpperCovers(c, at.row, at.col);
    } else if at.row < CellRows(c.scale) {
      LowerCovers(c, at.row, at.col);
    }
    assert Covers(Solid, c.scale, at.row, at.col);
    TwoHalves(c.scale);
    hide ColourByte, Bit, At, GlyphBit, Shrunk, LineAt, Covers, HalfRows, CellRows, CellCols;
  }

  /** The three layers, one over the other, make the picture. */
  lemma LayersDraw(c: Cell, was: Byte, p: nat)
    requires CellOk(c)
    requires LayerOk(BackLayer(c)) && LayerOk(UpperLayer(c)) && LayerOk(LowerLayer(c))
    ensures var m := LaidByte(BackLayer(c), was, p, LineAt(c.area.line, CellRows(c.scale)));
      var u := LaidByte(UpperLayer(c), m, p, LineAt(c.area.line, HalfRows(c.scale)));
      LaidByte(LowerLayer(c), u, p, LineAt(c.area.line, HalfRows(c.scale))) == CellByte(c, was, p)
  {
    hide LaidByte, LayerByte, SpotByte, SpotOf, At, LayerOk;
    var m := LaidByte(BackLayer(c), was, p, LineAt(c.area.line, CellRows(c.scale)));
    var u := LaidByte(UpperLayer(c), m, p, LineAt(c.area.line, HalfRows(c.scale)));
    LaidAtSpot(BackLayer(c), CellRows(c.scale), was, p);
    LaidAtSpot(UpperLayer(c), HalfRows(c.scale), m, p);
    LaidAtSpot(LowerLayer(c), HalfRows(c.scale), u, p);
    LowerSpot(c, p);
    if p >= c.area.base {
      SpotsDraw(c, was, SpotOf(c.area, p));
    }
  }

  lemma BelongsToLine(c: Cell)
    requires CellOk(c)
    ensures LayerOk(BackLayer(c)) && LayerOk(UpperLayer(c)) && LayerOk(LowerLayer(c))
    ensures forall q: nat :: RowOf(LowerLayer(c).area, q) == RowOf(c.area, q) && ColOf(LowerLayer(c).area, q) == ColOf(c.area, q)
  {
  }

  lemma PictureDrawn(c: Cell, was: seq<Byte>, m: seq<Byte>, u: seq<Byte>, now: seq<Byte>)
    requires CellOk(c)
    requires Laid(BackLayer(c), was, m, LineAt(c.area.line, CellRows(c.scale)))
    requires Laid(UpperLayer(c), m, u, LineAt(c.area.line, HalfRows(c.scale)))
    requires Laid(LowerLayer(c), u, now, LineAt(c.area.line, HalfRows(c.scale)))
    ensures Drawn(c, was, now)
  {
    BelongsToLine(c);
    hide LaidByte, CellByte, At, CellOk, LayerOk;
    forall p | 0 <= p < |was|
      ensures now[p] == CellByte(c, was[p], p)
    {
      LayersDraw(c, was[p], p);
    }
  }

  /** The cell lies inside the frame buffer. */
  predicate Inside(c: Cell, size: nat)
    requires CellOk(c)
  {
    At(c.area, LineAt(c.area.line, CellRows(c.scale) - 1) + CellCols(c.scale)) <= size
  }

  lemma RowInside(c: Cell, size: nat, r: nat)
    requires CellOk(c) && Inside(c, size) && r < CellRows(c.scale)
    ensures At(c.area, LineAt(c.area.line, r) + CellCols(c.scale)) <= size
  {
    hide At, CellRows, CellCols;
    ProductMonotone(r, CellRows(c.scale) - 1, c.area.line);
    AtOrder(c.area, LineAt(c.area.line, r) + CellCols(c.scale), LineAt(c.area.line, CellRows(c.scale) - 1) + CellCols(c.scale));
  }

  lemma LowerRowInside(c: Cell, size: nat, r: nat)
    requires CellOk(c) && Inside(c, size) && r < HalfRows(c.scale)
    ensures At(LowerLayer(c).area, LineAt(c.area.line, r) + CellCols(c.scale)) <= size
  {
    TwoHalves(c.scale);
    RowInside(c, size, r + HalfRows(c.scale));
    assert LineAt(c.area.line, r + HalfRows(c.scale)) == LineAt(c.area.line, r) + LineAt(c.area.line, HalfRows(c.scale));
    hide At, CellRows, CellCols, HalfRows, LineAt, Inside;
    AtLater(c.area, LineAt(c.area.line, HalfRows(c.scale)), LineAt(c.area.line, r) + CellCols(c.scale));
  }

  lemma LayersRoomy(c: Cell, size: nat)
    requires CellOk(c) && Inside(c, size)
    ensures Roomy(BackLayer(c), HalfRows(c.scale), size) && Roomy(BackLayer(c), HalfRows(c.scale) + HalfRows(c.scale), size)
    ensures Roomy(UpperLayer(c), HalfRows(c.scale), size) && Roomy(LowerLayer(c), HalfRows(c.scale), size)
  {
    TwoHalves(c.scale);
    hide At, CellRows, CellCols, HalfRows, LineAt, Inside, CellOk;
    forall r | 0 <= r < CellRows(c.scale)
      ensures At(c.area, LineAt(c.area.line, r) + CellCols(c.scale)) <= size
    {
      RowInside(c, size, r);
    }
    forall r | 0 <= r < HalfRows(c.scale)
      ensures At(LowerLayer(c).area, LineAt(c.area.line, r) + CellCols(c.scale)) <= size
    {
      LowerRowInside(c, size, r);
    }
  }

  lemma AtLater(a: Area, k: nat, q: nat)
    ensures At(a.(base := At(a, k)), q) == At(a, k + q)
  {
    assert (k + q) * a.bpp == k * a.bpp + q * a.bpp;
  }

  /** The two background loops. */
  method DrawBackground(pixels: array<Byte>, c: Cell, ghost was: seq<Byte>)
    requires CellOk(c) && LayerOk(BackLayer(c)) && was == pixels[..]
    requires Roomy(BackLayer(c), HalfRows(c.scale), pixels.Length) && Roomy(BackLayer(c), HalfRows(c.scale) + HalfRows(c.scale), pixels.Length)
    modifies pixels
    ensures Laid(BackLayer(c), was, pixels[..], LineAt(c.area.line, CellRows(c.scale)))
  {
    NothingLaid(BackLayer(c), was);
    StartOf(c.area);
    hide Laid, LayerOk, At, Roomy, CellOk, LineAt, HalfRows, CellRows, CellCols;
    var bgPixels := c.area.base;
    bgPixels := FillHalf(pixels, BackLayer(c), bgPixels, was, 0);
    bgPixels := FillHalf(pixels, BackLayer(c), bgPixels, was, HalfRows(c.scale));
    TwoHalves(c.scale);
  }

  /** FbConDrawglyph: the background, then the two words of the glyph. */
  method DrawGlyph(pixels: array<Byte>, c: Cell)
    requires CellOk(c) && Inside(c, pixels.Length)
    modifies pixels
    ensures Drawn(c, old(pixels[..]), pixels[..])
  {
    ghost var was := pixels[..];
    BelongsToLine(c);
    LayersRoomy(c, pixels.Length);
    StartOf(c.area);
    StartOf(LowerLayer(c).area);
    hide Laid, LayerOk, Drawn, Inside, At, Roomy, CellOk, LineAt, HalfRows, CellRows, CellCols;
    DrawBackground(pixels, c, was);
    ghost var m := pixels[..];
    var at := c.area.base;
    at := DrawHalf(pixels, UpperLayer(c), at, m);
    ghost var u := pixels[..];
    at := DrawHalf(pixels, LowerLayer(c), at, u);
    PictureDrawn(c, was, m, u, pixels[..]);
  }

  lemma StartOf(a: Area)
    ensures At(a, 0) == a.base && LineAt(a.line, 0) == 0
  {
  }

  /** Pixel (r, col) of the cell shows the foreground exactly where the glyph is set. */
  lemma PixelShown(c: Cell, was: seq<Byte>, now: seq<Byte>, r: nat, col: nat, k: nat)
    requires CellOk(c) && Drawn(c, was, now) && r < FONT_HEIGHT * c.scale && col < FONT_WIDTH * c.scale && k < c.area.bpp
    requires At(c.area, r * c.area.line + col) + k < |was|
    ensures now[At(c.area, r * c.area.line + col) + k]
      == ColourByte(if GlyphBit(c, r / c.scale, col / c.scale) then c.foreground else c.background, k)
  {
    TwoHalves(c.scale);
    var q := LineAt(c.area.line, r) + col;
    var p := At(c.area, q) + k;
    PixelBytes(c.area, p, q);
    BaseFirst(c.area, q);
    RowCol(c.area, r, col);
    assert SpotOf(c.area, p) == Spot(r, col, k);
    hide ColourByte, GlyphBit;
  }
}
