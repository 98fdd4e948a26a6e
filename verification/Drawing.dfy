/** Characters and bitmaps on the frame buffer. */
module Drawing {
  import opened Bytes
  import opened FrameBuffer

  /** Bit j of a byte: the lowest after j shifts to the right. */
  predicate BitOf(b: nat, j: nat) {
    if j == 0 then b % 2 == 1 else BitOf(b / 2, j - 1)
  }

  /** A number is its lowest bit and twice the rest, whose bits are the others. */
  lemma OneBit(b: nat) returns (rest: nat)
    ensures b == (if BitOf(b, 0) then 1 else 0) + 2 * rest
    ensures forall j: nat :: BitOf(b, j + 1) == BitOf(rest, j)
  {
    rest := b / 2;
  }

  lemma TwoBits(b: nat) returns (rest: nat)
    ensures b == (if BitOf(b, 0) then 1 else 0) + (if BitOf(b, 1) then 2 else 0) + 4 * rest
    ensures forall j: nat :: BitOf(b, j + 2) == BitOf(rest, j)
  {
    hide BitOf;
    var half := OneBit(b);
    rest := OneBit(half);
    assert BitOf(b, 0 + 1) == BitOf(half, 0);
    forall j: nat ensures BitOf(b, j + 2) == BitOf(rest, j) {
      assert BitOf(b, (j + 1) + 1) == BitOf(half, j + 1);
    }
  }

  /** A byte is the sum of the powers of two of its bits. */
  lemma ByteIsSumOfBits(b: Byte)
    ensures b == (if BitOf(b, 0) then 1 else 0) + (if BitOf(b, 1) then 2 else 0)
               + (if BitOf(b, 2) then 4 else 0) + (if BitOf(b, 3) then 8 else 0)
               + (if BitOf(b, 4) then 16 else 0) + (if BitOf(b, 5) then 32 else 0)
               + (if BitOf(b, 6) then 64 else 0) + (if BitOf(b, 7) then 128 else 0)
  {
    hide BitOf;
    var b2 := TwoBits(b);
    var b4 := TwoBits(b2);
    var b6 := TwoBits(b4);
    var b8 := TwoBits(b6);
    assert BitOf(b, 0 + 2) == BitOf(b2, 0) && BitOf(b, 1 + 2) == BitOf(b2, 1);
    assert BitOf(b, 2 + 2) == BitOf(b2, 0 + 2) == BitOf(b4, 0);
    assert BitOf(b, 3 + 2) == BitOf(b2, 1 + 2) == BitOf(b4, 1);
    assert BitOf(b, 4 + 2) == BitOf(b2, 2 + 2) == BitOf(b4, 0 + 2) == BitOf(b6, 0);
    assert BitOf(b, 5 + 2) == BitOf(b2, 3 + 2) == BitOf(b4, 1 + 2) == BitOf(b6, 1);
  }

  // --------------------------------------------------------------- characters

  /** Bytes per column of a glyph: font[0] is the height in pixels. */
  function PartsPerLine(font: seq<Byte>): nat
    requires |font| >= 5
  {
    font[0] / 8 + (if font[0] % 8 > 0 then 1 else 0)
  }

  /** The first byte of column w of the glyph of c. */
  function ColumnStart(font: seq<Byte>, c: Byte, w: nat): nat
    requires |font| >= 5 && font[3] <= c
  {
    var (parts, columns) := (PartsPerLine(font), font[1] as int);
    var before := (c as int - font[3] as int) * columns;
    ColumnsGrow(0, c as int - font[3] as int, columns);
    ColumnsGrow(0, before, parts);
    ColumnsGrow(0, w, parts);
    before * parts + w * parts + 5
  }

  predicate HasGlyph(font: seq<Byte>, c: Byte)
    requires |font| >= 5
  {
    font[3] <= c <= font[4]
  }

  /** A font with the bytes of all the glyphs its header announces. */
  ghost predicate ValidFont(font: seq<Byte>) {
    && |font| >= 5
    && forall c: Byte | HasGlyph(font, c) :: ColumnStart(font, c, font[1]) <= |font|
  }

  /** The glyphs tile the font: behind five bytes of header, those of the first character
    * up to the last, each column by column; a column has a byte for every eight rows begun.
    */
  lemma GlyphsTile(font: seq<Byte>, c: Byte, w: nat)
    requires |font| >= 5 && font[3] <= c
    ensures ColumnStart(font, font[3], 0) == 5
    ensures ColumnStart(font, c, w + 1) == ColumnStart(font, c, w) + (font[0] as int + 7) / 8
    ensures c < 0xFF ==> ColumnStart(font, c + 1, 0) == ColumnStart(font, c, font[1])
  {
    var (parts, columns, k) := (PartsPerLine(font), font[1] as int, c as int - font[3] as int);
    assert parts == (font[0] as int + 7) / 8;
    assert (w + 1) * parts == w * parts + parts;
    assert (k + 1) * columns == k * columns + columns;
    assert (k * columns + columns) * parts == k * columns * parts + columns * parts;
  }

  /** So different characters read different bytes. */
  lemma {:induction false} GlyphsAreApart(font: seq<Byte>, a: Byte, b: Byte)
    requires |font| >= 5 && font[3] <= a < b
    ensures ColumnStart(font, a, font[1]) <= ColumnStart(font, b, 0)
    decreases b
  {
    hide ColumnStart;
    GlyphsTile(font, b - 1, 0);
    if a < b - 1 {
      GlyphsAreApart(font, a, b - 1);
      ColumnsInOrder(font, b - 1, font[1]);
    }
  }

  lemma {:induction false} ColumnsInOrder(font: seq<Byte>, c: Byte, w: nat)
    requires |font| >= 5 && font[3] <= c
    ensures ColumnStart(font, c, 0) <= ColumnStart(font, c, w)
    decreases w
  {
    hide ColumnStart;
    if w > 0 {
      GlyphsTile(font, c, w - 1);
      ColumnsInOrder(font, c, w - 1);
    }
  }

  lemma ColumnIsInFont(font: seq<Byte>, c: Byte, w: nat)
    requires ValidFont(font) && HasGlyph(font, c) && w < font[1]
    ensures ColumnStart(font, c, w) + PartsPerLine(font) <= |font|
  {
    var (parts, columns) := (PartsPerLine(font), font[1] as int);
    assert ColumnStart(font, c, columns) <= |font|;
    ColumnsGrow(w + 1, columns, parts);
    assert (w + 1) * parts == w * parts + parts;
  }

  lemma ColumnsGrow(a: nat, b: nat, c: nat)
    requires a <= b
    ensures a * c <= b * c
  {}

  /** Row r of column w of a glyph is set: rows run down from the lowest bit. */
  predicate GlyphBit(font: seq<Byte>, c: Byte, w: nat, r: nat)
    requires |font| >= 5 && font[3] <= c
  {
    && ColumnStart(font, c, w) + r / 8 < |font|
    && BitOf(font[ColumnStart(font, c, w) + r / 8], r % 8)
  }

  lemma GlyphBitIsBitOf(font: seq<Byte>, c: Byte, w: nat, lp: nat, j: nat)
    requires |font| >= 5 && font[3] <= c && ColumnStart(font, c, w) + lp < |font| && j < 8
    ensures GlyphBit(font, c, w, 8 * lp + j) <==> BitOf(font[ColumnStart(font, c, w) + lp], j)
  {
    hide ColumnStart, BitOf;
  }

  /** A byte of a column holds eight rows of the glyph, the uppermost in the lowest bit. */
  lemma RowsOfColumn(font: seq<Byte>, c: Byte, w: nat, lp: nat)
    requires |font| >= 5 && font[3] <= c && ColumnStart(font, c, w) + lp < |font|
    ensures font[ColumnStart(font, c, w) + lp]
         == (if GlyphBit(font, c, w, 8 * lp) then 1 else 0) + (if GlyphBit(font, c, w, 8 * lp + 1) then 2 else 0)
          + (if GlyphBit(font, c, w, 8 * lp + 2) then 4 else 0) + (if GlyphBit(font, c, w, 8 * lp + 3) then 8 else 0)
          + (if GlyphBit(font, c, w, 8 * lp + 4) then 16 else 0) + (if GlyphBit(font, c, w, 8 * lp + 5) then 32 else 0)
          + (if GlyphBit(font, c, w, 8 * lp + 6) then 64 else 0) + (if GlyphBit(font, c, w, 8 * lp + 7) then 128 else 0)
  {
    hide ColumnStart, BitOf, GlyphBit;
    ByteIsSumOfBits(font[ColumnStart(font, c, w) + lp]);
    GlyphBitIsBitOf(font, c, w, lp, 0);
    GlyphBitIsBitOf(font, c, w, lp, 1);
    GlyphBitIsBitOf(font, c, w, lp, 2);
    GlyphBitIsBitOf(font, c, w, lp, 3);
    GlyphBitIsBitOf(font, c, w, lp, 4);
    GlyphBitIsBitOf(font, c, w, lp, 5);
    GlyphBitIsBitOf(font, c, w, lp, 6);
    GlyphBitIsBitOf(font, c, w, lp, 7);
  }

  /** Where a character is drawn, and how large. */
  datatype Placing = Placing(x: nat, y: nat, scale: nat)

  /** The left edge of column w and the upper edge of row r, in 32 bits. */
  function ColumnEdge(at: Placing, w: nat): nat {
    U32(at.x + w * at.scale)
  }

  function RowEdge(at: Placing, r: nat): nat {
    U32(at.y + r * at.scale)
  }

  /** The scaled square of row r of column w. */
  predicate Covers(at: Placing, w: nat, r: nat, px: nat, py: nat) {
    InSquare(px, py, ColumnEdge(at, w), RowEdge(at, r), at.scale, at.scale)
  }

  /** A set bit of column w from row a up to row b covers the pixel. */
  ghost predicate RowsLight(font: seq<Byte>, c: Byte, at: Placing, w: nat, a: nat, b: nat, px: nat, py: nat)
    requires |font| >= 5 && font[3] <= c
  {
    exists r: nat :: a <= r < b && GlyphBit(font, c, w, r) && Covers(at, w, r, px, py)
  }

  /** A set bit of one of the first n columns covers the pixel. */
  ghost predicate GlyphLights(font: seq<Byte>, c: Byte, at: Placing, n: nat, px: nat, py: nat)
    requires |font| >= 5 && font[3] <= c
  {
    exists w: nat :: w < n && RowsLight(font, c, at, w, 0, 8 * PartsPerLine(font), px, py)
  }

  lemma RowsMeet(font: seq<Byte>, c: Byte, at: Placing, w: nat, a: nat, m: nat, b: nat, px: nat, py: nat)
    requires |font| >= 5 && font[3] <= c && a <= m <= b
    ensures RowsLight(font, c, at, w, a, b, px, py)
            <==> RowsLight(font, c, at, w, a, m, px, py) || RowsLight(font, c, at, w, m, b, px, py)
  {
    hide GlyphBit, Covers;
  }

  lemma OneRow(font: seq<Byte>, c: Byte, at: Placing, w: nat, r: nat, px: nat, py: nat)
    requires |font| >= 5 && font[3] <= c
    ensures RowsLight(font, c, at, w, r, r + 1, px, py) <==> GlyphBit(font, c, w, r) && Covers(at, w, r, px, py)
  {
    hide GlyphBit, Covers;
  }

  lemma OneMoreColumn(font: seq<Byte>, c: Byte, at: Placing, n: nat, px: nat, py: nat)
    requires |font| >= 5 && font[3] <= c
    ensures GlyphLights(font, c, at, n + 1, px, py)
            <==> GlyphLights(font, c, at, n, px, py) || RowsLight(font, c, at, n, 0, 8 * PartsPerLine(font), px, py)
  {
    hide RowsLight;
  }

  /** The eight rows of byte lp of a column. */
  method DrawPart(p: Display, at: Placing, font: seq<Byte>, c: Byte, w: nat, lp: nat)
    requires p.Valid() && at.scale < WORD && ValidFont(font) && HasGlyph(font, c)
    requires w < font[1] && lp < PartsPerLine(font)
    modifies p.buffer
    ensures forall px, py {:trigger p.Lit(px, py)} | 0 <= px && 0 <= py && p.OnScreen(px, py) ::
              p.Lit(px, py)
              <==> old(p.Lit(px, py)) || RowsLight(font, c, at, w, 8 * lp, 8 * lp + 8, px, py)
  {
    hide p.Lit, InSquare, ColumnEdge, RowEdge, GlyphBit, RowsLight, ColumnStart, PartsPerLine, U32;
    ColumnIsInFont(font, c, w);
    var byte := font[ColumnStart(font, c, w) + lp] as int;
    var line := byte;
    forall px, py | 0 <= px && 0 <= py ensures !RowsLight(font, c, at, w, 8 * lp, 8 * lp, px, py) {
      NoRows(font, c, at, w, 8 * lp, px, py);
    }
    var j := 0;
    while j < 8
      invariant 0 <= j <= 8 && line >= 0
      invariant forall k: nat | j <= k :: BitOf(byte, k) == BitOf(line, k - j)
      invariant forall px, py {:trigger p.Lit(px, py)} | 0 <= px && 0 <= py && p.OnScreen(px, py) ::
                  p.Lit(px, py)
                  <==> old(p.Lit(px, py)) || RowsLight(font, c, at, w, 8 * lp, 8 * lp + j, px, py)
    {
      var r := 8 * lp + j;
      GlyphBitIsBitOf(font, c, w, lp, j);
      assert line % 2 == 1 <==> BitOf(byte, j);
      label before:
      if line % 2 == 1 {
        p.DrawSquare(ColumnEdge(at, w), RowEdge(at, r), at.scale, at.scale);
      }
      forall px, py | 0 <= px && 0 <= py && p.OnScreen(px, py)
        ensures p.Lit(px, py)
                <==> old(p.Lit(px, py)) || RowsLight(font, c, at, w, 8 * lp, r + 1, px, py)
      {
        RowsMeet(font, c, at, w, 8 * lp, r, r + 1, px, py);
        OneRow(font, c, at, w, r, px, py);
        assert p.Lit(px, py) <==> old@before(p.Lit(px, py)) || (line % 2 == 1 && Covers(at, w, r, px, py));
      }
      line := line / 2;
      j := j + 1;
    }
  }

  lemma NoRows(font: seq<Byte>, c: Byte, at: Placing, w: nat, a: nat, px: nat, py: nat)
    requires |font| >= 5 && font[3] <= c
    ensures !RowsLight(font, c, at, w, a, a, px, py)
  {}

  /** One column of a glyph. */
  method DrawGlyphColumn(p: Display, at: Placing, font: seq<Byte>, c: Byte, w: nat)
    requires p.Valid() && at.scale < WORD && ValidFont(font) && HasGlyph(font, c) && w < font[1]
    modifies p.buffer
    ensures forall px, py {:trigger p.Lit(px, py)} | 0 <= px && 0 <= py && p.OnScreen(px, py) ::
              p.Lit(px, py)
              <==> old(p.Lit(px, py)) || RowsLight(font, c, at, w, 0, 8 * PartsPerLine(font), px, py)
  {
    hide p.Lit, RowsLight, ColumnStart, PartsPerLine;
    forall px, py | 0 <= px && 0 <= py ensures !RowsLight(font, c, at, w, 0, 0, px, py) {
      NoRows(font, c, at, w, 0, px, py);
    }
    var lp := 0;
    while lp < PartsPerLine(font)
      invariant 0 <= lp <= PartsPerLine(font)
      invariant forall px, py {:trigger p.Lit(px, py)} | 0 <= px && 0 <= py && p.OnScreen(px, py) ::
                  p.Lit(px, py) <==> old(p.Lit(px, py)) || RowsLight(font, c, at, w, 0, 8 * lp, px, py)
    {
      DrawPart(p, at, font, c, w, lp);
      forall px, py | 0 <= px && 0 <= py
        ensures RowsLight(font, c, at, w, 0, 8 * lp + 8, px, py)
                <==> RowsLight(font, c, at, w, 0, 8 * lp, px, py)
                     || RowsLight(font, c, at, w, 8 * lp, 8 * lp + 8, px, py)
      {
        RowsMeet(font, c, at, w, 0, 8 * lp, 8 * lp + 8, px, py);
      }
      lp := lp + 1;
    }
  }

  /** ssd1306_draw_char_with_font */
  method DrawChar(p: Display, at: Placing, font: seq<Byte>, c: Byte)
    requires p.Valid() && at.scale < WORD && ValidFont(font)
    modifies p.buffer
    ensures forall px, py {:trigger p.Lit(px, py)} | 0 <= px < p.width && 0 <= py < p.height ::
              p.Lit(px, py)
              <==> old(p.Lit(px, py)) || (font[3] <= c <= font[4] && GlyphLights(font, c, at, font[1], px, py))
  {
    hide p.Lit, RowsLight, GlyphLights, ColumnStart, PartsPerLine;
    if c < font[3] || c > font[4] {
      return;
    }
    forall px, py | 0 <= px && 0 <= py ensures !GlyphLights(font, c, at, 0, px, py) {
      NoColumns(font, c, at, px, py);
    }
    var w := 0;
    while w < font[1] as int
      invariant 0 <= w <= font[1] as int
      invariant forall px, py {:trigger p.Lit(px, py)} | 0 <= px && 0 <= py && p.OnScreen(px, py) ::
                  p.Lit(px, py) <==> old(p.Lit(px, py)) || GlyphLights(font, c, at, w, px, py)
    {
      DrawGlyphColumn(p, at, font, c, w);
      forall px, py | 0 <= px && 0 <= py
        ensures GlyphLights(font, c, at, w + 1, px, py)
                <==> GlyphLights(font, c, at, w, px, py)
                     || RowsLight(font, c, at, w, 0, 8 * PartsPerLine(font), px, py)
      {
        OneMoreColumn(font, c, at, w, px, py);
      }
      w := w + 1;
    }
  }

  lemma NoColumns(font: seq<Byte>, c: Byte, at: Placing, px: nat, py: nat)
    requires |font| >= 5 && font[3] <= c
    ensures !GlyphLights(font, c, at, 0, px, py)
  {}

  /** Where nothing wraps, a character lights exactly the scaled set bits of its
    * glyph: the pixel's column and row of the glyph are quotients by the scale.
    */
  lemma CharIsScaledGlyph(font: seq<Byte>, c: Byte, at: Placing, px: nat, py: nat)
    requires |font| >= 5 && font[3] <= c
    requires at.scale > 0 && px < WORD && py < WORD
    requires at.x + font[1] as int * at.scale <= WORD && at.y + 8 * PartsPerLine(font) * at.scale <= WORD
    ensures GlyphLights(font, c, at, font[1], px, py) <==>
            && at.x <= px < at.x + font[1] as int * at.scale
            && at.y <= py < at.y + 8 * PartsPerLine(font) * at.scale
            && GlyphBit(font, c, (px - at.x) / at.scale, (py - at.y) / at.scale)
  {
    hide GlyphBit, GlyphLights, Covers, PartsPerLine;
    var (columns, rows) := (font[1] as int, 8 * PartsPerLine(font));
    var (column, row) := ((px - at.x) / at.scale, (py - at.y) / at.scale);
    forall w: nat, r: nat | w < columns && r < rows
      ensures Covers(at, w, r, px, py) <==> at.x <= px && at.y <= py && w == column && r == row
    {
      CoversIsQuotient(at, columns, rows, w, r, px, py);
    }
    if at.x <= px && at.y <= py {
      QuotientIsBelow(px - at.x, at.scale, columns);
      QuotientIsBelow(py - at.y, at.scale, rows);
    }
    GlyphOfOneBlock(font, c, at, px, py, at.x <= px && at.y <= py, column, row);
  }

  /** When only the block of one column and row can cover the pixel, that block's bit
    * decides.
    */
  lemma GlyphOfOneBlock(font: seq<Byte>, c: Byte, at: Placing, px: nat, py: nat, inside: bool, column: int, row: int)
    requires |font| >= 5 && font[3] <= c && (inside ==> column >= 0 && row >= 0)
    requires forall w: nat, r: nat | w < font[1] && r < 8 * PartsPerLine(font) ::
               Covers(at, w, r, px, py) <==> inside && w == column && r == row
    ensures GlyphLights(font, c, at, font[1], px, py) <==>
            inside && column < font[1] && row < 8 * PartsPerLine(font) && GlyphBit(font, c, column, row)
  {
    hide GlyphBit, Covers, PartsPerLine;
    if inside && column < font[1] && row < 8 * PartsPerLine(font) && GlyphBit(font, c, column, row) {
      assert RowsLight(font, c, at, column, 0, 8 * PartsPerLine(font), px, py);
    }
  }

  lemma CoversIsQuotient(at: Placing, columns: nat, rows: nat, w: nat, r: nat, px: nat, py: nat)
    requires at.scale > 0 && px < WORD && py < WORD && w < columns && r < rows
    requires at.x + columns * at.scale <= WORD && at.y + rows * at.scale <= WORD
    ensures Covers(at, w, r, px, py) <==>
            at.x <= px && at.y <= py && w == (px - at.x) / at.scale && r == (py - at.y) / at.scale
  {
    hide U32;
    BlockIsQuotient(at.x, columns, w, at.scale, px);
    BlockIsQuotient(at.y, rows, r, at.scale, py);
  }

  lemma BlockIsQuotient(x: nat, columns: nat, w: nat, scale: nat, p: nat)
    requires scale > 0 && p < WORD && w < columns && x + columns * scale <= WORD
    ensures U32(p - U32(x + w * scale)) < scale <==> x <= p && w == (p - x) / scale
  {
    hide U32;
    BlockIsBelow(w, columns, scale);
    var start := x + w * scale;
    assert U32(start) == start;
    WrapsBelow(p, start, scale);
    InBlockIff(p - x, scale, w);
  }

  lemma BlockIsBelow(w: nat, columns: nat, scale: nat)
    requires w < columns
    ensures w * scale + scale <= columns * scale
  {
    ColumnsGrow(w + 1, columns, scale);
    assert (w + 1) * scale == w * scale + scale;
  }

  /** d lies in block w of the given width exactly when w is its quotient. */
  lemma InBlockIff(d: int, scale: nat, w: nat)
    requires scale > 0
    ensures w * scale <= d < w * scale + scale <==> 0 <= d && w == d / scale
  {
    if w * scale <= d < w * scale + scale {
      var q := d / scale;
      assert d == q * scale + d % scale;
      if q < w {
        BlockIsBelow(q, w, scale);
      } else if w < q {
        BlockIsBelow(w, q, scale);
      }
    }
  }

  lemma QuotientIsBelow(d: nat, scale: nat, n: nat)
    requires scale > 0
    ensures 0 <= d / scale && (d / scale < n <==> d < n * scale)
  {
    var q := d / scale;
    assert d == q * scale + d % scale;
    if q < n {
      BlockIsBelow(q, n, scale);
    } else {
      ColumnsGrow(n, q, scale);
    }
  }

  // ------------------------------------------------------------------ bitmaps

  const HEADER := 54

  /** A monochrome bitmap without compression. */
  predicate Drawable(data: seq<Byte>) {
    |data| >= HEADER && Le16(data, 28) == 1 && Le32(data, 30) == 0
  }

  /** The palette follows the information header. */
  function Palette(data: seq<Byte>, i: nat): nat
    requires |data| >= HEADER
  {
    14 + Le32(data, 14) + 4 * i
  }

  predicate IsBlack(data: seq<Byte>, i: nat)
    requires |data| >= HEADER && Palette(data, i) + 3 <= |data|
  {
    var at := Palette(data, i);
    data[at] == 0 && data[at + 1] == 0 && data[at + 2] == 0
  }

  function Width(data: seq<Byte>): (r: int)
    requires |data| >= HEADER
    ensures r < 0x8000_0000
  {
    Int32(Le32(data, 18))
  }

  function Height(data: seq<Byte>): (r: int)
    requires |data| >= HEADER
    ensures r < 0x8000_0000
  {
    Int32(Le32(data, 22))
  }

  /** The source's bytes per line, rounded up to a multiple of four. */
  function Stride(width: nat): nat {
    var line := width / 8 + (if width % 8 > 0 then 1 else 0);
    if line % 4 != 0 then line - line % 4 + 4 else line
  }

  /** That is four bytes for every 32 pixels. */
  lemma StrideIsWholeWords(width: nat)
    ensures Stride(width) == 4 * ((width + 31) / 32)
    ensures width <= 8 * Stride(width)
  {}

  /** The first byte of the image row drawn at height y: rows are stored from the
    * bottom up.
    */
  function RowStart(data: seq<Byte>, y: nat): nat
    requires |data| >= HEADER && Width(data) >= 0 && y < Height(data)
  {
    ColumnsGrow(0, Height(data) - 1 - y, Stride(Width(data)));
    Le32(data, 10) + (Height(data) - 1 - y) * Stride(Width(data))
  }

  /** A bottom-up bitmap with its palette, a black entry in it, and all its rows. */
  ghost predicate Complete(data: seq<Byte>) {
    && |data| >= HEADER
    && Palette(data, 2) <= |data|
    && (IsBlack(data, 0) || IsBlack(data, 1))
    && Width(data) >= 0 && Height(data) > 0
    && Le32(data, 10) + Height(data) * Stride(Width(data)) <= |data|
  }

  lemma RowIsInData(data: seq<Byte>, x: nat, y: nat)
    requires Complete(data) && x < Width(data) && y < Height(data)
    ensures RowStart(data, y) + x / 8 < |data|
  {
    hide IsBlack, Palette, Stride, Width, Height;
    StrideIsWholeWords(Width(data));
    BlockIsBelow(Height(data) - 1 - y, Height(data), Stride(Width(data)));
  }

  /** Pixel (x, y) of the image, counted from the top left: an index into the
    * palette. The highest bit of a byte is the leftmost pixel.
    */
  predicate ImageBit(data: seq<Byte>, x: nat, y: nat)
    requires Complete(data) && x < Width(data) && y < Height(data)
  {
    RowIsInData(data, x, y);
    BitOf(data[RowStart(data, y) + x / 8], 7 - x % 8)
  }

  function BlackIndex(data: seq<Byte>): (i: nat)
    requires Complete(data)
    ensures i < 2
  {
    if IsBlack(data, 0) then 0 else 1
  }

  /** The image, put at an offset, has a pixel to light at (px, py), among the first n
    * of row y.
    */
  ghost predicate RowLights(data: seq<Byte>, y: nat, n: nat, xo: nat, px: nat)
    requires Complete(data) && y < Height(data) && n <= Width(data)
  {
    U32(px - xo) < n && ImageBit(data, U32(px - xo), y) == (BlackIndex(data) == 1)
  }

  /** ... and in a row from y down to the bottom. */
  ghost predicate ImageLights(data: seq<Byte>, y: nat, xo: nat, yo: nat, px: nat, py: nat)
    requires Complete(data)
  {
    y <= U32(py - yo) < Height(data) && RowLights(data, U32(py - yo), Width(data), xo, px)
  }

  /** One row of the image. */
  method ShowRow(p: Display, data: seq<Byte>, start: nat, colour: nat, y: nat, xo: nat, yo: nat)
    requires p.Valid() && Complete(data) && y < Height(data)
    requires start == RowStart(data, y) && colour == BlackIndex(data)
    modifies p.buffer
    ensures forall px, py {:trigger p.Lit(px, py)} | 0 <= px && 0 <= py && p.OnScreen(px, py) ::
              p.Lit(px, py)
              <==> old(p.Lit(px, py)) || (U32(py - yo) == y && RowLights(data, y, Width(data), xo, px))
  {
    hide p.Lit, U32, BitOf, RowStart, Stride, BlackIndex, Width, Height, IsBlack, Palette;
    var x := 0;
    while x < Width(data)
      invariant 0 <= x <= Width(data)
      invariant forall px, py {:trigger p.Lit(px, py)} | 0 <= px && 0 <= py && p.OnScreen(px, py) ::
                  p.Lit(px, py)
                  <==> old(p.Lit(px, py)) || (U32(py - yo) == y && RowLights(data, y, x, xo, px))
    {
      RowIsInData(data, x, y);
      var bit := if BitOf(data[start + x / 8], 7 - x % 8) then 1 else 0;
      assert bit == colour <==> ImageBit(data, x, y) == (BlackIndex(data) == 1);
      if bit == colour {
        p.DrawPixel(U32(xo + x), U32(yo + y));
      }
      forall px, py | 0 <= px && 0 <= py && p.OnScreen(px, py)
        ensures px == U32(xo + x) && py == U32(yo + y) <==> U32(px - xo) == x && U32(py - yo) == y
      {
        WrapInverse(px, xo, x);
        WrapInverse(py, yo, y);
      }
      x := x + 1;
    }
  }

  /** ssd1306_bmp_show_image_with_offset, for images with positive height. */
  method ShowImage(p: Display, data: seq<Byte>, xo: nat, yo: nat)
    requires p.Valid() && |data| < 0x8000_0000
    requires Drawable(data) ==> Complete(data)
    modifies p.buffer
    ensures |data| < 54 || Le16(data, 28) != 1 || Le32(data, 30) != 0 ==> p.buffer[..] == old(p.buffer[..])
    ensures Drawable(data) ==>
              forall px, py {:trigger p.Lit(px, py)} | 0 <= px < p.width && 0 <= py < p.height ::
                p.Lit(px, py) <==> old(p.Lit(px, py)) || ImageLights(data, 0, xo, yo, px, py)
  {
    if |data| < HEADER || Le16(data, 28) != 1 || Le32(data, 30) != 0 {
      return;
    }
    var colour := 0;
    while colour < 2 && !IsBlack(data, colour)
      invariant 0 <= colour <= BlackIndex(data)
      decreases 2 - colour
    {
      colour := colour + 1;
    }
    ShowRows(p, data, colour, xo, yo);
  }

  /** The rows of the image, from the bottom up. */
  method ShowRows(p: Display, data: seq<Byte>, colour: nat, xo: nat, yo: nat)
    requires p.Valid() && Complete(data) && colour == BlackIndex(data)
    modifies p.buffer
    ensures forall px, py {:trigger p.Lit(px, py)} | 0 <= px && 0 <= py && p.OnScreen(px, py) ::
              p.Lit(px, py) <==> old(p.Lit(px, py)) || ImageLights(data, 0, xo, yo, px, py)
  {
    hide p.Lit, U32, Stride, RowStart, RowLights, BlackIndex, Width, Height, IsBlack, Palette;
    var start := Le32(data, 10);
    BottomRowStart(data);
    var y := Height(data) - 1;
    while y != -1
      invariant -1 <= y < Height(data)
      invariant y >= 0 ==> start == RowStart(data, y)
      invariant forall px, py {:trigger p.Lit(px, py)} | 0 <= px && 0 <= py && p.OnScreen(px, py) ::
                  p.Lit(px, py) <==> old(p.Lit(px, py)) || ImageLights(data, y + 1, xo, yo, px, py)
      decreases y
    {
      ShowRow(p, data, start, colour, y, xo, yo);
      NextRowStart(data, y);
      start := start + Stride(Width(data));
      y := y - 1;
    }
  }

  lemma BottomRowStart(data: seq<Byte>)
    requires Complete(data)
    ensures RowStart(data, Height(data) - 1) == Le32(data, 10)
  {
    hide IsBlack, Palette, Stride, Width, Height;
  }

  lemma NextRowStart(data: seq<Byte>, y: nat)
    requires Complete(data) && y < Height(data)
    ensures y > 0 ==> RowStart(data, y) + Stride(Width(data)) == RowStart(data, y - 1)
  {
    hide IsBlack, Palette, Stride, Width, Height;
    var (h, line) := (Height(data), Stride(Width(data)));
    assert (h - y) * line == (h - 1 - y) * line + line;
  }

  /** Where nothing wraps, the pixel at (px, py) shows the image's pixel at the
    * difference to the offset.
    */
  lemma ImageIsShifted(data: seq<Byte>, xo: nat, yo: nat, px: nat, py: nat)
    requires Complete(data) && px < WORD && py < WORD
    requires xo + Width(data) <= WORD && yo + Height(data) <= WORD
    ensures ImageLights(data, 0, xo, yo, px, py) <==>
            && xo <= px < xo + Width(data) && yo <= py < yo + Height(data)
            && ImageBit(data, px - xo, py - yo) == (BlackIndex(data) == 1)
  {
    hide IsBlack, Palette, Stride, ImageBit, BlackIndex, Width, Height;
    WrapsBelow(px, xo, Width(data));
    WrapsBelow(py, yo, Height(data));
  }

  // ------------------------------------------------------------ black pixels

  predicate InImage(data: seq<Byte>, x: nat, y: nat)
    requires |data| >= HEADER
  {
    x < Width(data) && y < Height(data)
  }

  /** Pixel (x, y) of the image is black by its palette. */
  predicate BlackPixel(data: seq<Byte>, x: nat, y: nat)
    requires Complete(data) && InImage(data, x, y)
  {
    IsBlack(data, if ImageBit(data, x, y) then 1 else 0)
  }

  /** Pixel (x, y) of the image is one that drawing lights. */
  predicate LitPixel(data: seq<Byte>, x: nat, y: nat)
    requires Complete(data) && InImage(data, x, y)
  {
    ImageBit(data, x, y) == (BlackIndex(data) == 1)
  }

  /** What is lit is black, always. */
  lemma LitIsBlack(data: seq<Byte>, x: nat, y: nat)
    requires Complete(data) && InImage(data, x, y)
    ensures LitPixel(data, x, y) ==> BlackPixel(data, x, y)
  {
    hide ImageBit;
  }

  /** The condition under which what is black is lit: not both palette entries are black,
    * or no pixel uses the second.
    */
  ghost predicate OneBlackInUse(data: seq<Byte>)
    requires Complete(data)
  {
    || !(IsBlack(data, 0) && IsBlack(data, 1))
    || forall x: nat, y: nat | InImage(data, x, y) :: !ImageBit(data, x, y)
  }

  /** The lit pixels of the image are exactly its black ones under just that condition. */
  lemma LitIsBlackIff(data: seq<Byte>)
    requires Complete(data)
    ensures (forall x: nat, y: nat | InImage(data, x, y) :: LitPixel(data, x, y) <==> BlackPixel(data, x, y))
            <==> OneBlackInUse(data)
  {
    hide ImageBit, Stride, Width, Height;
    if IsBlack(data, 0) && IsBlack(data, 1) {
      forall x: nat, y: nat | InImage(data, x, y)
        ensures LitPixel(data, x, y) <==> !ImageBit(data, x, y)
        ensures BlackPixel(data, x, y)
      {
      }
    }
  }

  /** A screen pixel shows a black pixel of the image. */
  ghost predicate ShowsBlack(data: seq<Byte>, xo: nat, yo: nat, px: nat, py: nat)
    requires Complete(data)
  {
    xo <= px && yo <= py && InImage(data, px - xo, py - yo) && BlackPixel(data, px - xo, py - yo)
  }

  /** The same on the screen: where nothing wraps, showing an image lights exactly its
    * black pixels, each at its distance from the offset, under just that condition.
    */
  lemma ScreenShowsBlackIff(data: seq<Byte>, xo: nat, yo: nat)
    requires Complete(data) && xo + Width(data) <= WORD && yo + Height(data) <= WORD
    ensures (forall px: nat, py: nat | px < WORD && py < WORD ::
               ImageLights(data, 0, xo, yo, px, py) <==> ShowsBlack(data, xo, yo, px, py))
            <==> OneBlackInUse(data)
  {
    hide IsBlack, Palette, Stride, ImageBit, ImageLights, BlackPixel, OneBlackInUse, Width, Height, BlackIndex;
    LitIsBlackIff(data);
    forall px: nat, py: nat | px < WORD && py < WORD
      ensures ImageLights(data, 0, xo, yo, px, py) <==>
                xo <= px && yo <= py && InImage(data, px - xo, py - yo) && LitPixel(data, px - xo, py - yo)
    {
      ImageIsShifted(data, xo, yo, px, py);
    }
    if forall px: nat, py: nat | px < WORD && py < WORD ::
         ImageLights(data, 0, xo, yo, px, py) <==> ShowsBlack(data, xo, yo, px, py) {
      forall x: nat, y: nat | InImage(data, x, y)
        ensures LitPixel(data, x, y) <==> BlackPixel(data, x, y)
      {
        var (px, py) := (xo + x, yo + y);
        assert px - xo == x && py - yo == y;
        assert ImageLights(data, 0, xo, yo, px, py) <==> ShowsBlack(data, xo, yo, px, py);
      }
    }
  }

  /** A bitmap of one pixel with two black palette entries. */
  function TwoBlacks(bits: Byte): (data: seq<Byte>)
    ensures |data| == 66
  {
    seq(66, i => if i == 10 then 62 else if i == 14 then 40 else if i in {18, 22, 28} then 1
                 else if i == 62 then bits else 0)
  }

  lemma TwoBlacksIsComplete(bits: Byte)
    ensures var data := TwoBlacks(bits);
      && Drawable(data) && Complete(data) && Width(data) == Height(data) == 1
      && IsBlack(data, 0) && IsBlack(data, 1) && Le32(data, 10) == 62 && data[62] == bits
  {
    assert Stride(1) == 4;
  }

  /** When its pixel uses the second, it is black and is not lit. */
  lemma BlackPixelIsNotLit()
    ensures var data := TwoBlacks(0x80);
      && Drawable(data) && Complete(data) && InImage(data, 0, 0)
      && BlackPixel(data, 0, 0) && !LitPixel(data, 0, 0) && !OneBlackInUse(data)
  {
    TwoBlacksIsComplete(0x80);
    hide BitOf, Stride, TwoBlacks, IsBlack, Width, Height, Le16, Le32, Palette;
    BottomRowStart(TwoBlacks(0x80));
    SevenShifts();
    assert InImage(TwoBlacks(0x80), 0, 0);
  }

  lemma SevenShifts()
    ensures BitOf(0x80, 7)
  {
    assert BitOf(0x08, 3) && BitOf(0x80, 7) == BitOf(0x10, 4);
  }
}
