/** Monochrome bitmaps as the file format has them: what the drawing code reads from one
  * is the picture that was written.
  */
module BitmapFormat {
  import opened Bytes
  import opened Drawing

  /** A picture from its upper left corner on: each pixel is one of two colours, each
    * colour three bytes and a fourth without meaning.
    */
  datatype Picture = Picture(width: nat, height: nat, colours: seq<Byte>, rows: seq<seq<bool>>)
  {
    ghost predicate Valid() {
      && width < 0x8000_0000 && 0 < height < 0x8000_0000
      && |colours| == 8 && |rows| == height && forall y | 0 <= y < height :: |rows[y]| == width
    }

    predicate BlackColour(i: nat)
      requires |colours| == 8 && i < 2
    {
      colours[4 * i] == 0 && colours[4 * i + 1] == 0 && colours[4 * i + 2] == 0
    }
  }

  /** The parts of a header that are not read. */
  datatype Unread = Unread(sizes: seq<Byte>, more: seq<Byte>)
  {
    ghost predicate Valid() {
      |sizes| == 8 && |more| == 20
    }
  }

  /** File header and information header: the letters BM, where the pixels begin, the size
    * of the second header, width, height, planes, bits for a pixel, and no compression.
    */
  ghost function HeaderBytes(m: Picture, u: Unread): (bytes: seq<Byte>)
    requires m.Valid() && u.Valid()
    ensures |bytes| == 54
  {
    [0x42, 0x4D] + u.sizes + DoubleWord(62) + DoubleWord(40) + DoubleWord(m.width) + DoubleWord(m.height)
    + Word(1) + Word(1) + DoubleWord(0) + u.more
  }

  /** 2 to the power of n. */
  function Power(n: nat): nat {
    if n == 0 then 1 else 2 * Power(n - 1)
  }

  /** The number that binary digits are written for, the highest first. */
  function Numeral(digits: seq<bool>): (r: nat)
    ensures r < Power(|digits|)
  {
    if digits == [] then 0
    else 2 * Numeral(digits[..|digits| - 1]) + if digits[|digits| - 1] then 1 else 0
  }

  /** Eight pixels in a byte, the leftmost in the highest bit; there are none behind the end
    * of the row.
    */
  function EightPixels(row: seq<bool>, x: nat): Byte {
    assert Power(8) == 256;
    Numeral(seq(8, j requires 0 <= j => x + j < |row| && row[x + j]))
  }

  /** A row takes whole words of four bytes. */
  function RowBytes(row: seq<bool>): (bytes: seq<Byte>)
    ensures |bytes| == 4 * ((|row| + 31) / 32)
  {
    seq(4 * ((|row| + 31) / 32), k requires 0 <= k => EightPixels(row, 8 * k))
  }

  /** The lowest row comes first. */
  function RowsBytes(rows: seq<seq<bool>>): seq<Byte> {
    if rows == [] then [] else RowsBytes(rows[1..]) + RowBytes(rows[0])
  }

  ghost function BitmapBytes(m: Picture, u: Unread): seq<Byte>
    requires m.Valid() && u.Valid()
  {
    HeaderBytes(m, u) + m.colours + RowsBytes(m.rows)
  }

  // ------------------------------------------------------------------ header

  lemma HeaderFields(m: Picture, u: Unread)
    requires m.Valid() && u.Valid()
    ensures var b := HeaderBytes(m, u);
      && b[10..14] == DoubleWord(62) && b[14..18] == DoubleWord(40)
      && b[18..22] == DoubleWord(m.width) && b[22..26] == DoubleWord(m.height)
      && b[28..30] == Word(1) && b[30..34] == DoubleWord(0)
  {
    hide Word, DoubleWord;
  }

  lemma HeaderComesBack(data: seq<Byte>, m: Picture, u: Unread)
    requires m.Valid() && u.Valid() && |data| >= 62 && data[..54] == HeaderBytes(m, u)
    ensures Drawable(data) && Width(data) == m.width && Height(data) == m.height
    ensures Le32(data, 10) == 62 && Le32(data, 14) == 40
  {
    HeaderFields(m, u);
    hide HeaderBytes, Word, DoubleWord, Le16, Le32;
    var b := data[..54];
    assert data[10..14] == b[10..14] && data[14..18] == b[14..18] && data[18..22] == b[18..22];
    assert data[22..26] == b[22..26] && data[28..30] == b[28..30] && data[30..34] == b[30..34];
    DoubleWordComesBack(data, 10, 62);
    DoubleWordComesBack(data, 14, 40);
    DoubleWordComesBack(data, 18, m.width);
    DoubleWordComesBack(data, 22, m.height);
    WordComesBack(data, 28, 1);
    DoubleWordComesBack(data, 30, 0);
  }

  /** The colours that are read as black are those that are. */
  lemma ColoursComeBack(data: seq<Byte>, m: Picture, i: nat)
    requires |m.colours| == 8 && i < 2 && |data| >= 62 && data[54..62] == m.colours && Le32(data, 14) == 40
    ensures Palette(data, i) + 3 <= |data| && (IsBlack(data, i) <==> m.BlackColour(i))
  {
    assert forall k | 0 <= k < 8 :: data[54 + k] == data[54..62][k];
  }

  // ------------------------------------------------------------------ pixels

  ghost predicate SameLength(rows: seq<seq<bool>>, line: nat) {
    forall y | 0 <= y < |rows| :: |RowBytes(rows[y])| == line
  }

  lemma {:induction false} RowsLength(rows: seq<seq<bool>>, line: nat)
    requires SameLength(rows, line)
    ensures |RowsBytes(rows)| == |rows| * line
    decreases |rows|
  {
    hide RowBytes;
    if rows != [] {
      RowsLength(rows[1..], line);
      OneMoreLine(|rows| - 1, line);
    }
  }

  lemma OneMoreLine(n: nat, line: nat)
    ensures (n + 1) * line == n * line + line && 0 <= n * line
  {}

  /** Row y stands behind those below it. */
  lemma {:induction false} RowAt(rows: seq<seq<bool>>, line: nat, y: nat)
    requires SameLength(rows, line) && y < |rows|
    ensures var at := (|rows| - 1 - y) * line;
      0 <= at && at + line <= |RowsBytes(rows)| && RowsBytes(rows)[at..at + line] == RowBytes(rows[y])
    decreases y
  {
    hide RowBytes;
    var (lower, at) := (rows[1..], (|rows| - 1 - y) * line);
    RowsLength(lower, line);
    if y > 0 {
      RowAt(lower, line, y - 1);
      assert |lower| - 1 - (y - 1) == |rows| - 1 - y;
      assert RowsBytes(rows)[at..at + line] == RowsBytes(lower)[at..at + line];
    }
  }

  lemma {:induction false} BitOfNumeral(digits: seq<bool>, i: nat)
    requires i < |digits|
    ensures BitOf(Numeral(digits), |digits| - 1 - i) == digits[i]
    decreases |digits|
  {
    var front := digits[..|digits| - 1];
    if i < |digits| - 1 {
      BitOfNumeral(front, i);
      assert Numeral(digits) / 2 == Numeral(front);
    }
  }

  /** A pixel of a packed row is the bit that reading takes. */
  lemma PixelInRow(row: seq<bool>, x: nat)
    requires x < |row|
    ensures x / 8 < |RowBytes(row)|
    ensures BitOf(RowBytes(row)[x / 8], 7 - x % 8) == row[x]
  {
    hide BitOf, Numeral;
    var first := 8 * (x / 8);
    BitOfNumeral(seq(8, j requires 0 <= j => first + j < |row| && row[first + j]), x % 8);
  }

  // -------------------------------------------------------------- the picture

  lemma PixelComesBack(data: seq<Byte>, m: Picture, x: nat, y: nat)
    requires m.Valid() && |data| >= 62 && data[62..] == RowsBytes(m.rows) && Le32(data, 10) == 62
    requires Complete(data) && Width(data) == m.width && Height(data) == m.height
    requires x < m.width && y < m.height
    ensures ImageBit(data, x, y) == m.rows[y][x]
  {
    hide BitOf, IsBlack, Palette, Width, Height, RowBytes, RowsBytes;
    var line := 4 * ((m.width + 31) / 32);
    StrideIsWholeWords(m.width);
    RowAt(m.rows, line, y);
    RowIsInData(data, x, y);
    PixelInRow(m.rows[y], x);
    var at := (m.height - 1 - y) * line;
    assert data[62..][at..at + line][x / 8] == data[62 + at + x / 8];
  }

  /** What the drawing code reads from a bitmap is the picture it was written from: its
    * size, which of its colours are black, and each of its pixels.
    */
  lemma PictureComesBack(m: Picture, u: Unread)
    requires m.Valid() && u.Valid()
    ensures var data := BitmapBytes(m, u);
      && Drawable(data) && Width(data) == m.width && Height(data) == m.height
      && Palette(data, 1) + 3 <= |data|
      && (IsBlack(data, 0) <==> m.BlackColour(0)) && (IsBlack(data, 1) <==> m.BlackColour(1))
      && (Complete(data) <==> m.BlackColour(0) || m.BlackColour(1))
      && (Complete(data) ==>
            forall x, y | 0 <= x < m.width && 0 <= y < m.height :: ImageBit(data, x, y) == m.rows[y][x])
  {
    hide HeaderBytes, RowsBytes, ImageBit, Stride, Width, Height, IsBlack, m.BlackColour;
    var data := BitmapBytes(m, u);
    RowsLength(m.rows, 4 * ((m.width + 31) / 32));
    assert data[..54] == HeaderBytes(m, u) && data[54..62] == m.colours && data[62..] == RowsBytes(m.rows);
    HeaderComesBack(data, m, u);
    ColoursComeBack(data, m, 0);
    ColoursComeBack(data, m, 1);
    StrideIsWholeWords(m.width);
    if Complete(data) {
      forall x, y | 0 <= x < m.width && 0 <= y < m.height
        ensures ImageBit(data, x, y) == m.rows[y][x]
      {
        PixelComesBack(data, m, x, y);
      }
    }
  }

  /** So showing it, where nothing wraps, lights exactly the pixels that have the first
    * colour if that is black, and else those that have the second.
    */
  lemma PictureIsShown(m: Picture, u: Unread, xo: nat, yo: nat, px: nat, py: nat)
    requires m.Valid() && u.Valid() && (m.BlackColour(0) || m.BlackColour(1))
    requires px < 0x1_0000_0000 && py < 0x1_0000_0000
    requires xo + m.width <= 0x1_0000_0000 && yo + m.height <= 0x1_0000_0000
    ensures Complete(BitmapBytes(m, u))
    ensures ImageLights(BitmapBytes(m, u), 0, xo, yo, px, py) <==>
              && xo <= px < xo + m.width && yo <= py < yo + m.height
              && m.rows[py - yo][px - xo] == !m.BlackColour(0)
  {
    hide BitmapBytes, ImageBit, ImageLights, Stride, Width, Height, IsBlack, m.BlackColour;
    PictureComesBack(m, u);
    ImageIsShifted(BitmapBytes(m, u), xo, yo, px, py);
  }
}
