/** The SSD1306 frame buffer: one bit a pixel, eight rows to a byte, as a set of lit
  * pixels.
  */
module FrameBuffer {
  import opened Bytes

  /** 1 << k, for the bits of a byte. */
  function Bit(k: nat): (b: bv8)
    requires k < 8
  {
    if k == 0 then 0x01 else if k == 1 then 0x02 else if k == 2 then 0x04 else if k == 3 then 0x08
    else if k == 4 then 0x10 else if k == 5 then 0x20 else if k == 6 then 0x40 else 0x80
  }

  predicate Has(b: bv8, k: nat)
    requires k < 8
  {
    b & Bit(k) != 0
  }

  /** The bits of a byte are the rows of a page from its upper edge down, the lowest bit
    * first.
    */
  lemma RowsRunDown(b: bv8, k: nat)
    requires k < 8
    ensures Has(b, k) <==> (b >> k) & 1 == 1
  {}

  lemma SetBit(b: bv8, k: nat, j: nat)
    requires k < 8 && j < 8
    ensures Has(b | Bit(k), j) <==> Has(b, j) || j == k
  {}

  lemma ClearBit(b: bv8, k: nat, j: nat)
    requires k < 8 && j < 8
    ensures Has(b & !Bit(k), j) <==> Has(b, j) && j != k
  {}

  /** What lies in a square whose coordinates may wrap. */
  predicate InSquare(px: nat, py: nat, x: nat, y: nat, w: nat, h: nat) {
    U32(px - x) < w && U32(py - y) < h
  }

  /** Without wrap-around that is the rectangle. */
  lemma SquareIsRectangle(px: nat, py: nat, x: nat, y: nat, w: nat, h: nat)
    requires px < WORD && py < WORD && x + w <= WORD && y + h <= WORD
    ensures InSquare(px, py, x, y, w, h) <==> x <= px < x + w && y <= py < y + h
  {
    WrapsBelow(px, x, w);
    WrapsBelow(py, y, h);
  }

  lemma WrapsBelow(p: nat, x: nat, w: nat)
    requires p < WORD && x + w <= WORD
    ensures U32(p - x) < w <==> x <= p < x + w
  {
    if p < x {
      assert U32(p - x) == p - x + WORD;
    }
  }

  /** The byte of pixel (x, y) on a display of a given width. */
  function PixelByte(width: nat, x: nat, y: nat): (i: nat) {
    x + width * (y / 8)
  }

  /** The bytes of a page follow each other from left to right, those of the next page, eight
    * rows lower, behind them.
    */
  lemma PagesFollow(width: nat, x: nat, y: nat)
    ensures PixelByte(width, 0, 0) == 0
    ensures PixelByte(width, x + 1, y) == PixelByte(width, x, y) + 1
    ensures PixelByte(width, x, y + 8) == PixelByte(width, x, y) + width
    ensures y % 8 < 7 ==> PixelByte(width, x, y + 1) == PixelByte(width, x, y)
  {
    assert (y + 8) / 8 == y / 8 + 1;
    assert width * (y / 8 + 1) == width * (y / 8) + width;
  }

  /** The bytes of all pixels lie in a caller's buffer of a given size, whose first
    * byte is the driver's control byte.
    */
  ghost predicate PixelsFit(width: nat, height: nat, size: nat) {
    forall x, y | 0 <= x < width && 0 <= y < height :: 1 + PixelByte(width, x, y) < size
  }

  /** The size a buffer needs, for any height. The size the header asks for is never
    * enough.
    */
  lemma PixelsFitIff(width: nat, height: nat, size: nat)
    requires 0 < width && 0 < height
    ensures PixelsFit(width, height, size) <==> width * ((height + 7) / 8) + 1 <= size
    ensures !PixelsFit(width, height, width * height / 8)
  {
    var rows := (height + 7) / 8;
    assert rows == (height - 1) / 8 + 1;
    assert width * rows == width * ((height - 1) / 8) + width;
    assert PixelByte(width, width - 1, height - 1) == width * rows - 1;
    forall x, y | 0 <= x < width && 0 <= y < height ensures PixelByte(width, x, y) < width * rows {
      Display.LastRow(x, width, y / 8, rows);
    }
    Display.Mul(height, 8 * rows, width);
    assert width * height / 8 <= width * rows;
  }

  class Display {
    const width: nat
    const height: nat
    const buffer: array<bv8>

    constructor (width: nat, height: nat)
      requires width < 0x100 && height < 0x100 && height % 8 == 0
      ensures this.width == width && this.height == height && Valid() && fresh(buffer)
    {
      this.width, this.height := width, height;
      buffer := new bv8[height / 8 * width];
    }

    /** bufsize is pages * width, with a whole number of pages. */
    ghost predicate Valid() {
      && width < 0x100 && height < 0x100
      && height % 8 == 0
      && buffer.Length == height / 8 * width
    }

    predicate OnScreen(x: nat, y: nat) {
      x < width && y < height
    }

    function Index(x: nat, y: nat): (i: nat) {
      PixelByte(width, x, y)
    }

    /** No index of a pixel on the screen leaves the buffer. */
    lemma IndexIsInBuffer(x: nat, y: nat)
      requires Valid() && OnScreen(x, y)
      ensures Index(x, y) < buffer.Length
    {
      LastRow(x, width, y / 8, height / 8);
    }

    static lemma LastRow(x: nat, width: nat, row: nat, rows: nat)
      requires x < width && row < rows
      ensures x + width * row < rows * width
    {
      assert width * (row + 1) == width * row + width;
      Mul(row + 1, rows, width);
    }

    static lemma Mul(a: nat, b: nat, c: nat)
      requires a <= b
      ensures c * a <= b * c
    {}

    /** Pixels share a byte exactly when they share column and page. */
    lemma IndexIsInjective(x: nat, y: nat, u: nat, v: nat)
      requires OnScreen(x, y) && OnScreen(u, v) && Index(x, y) == Index(u, v)
      ensures x == u && y / 8 == v / 8
    {
      SameCell(x, y / 8, u, v / 8, width);
    }

    static lemma SameCell(x: nat, row: nat, u: nat, line: nat, width: nat)
      requires x < width && u < width && x + width * row == u + width * line
      ensures x == u && row == line
    {
      if row < line {
        NextRow(row, line, width);
      } else if line < row {
        NextRow(line, row, width);
      }
    }

    static lemma NextRow(row: nat, line: nat, width: nat)
      requires row < line
      ensures width * row + width <= width * line
    {
      Mul(row + 1, line, width);
      assert width * (row + 1) == width * row + width;
    }

    /** The pixel at (x, y) is lit. */
    ghost predicate Lit(x: nat, y: nat)
      requires Valid() && OnScreen(x, y)
      reads buffer
    {
      IndexIsInBuffer(x, y);
      Has(buffer[Index(x, y)], y % 8)
    }

    /** ssd1306_draw_pixel */
    method DrawPixel(x: nat, y: nat)
      requires Valid()
      modifies buffer
      ensures forall px, py {:trigger Lit(px, py)} | 0 <= px < width && 0 <= py < height ::
                Lit(px, py) <==> old(Lit(px, py)) || (px == x && py == y)
    {
      if x >= width || y >= height {
        return;
      }
      IndexIsInBuffer(x, y);
      var i := Index(x, y);
      buffer[i] := buffer[i] | Bit(y % 8);
      forall px, py | 0 <= px && 0 <= py && OnScreen(px, py)
        ensures Lit(px, py) <==> old(Lit(px, py)) || (px == x && py == y)
      {
        IndexIsInBuffer(px, py);
        if Index(px, py) == i {
          IndexIsInjective(x, y, px, py);
          SetBit(old(buffer[i]), y % 8, py % 8);
        }
      }
    }

    /** ssd1306_clear_pixel */
    method ClearPixel(x: nat, y: nat)
      requires Valid()
      modifies buffer
      ensures forall px, py {:trigger Lit(px, py)} | 0 <= px < width && 0 <= py < height ::
                Lit(px, py) <==> old(Lit(px, py)) && !(px == x && py == y)
    {
      if x >= width || y >= height {
        return;
      }
      IndexIsInBuffer(x, y);
      var i := Index(x, y);
      buffer[i] := buffer[i] & !Bit(y % 8);
      forall px, py | 0 <= px && 0 <= py && OnScreen(px, py)
        ensures Lit(px, py) <==> old(Lit(px, py)) && !(px == x && py == y)
      {
        IndexIsInBuffer(px, py);
        if Index(px, py) == i {
          IndexIsInjective(x, y, px, py);
          ClearBit(old(buffer[i]), y % 8, py % 8);
        }
      }
    }

    /** ssd1306_draw_square */
    method DrawSquare(x: nat, y: nat, w: nat, h: nat)
      requires Valid() && w < WORD && h < WORD
      modifies buffer
      ensures forall px, py {:trigger Lit(px, py)} | 0 <= px < width && 0 <= py < height ::
                Lit(px, py) <==> old(Lit(px, py)) || InSquare(px, py, x, y, w, h)
    {
      var i := 0;
      while i < w
        invariant 0 <= i <= w
        invariant forall px, py {:trigger Lit(px, py)} | 0 <= px && 0 <= py && OnScreen(px, py) ::
                    Lit(px, py) <==> old(Lit(px, py)) || InSquare(px, py, x, y, i, h)
      {
        DrawColumn(x, i, y, h);
        i := i + 1;
      }
    }

    /** The inner loop of ssd1306_draw_square. */
    method DrawColumn(x: nat, i: nat, y: nat, h: nat)
      requires Valid() && i < WORD && h < WORD
      modifies buffer
      ensures forall px, py {:trigger Lit(px, py)} | 0 <= px && 0 <= py && OnScreen(px, py) ::
                Lit(px, py) <==> old(Lit(px, py)) || (U32(px - x) == i && U32(py - y) < h)
    {
      var j := 0;
      while j < h
        invariant 0 <= j <= h
        invariant forall px, py {:trigger Lit(px, py)} | 0 <= px && 0 <= py && OnScreen(px, py) ::
                    Lit(px, py) <==> old(Lit(px, py)) || (U32(px - x) == i && U32(py - y) < j)
      {
        DrawPixel(U32(x + i), U32(y + j));
        forall px, py | 0 <= px && 0 <= py && OnScreen(px, py)
          ensures px == U32(x + i) && py == U32(y + j) <==> U32(px - x) == i && U32(py - y) == j
        {
          WrapInverse(px, x, i);
          WrapInverse(py, y, j);
        }
        j := j + 1;
      }
    }
  }

  lemma WrapInverse(p: nat, x: nat, i: nat)
    requires p < WORD && i < WORD
    ensures p == U32(x + i) <==> U32(p - x) == i
  {}
}
