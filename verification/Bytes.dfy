/** Bytes and little-endian words. */
module Bytes {

  type Byte = b: int | 0 <= b < 256

  function Le16(d: seq<Byte>, i: nat): (r: nat)
    requires i + 2 <= |d|
    ensures r < 0x1_0000
  {
    d[i] as int + 0x100 * d[i + 1] as int
  }

  function Le32(d: seq<Byte>, i: nat): (r: nat)
    requires i + 4 <= |d|
    ensures r < 0x1_0000_0000
  {
    d[i] as int + 0x100 * d[i + 1] as int + 0x1_0000 * d[i + 2] as int + 0x100_0000 * d[i + 3] as int
  }

  /** The two and the four bytes of a word, the lowest first. */
  function Word(n: nat): (bytes: seq<Byte>)
    requires n < 0x1_0000
    ensures |bytes| == 2
  {
    [n % 0x100, n / 0x100]
  }

  function DoubleWord(n: nat): (bytes: seq<Byte>)
    requires n < 0x1_0000_0000
    ensures |bytes| == 4
  {
    Word(n % 0x1_0000) + Word(n / 0x1_0000)
  }

  lemma WordComesBack(d: seq<Byte>, i: nat, n: nat)
    requires n < 0x1_0000 && i + 2 <= |d| && d[i..i + 2] == Word(n)
    ensures Le16(d, i) == n
  {
    assert d[i] == d[i..i + 2][0] && d[i + 1] == d[i..i + 2][1];
  }

  lemma DoubleWordComesBack(d: seq<Byte>, i: nat, n: nat)
    requires n < 0x1_0000_0000 && i + 4 <= |d| && d[i..i + 4] == DoubleWord(n)
    ensures Le32(d, i) == n
  {
    var (low, high) := (n % 0x1_0000, n / 0x1_0000);
    assert d[i..i + 4][..2] == d[i..i + 2] && d[i..i + 4][2..] == d[i + 2..i + 4];
    WordComesBack(d, i, low);
    WordComesBack(d, i + 2, high);
    assert Le32(d, i) == Le16(d, i) + 0x1_0000 * Le16(d, i + 2);
  }

  /** The number of values of a 32-bit word. */
  const WORD := 0x1_0000_0000

  /** The value an integer keeps when it is stored in an unsigned 32-bit variable. */
  function U32(x: int): (r: nat)
    ensures r < 0x1_0000_0000 && (x - r) % 0x1_0000_0000 == 0
    ensures 0 <= x < 0x1_0000_0000 ==> r == x
  {
    x % WORD
  }

  /** An unsigned 32-bit value read as a signed one. */
  function Int32(x: nat): (r: int)
    requires x < 0x1_0000_0000
    ensures -0x8000_0000 <= r <= 0x7FFF_FFFF && (r == x || r == x - 0x1_0000_0000)
  {
    if x < 0x8000_0000 then x else x - 0x1_0000_0000
  }
}
