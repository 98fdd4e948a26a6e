/** Flag patterns and modes bit by bit. */
module WordBits {
  import opened KernelTypes
  import opened KernelSpec

  function Half(b: Bits): Bits {
    Bits(b.word >> 1)
  }

  predicate Odd(b: Bits) {
    b.word & 1 == 1
  }

  predicate ShiftedBit(b: Bits, i: nat)
    decreases i
  {
    if i == 0 then Odd(b) else ShiftedBit(Half(b), i - 1)
  }

  /** Bit i of a word, counted from the lowest: it is the lowest after i shifts to the
    * right.
    */
  predicate HasBit(b: Bits, i: nat) {
    ShiftedBit(b, i)
  }

  function Without(a: Bits, b: Bits): Bits {
    Bits(a.word & !b.word)
  }

  lemma HalfIs(x: bv32)
    ensures Half(Bits(x)) == Bits(x >> 1)
  {}

  lemma OddIs(x: bv32)
    ensures Odd(Bits(x)) <==> x & 1 == 1
  {}

  lemma CommonIs(x: bv32, y: bv32)
    ensures Common(Bits(x), Bits(y)) == Bits(x & y)
  {}

  lemma WordsInCommon(x: bv32, y: bv32, z: bv32)
    requires z == x & y
    ensures z >> 1 == (x >> 1) & (y >> 1)
    ensures z & 1 == 1 <==> x & 1 == 1 && y & 1 == 1
  {}

  lemma LowAndHighOfCommon(a: Bits, b: Bits)
    ensures Odd(Common(a, b)) <==> Odd(a) && Odd(b)
    ensures Half(Common(a, b)) == Common(Half(a), Half(b))
  {
    hide Half, Odd, Common;
    var (x, y, z) := (a.word, b.word, Common(a, b).word);
    assert a == Bits(x) && b == Bits(y) && Common(a, b) == Bits(z);
    CommonIs(x, y);
    WordsInCommon(x, y, z);
    LowOfCommon(x, y, z);
    HighOfCommon(x, y, z);
  }

  lemma LowOfCommon(x: bv32, y: bv32, z: bv32)
    requires z & 1 == 1 <==> x & 1 == 1 && y & 1 == 1
    ensures Odd(Bits(z)) <==> Odd(Bits(x)) && Odd(Bits(y))
  {
    hide Odd;
    OddIs(x);
    OddIs(y);
    OddIs(z);
  }

  lemma HighOfCommon(x: bv32, y: bv32, z: bv32)
    requires z >> 1 == (x >> 1) & (y >> 1)
    ensures Half(Bits(z)) == Common(Half(Bits(x)), Half(Bits(y)))
  {
    hide Half, Common;
    HalfIs(x);
    HalfIs(y);
    HalfIs(z);
    CommonIs(x >> 1, y >> 1);
  }

  lemma JoinedWords(x: bv32, y: bv32, z: bv32)
    requires z == x | y
    ensures z & y == y && z & !y == x & !y
  {}

  lemma WithIs(x: bv32, y: bv32)
    ensures With(Bits(x), Bits(y)) == Bits(x | y)
  {}

  /** Joining adds what was not there, and nothing else. */
  lemma JoinedBits(a: Bits, b: Bits)
    ensures Common(With(a, b), b) == b && Without(With(a, b), b) == Without(a, b)
  {
    hide Common, With, Without;
    JoinedIs(a, b, a.word, b.word, With(a, b).word);
  }

  lemma JoinedIs(a: Bits, b: Bits, x: bv32, y: bv32, z: bv32)
    requires a == Bits(x) && b == Bits(y) && With(a, b) == Bits(z)
    ensures Common(With(a, b), b) == b && Without(With(a, b), b) == Without(a, b)
  {
    hide Common, With, Without;
    WithIs(x, y);
    JoinedWords(x, y, z);
    CommonIs(z, y);
    WithoutIs(z, y);
    WithoutIs(x, y);
  }

  lemma WithoutIs(x: bv32, y: bv32)
    ensures Without(Bits(x), Bits(y)) == Bits(x & !y)
  {}

  lemma WordsWithout(x: bv32, y: bv32, z: bv32)
    requires z == x & !y
    ensures z >> 1 == (x >> 1) & !(y >> 1)
    ensures z & 1 == 1 <==> x & 1 == 1 && y & 1 != 1
  {}

  lemma LowAndHighOfWithout(a: Bits, b: Bits)
    ensures Odd(Without(a, b)) <==> Odd(a) && !Odd(b)
    ensures Half(Without(a, b)) == Without(Half(a), Half(b))
  {
    hide Half, Odd, Without;
    var (x, y, z) := (a.word, b.word, Without(a, b).word);
    assert a == Bits(x) && b == Bits(y) && Without(a, b) == Bits(z);
    WithoutIs(x, y);
    WordsWithout(x, y, z);
    LowOfWithout(x, y, z);
    HighOfWithout(x, y, z);
  }

  lemma LowOfWithout(x: bv32, y: bv32, z: bv32)
    requires z & 1 == 1 <==> x & 1 == 1 && y & 1 != 1
    ensures Odd(Bits(z)) <==> Odd(Bits(x)) && !Odd(Bits(y))
  {
    hide Odd;
    OddIs(x);
    OddIs(y);
    OddIs(z);
  }

  lemma HighOfWithout(x: bv32, y: bv32, z: bv32)
    requires z >> 1 == (x >> 1) & !(y >> 1)
    ensures Half(Bits(z)) == Without(Half(Bits(x)), Half(Bits(y)))
  {
    hide Half, Without;
    HalfIs(x);
    HalfIs(y);
    HalfIs(z);
    WithoutIs(x >> 1, y >> 1);
  }

  lemma {:induction false} BitOfCommon(a: Bits, b: Bits, i: nat)
    ensures HasBit(Common(a, b), i) <==> HasBit(a, i) && HasBit(b, i)
    decreases i
  {
    hide Common, Half, Odd;
    LowAndHighOfCommon(a, b);
    if i > 0 {
      BitOfCommon(Half(a), Half(b), i - 1);
    }
  }

  lemma {:induction false} BitOfWithout(a: Bits, b: Bits, i: nat)
    ensures HasBit(Without(a, b), i) <==> HasBit(a, i) && !HasBit(b, i)
    decreases i
  {
    hide Without, Half, Odd;
    LowAndHighOfWithout(a, b);
    if i > 0 {
      BitOfWithout(Half(a), Half(b), i - 1);
    }
  }

  /** The operators work bit by bit. */
  lemma BitsOf(a: Bits, b: Bits, i: nat)
    ensures HasBit(Common(a, b), i) <==> HasBit(a, i) && HasBit(b, i)
    ensures HasBit(With(a, b), i) <==> HasBit(a, i) || HasBit(b, i)
    ensures HasBit(Without(a, b), i) <==> HasBit(a, i) && !HasBit(b, i)
  {
    hide Common, With, Without, HasBit;
    BitOfCommon(a, b, i);
    BitOfWithout(a, b, i);
    JoinedBits(a, b);
    BitOfCommon(With(a, b), b, i);
    BitOfWithout(With(a, b), b, i);
  }

  lemma HalfOfNone()
    ensures Half(NoBits) == NoBits && !Odd(NoBits)
  {}

  lemma {:induction false} NoBitsHasNone(i: nat)
    ensures !HasBit(NoBits, i)
    decreases i
  {
    hide Half, Odd;
    HalfOfNone();
    if i > 0 {
      NoBitsHasNone(i - 1);
    }
  }

  lemma HalfIsLess(x: bv32)
    requires x != 0 && x & 1 != 1
    ensures x >> 1 != 0 && x >> 1 < x
  {}

  /** A word that is not zero has a bit. */
  lemma {:induction false} SomeBit(b: Bits) returns (i: nat)
    requires b != NoBits
    ensures HasBit(b, i)
    decreases b.word
  {
    if Odd(b) {
      i := 0;
    } else {
      HalfIsLess(b.word);
      var j := SomeBit(Half(b));
      i := j + 1;
    }
  }

  lemma MeetIff(a: Bits, b: Bits)
    ensures Common(a, b) != NoBits <==> exists i: nat :: HasBit(a, i) && HasBit(b, i)
  {
    hide Common, HasBit;
    if Common(a, b) != NoBits {
      var i := SomeBit(Common(a, b));
      BitsOf(a, b, i);
    }
    if i: nat :| HasBit(a, i) && HasBit(b, i) {
      BitsOf(a, b, i);
      NoBitsHasNone(i);
    }
  }

  lemma CoversIff(a: Bits, b: Bits)
    ensures Common(a, b) == b <==> forall i: nat | HasBit(b, i) :: HasBit(a, i)
  {
    NothingMissing(a, b);
    hide Common, Without, HasBit;
    if Common(a, b) == b {
      forall i: nat | HasBit(b, i) ensures HasBit(a, i) {
        BitsOf(a, b, i);
      }
    } else {
      var i := SomeBit(Without(b, a));
      BitsOf(b, a, i);
    }
  }

  lemma NothingMissing(a: Bits, b: Bits)
    ensures Common(a, b) == b <==> Without(b, a) == NoBits
  {
    hide Common, Without;
    var (x, y) := (a.word, b.word);
    assert a == Bits(x) && b == Bits(y);
    CommonIs(x, y);
    WithoutIs(y, x);
    if x & y == y {
      WholeWord(x, y);
    } else if y & !x == 0 {
      MissingWord(x, y);
    }
  }

  lemma WholeWord(x: bv32, y: bv32)
    requires x & y == y
    ensures y & !x == 0
  {}

  lemma MissingWord(x: bv32, y: bv32)
    requires y & !x == 0
    ensures x & y == y
  {}

  predicate Masked(b: Bits, mask: bv32) {
    b.word & mask != 0
  }

  lemma HalfMasked(x: bv32)
    ensures (x >> 1) & 0x01 != 0 <==> x & 0x02 != 0
    ensures (x >> 1) & 0x02 != 0 <==> x & 0x04 != 0
    ensures (x >> 1) & 0x04 != 0 <==> x & 0x08 != 0
    ensures (x >> 1) & 0x08 != 0 <==> x & 0x10 != 0
    ensures (x >> 1) & 0x10 != 0 <==> x & 0x20 != 0
  {}

  lemma OddMasked(x: bv32)
    ensures x & 1 == 1 <==> x & 0x01 != 0
  {}

  lemma MasksOfHalf(b: Bits)
    ensures Odd(b) <==> Masked(b, 0x01)
    ensures Masked(Half(b), 0x01) <==> Masked(b, 0x02)
    ensures Masked(Half(b), 0x02) <==> Masked(b, 0x04)
    ensures Masked(Half(b), 0x04) <==> Masked(b, 0x08)
    ensures Masked(Half(b), 0x08) <==> Masked(b, 0x10)
    ensures Masked(Half(b), 0x10) <==> Masked(b, 0x20)
  {
    HalfMasked(b.word);
    OddMasked(b.word);
  }

  /** The attributes that sk_create_task knows are bits 0, 5, 8 and 9. */
  lemma KnownAttributes(i: nat)
    ensures HasBit(Bits(0x321), i) <==> i in {0, 5, 8, 9}
  {
    assert Half(Bits(0x321)) == Bits(0x190) && Half(Bits(0x190)) == Bits(0xC8);
    assert Half(Bits(0xC8)) == Bits(0x64) && Half(Bits(0x64)) == Bits(0x32);
    assert Half(Bits(0x32)) == Bits(0x19) && Half(Bits(0x19)) == Bits(0x0C);
    assert Half(Bits(0x0C)) == Bits(6) && Half(Bits(6)) == Bits(3);
    assert Half(Bits(3)) == Bits(1) && Half(Bits(1)) == NoBits;
    assert Odd(Bits(0x321)) && !Odd(Bits(0x190)) && !Odd(Bits(0xC8)) && !Odd(Bits(0x64)) && !Odd(Bits(0x32));
    assert Odd(Bits(0x19)) && !Odd(Bits(0x0C)) && !Odd(Bits(6)) && Odd(Bits(3)) && Odd(Bits(1));
    hide Half, Odd;
    if i >= 5 {
      assert ShiftedBit(Bits(0x321), i) == ShiftedBit(Bits(0x190), i - 1) == ShiftedBit(Bits(0xC8), i - 2);
      assert ShiftedBit(Bits(0xC8), i - 2) == ShiftedBit(Bits(0x64), i - 3) == ShiftedBit(Bits(0x32), i - 4);
      assert ShiftedBit(Bits(0x32), i - 4) == ShiftedBit(Bits(0x19), i - 5);
    }
    if i >= 10 {
      assert ShiftedBit(Bits(0x19), i - 5) == ShiftedBit(Bits(0x0C), i - 6) == ShiftedBit(Bits(6), i - 7);
      assert ShiftedBit(Bits(6), i - 7) == ShiftedBit(Bits(3), i - 8) == ShiftedBit(Bits(1), i - 9);
      NoBitsHasNone(i - 10);
    }
  }

  /** The bits of a mode that say something, by their masks. */
  lemma ModeBits(m: Bits)
    ensures HasBit(m, 0) <==> Masked(m, 0x01)
    ensures HasBit(m, 4) <==> Masked(m, 0x10)
    ensures HasBit(m, 5) <==> Masked(m, 0x20)
  {
    hide Half, Odd, Masked;
    var (h1, h2) := (Half(m), Half(Half(m)));
    var (h3, h4) := (Half(h2), Half(Half(h2)));
    MasksOfHalf(m);
    MasksOfHalf(h1);
    MasksOfHalf(h2);
    MasksOfHalf(h3);
    MasksOfHalf(h4);
    MasksOfHalf(Half(h4));
    assert ShiftedBit(m, 4) == ShiftedBit(h1, 3) == ShiftedBit(h2, 2) == ShiftedBit(h3, 1) == ShiftedBit(h4, 0);
    assert ShiftedBit(m, 5) == ShiftedBit(h1, 4) == ShiftedBit(h2, 3) == ShiftedBit(h3, 2);
    assert ShiftedBit(h3, 2) == ShiftedBit(h4, 1) == ShiftedBit(Half(h4), 0);
  }
}
