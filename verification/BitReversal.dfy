/**
  bitreverse of trident-workloads/graph500/generator/graph_generator.c on 64-bit words: the
  lines of masks and shifts, the byte swap that replaces three of them, and what they do to
  each bit.
*/
module BitReversal {
  import opened BitStrings

  // ------------------------------------------------------------------------- the lines

  function Swap32(x: bv64): bv64 { (x >> 32) | (x << 32) }

  function Swap16(x: bv64): bv64 { ((x >> 16) & 0x0000_FFFF_0000_FFFF) | ((x & 0x0000_FFFF_0000_FFFF) << 16) }

  function Swap8(x: bv64): bv64 { ((x >> 8) & 0x00FF_00FF_00FF_00FF) | ((x & 0x00FF_00FF_00FF_00FF) << 8) }

  function Swap4(x: bv64): bv64 { ((x >> 4) & 0x0F0F_0F0F_0F0F_0F0F) | ((x & 0x0F0F_0F0F_0F0F_0F0F) << 4) }

  function Swap2(x: bv64): bv64 { ((x >> 2) & 0x3333_3333_3333_3333) | ((x & 0x3333_3333_3333_3333) << 2) }

  function Swap1(x: bv64): bv64 { ((x >> 1) & 0x5555_5555_5555_5555) | ((x & 0x5555_5555_5555_5555) << 1) }

  /** __builtin_bswap64: the bytes in the opposite order. */
  function ByteSwap(x: bv64): bv64 {
    (x >> 56) | ((x >> 40) & 0xFF00) | ((x >> 24) & 0xFF_0000) | ((x >> 8) & 0xFF00_0000)
    | ((x << 8) & 0xFF_0000_0000) | ((x << 24) & 0xFF00_0000_0000) | ((x << 40) & 0xFF_0000_0000_0000) | (x << 56)
  }

  // -------------------------------------------------------------------------- the bits

  /** The word that has only the bit at the place whose binary digits are b0 .. b5. */
  function Mask(b0: bool, b1: bool, b2: bool, b3: bool, b4: bool, b5: bool): bv64 {
    var m0: bv64 := if b0 then 2 else 1;
    var m1 := if b1 then m0 << 2 else m0;
    var m2 := if b2 then m1 << 4 else m1;
    var m3 := if b3 then m2 << 8 else m2;
    var m4 := if b4 then m3 << 16 else m3;
    if b5 then m4 << 32 else m4
  }

  predicate Has(x: bv64, m: bv64) {
    x & m != 0
  }

  predicate HasAt(x: bv64, b0: bool, b1: bool, b2: bool, b3: bool, b4: bool, b5: bool) {
    Has(x, Mask(b0, b1, b2, b3, b4, b5))
  }

  /** The bits under the mask of a line go where the bits beside them were, and the other way round. */
  lemma Low1(x: bv64, m: bv64)
    requires m & 0x5555_5555_5555_5555 == m
    ensures Swap1(x) & m == (x >> 1) & m
    ensures Has(Swap1(x), m) <==> Has(x, m << 1)
  {
  }

  lemma High1(x: bv64, m: bv64)
    requires m & 0x5555_5555_5555_5555 == m
    ensures Swap1(x) & (m << 1) == (x & m) << 1
    ensures Has(Swap1(x), m << 1) <==> Has(x, m)
  {
  }

  lemma Block1(b0: bool, b1: bool, b2: bool, b3: bool, b4: bool, b5: bool)
    ensures Mask(false, b1, b2, b3, b4, b5) & 0x5555_5555_5555_5555 == Mask(false, b1, b2, b3, b4, b5)
    ensures Mask(true, b1, b2, b3, b4, b5) == Mask(false, b1, b2, b3, b4, b5) << 1
  {
  }

  lemma Flip1(x: bv64, b0: bool, b1: bool, b2: bool, b3: bool, b4: bool, b5: bool)
    ensures HasAt(Swap1(x), b0, b1, b2, b3, b4, b5) <==> HasAt(x, !b0, b1, b2, b3, b4, b5)
  {
    Block1(b0, b1, b2, b3, b4, b5);
    Low1(x, Mask(false, b1, b2, b3, b4, b5));
    High1(x, Mask(false, b1, b2, b3, b4, b5));
  }

  /** Digit 0 of every place is flipped. */
  ghost predicate Flipped1(x: bv64, y: bv64) {
    forall b0: bool, b1: bool, b2: bool, b3: bool, b4: bool, b5: bool :: HasAt(y, b0, b1, b2, b3, b4, b5) <==> HasAt(x, !b0, b1, b2, b3, b4, b5)
  }

  lemma AllFlip1(x: bv64)
    ensures Flipped1(x, Swap1(x))
  {
    forall b0: bool, b1: bool, b2: bool, b3: bool, b4: bool, b5: bool
      ensures HasAt(Swap1(x), b0, b1, b2, b3, b4, b5) <==> HasAt(x, !b0, b1, b2, b3, b4, b5)
    {
      Flip1(x, b0, b1, b2, b3, b4, b5);
    }
  }

  /** The line that exchanges neighbouring blocks of 1 bit. */
  method Line1(x: bv64) returns (y: bv64)
    ensures Flipped1(x, y)
  {
    y := Swap1(x);
    AllFlip1(x);
  }

  lemma Low2(x: bv64, m: bv64)
    requires m & 0x3333_3333_3333_3333 == m
    ensures Swap2(x) & m == (x >> 2) & m
    ensures Has(Swap2(x), m) <==> Has(x, m << 2)
  {
  }

  lemma High2(x: bv64, m: bv64)
    requires m & 0x3333_3333_3333_3333 == m
    ensures Swap2(x) & (m << 2) == (x & m) << 2
    ensures Has(Swap2(x), m << 2) <==> Has(x, m)
  {
  }

  lemma Block2(b0: bool, b1: bool, b2: bool, b3: bool, b4: bool, b5: bool)
    ensures Mask(b0, false, b2, b3, b4, b5) & 0x3333_3333_3333_3333 == Mask(b0, false, b2, b3, b4, b5)
    ensures Mask(b0, true, b2, b3, b4, b5) == Mask(b0, false, b2, b3, b4, b5) << 2
  {
  }

  lemma Flip2(x: bv64, b0: bool, b1: bool, b2: bool, b3: bool, b4: bool, b5: bool)
    ensures HasAt(Swap2(x), b0, b1, b2, b3, b4, b5) <==> HasAt(x, b0, !b1, b2, b3, b4, b5)
  {
    Block2(b0, b1, b2, b3, b4, b5);
    Low2(x, Mask(b0, false, b2, b3, b4, b5));
    High2(x, Mask(b0, false, b2, b3, b4, b5));
  }

  /** Digit 1 of every place is flipped. */
  ghost predicate Flipped2(x: bv64, y: bv64) {
    forall b0: bool, b1: bool, b2: bool, b3: bool, b4: bool, b5: bool :: HasAt(y, b0, b1, b2, b3, b4, b5) <==> HasAt(x, b0, !b1, b2, b3, b4, b5)
  }

  lemma AllFlip2(x: bv64)
    ensures Flipped2(x, Swap2(x))
  {
    forall b0: bool, b1: bool, b2: bool, b3: bool, b4: bool, b5: bool
      ensures HasAt(Swap2(x), b0, b1, b2, b3, b4, b5) <==> HasAt(x, b0, !b1, b2, b3, b4, b5)
    {
      Flip2(x, b0, b1, b2, b3, b4, b5);
    }
  }

  /** The line that exchanges neighbouring blocks of 2 bits. */
  method Line2(x: bv64) returns (y: bv64)
    ensures Flipped2(x, y)
  {
    y := Swap2(x);
    AllFlip2(x);
  }

  lemma Low4(x: bv64, m: bv64)
    requires m & 0x0F0F_0F0F_0F0F_0F0F == m
    ensures Swap4(x) & m == (x >> 4) & m
    ensures Has(Swap4(x), m) <==> Has(x, m << 4)
  {
  }

  lemma High4(x: bv64, m: bv64)
    requires m & 0x0F0F_0F0F_0F0F_0F0F == m
    ensures Swap4(x) & (m << 4) == (x & m) << 4
    ensures Has(Swap4(x), m << 4) <==> Has(x, m)
  {
  }

  lemma Block4(b0: bool, b1: bool, b2: bool, b3: bool, b4: bool, b5: bool)
    ensures Mask(b0, b1, false, b3, b4, b5) & 0x0F0F_0F0F_0F0F_0F0F == Mask(b0, b1, false, b3, b4, b5)
    ensures Mask(b0, b1, true, b3, b4, b5) == Mask(b0, b1, false, b3, b4, b5) << 4
  {
  }

  lemma Flip4(x: bv64, b0: bool, b1: bool, b2: bool, b3: bool, b4: bool, b5: bool)
    ensures HasAt(Swap4(x), b0, b1, b2, b3, b4, b5) <==> HasAt(x, b0, b1, !b2, b3, b4, b5)
  {
    Block4(b0, b1, b2, b3, b4, b5);
    Low4(x, Mask(b0, b1, false, b3, b4, b5));
    High4(x, Mask(b0, b1, false, b3, b4, b5));
  }

  /** Digit 2 of every place is flipped. */
  ghost predicate Flipped4(x: bv64, y: bv64) {
    forall b0: bool, b1: bool, b2: bool, b3: bool, b4: bool, b5: bool :: HasAt(y, b0, b1, b2, b3, b4, b5) <==> HasAt(x, b0, b1, !b2, b3, b4, b5)
  }

  lemma AllFlip4(x: bv64)
    ensures Flipped4(x, Swap4(x))
  {
    forall b0: bool, b1: bool, b2: bool, b3: bool, b4: bool, b5: bool
      ensures HasAt(Swap4(x), b0, b1, b2, b3, b4, b5) <==> HasAt(x, b0, b1, !b2, b3, b4, b5)
    {
      Flip4(x, b0, b1, b2, b3, b4, b5);
    }
  }

  /** The line that exchanges neighbouring blocks of 4 bits. */
  method Line4(x: bv64) returns (y: bv64)
    ensures Flipped4(x, y)
  {
    y := Swap4(x);
    AllFlip4(x);
  }

  lemma Low8(x: bv64, m: bv64)
    requires m & 0x00FF_00FF_00FF_00FF == m
    ensures Swap8(x) & m == (x >> 8) & m
    ensures Has(Swap8(x), m) <==> Has(x, m << 8)
  {
  }

  lemma High8(x: bv64, m: bv64)
    requires m & 0x00FF_00FF_00FF_00FF == m
    ensures Swap8(x) & (m << 8) == (x & m) << 8
    ensures Has(Swap8(x), m << 8) <==> Has(x, m)
  {
  }

  lemma Block8(b0: bool, b1: bool, b2: bool, b3: bool, b4: bool, b5: bool)
    ensures Mask(b0, b1, b2, false, b4, b5) & 0x00FF_00FF_00FF_00FF == Mask(b0, b1, b2, false, b4, b5)
    ensures Mask(b0, b1, b2, true, b4, b5) == Mask(b0, b1, b2, false, b4, b5) << 8
  {
  }

  lemma Flip8(x: bv64, b0: bool, b1: bool, b2: bool, b3: bool, b4: bool, b5: bool)
    ensures HasAt(Swap8(x), b0, b1, b2, b3, b4, b5) <==> HasAt(x, b0, b1, b2, !b3, b4, b5)
  {
    Block8(b0, b1, b2, b3, b4, b5);
    Low8(x, Mask(b0, b1, b2, false, b4, b5));
    High8(x, Mask(b0, b1, b2, false, b4, b5));
  }

  /** Digit 3 of every place is flipped. */
  ghost predicate Flipped8(x: bv64, y: bv64) {
    forall b0: bool, b1: bool, b2: bool, b3: bool, b4: bool, b5: bool :: HasAt(y, b0, b1, b2, b3, b4, b5) <==> HasAt(x, b0, b1, b2, !b3, b4, b5)
  }

  lemma AllFlip8(x: bv64)
    ensures Flipped8(x, Swap8(x))
  {
    forall b0: bool, b1: bool, b2: bool, b3: bool, b4: bool, b5: bool
      ensures HasAt(Swap8(x), b0, b1, b2, b3, b4, b5) <==> HasAt(x, b0, b1, b2, !b3, b4, b5)
    {
      Flip8(x, b0, b1, b2, b3, b4, b5);
    }
  }

  /** The line that exchanges neighbouring blocks of 8 bits. */
  method Line8(x: bv64) returns (y: bv64)
    ensures Flipped8(x, y)
  {
    y := Swap8(x);
    AllFlip8(x);
  }

  lemma Low16(x: bv64, m: bv64)
    requires m & 0x0000_FFFF_0000_FFFF == m
    ensures Swap16(x) & m == (x >> 16) & m
    ensures Has(Swap16(x), m) <==> Has(x, m << 16)
  {
  }

  lemma High16(x: bv64, m: bv64)
    requires m & 0x0000_FFFF_0000_FFFF == m
    ensures Swap16(x) & (m << 16) == (x & m) << 16
    ensures Has(Swap16(x), m << 16) <==> Has(x, m)
  {
  }

  lemma Block16(b0: bool, b1: bool, b2: bool, b3: bool, b4: bool, b5: bool)
    ensures Mask(b0, b1, b2, b3, false, b5) & 0x0000_FFFF_0000_FFFF == Mask(b0, b1, b2, b3, false, b5)
    ensures Mask(b0, b1, b2, b3, true, b5) == Mask(b0, b1, b2, b3, false, b5) << 16
  {
  }

  lemma Flip16(x: bv64, b0: bool, b1: bool, b2: bool, b3: bool, b4: bool, b5: bool)
    ensures HasAt(Swap16(x), b0, b1, b2, b3, b4, b5) <==> HasAt(x, b0, b1, b2, b3, !b4, b5)
  {
    Block16(b0, b1, b2, b3, b4, b5);
    Low16(x, Mask(b0, b1, b2, b3, false, b5));
    High16(x, Mask(b0, b1, b2, b3, false, b5));
  }

  /** Digit 4 of every place is flipped. */
  ghost predicate Flipped16(x: bv64, y: bv64) {
    forall b0: bool, b1: bool, b2: bool, b3: bool, b4: bool, b5: bool :: HasAt(y, b0, b1, b2, b3, b4, b5) <==> HasAt(x, b0, b1, b2, b3, !b4, b5)
  }

  lemma AllFlip16(x: bv64)
    ensures Flipped16(x, Swap16(x))
  {
    forall b0: bool, b1: bool, b2: bool, b3: bool, b4: bool, b5: bool
      ensures HasAt(Swap16(x), b0, b1, b2, b3, b4, b5) <==> HasAt(x, b0, b1, b2, b3, !b4, b5)
    {
      Flip16(x, b0, b1, b2, b3, b4, b5);
    }
  }

  /** The line that exchanges neighbouring blocks of 16 bits. */
  method Line16(x: bv64) returns (y: bv64)
    ensures Flipped16(x, y)
  {
    y := Swap16(x);
    AllFlip16(x);
  }

  lemma Low32(x: bv64, m: bv64)
    requires m & 0x0000_0000_FFFF_FFFF == m
    ensures Swap32(x) & m == (x >> 32) & m
    ensures Has(Swap32(x), m) <==> Has(x, m << 32)
  {
  }

  lemma High32(x: bv64, m: bv64)
    requires m & 0x0000_0000_FFFF_FFFF == m
    ensures Swap32(x) & (m << 32) == (x & m) << 32
    ensures Has(Swap32(x), m << 32) <==> Has(x, m)
  {
  }

  lemma Block32(b0: bool, b1: bool, b2: bool, b3: bool, b4: bool, b5: bool)
    ensures Mask(b0, b1, b2, b3, b4, false) & 0x0000_0000_FFFF_FFFF == Mask(b0, b1, b2, b3, b4, false)
    ensures Mask(b0, b1, b2, b3, b4, true) == Mask(b0, b1, b2, b3, b4, false) << 32
  {
  }

  lemma Flip32(x: bv64, b0: bool, b1: bool, b2: bool, b3: bool, b4: bool, b5: bool)
    ensures HasAt(Swap32(x), b0, b1, b2, b3, b4, b5) <==> HasAt(x, b0, b1, b2, b3, b4, !b5)
  {
    Block32(b0, b1, b2, b3, b4, b5);
    Low32(x, Mask(b0, b1, b2, b3, b4, false));
    High32(x, Mask(b0, b1, b2, b3, b4, false));
  }

  /** Digit 5 of every place is flipped. */
  ghost predicate Flipped32(x: bv64, y: bv64) {
    forall b0: bool, b1: bool, b2: bool, b3: bool, b4: bool, b5: bool :: HasAt(y, b0, b1, b2, b3, b4, b5) <==> HasAt(x, b0, b1, b2, b3, b4, !b5)
  }

  lemma AllFlip32(x: bv64)
    ensures Flipped32(x, Swap32(x))
  {
    forall b0: bool, b1: bool, b2: bool, b3: bool, b4: bool, b5: bool
      ensures HasAt(Swap32(x), b0, b1, b2, b3, b4, b5) <==> HasAt(x, b0, b1, b2, b3, b4, !b5)
    {
      Flip32(x, b0, b1, b2, b3, b4, b5);
    }
  }

  /** The line that exchanges neighbouring blocks of 32 bits. */
  method Line32(x: bv64) returns (y: bv64)
    ensures Flipped32(x, y)
  {
    y := Swap32(x);
    AllFlip32(x);
  }

  lemma BytesAre(x: bv64)
    ensures ByteSwap(x) == Swap8(Swap16(Swap32(x)))
  {
  }

  ghost predicate FlippedBytes(x: bv64, y: bv64) {
    forall b0: bool, b1: bool, b2: bool, b3: bool, b4: bool, b5: bool :: HasAt(y, b0, b1, b2, b3, b4, b5) <==> HasAt(x, b0, b1, b2, !b3, !b4, !b5)
  }

  lemma FlipBytes(x: bv64, a: bv64, b: bv64, y: bv64)
    requires Flipped32(x, a) && Flipped16(a, b) && Flipped8(b, y)
    ensures FlippedBytes(x, y)
  {
    forall b0: bool, b1: bool, b2: bool, b3: bool, b4: bool, b5: bool
      ensures HasAt(y, b0, b1, b2, b3, b4, b5) <==> HasAt(x, b0, b1, b2, !b3, !b4, !b5)
    {
      assert HasAt(y, b0, b1, b2, b3, b4, b5) <==> HasAt(b, b0, b1, b2, !b3, b4, b5);
      assert HasAt(b, b0, b1, b2, !b3, b4, b5) <==> HasAt(a, b0, b1, b2, !b3, !b4, b5);
    }
  }

  /** The byte swap flips the three upper digits. */
  method SwapBytes(x: bv64) returns (y: bv64)
    ensures FlippedBytes(x, y)
  {
    y := ByteSwap(x);
    BytesAre(x);
    AllFlip32(x);
    AllFlip16(Swap32(x));
    AllFlip8(Swap16(Swap32(x)));
    FlipBytes(x, Swap32(x), Swap16(Swap32(x)), y);
  }

  // ---------------------------------------------------------------------- the reversal

  /** Bit i of the word. */
  ghost predicate BitAt(x: bv64, i: nat) {
    HasAt(x, Bit(i, 0), Bit(i, 1), Bit(i, 2), Bit(i, 3), Bit(i, 4), Bit(i, 5))
  }

  ghost predicate AllFlipped(x: bv64, y: bv64) {
    forall b0: bool, b1: bool, b2: bool, b3: bool, b4: bool, b5: bool :: HasAt(y, b0, b1, b2, b3, b4, b5) <==> HasAt(x, !b0, !b1, !b2, !b3, !b4, !b5)
  }

  /** Flipping all six digits of the places puts the 64 bits in reverse order. */
  lemma FlippedIsReversed(x: bv64, y: bv64, i: nat)
    requires AllFlipped(x, y) && i < 64
    ensures BitAt(y, i) <==> BitAt(x, 63 - i)
  {
    assert Pow2(6) == 64;
    Complement(6, i, 0);
    Complement(6, i, 1);
    Complement(6, i, 2);
    Complement(6, i, 3);
    Complement(6, i, 4);
    Complement(6, i, 5);
  }

  /** y has the bits of x in reverse order. */
  ghost predicate BitsReversed(x: bv64, y: bv64) {
    forall i: nat {:trigger BitAt(y, i)} :: i < 64 ==> (BitAt(y, i) <==> BitAt(x, 63 - i))
  }

  lemma AllReversed(x: bv64, y: bv64)
    requires AllFlipped(x, y)
    ensures BitsReversed(x, y)
  {
    forall i: nat | i < 64
      ensures BitAt(y, i) <==> BitAt(x, 63 - i)
    {
      FlippedIsReversed(x, y, i);
    }
  }

  /** bitreverse with the byte swap. */
  method BitReverse(x: bv64) returns (y: bv64)
    ensures BitsReversed(x, y)
  {
    y := SwapBytes(x);
    y := Line4(y);
    y := Line2(y);
    y := Line1(y);
    AllReversed(x, y);
  }

  /** bitreverse without it. */
  method BitReverseByMasks(x: bv64) returns (y: bv64)
    ensures BitsReversed(x, y)
  {
    y := Line32(x);
    y := Line16(y);
    y := Line8(y);
    y := Line4(y);
    y := Line2(y);
    y := Line1(y);
    AllReversed(x, y);
  }

  /** x is the word with the bits s. */
  ghost predicate Stands(x: bv64, s: seq<bool>) {
    |s| == 64 && forall i: nat {:trigger BitAt(x, i)} :: i < 64 ==> BitAt(x, i) == s[i]
  }

  /** On words, bitreverse is what Reversed is on sequences of bits. */
  lemma ReversesWord(x: bv64, y: bv64, s: seq<bool>)
    requires Stands(x, s) && BitsReversed(x, y)
    ensures Stands(y, Reversed(s))
  {
    forall i: nat | i < 64
      ensures BitAt(y, i) == Reversed(s)[i]
    {
      assert BitAt(x, 63 - i) == s[63 - i];
    }
  }

  /** The 64 bits of a word, lowest first. */
  ghost function WordBits(x: bv64): (s: seq<bool>)
    ensures |s| == 64 && Stands(x, s)
  {
    seq(64, i requires 0 <= i < 64 => BitAt(x, i))
  }

  /** The number a word stands for. */
  ghost function WordValue(x: bv64): (v: nat)
    ensures v < Pow2(64)
  {
    ValueBound(WordBits(x));
    ValueOf(WordBits(x))
  }

  lemma BitsOfWord(x: bv64)
    ensures BitsOf(64, WordValue(x)) == WordBits(x)
  {
    BitsOfValue(WordBits(x));
  }

  /** In numbers, bitreverse takes the value of the bits in reverse order. */
  lemma ReverseValue(x: bv64, y: bv64)
    requires BitsReversed(x, y)
    ensures WordValue(y) == ValueOf(Reversed(BitsOf(64, WordValue(x))))
  {
    BitsOfWord(x);
    ReversesWord(x, y, WordBits(x));
    assert WordBits(y) == Reversed(WordBits(x)) by {
      forall i: nat | i < 64
        ensures WordBits(y)[i] == Reversed(WordBits(x))[i]
      {
        assert BitAt(y, i) == Reversed(WordBits(x))[i];
      }
    }
  }
}
