/**
  The vertex scramble and the recursive edge placement of the Kronecker generator
  (trident-workloads/graph500/generator/graph_generator.c).  A word is the sequence of its
  bits, lowest first; sums and products are taken of the values and cut to 64 bits.
*/
module Scramble {
  import opened Frontier
  import opened BitStrings
  import opened BitReversal

  // ---------------------------------------------------------------------- low bits

  ghost predicate SameBit(x: nat, y: nat, i: nat) {
    Bit(x, i) == Bit(y, i)
  }

  /** x and y agree in their lowest n bits. */
  ghost predicate SameLow(n: nat, x: nat, y: nat) {
    forall i: nat {:trigger SameBit(x, y, i)} :: i < n ==> SameBit(x, y, i)
  }

  lemma SameLowBits(n: nat, x: nat, y: nat)
    ensures SameLow(n, x, y) <==> BitsOf(n, x) == BitsOf(n, y)
  {
    if BitsOf(n, x) == BitsOf(n, y) {
      forall i: nat | i < n
        ensures SameBit(x, y, i)
      {
        assert BitsOf(n, x)[i] == BitsOf(n, y)[i];
      }
    }
    if SameLow(n, x, y) {
      forall i: nat | i < n
        ensures BitsOf(n, x)[i] == BitsOf(n, y)[i]
      {
        assert SameBit(x, y, i);
      }
    }
  }

  lemma SameLowStep(n: nat, x: nat, y: nat)
    requires n > 0
    ensures SameLow(n, x, y) <==> x % 2 == y % 2 && SameLow(n - 1, x / 2, y / 2)
  {
    if SameLow(n, x, y) {
      assert SameBit(x, y, 0);
      forall i: nat | i < n - 1
        ensures SameBit(x / 2, y / 2, i)
      {
        assert SameBit(x, y, i + 1);
      }
    }
    if x % 2 == y % 2 && SameLow(n - 1, x / 2, y / 2) {
      forall i: nat | i < n
        ensures SameBit(x, y, i)
      {
        assert i > 0 ==> SameBit(x / 2, y / 2, i - 1);
      }
    }
  }

  lemma HalfSum(x: nat, c: nat)
    ensures (x + c) / 2 == x / 2 + (c / 2 + (if x % 2 + c % 2 == 2 then 1 else 0))
    ensures (x + c) % 2 == (x % 2 + c % 2) % 2
  {
  }

  /** s and t stand for x and y plus a number that carries the same from both. */
  lemma AddLowStep(n: nat, x: nat, y: nat, s: nat, t: nat, carry: nat)
    requires n > 0 && (x % 2 == y % 2 <==> s % 2 == t % 2)
    requires x % 2 == y % 2 ==> s / 2 == x / 2 + carry && t / 2 == y / 2 + carry
    requires SameLow(n - 1, x / 2 + carry, y / 2 + carry) <==> SameLow(n - 1, x / 2, y / 2)
    ensures SameLow(n, s, t) <==> SameLow(n, x, y)
  {
    SameLowStep(n, x, y);
    SameLowStep(n, s, t);
  }

  /** Equal low bits before an addition exactly if after it. */
  lemma {:induction false} AddLow(n: nat, x: nat, y: nat, c: nat)
    ensures SameLow(n, x + c, y + c) <==> SameLow(n, x, y)
    decreases n
  {
    if n > 0 {
      var carry := c / 2 + (if x % 2 + c % 2 == 2 then 1 else 0);
      HalfSum(x, c);
      HalfSum(y, c);
      AddLow(n - 1, x / 2, y / 2, carry);
      AddLowStep(n, x, y, x + c, y + c, carry);
    }
  }

  lemma OddProduct(x: nat, k: nat)
    requires k % 2 == 1
    ensures (x * k) % 2 == x % 2
    ensures (x * k) / 2 == (x / 2) * k + (if x % 2 == 1 then k / 2 else 0)
  {
    var h, b := x / 2, x % 2;
    assert x == 2 * h + b;
    assert x * k == 2 * (h * k) + b * k by {
      assert (2 * h + b) * k == (2 * h) * k + b * k;
      assert (2 * h) * k == 2 * (h * k);
    }
    assert b * k == if b == 1 then k else 0;
  }

  /** p and q stand for x k and y k, hx and hy for (x / 2) k and (y / 2) k. */
  lemma TimesLowStep(n: nat, x: nat, y: nat, p: nat, q: nat, hx: nat, hy: nat, c: nat)
    requires n > 0 && p % 2 == x % 2 && q % 2 == y % 2
    requires x % 2 == y % 2 ==> p / 2 == hx + c && q / 2 == hy + c
    requires SameLow(n - 1, hx, hy) <==> SameLow(n - 1, x / 2, y / 2)
    ensures SameLow(n, p, q) <==> SameLow(n, x, y)
  {
    SameLowStep(n, x, y);
    SameLowStep(n, p, q);
    AddLow(n - 1, hx, hy, c);
  }

  /** Multiplying by an odd number loses no low bits. */
  lemma {:induction false} TimesLow(n: nat, x: nat, y: nat, k: nat)
    requires k % 2 == 1
    ensures SameLow(n, x * k, y * k) <==> SameLow(n, x, y)
    decreases n
  {
    if n > 0 {
      OddProduct(x, k);
      OddProduct(y, k);
      TimesLow(n - 1, x / 2, y / 2, k);
      TimesLowStep(n, x, y, x * k, y * k, (x / 2) * k, (y / 2) * k, if x % 2 == 1 then k / 2 else 0);
    }
  }

  // -------------------------------------------------------------------- 64-bit words

  /** What a 64-bit register keeps of x. */
  function Wrap(x: nat): nat {
    ValueOf(BitsOf(64, x))
  }

  lemma WrapLow(lgN: nat, x: nat)
    requires lgN <= 64
    ensures SameLow(lgN, Wrap(x), x)
  {
    forall i: nat | i < lgN
      ensures SameBit(Wrap(x), x, i)
    {
      BitOfValue(BitsOf(64, x), i);
    }
  }

  /** bitreverse(v) >> (64 - lgN) */
  function ReverseTop(v: nat, lgN: nat): nat
    requires 1 <= lgN <= 63
  {
    ValueOf(Reversed(BitsOf(64, v))[64 - lgN..])
  }

  /** The same on a 64-bit word, by the byte swap, masks and shifts: the reversed word, shifted right by 64 - lgN. */
  method ReverseWord(x: bv64) returns (y: bv64)
    ensures forall lgN :: 1 <= lgN <= 63 ==> ReverseTop(WordValue(x), lgN) == WordValue(y) / Pow2(64 - lgN)
  {
    y := BitReversal.BitReverse(x);
    forall lgN | 1 <= lgN <= 63
      ensures ReverseTop(WordValue(x), lgN) == WordValue(y) / Pow2(64 - lgN)
    {
      ReversedTop(x, y, lgN);
    }
  }

  lemma ReversedTop(x: bv64, y: bv64, lgN: nat)
    requires 1 <= lgN <= 63 && BitsReversed(x, y)
    ensures ReverseTop(WordValue(x), lgN) == WordValue(y) / Pow2(64 - lgN)
  {
    ReverseValue(x, y);
    DropIsQuotient(Reversed(BitsOf(64, WordValue(x))), 64 - lgN);
  }

  lemma ReverseTopBound(v: nat, lgN: nat)
    requires 1 <= lgN <= 63
    ensures ReverseTop(v, lgN) < Pow2(lgN)
  {
    ValueBound(Reversed(BitsOf(64, v))[64 - lgN..]);
  }

  lemma ReverseTopBit(v: nat, lgN: nat, i: nat)
    requires 1 <= lgN <= 63 && i < lgN
    ensures Reversed(BitsOf(64, v))[64 - lgN..][i] == BitsOf(lgN, v)[lgN - 1 - i]
  {
    DroppedBit(BitsOf(64, v), 64 - lgN, i);
  }

  lemma DroppedBit(s: seq<bool>, k: nat, i: nat)
    requires |s| == 64 && k + i < 64
    ensures Reversed(s)[k..][i] == s[63 - k - i]
  {
  }

  lemma MirrorSame(r: seq<bool>, r': seq<bool>, b: seq<bool>, b': seq<bool>)
    requires |r| == |r'| == |b| == |b'|
    requires forall i :: 0 <= i < |r| ==> r[i] == b[|r| - 1 - i] && r'[i] == b'[|r| - 1 - i]
    ensures r == r' <==> b == b'
  {
    if r == r' {
      forall j | 0 <= j < |b|
        ensures b[j] == b'[j]
      {
        assert r[|r| - 1 - j] == r'[|r| - 1 - j];
      }
    }
  }

  /** It tells v and v' apart exactly if their low lgN bits differ. */
  lemma ReverseTopLow(v: nat, v': nat, lgN: nat)
    requires 1 <= lgN <= 63
    ensures ReverseTop(v, lgN) == ReverseTop(v', lgN) <==> SameLow(lgN, v, v')
  {
    var r, r' := Reversed(BitsOf(64, v))[64 - lgN..], Reversed(BitsOf(64, v'))[64 - lgN..];
    forall i: nat | i < lgN
      ensures r[i] == BitsOf(lgN, v)[lgN - 1 - i] && r'[i] == BitsOf(lgN, v')[lgN - 1 - i]
    {
      ReverseTopBit(v, lgN, i);
      ReverseTopBit(v', lgN, i);
    }
    MirrorSame(r, r', BitsOf(lgN, v), BitsOf(lgN, v'));
    SameLowBits(lgN, v, v');
    BitsOfValue(r);
    BitsOfValue(r');
  }

  // ------------------------------------------------------------------------ scramble

  /** Bitwise or. */
  function Or(a: nat, b: nat): nat
    decreases a, b
  {
    if a == 0 then b else if b == 0 then a
    else (if a % 2 == 1 || b % 2 == 1 then 1 else 0) + 2 * Or(a / 2, b / 2)
  }

  lemma {:induction false} OrBit(a: nat, b: nat, i: nat)
    ensures Bit(Or(a, b), i) <==> Bit(a, i) || Bit(b, i)
    decreases i, a, b
  {
    if a != 0 && b != 0 {
      var c := if a % 2 == 1 || b % 2 == 1 then 1 else 0;
      assert Or(a, b) == c + 2 * Or(a / 2, b / 2);
      if i > 0 {
        OrBit(a / 2, b / 2, i - 1);
      }
    } else {
      NoBits(i);
    }
  }

  lemma {:induction false} NoBits(i: nat)
    ensures !Bit(0, i)
  {
    if i > 0 {
      NoBits(i - 1);
    }
  }

  /** An odd multiplier made of val. */
  function Multiplier(val: nat, odd: nat): (k: nat)
    requires odd % 2 == 1
    ensures k % 2 == 1
  {
    Or(val, odd)
  }

  function Times(a: nat, b: nat): nat { a * b }

  /** One multiplication and reversal of scramble. */
  function Stage(v: nat, k: nat, lgN: nat): nat
    requires 1 <= lgN <= 63
  {
    ReverseTop(Wrap(Times(v, k)), lgN)
  }

  function Scrambled(v0: nat, lgN: nat, val0: nat, val1: nat): nat
    requires 1 <= lgN <= 63
  {
    TwoStages(Wrap(v0 + (val0 + val1)), Multiplier(val0, 0x4519840211493211), Multiplier(val1, 0x3050852102c843a5), lgN)
  }

  function TwoStages(v: nat, k0: nat, k1: nat, lgN: nat): nat
    requires 1 <= lgN <= 63
  {
    Stage(Stage(v, k0, lgN), k1, lgN)
  }

  lemma StageBound(v: nat, k: nat, lgN: nat)
    requires 1 <= lgN <= 63
    ensures Stage(v, k, lgN) < Pow2(lgN)
  {
    ReverseTopBound(Wrap(Times(v, k)), lgN);
  }

  lemma TwoStagesBound(v: nat, k0: nat, k1: nat, lgN: nat)
    requires 1 <= lgN <= 63
    ensures TwoStages(v, k0, k1, lgN) < Pow2(lgN)
  {
    StageBound(Stage(v, k0, lgN), k1, lgN);
  }

  lemma ScrambledBound(v0: nat, lgN: nat, val0: nat, val1: nat)
    requires 1 <= lgN <= 63
    ensures Scrambled(v0, lgN, val0, val1) < Pow2(lgN)
  {
    TwoStagesBound(Wrap(v0 + (val0 + val1)), Multiplier(val0, 0x4519840211493211), Multiplier(val1, 0x3050852102c843a5), lgN);
  }

  /** A stage reverses the low lgN bits of the product. */
  lemma StageBit(v: nat, k: nat, lgN: nat, i: nat)
    requires 1 <= lgN <= 63 && i < lgN
    ensures Bit(Stage(v, k, lgN), i) == Bit(Times(v, k), lgN - 1 - i)
  {
    var x := Wrap(Times(v, k));
    var r := Reversed(BitsOf(64, x))[64 - lgN..];
    BitOfValue(r, i);
    ReverseTopBit(x, lgN, i);
    WrapLow(64, Times(v, k));
    assert SameBit(x, Times(v, k), lgN - 1 - i);
  }

  /** scramble, bit by bit: sum, multiplication by val0 with some bits set, reversal, multiplication by val1 with others set, reversal. */
  lemma ScrambledBit(v0: nat, lgN: nat, val0: nat, val1: nat, i: nat) returns (k0: nat, k1: nat, mid: nat)
    requires 1 <= lgN <= 63 && i < lgN
    ensures forall b: nat :: Bit(k0, b) <==> Bit(val0, b) || Bit(0x4519_8402_1149_3211, b)
    ensures forall b: nat :: Bit(k1, b) <==> Bit(val1, b) || Bit(0x3050_8521_02c8_43a5, b)
    ensures forall b: nat :: b < lgN ==> Bit(mid, b) == Bit(Times(Wrap(v0 + val0 + val1), k0), lgN - 1 - b)
    ensures mid < Pow2(lgN) && Bit(Scrambled(v0, lgN, val0, val1), i) == Bit(Times(mid, k1), lgN - 1 - i)
  {
    k0, k1 := Multiplier(val0, 0x4519840211493211), Multiplier(val1, 0x3050852102c843a5);
    var v := Wrap(v0 + (val0 + val1));
    assert v0 + (val0 + val1) == v0 + val0 + val1;
    mid := Stage(v, k0, lgN);
    StageBound(v, k0, lgN);
    forall b: nat
      ensures Bit(k0, b) <==> Bit(val0, b) || Bit(0x4519840211493211, b)
      ensures Bit(k1, b) <==> Bit(val1, b) || Bit(0x3050852102c843a5, b)
    {
      OrBit(val0, 0x4519840211493211, b);
      OrBit(val1, 0x3050852102c843a5, b);
    }
    forall b: nat | b < lgN
      ensures Bit(mid, b) == Bit(Times(v, k0), lgN - 1 - b)
    {
      StageBit(v, k0, lgN, b);
    }
    StageBit(mid, k1, lgN, i);
  }

  lemma SameLowTrans(n: nat, x: nat, y: nat, x': nat, y': nat)
    requires SameLow(n, x, x') && SameLow(n, y, y')
    ensures SameLow(n, x, y) <==> SameLow(n, x', y')
  {
    SameLowBits(n, x, x');
    SameLowBits(n, y, y');
    SameLowBits(n, x, y);
    SameLowBits(n, x', y');
  }

  /** A wrapped product with an odd number, reversed: equal results exactly for equal low bits. */
  lemma StageLow(x: nat, y: nat, k: nat, lgN: nat)
    requires 1 <= lgN <= 63 && k % 2 == 1
    ensures Stage(x, k, lgN) == Stage(y, k, lgN) <==> SameLow(lgN, x, y)
  {
    var p, q := Times(x, k), Times(y, k);
    ReverseTopLow(Wrap(p), Wrap(q), lgN);
    WrapLow(lgN, p);
    WrapLow(lgN, q);
    SameLowTrans(lgN, Wrap(p), Wrap(q), p, q);
    TimesLow(lgN, x, y, k);
  }

  lemma SameSmall(lgN: nat, x: nat, y: nat)
    requires x < Pow2(lgN) && y < Pow2(lgN)
    ensures SameLow(lgN, x, y) <==> x == y
  {
    SameLowBits(lgN, x, y);
    ValueOfBits(lgN, x);
    ValueOfBits(lgN, y);
  }

  /** Different vertices stay different. */
  lemma ScrambleInjective(x: nat, y: nat, lgN: nat, val0: nat, val1: nat)
    requires 1 <= lgN <= 63 && x < Pow2(lgN) && y < Pow2(lgN)
    requires Scrambled(x, lgN, val0, val1) == Scrambled(y, lgN, val0, val1)
    ensures x == y
  {
    var k0, k1 := Multiplier(val0, 0x4519840211493211), Multiplier(val1, 0x3050852102c843a5);
    TwoStagesInjective(Wrap(x + (val0 + val1)), Wrap(y + (val0 + val1)), k0, k1, lgN);
    WrappedSum(x, y, val0 + val1, lgN);
  }

  lemma StageInjective(x: nat, y: nat, k: nat, lgN: nat)
    requires 1 <= lgN <= 63 && k % 2 == 1 && x < Pow2(lgN) && y < Pow2(lgN) && Stage(x, k, lgN) == Stage(y, k, lgN)
    ensures x == y
  {
    StageLow(x, y, k, lgN);
    SameSmall(lgN, x, y);
  }

  lemma TwoStagesInjective(x: nat, y: nat, k0: nat, k1: nat, lgN: nat)
    requires 1 <= lgN <= 63 && k0 % 2 == 1 && k1 % 2 == 1 && TwoStages(x, k0, k1, lgN) == TwoStages(y, k0, k1, lgN)
    ensures SameLow(lgN, x, y)
  {
    StageBound(x, k0, lgN);
    StageBound(y, k0, lgN);
    StageInjective(Stage(x, k0, lgN), Stage(y, k0, lgN), k1, lgN);
    StageLow(x, y, k0, lgN);
  }

  lemma WrappedSum(x: nat, y: nat, c: nat, lgN: nat)
    requires 1 <= lgN <= 63 && x < Pow2(lgN) && y < Pow2(lgN) && SameLow(lgN, Wrap(x + c), Wrap(y + c))
    ensures x == y
  {
    WrapLow(lgN, x + c);
    WrapLow(lgN, y + c);
    ShiftedSame(x, y, c, Wrap(x + c), Wrap(y + c), lgN);
  }

  lemma ShiftedSame(x: nat, y: nat, c: nat, x1: nat, y1: nat, lgN: nat)
    requires x < Pow2(lgN) && y < Pow2(lgN) && SameLow(lgN, x1, x + c) && SameLow(lgN, y1, y + c) && SameLow(lgN, x1, y1)
    ensures x == y
  {
    SameLowTrans(lgN, x1, y1, x + c, y + c);
    AddLow(lgN, x, y, c);
    SameSmall(lgN, x, y);
  }

  ghost function Image(n: nat, f: nat -> nat): set<nat> {
    set x: nat | x < n :: f(x)
  }

  lemma {:induction false} ImageSize(n: nat, f: nat -> nat)
    requires forall x: nat, y: nat :: x < n && y < n && f(x) == f(y) ==> x == y
    ensures |Image(n, f)| == n
  {
    if n == 0 {
      assert Image(0, f) == {};
    } else {
      ImageSize(n - 1, f);
      assert Image(n, f) == Image(n - 1, f) + {f(n - 1)};
    }
  }

  /** Every vertex number below 2^lgN is the scrambled form of exactly one: scramble is a bijection. */
  lemma ScrambleOnto(y: nat, lgN: nat, val0: nat, val1: nat) returns (x: nat)
    requires 1 <= lgN <= 63 && y < Pow2(lgN)
    ensures x < Pow2(lgN) && Scrambled(x, lgN, val0, val1) == y
  {
    var n := Pow2(lgN);
    var f: nat -> nat := v => Scrambled(v, lgN, val0, val1);
    forall a: nat, b: nat | a < n && b < n && f(a) == f(b)
      ensures a == b
    {
      ScrambleInjective(a, b, lgN, val0, val1);
    }
    ImageSize(n, f);
    forall z | z in Image(n, f)
      ensures z in Below(n)
    {
      var v: nat :| v < n && z == f(v);
      ScrambledBound(v, lgN, val0, val1);
    }
    SubsetSize(Image(n, f), Below(n));
    assert y in Image(n, f);
    x :| x < n && y == f(x);
  }

  // ------------------------------------------------------------------- make_one_edge

  datatype Edge = Edge(v0: nat, v1: nat)

  /**
    The choice at level i: it gives the next binary digit of the source and of the target, in
    this order; but if both are in the same block, the choice 2 is taken as 1.
  */
  ghost predicate DigitAt(squares: seq<nat>, levels: nat, src: nat, tgt: nat, i: nat) {
    i < levels && i < |squares|
    && var s, t := src / Pow2(levels - 1 - i) % 2, tgt / Pow2(levels - 1 - i) % 2;
       if squares[i] == 2 && src / Pow2(levels - i) == tgt / Pow2(levels - i) then s == 0 && t == 1
       else s == squares[i] / 2 && t == squares[i] % 2
  }

  /** src and tgt are made of the choices at the first levels. */
  ghost predicate Digits(squares: seq<nat>, levels: nat, src: nat, tgt: nat) {
    forall i: nat {:trigger DigitAt(squares, levels, src, tgt, i)} :: i < levels ==> DigitAt(squares, levels, src, tgt, i)
  }

  lemma LowDigit(x: nat, digit: nat, k: nat)
    requires digit < 2
    ensures (2 * x + digit) / Pow2(k + 1) == x / Pow2(k)
  {
    HalfQuotient(x, digit, Pow2(k));
  }

  /** One more level puts one more digit at the end. */
  lemma DigitsNext(squares: seq<nat>, levels: nat, src: nat, tgt: nat, s: nat, t: nat)
    requires Digits(squares, levels, src, tgt) && levels < |squares| && s < 2 && t < 2
    requires if squares[levels] == 2 && src == tgt then s == 0 && t == 1 else s == squares[levels] / 2 && t == squares[levels] % 2
    ensures Digits(squares, levels + 1, 2 * src + s, 2 * tgt + t)
  {
    var next, src', tgt' := levels + 1, 2 * src + s, 2 * tgt + t;
    forall i: nat | i < next
      ensures DigitAt(squares, next, src', tgt', i)
    {
      if i < levels {
        DigitBefore(squares, levels, src, tgt, src', tgt', i);
      } else {
        LowDigit(src, s, 0);
        LowDigit(tgt, t, 0);
        assert Pow2(0) == 1;
      }
    }
  }

  lemma DigitBefore(squares: seq<nat>, levels: nat, src: nat, tgt: nat, src': nat, tgt': nat, i: nat)
    requires Digits(squares, levels, src, tgt) && i < levels && (src' == 2 * src || src' == 2 * src + 1) && (tgt' == 2 * tgt || tgt' == 2 * tgt + 1)
    ensures DigitAt(squares, levels + 1, src', tgt', i)
  {
    assert DigitAt(squares, levels, src, tgt, i);
    LowDigit(src, src' - 2 * src, levels - 1 - i);
    LowDigit(tgt, tgt' - 2 * tgt, levels - 1 - i);
    LowDigit(src, src' - 2 * src, levels - i);
    LowDigit(tgt, tgt' - 2 * tgt, levels - i);
  }

  /** The loop of make_one_edge: the choices are the digits of the two vertices, and the source never lies after the target. */
  method PlaceEdge(lgN: nat, squares: seq<nat>) returns (baseSrc: nat, baseTgt: nat)
    requires |squares| == lgN && forall i :: 0 <= i < lgN ==> squares[i] < 4
    ensures baseSrc <= baseTgt < Pow2(lgN)
    ensures Digits(squares, lgN, baseSrc, baseTgt)
  {
    var nverts: nat, level: nat := Pow2(lgN), 0;
    baseSrc, baseTgt := 0, 0;
    ghost var src, tgt: nat := 0, 0;
    while nverts > 1
      invariant level <= lgN && nverts == Pow2(lgN - level)
      invariant baseSrc == baseTgt || baseSrc + nverts <= baseTgt
      invariant baseTgt + nverts <= Pow2(lgN)
      invariant Blocks(nverts, src, baseSrc) && Blocks(nverts, tgt, baseTgt) && Digits(squares, level, src, tgt)
      decreases lgN - level
    {
      var square := squares[level];
      var srcOffset, tgtOffset := square / 2, square % 2;
      assert baseSrc <= baseTgt;
      SameBlock(nverts, src, baseSrc, tgt, baseTgt);
      if baseSrc == baseTgt && srcOffset > tgtOffset {
        srcOffset, tgtOffset := tgtOffset, srcOffset;
      }
      DigitsNext(squares, level, src, tgt, srcOffset, tgtOffset);
      nverts := nverts / 2;
      level := level + 1;
      Halve(nverts, src, baseSrc, srcOffset);
      Halve(nverts, tgt, baseTgt, tgtOffset);
      baseSrc := baseSrc + nverts * srcOffset;
      baseTgt := baseTgt + nverts * tgtOffset;
      src, tgt := 2 * src + srcOffset, 2 * tgt + tgtOffset;
    }
    LastLevel(lgN, level, nverts, src, baseSrc);
    LastLevel(lgN, level, nverts, tgt, baseTgt);
  }

  /** The block with number x, of n vertices each, begins at base. */
  ghost predicate Blocks(n: nat, x: nat, base: nat) {
    base == n * x
  }

  lemma SameBlock(n: nat, a: nat, baseA: nat, b: nat, baseB: nat)
    requires n > 0 && Blocks(n, a, baseA) && Blocks(n, b, baseB)
    ensures baseA == baseB <==> a == b
  {
    if baseA == baseB {
      assert n * (a - b) == 0;
    }
  }

  /** The lower or upper half of a block. */
  lemma Halve(n: nat, x: nat, base: nat, offset: nat)
    requires Blocks(2 * n, x, base) && offset < 2
    ensures Blocks(n, 2 * x + offset, base + n * offset)
    ensures n * offset == if offset == 1 then n else 0
  {
    assert n * (2 * x + offset) == (2 * n) * x + n * offset;
  }

  lemma LastLevel(lgN: nat, level: nat, nverts: nat, x: nat, base: nat)
    requires level <= lgN && nverts == Pow2(lgN - level) && nverts <= 1 && Blocks(nverts, x, base)
    ensures level == lgN && base == x
  {
  }

  /**
    make_one_edge: the edge joins the scrambled numbers of two vertices below 2^lgN, the source
    not after the target, and is a loop exactly if they are the same.  squares are the four-way
    choices that the random generator makes.
  */
  method MakeOneEdge(lgN: nat, squares: seq<nat>, val0: nat, val1: nat) returns (result: Edge, ghost src: nat, ghost tgt: nat)
    requires 1 <= lgN <= 63 && |squares| == lgN && forall i :: 0 <= i < lgN ==> squares[i] < 4
    ensures src <= tgt < Pow2(lgN) && Digits(squares, lgN, src, tgt)
    ensures result == Edge(Scrambled(src, lgN, val0, val1), Scrambled(tgt, lgN, val0, val1))
    ensures result.v0 < Pow2(lgN) && result.v1 < Pow2(lgN) && (result.v0 == result.v1 <==> src == tgt)
  {
    var baseSrc, baseTgt := PlaceEdge(lgN, squares);
    src, tgt := baseSrc, baseTgt;
    result := Edge(Scrambled(baseSrc, lgN, val0, val1), Scrambled(baseTgt, lgN, val0, val1));
    ScrambledBound(src, lgN, val0, val1);
    ScrambledBound(tgt, lgN, val0, val1);
    if result.v0 == result.v1 {
      ScrambleInjective(src, tgt, lgN, val0, val1);
    }
  }
}
