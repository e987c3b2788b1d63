/**
  PERIOD of trident-workloads/gups/gups.c is a period of the sequence: as many steps lead from 1
  back to 1. The word after 2 * k steps is the square, as a polynomial, of the word after k steps.
*/
module Period {
  import opened ShiftRegister

  const PERIOD: int := 1317624576693539401

  // -------------------------------------------------------------------- squaring

  /** A zero after each of the lower 32 bits of x: the square of x before it is reduced. */
  function Spread(x: bv64): bv64 {
    var a := (x | (x << 16)) & 0x0000_FFFF_0000_FFFF;
    var b := (a | (a << 8)) & 0x00FF_00FF_00FF_00FF;
    var c := (b | (b << 4)) & 0x0F0F_0F0F_0F0F_0F0F;
    var d := (c | (c << 2)) & 0x3333_3333_3333_3333;
    (d | (d << 1)) & 0x5555_5555_5555_5555
  }

  predicate Short(x: bv64) { x & 0xFFFF_FFFF == x }
  predicate Sparse(x: bv64) { x & 0x5555_5555_5555_5555 == x }
  function LowHalf(x: bv64): bv64 { x & 0xFFFF_FFFF }
  function HighHalf(x: bv64): bv64 { x >> 32 }
  predicate Tall(x: bv64) { x & 0x8000_0000 != 0 }
  predicate High(x: bv64) { x & 0x4000_0000_0000_0000 != 0 }

  function One(on: bool): bv64 { if on then 1 else 0 }

  /** Twice x within 32 bits. */
  function ShortTwice(x: bv64): bv64 { (x << 1) & 0xFFFF_FFFF }
  function FourTimes(x: bv64): bv64 { x << 2 }

  lemma SpreadPlusSeven(x: bv64)
    requires Short(x)
    ensures Spread(Xor(x, 7)) == Xor(Spread(x), 0x15)
  {
  }

  lemma SpreadPlusOne(x: bv64)
    requires Short(x)
    ensures Spread(Xor(x, 1)) == Xor(Spread(x), 1)
  {
  }

  lemma SpreadCarry(x: bv64, high: bool)
    requires Short(x)
    ensures Spread(Xor(x, CarryOf(high))) == Xor(Spread(x), if high then 0x15 else 0)
  {
    if high {
      SpreadPlusSeven(x);
    } else {
      Cancel(x);
      Cancel(Spread(x));
    }
  }

  lemma SpreadOne(x: bv64, low: bool)
    requires Short(x)
    ensures Spread(Xor(x, One(low))) == Xor(Spread(x), One(low))
  {
    if low {
      SpreadPlusOne(x);
    } else {
      Cancel(x);
      Cancel(Spread(x));
    }
  }

  lemma SpreadTwice(x: bv64)
    requires Short(x)
    ensures Spread(ShortTwice(x)) == FourTimes(Spread(x))
  {
  }

  lemma SpreadTall(x: bv64)
    requires Short(x)
    ensures Tall(x) <==> High(Spread(x))
  {
  }

  lemma SpreadSparse(x: bv64)
    ensures Sparse(Spread(x))
  {
  }

  /** Two steps of a word with the bits at odd places clear. */
  lemma SparseSteps(x: bv64)
    requires Sparse(x)
    ensures Lfsr(Lfsr(x)) == Xor(FourTimes(x), CarryOf(High(x)))
  {
  }

  lemma NegativeIsTall(a: bv64)
    ensures Negative(a) <==> Tall(HighHalf(a))
  {
  }

  lemma HalvesOfTwice(a: bv64)
    ensures LowHalf(Twice(a)) == ShortTwice(LowHalf(a))
    ensures HighHalf(Twice(a)) == Xor(ShortTwice(HighHalf(a)), One(Tall(LowHalf(a))))
  {
  }

  lemma HalvesPlusSeven(a: bv64)
    ensures LowHalf(Xor(a, 7)) == Xor(LowHalf(a), 7) && HighHalf(Xor(a, 7)) == HighHalf(a)
  {
  }

  /** The lower half and the carry of a step. */
  lemma LowOfStep(a: bv64)
    ensures LowHalf(Lfsr(a)) == Xor(ShortTwice(LowHalf(a)), CarryOf(Tall(HighHalf(a))))
  {
    HalvesOfTwice(a);
    NegativeIsTall(a);
    if Negative(a) {
      HalvesPlusSeven(Twice(a));
    } else {
      Cancel(Twice(a));
      Cancel(ShortTwice(LowHalf(a)));
    }
  }

  lemma HighOfStep(a: bv64)
    ensures HighHalf(Lfsr(a)) == Xor(ShortTwice(HighHalf(a)), One(Tall(LowHalf(a))))
  {
    HalvesOfTwice(a);
    if Negative(a) {
      HalvesPlusSeven(Twice(a));
    } else {
      Cancel(Twice(a));
    }
  }

  lemma HalvesShort(a: bv64)
    ensures Short(LowHalf(a)) && Short(HighHalf(a)) && Short(ShortTwice(a))
  {
  }

  /** l and h * x^64, where x^64 is 1 + x + x^2 modulo the polynomial. */
  function Joined(l: bv64, h: bv64): bv64 {
    Xor(l, Xor(h, Xor(Lfsr(h), Lfsr(Lfsr(h)))))
  }

  lemma JoinedLinear(l: bv64, h: bv64, l': bv64, h': bv64)
    ensures Joined(Xor(l, l'), Xor(h, h')) == Xor(Joined(l, h), Joined(l', h'))
  {
    LfsrLinear(h, h');
    LfsrLinear(Lfsr(h), Lfsr(h'));
    Regroup(Lfsr(h), Lfsr(h'), Lfsr(Lfsr(h)), Lfsr(Lfsr(h')));
    var s, s' := Xor(Lfsr(h), Lfsr(Lfsr(h))), Xor(Lfsr(h'), Lfsr(Lfsr(h')));
    Regroup(h, h', s, s');
    Regroup(l, l', Xor(h, s), Xor(h', s'));
  }

  lemma JoinedStep(l: bv64, h: bv64)
    ensures Lfsr(Joined(l, h)) == Joined(Lfsr(l), Lfsr(h))
  {
    var s := Xor(Lfsr(h), Lfsr(Lfsr(h)));
    LfsrLinear(l, Xor(h, s));
    LfsrLinear(h, s);
    LfsrLinear(Lfsr(h), Lfsr(Lfsr(h)));
  }

  /** What two steps carry out of the two halves is the same before and after joining them. */
  lemma JoinedCarries(low: bool, high: bool)
    ensures Joined(if high then 0x15 else 0, One(low)) == Joined(CarryOf(low), CarryOf(high))
  {
  }

  function Squared(a: bv64): bv64 {
    Joined(Spread(LowHalf(a)), Spread(HighHalf(a)))
  }

  lemma SpreadLow(a: bv64)
    ensures Spread(LowHalf(Lfsr(a))) == Xor(FourTimes(Spread(LowHalf(a))), if High(Spread(HighHalf(a))) then 0x15 else 0)
  {
    var l, h := LowHalf(a), HighHalf(a);
    HalvesShort(a);
    HalvesShort(l);
    LowOfStep(a);
    SpreadCarry(ShortTwice(l), Tall(h));
    SpreadTwice(l);
    SpreadTall(h);
  }

  lemma SpreadHigh(a: bv64)
    ensures Spread(HighHalf(Lfsr(a))) == Xor(FourTimes(Spread(HighHalf(a))), One(High(Spread(LowHalf(a)))))
  {
    var l, h := LowHalf(a), HighHalf(a);
    HalvesShort(a);
    HalvesShort(h);
    HighOfStep(a);
    SpreadOne(ShortTwice(h), Tall(l));
    SpreadTwice(h);
    SpreadTall(l);
  }

  /** One step more before squaring is two steps more after it. */
  lemma SquaredStep(a: bv64)
    ensures Squared(Lfsr(a)) == Lfsr(Lfsr(Squared(a)))
  {
    SpreadLow(a);
    SpreadHigh(a);
    SpreadSparse(LowHalf(a));
    SpreadSparse(HighHalf(a));
    JoinedSteps(Spread(LowHalf(a)), Spread(HighHalf(a)));
  }

  lemma JoinedSteps(l: bv64, h: bv64)
    requires Sparse(l) && Sparse(h)
    ensures Joined(Xor(FourTimes(l), if High(h) then 0x15 else 0), Xor(FourTimes(h), One(High(l)))) == Lfsr(Lfsr(Joined(l, h)))
  {
    JoinedStep(l, h);
    JoinedStep(Lfsr(l), Lfsr(h));
    SparseSteps(l);
    SparseSteps(h);
    JoinedLinear(FourTimes(l), FourTimes(h), if High(h) then 0x15 else 0, One(High(l)));
    JoinedLinear(FourTimes(l), FourTimes(h), CarryOf(High(l)), CarryOf(High(h)));
    JoinedCarries(High(l), High(h));
  }

  lemma {:induction false} SquaredSteps(k: nat)
    ensures Squared(Steps(k, 1)) == Steps(2 * k, 1)
  {
    if k == 0 {
      assert Squared(1) == 1;
    } else {
      SquaredSteps(k - 1);
      SquaredStep(Steps(k - 1, 1));
      TwoSteps(Steps(2 * (k - 1), 1));
      StepsAdd(2, 2 * (k - 1), 1);
    }
  }

  // ---------------------------------------------------- the period, in octal 1...1

  /** Another octal digit 1 behind k. */
  function Longer(c: bv64): bv64 {
    Lfsr(Squared(Squared(Squared(c))))
  }

  lemma StepsLonger(k: nat)
    ensures Steps(8 * k + 1, 1) == Longer(Steps(k, 1))
  {
    SquaredSteps(k);
    SquaredSteps(2 * k);
    SquaredSteps(4 * k);
  }

  lemma FirstDigits()
    ensures Steps(37449, 1) == 0xF2F2_F2F2_0000_F200
  {
    assert Steps(1, 1) == Lfsr(Steps(0, 1)) == 2;
    StepsLonger(1);
    assert Longer(0x2) == 0x200;
    StepsLonger(9);
    assert Longer(0x200) == 0xE00;
    StepsLonger(73);
    assert Longer(0xE00) == 0xE0E_0E00;
    StepsLonger(585);
    assert Longer(0xE0E_0E00) == 0xF2F2_F200;
    StepsLonger(4681);
    assert Longer(0xF2F2_F200) == 0xF2F2_F2F2_0000_F200;
  }

  lemma NextDigits()
    ensures Steps(1227133513, 1) == 0xF5F5_F5F5_F50A_FA07
  {
    FirstDigits();
    StepsLonger(37449);
    assert Longer(0xF2F2_F2F2_0000_F200) == 0x101_01FE_00FF_FCFD;
    StepsLonger(299593);
    assert Longer(0x101_01FE_00FF_FCFD) == 0x606_0606_0606_F5F4;
    StepsLonger(2396745);
    assert Longer(0x606_0606_0606_F5F4) == 0xC0C_0C0C_FFFF_0C0E;
    StepsLonger(19173961);
    assert Longer(0xC0C_0C0C_FFFF_0C0E) == 0xFCFC_FC03_FF00_FEFC;
    StepsLonger(153391689);
    assert Longer(0xFCFC_FC03_FF00_FEFC) == 0xF5F5_F5F5_F50A_FA07;
  }

  lemma MoreDigits()
    ensures Steps(40210710958665, 1) == 0xF1F1_F1F1_0000_00F1
  {
    NextDigits();
    StepsLonger(1227133513);
    assert Longer(0xF5F5_F5F5_F50A_FA07) == 0xD7D7_D728_DB24_DBD9;
    StepsLonger(9817068105);
    assert Longer(0xD7D7_D728_DB24_DBD9) == 0xF50A_F50A_0505_F5FB;
    StepsLonger(78536544841);
    assert Longer(0xF50A_F50A_0505_F5FB) == 0x8181_817E_7F80_7D83;
    StepsLonger(628292358729);
    assert Longer(0x8181_817E_7F80_7D83) == 0xF8F8_F8F8_F8F8_09FB;
    StepsLonger(5026338869833);
    assert Longer(0xF8F8_F8F8_F8F8_09FB) == 0xF1F1_F1F1_0000_00F1;
  }

  lemma LastDigits()
    ensures Steps(1317624576693539401, 1) == 0x1
  {
    MoreDigits();
    StepsLonger(40210710958665);
    assert Longer(0xF1F1_F1F1_0000_00F1) == 0xD0D_0DF2_0000_FD0F;
    StepsLonger(321685687669321);
    assert Longer(0xD0D_0DF2_0000_FD0F) == 0x2E2E_2ED1_23DC_DDD0;
    StepsLonger(2573485501354569);
    assert Longer(0x2E2E_2ED1_23DC_DDD0) == 0x6F9_06F9_0B0B_06F4;
    StepsLonger(20587884010836553);
    assert Longer(0x6F9_06F9_0B0B_06F4) == 0x8080_8080_8181_8082;
    StepsLonger(164703072086692425);
    assert Longer(0x8080_8080_8181_8082) == 0x1;
  }

  lemma PeriodReturns()
    ensures Steps(PERIOD, 1) == 1
  {
    LastDigits();
  }
}
