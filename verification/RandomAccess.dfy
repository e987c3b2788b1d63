/**
  HPCC_starts (trident-workloads/gups/gups.c): jumping ahead in the shift-register sequence
  x -> x * 2 modulo the polynomial POLY over GF(2), by repeated squaring.
*/
module RandomAccess {
  import opened BitStrings
  import opened ShiftRegister
  import opened Period

  function Pick(r: bv64, e: bv64): bv64 {
    if Odd(r) then e else 0
  }

  /** The sum of the entries of m that the bits of r select. */
  ghost function Select(m: seq<bv64>, r: bv64): bv64 {
    if m == [] then 0 else Xor(Pick(r, m[0]), Select(m[1..], Half(r)))
  }

  lemma PickXor(a: bv64, b: bv64, e: bv64)
    ensures Pick(Xor(a, b), e) == Xor(Pick(a, e), Pick(b, e))
  {
    OddXor(a, b);
    OneOrNone(Odd(a), Odd(b), e);
  }

  lemma OneOrNone(p: bool, q: bool, e: bv64)
    ensures Xor(if p then e else 0, if q then e else 0) == if p != q then e else 0
  {
    Cancel(e);
    Cancel(0);
  }

  lemma {:induction false} SelectLinear(m: seq<bv64>, a: bv64, b: bv64)
    ensures Select(m, Xor(a, b)) == Xor(Select(m, a), Select(m, b))
    decreases |m|
  {
    if m == [] {
      Cancel(0);
    } else {
      HalfXor(a, b);
      SelectLinear(m[1..], Half(a), Half(b));
      PickXor(a, b, m[0]);
      Regroup(Pick(a, m[0]), Pick(b, m[0]), Select(m[1..], Half(a)), Select(m[1..], Half(b)));
    }
  }

  lemma {:induction false} SelectZero(m: seq<bv64>)
    ensures Select(m, 0) == 0
    decreases |m|
  {
    if m != [] {
      SelectZero(m[1..]);
      assert Half(0) == 0 && !Odd(0);
      Cancel(0);
    }
  }

  // ------------------------------------------------------------------- single bits

  /** Bit number k alone. */
  ghost function Bit(k: nat): bv64 {
    if k == 0 then 1 else Twice(Bit(k - 1))
  }

  lemma {:induction false} BitFrom(j: nat, k: nat)
    requires j <= k
    ensures Bit(k) == Doublings(k - j, Bit(j))
    decreases k
  {
    if j < k {
      BitFrom(j, k - 1);
    }
  }

  ghost function Doublings(k: nat, x: bv64): bv64 {
    if k == 0 then x else Twice(Doublings(k - 1, x))
  }

  lemma Eight(x: bv64)
    ensures Doublings(8, x) == x << 8
  {
    assert Doublings(0, x) == x;
    assert Doublings(1, x) == x << 1;
    assert Doublings(2, x) == x << 2;
    assert Doublings(3, x) == x << 3;
    assert Doublings(4, x) == x << 4;
    assert Doublings(5, x) == x << 5;
    assert Doublings(6, x) == x << 6;
    assert Doublings(7, x) == x << 7;
  }

  lemma BitPlus8(j: nat)
    ensures Bit(j + 8) == Bit(j) << 8
  {
    BitFrom(j, j + 8);
    Eight(Bit(j));
  }

  lemma TopBit()
    ensures Bit(63) == 0x8000_0000_0000_0000
  {
    assert Bit(0) == 1;
    BitFrom(0, 7);
    Eight(1);
    assert Bit(7) == 0x80;
    BitPlus8(7);
    BitPlus8(15);
    BitPlus8(23);
    BitPlus8(31);
    BitPlus8(39);
    BitPlus8(47);
    BitPlus8(55);
  }

  ghost predicate Hot(x: bv64) {
    x & (x - 1) == 0
  }

  lemma HotTwice(x: bv64)
    requires Hot(x)
    ensures Hot(Twice(x))
    ensures Negative(x) ==> Twice(x) == 0
  {
  }

  lemma {:induction false} OneHot(k: nat)
    ensures Hot(Bit(k))
  {
    if k > 0 {
      OneHot(k - 1);
      HotTwice(Bit(k - 1));
    }
  }

  lemma {:induction false} BitGone(k: nat, n: nat)
    requires k <= n && Bit(k) == 0
    ensures Bit(n) == 0
    decreases n
  {
    if k < n {
      BitGone(k, n - 1);
    }
  }

  /** Only bit 63 is the sign bit. */
  lemma BitBelowTop(k: nat)
    requires k < 63
    ensures !Negative(Bit(k))
  {
    if Negative(Bit(k)) {
      OneHot(k);
      HotTwice(Bit(k));
      BitGone(k + 1, 63);
      TopBit();
      assert false;
    }
  }

  lemma {:induction false} StepsOfOne(k: nat)
    requires k <= 63
    ensures Steps(k, 1) == Bit(k)
  {
    if k > 0 {
      StepsOfOne(k - 1);
      BitBelowTop(k - 1);
      Cancel(Bit(k));
    }
  }

  lemma {:induction false} SelectBit(m: seq<bv64>, k: nat)
    requires k < |m| && k < 64
    ensures Select(m, Bit(k)) == m[k]
    decreases k
  {
    if k == 0 {
      assert Half(1) == 0 && Odd(1);
      SelectZero(m[1..]);
      Cancel(m[0]);
    } else {
      BitBelowTop(k - 1);
      HalfTwice(Bit(k - 1));
      SelectBit(m[1..], k - 1);
      Cancel(m[k]);
    }
  }

  // --------------------------------------------- a word is the sum of its bits

  ghost function Bits(n: nat): seq<bv64> {
    seq(n, i requires 0 <= i => Bit(i))
  }

  /** The lowest n bits of r, one at a time. */
  ghost function Low(n: nat, r: bv64): bv64 {
    if n == 0 then 0 else Xor(Pick(r, 1), Twice(Low(n - 1, Half(r))))
  }

  ghost function Halvings(n: nat, r: bv64): bv64 {
    if n == 0 then r else Halvings(n - 1, Half(r))
  }

  lemma Halve8(r: bv64)
    ensures Halvings(8, r) == r >> 8
  {
    assert Halvings(1, r >> 7) == r >> 8;
    assert Halvings(2, r >> 6) == r >> 8;
    assert Halvings(3, r >> 5) == r >> 8;
    assert Halvings(4, r >> 4) == r >> 8;
    assert Halvings(5, r >> 3) == r >> 8;
    assert Halvings(6, r >> 2) == r >> 8;
    assert Halvings(7, r >> 1) == r >> 8;
  }

  lemma {:induction false} HalvingsAdd(i: nat, j: nat, r: bv64)
    ensures Halvings(i + j, r) == Halvings(j, Halvings(i, r))
    decreases i
  {
    if i > 0 {
      HalvingsAdd(i - 1, j, Half(r));
    }
  }

  lemma Shifts(r: bv64)
    ensures (r >> 8) >> 8 == r >> 16 && (r >> 16) >> 16 == r >> 32 && (r >> 32) >> 32 == 0
  {
  }

  lemma Halve16(r: bv64)
    ensures Halvings(16, r) == r >> 16
  {
    Halve8(r);
    Halve8(r >> 8);
    HalvingsAdd(8, 8, r);
    Shifts(r);
  }

  lemma Halve32(r: bv64)
    ensures Halvings(32, r) == r >> 32
  {
    Halve16(r);
    Halve16(r >> 16);
    HalvingsAdd(16, 16, r);
    Shifts(r);
  }

  lemma Halve64(r: bv64)
    ensures Halvings(64, r) == 0
  {
    Halve32(r);
    Halve32(r >> 32);
    HalvingsAdd(32, 32, r);
    Shifts(r);
  }

  lemma OddAndEven(r: bv64)
    ensures Xor(Pick(r, 1), Twice(Half(r))) == r
  {
  }

  lemma {:induction false} LowIs(n: nat, r: bv64)
    requires Halvings(n, r) == 0
    ensures Low(n, r) == r
    decreases n
  {
    if n > 0 {
      LowIs(n - 1, Half(r));
      OddAndEven(r);
    }
  }

  lemma LowAll(r: bv64)
    ensures Low(64, r) == r
  {
    Halve64(r);
    LowIs(64, r);
  }

  ghost function Doubled(m: seq<bv64>): seq<bv64> {
    seq(|m|, i requires 0 <= i < |m| => Twice(m[i]))
  }

  lemma {:induction false} SelectDoubled(m: seq<bv64>, r: bv64)
    ensures Select(Doubled(m), r) == Twice(Select(m, r))
    decreases |m|
  {
    if m == [] {
      assert Twice(0) == 0;
    } else {
      SelectDoubled(m[1..], Half(r));
      assert Doubled(m)[1..] == Doubled(m[1..]);
      assert Twice(0) == 0;
      assert Pick(r, Twice(m[0])) == Twice(Pick(r, m[0]));
      TwiceXor(Pick(r, m[0]), Select(m[1..], Half(r)));
    }
  }

  lemma {:induction false} SelectBits(n: nat, r: bv64)
    ensures Select(Bits(n), r) == Low(n, r)
    decreases n
  {
    if n > 0 {
      SelectBits(n - 1, Half(r));
      assert Bits(n)[1..] == Doubled(Bits(n - 1));
      SelectDoubled(Bits(n - 1), Half(r));
    }
  }

  // --------------------------------------------------------------------- squaring

  /** m2: entry j is the word after 2 j steps from 1, the square of bit j. */
  ghost predicate EntryOk(m: seq<bv64>, j: nat) {
    j < |m| && m[j] == Steps(2 * j, 1)
  }

  ghost predicate Squares(m: seq<bv64>) {
    |m| == 64 && forall j: nat {:trigger EntryOk(m, j)} :: j < 64 ==> EntryOk(m, j)
  }

  /** Two steps and one step further down the table are the same, also past its end, where POLY comes in. */
  lemma SelectStepBit(m: seq<bv64>, j: nat)
    requires Squares(m) && j < 64
    ensures Select(m, Lfsr(Bit(j))) == Steps(2, m[j])
  {
    assert EntryOk(m, j);
    StepsAdd(2, 2 * j, 1);
    if j < 63 {
      BitBelowTop(j);
      Cancel(Bit(j + 1));
      assert Lfsr(Bit(j)) == Bit(j + 1);
      SelectBit(m, j + 1);
      assert EntryOk(m, j + 1);
    } else {
      TopBit();
      SelectPoly(m);
      Steps128();
    }
  }

  lemma Steps64()
    ensures Steps(64, 1) == 7
  {
    StepsOfOne(63);
    TopBit();
    LfsrTop();
  }

  lemma LfsrTop()
    ensures Lfsr(0x8000_0000_0000_0000) == 7
  {
  }

  lemma SmallSteps()
    ensures Steps(0, 1) == 1 && Steps(1, 1) == 2 && Steps(2, 1) == 4 && Steps(4, 1) == 16
    ensures Steps(1, 7) == 14 && Steps(2, 7) == 28
  {
    assert Lfsr(1) == 2 && Lfsr(2) == 4 && Lfsr(4) == 8 && Lfsr(8) == 16 && Lfsr(7) == 14 && Lfsr(14) == 28;
    assert Steps(3, 1) == 8;
  }

  lemma PolyBits()
    ensures Xor(Xor(1, 2), 4) == 7 && Xor(Xor(7, 14), 28) == 21 && Xor(Xor(1, 4), 16) == 21
  {
  }

  lemma StepsCommute(j: nat, k: nat, x: bv64)
    ensures Steps(j, Steps(k, x)) == Steps(k, Steps(j, x))
  {
    StepsAdd(j, k, x);
    StepsAdd(k, j, x);
  }

  lemma Steps64Of7()
    ensures Steps(64, 7) == Xor(Xor(Steps(64, 1), Steps(64, 2)), Steps(64, 4))
  {
    PolyBits();
    StepsLinear(64, Xor(1, 2), 4);
    StepsLinear(64, 1, 2);
  }

  lemma Steps128()
    ensures Steps(128, 1) == 21
  {
    Steps64();
    SmallSteps();
    StepsAdd(64, 64, 1);
    StepsCommute(64, 1, 1);
    StepsCommute(64, 2, 1);
    Steps64Of7();
    PolyBits();
  }

  lemma SelectPoly(m: seq<bv64>)
    requires Squares(m)
    ensures Select(m, 7) == 21
  {
    assert EntryOk(m, 0) && EntryOk(m, 1) && EntryOk(m, 2);
    SmallSteps();
    PolyBits();
    SelectLinear(m, Xor(1, 2), 4);
    SelectLinear(m, 1, 2);
    SelectBit(m, 0);
    SelectBit(m, 1);
    SelectBit(m, 2);
    assert Bit(0) == 1 && Bit(1) == 2 && Bit(2) == 4;
  }

  /** Squaring turns one step into two, on every sum of bits. */
  lemma {:induction false} SelectStepSum(m: seq<bv64>, n: nat, bits: seq<bv64>, r: bv64)
    requires Squares(m) && n + |bits| == 64 && forall i: nat :: i < |bits| ==> bits[i] == Bit(n + i)
    ensures Select(m, Lfsr(Select(bits, r))) == Steps(2, Select(m, Select(bits, r)))
    decreases |bits|
  {
    if bits == [] {
      SelectZero(m);
      assert Lfsr(0) == 0;
      TwoSteps(0);
    } else {
      var rest := Select(bits[1..], Half(r));
      SelectStepSum(m, n + 1, bits[1..], Half(r));
      if Odd(r) {
        assert bits[0] == Bit(n + 0);
        StepSum(m, n, rest);
      } else {
        Cancel(rest);
      }
    }
  }

  lemma StepSum(m: seq<bv64>, n: nat, rest: bv64)
    requires Squares(m) && n < 64 && Select(m, Lfsr(rest)) == Steps(2, Select(m, rest))
    ensures Select(m, Lfsr(Xor(Bit(n), rest))) == Steps(2, Select(m, Xor(Bit(n), rest)))
  {
    LfsrLinear(Bit(n), rest);
    SelectLinear(m, Lfsr(Bit(n)), Lfsr(rest));
    SelectLinear(m, Bit(n), rest);
    StepsLinear(2, Select(m, Bit(n)), Select(m, rest));
    SelectStepBit(m, n);
    SelectBit(m, n);
  }

  lemma SelectStep(m: seq<bv64>, r: bv64)
    requires Squares(m)
    ensures Select(m, Lfsr(r)) == Steps(2, Select(m, r))
  {
    SelectBits(64, r);
    LowAll(r);
    SelectStepSum(m, 0, Bits(64), r);
  }

  /** Selecting from m2 squares: it doubles the number of steps. */
  lemma {:induction false} SelectSquares(m: seq<bv64>, k: nat)
    requires Squares(m)
    ensures Select(m, Steps(k, 1)) == Steps(2 * k, 1)
  {
    if k == 0 {
      SelectBit(m, 0);
      assert EntryOk(m, 0);
    } else {
      SelectSquares(m, k - 1);
      SelectStep(m, Steps(k - 1, 1));
      StepsAdd(2, 2 * (k - 1), 1);
    }
  }

  // ----------------------------------------------------------------- HPCC_starts

  /** n >> i */
  function ShiftRight(n: nat, i: nat): nat {
    if i == 0 then n else ShiftRight(n, i - 1) / 2
  }

  /** The bit of n that each shift drops. */
  lemma {:induction false} ShiftOneMore(n: nat, i: nat)
    ensures ShiftRight(n / 2, i) == ShiftRight(n, i) / 2
  {
    if i > 0 {
      ShiftOneMore(n, i - 1);
    }
  }

  lemma {:induction false} ShiftedOut(n: nat, i: nat)
    requires n < Pow2(i)
    ensures ShiftRight(n, i) == 0
  {
    if i > 0 {
      ShiftedOut(n / 2, i - 1);
      ShiftOneMore(n, i - 1);
    }
  }

  lemma Pow2Plus8(i: nat)
    ensures Pow2(i + 8) == 256 * Pow2(i)
  {
    assert Pow2(i + 2) == 4 * Pow2(i);
    assert Pow2(i + 4) == 4 * Pow2(i + 2);
    assert Pow2(i + 6) == 4 * Pow2(i + 4);
    assert Pow2(i + 8) == 4 * Pow2(i + 6);
  }

  lemma Pow2Of63()
    ensures Pow2(63) == 0x8000_0000_0000_0000
  {
    Pow2Plus8(0);
    assert Pow2(7) == 128;
    Pow2Plus8(7);
    Pow2Plus8(15);
    Pow2Plus8(23);
    Pow2Plus8(31);
    Pow2Plus8(39);
    Pow2Plus8(47);
    Pow2Plus8(55);
  }

  method FillSquares() returns (m2: array<bv64>)
    ensures fresh(m2) && Squares(m2[..])
  {
    m2 := new bv64[64];
    var temp: bv64 := 1;
    for i := 0 to 64
      invariant temp == Steps(2 * i, 1)
      invariant forall j: nat :: j < i ==> m2[j] == Steps(2 * j, 1)
    {
      m2[i] := temp;
      temp := Lfsr(temp);
      temp := Lfsr(temp);
      StepsAdd(2, 2 * i, 1);
      TwoSteps(m2[i]);
    }
    forall j: nat | j < 64
      ensures EntryOk(m2[..], j)
    {
    }
  }

  /** The inner loop: adds up the entries of m2 at the bits of ran. */
  method Square(m2: array<bv64>, ran: bv64, ghost k: nat) returns (temp: bv64)
    requires Squares(m2[..]) && ran == Steps(k, 1)
    ensures temp == Steps(2 * k, 1)
  {
    temp := 0;
    var rest := ran;
    Cancel(Select(m2[..], ran));
    assert m2[0..] == m2[..];
    for j := 0 to 64
      invariant Xor(temp, Select(m2[j..], rest)) == Select(m2[..], ran)
    {
      assert m2[j..][1..] == m2[j + 1..];
      Assoc(temp, Pick(rest, m2[j]), Select(m2[j + 1..], Half(rest)));
      if Odd(rest) {
        temp := Xor(temp, m2[j]);
      } else {
        Cancel(temp);
      }
      rest := Half(rest);
    }
    Cancel(temp);
    SelectSquares(m2[..], k);
  }

  /** The highest set bit of n. */
  method HighestBit(n: nat) returns (i: nat)
    requires 0 < n < Pow2(63)
    ensures i <= 62 && ShiftRight(n, i) == 1
  {
    i := 62;
    ShiftedOut(n, 63);
    while ShiftRight(n, i) % 2 != 1
      invariant i <= 62 && ShiftRight(n, i + 1) == 0
      decreases i
    {
      assert i > 0;
      i := i - 1;
    }
  }

  /** k times PERIOD */
  ghost function Periods(k: nat): nat {
    if k == 0 then 0 else Periods(k - 1) + PERIOD
  }

  lemma {:induction false} Returns(k: nat, n: nat)
    ensures Steps(n + Periods(k), 1) == Steps(n, 1)
  {
    if k > 0 {
      Returns(k - 1, n);
      PeriodReturns();
      StepsAdd(n + Periods(k - 1), PERIOD, 1);
    }
  }

  /** HPCC_starts: the word n steps after 1, for every n; for negative n the word from which -n steps lead to 1. */
  method HPCCStarts(n0: int) returns (ran: bv64)
    ensures n0 >= 0 ==> ran == Steps(n0, 1)
    ensures n0 < 0 ==> Steps(-n0, ran) == 1
  {
    var n := n0;
    ghost var added, taken := 0, 0;
    while n < 0
      invariant n == n0 + Periods(added)
      invariant n0 >= 0 ==> n == n0
      invariant n0 < 0 ==> n < PERIOD
    {
      n := n + PERIOD;
      added := added + 1;
    }
    while n > PERIOD
      invariant n0 >= 0 ==> n0 == n + Periods(taken)
      invariant n0 < 0 ==> 0 <= n < PERIOD && n == n0 + Periods(added)
      invariant 0 <= n
    {
      n := n - PERIOD;
      taken := taken + 1;
    }
    ran := 1;
    if n > 0 {
      ran := Jump(n);
    }
    if n0 >= 0 {
      Returns(taken, n);
    } else {
      StepsAdd(-n0, n, 1);
      Returns(added, 0);
    }
  }

  /** The part of HPCC_starts after the reduction of n. */
  method Jump(n: nat) returns (ran: bv64)
    requires 0 < n <= PERIOD
    ensures ran == Steps(n, 1)
  {
    var m2 := FillSquares();
    Pow2Of63();
    var i := HighestBit(n);
    ran := 2;
    SmallSteps();
    while i > 0
      invariant ran == Steps(ShiftRight(n, i), 1) && Squares(m2[..])
    {
      ghost var k := ShiftRight(n, i);
      ran := Square(m2, ran, k);
      i := i - 1;
      if ShiftRight(n, i) % 2 == 1 {
        StepsAdd(1, 2 * k, 1);
        ran := Lfsr(ran);
      }
    }
  }
}
