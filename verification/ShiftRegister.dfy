/**
  The shift register of trident-workloads/gups/gups.c: x -> x * 2 modulo the polynomial POLY over
  GF(2), and the steps of its sequence.
*/
module ShiftRegister {
  // -------------------------------------------------- words as polynomials over GF(2)

  function Xor(a: bv64, b: bv64): bv64 { a ^ b }
  function Twice(a: bv64): bv64 { a << 1 }
  function Half(a: bv64): bv64 { a >> 1 }
  predicate Odd(a: bv64) { a & 1 == 1 }
  predicate Negative(a: bv64) { a & 0x8000_0000_0000_0000 != 0 }

  lemma Comm(a: bv64, b: bv64)
    ensures Xor(a, b) == Xor(b, a)
  {
  }

  lemma Assoc(a: bv64, b: bv64, c: bv64)
    ensures Xor(Xor(a, b), c) == Xor(a, Xor(b, c))
  {
  }

  lemma Cancel(a: bv64)
    ensures Xor(a, a) == 0 && Xor(a, 0) == a && Xor(0, a) == a
  {
  }

  lemma Regroup(a: bv64, b: bv64, c: bv64, d: bv64)
    ensures Xor(Xor(a, b), Xor(c, d)) == Xor(Xor(a, c), Xor(b, d))
  {
    Assoc(a, b, Xor(c, d));
    Assoc(b, c, d);
    Comm(b, c);
    Assoc(c, b, d);
    Assoc(a, c, Xor(b, d));
  }

  lemma OddXor(a: bv64, b: bv64)
    ensures Odd(Xor(a, b)) <==> (Odd(a) != Odd(b))
  {
  }

  lemma NegativeXor(a: bv64, b: bv64)
    ensures Negative(Xor(a, b)) <==> (Negative(a) != Negative(b))
  {
  }

  lemma HalfXor(a: bv64, b: bv64)
    ensures Half(Xor(a, b)) == Xor(Half(a), Half(b))
  {
  }

  lemma TwiceXor(a: bv64, b: bv64)
    ensures Twice(Xor(a, b)) == Xor(Twice(a), Twice(b))
  {
  }

  lemma HalfTwice(x: bv64)
    requires !Negative(x)
    ensures Half(Twice(x)) == x && !Odd(Twice(x))
  {
  }

  function CarryOf(negative: bool): bv64 {
    if negative then 7 else 0
  }

  function Carry(x: bv64): bv64 {
    CarryOf(Negative(x))
  }

  /** The update of the sequence: shift left, and add POLY if a bit falls out. */
  function Lfsr(x: bv64): bv64 {
    Xor(Twice(x), Carry(x))
  }

  ghost function Steps(k: nat, x: bv64): bv64 {
    if k == 0 then x else Lfsr(Steps(k - 1, x))
  }

  lemma {:induction false} StepsAdd(j: nat, k: nat, x: bv64)
    ensures Steps(j + k, x) == Steps(j, Steps(k, x))
  {
    if j > 0 {
      StepsAdd(j - 1, k, x);
    }
  }

  // ------------------------------------------------------------------- linearity

  lemma CarryXor(a: bv64, b: bv64)
    ensures Carry(Xor(a, b)) == Xor(Carry(a), Carry(b))
  {
    NegativeXor(a, b);
    SevenOrNone(Negative(a), Negative(b));
  }

  lemma SevenOrNone(p: bool, q: bool)
    ensures CarryOf(p != q) == Xor(CarryOf(p), CarryOf(q))
  {
  }

  lemma LfsrLinear(a: bv64, b: bv64)
    ensures Lfsr(Xor(a, b)) == Xor(Lfsr(a), Lfsr(b))
  {
    TwiceXor(a, b);
    CarryXor(a, b);
    Regroup(Twice(a), Twice(b), Carry(a), Carry(b));
  }

  lemma {:induction false} StepsLinear(k: nat, a: bv64, b: bv64)
    ensures Steps(k, Xor(a, b)) == Xor(Steps(k, a), Steps(k, b))
  {
    if k > 0 {
      StepsLinear(k - 1, a, b);
      LfsrLinear(Steps(k - 1, a), Steps(k - 1, b));
    }
  }

  lemma TwoSteps(x: bv64)
    ensures Steps(2, x) == Lfsr(Lfsr(x))
  {
    assert Steps(1, x) == Lfsr(Steps(0, x));
  }
}
