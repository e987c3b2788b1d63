/**
  Arithmetic modulo 2^31 - 1 (trident-workloads/graph500/generator/mod_arith.h): the exact
  residues, and the two headers that compute them, mod_arith_32bit.h and mod_arith_64bit.h.
  The fixed-width types make the verifier check that no operation overflows; masks and
  shifts by 31 bits are written as remainder and quotient by 2^31.
*/
module ModArith {

  newtype uint32 = x: int | 0 <= x < 0x1_0000_0000
  newtype int32 = x: int | -0x8000_0000 <= x < 0x8000_0000
  newtype uint64 = x: int | 0 <= x < 0x1_0000_0000_0000_0000

  /** The values the functions assert of their arguments. */
  type Residue = x: int | 0 <= x < 0x7fff_ffff

  // ------------------------------------------------------------- exact residues

  /** Taking k copies of b from p leaves the product of a - k and b. */
  ghost predicate ProductAt(a: int, b: int, p: int, k: int) {
    p - k * b == (a - k) * b
  }

  ghost predicate IsProduct(a: int, b: int, p: int) {
    forall k: int {:trigger ProductAt(a, b, p, k)} :: ProductAt(a, b, p, k)
  }

  /**
    Multiplication, by its characteristic property, so that proofs about sums of products
    appeal to its laws and not to the solver's non-linear arithmetic.
  */
  ghost function Times(a: int, b: int): int {
    ProductExists(a, b);
    var p :| IsProduct(a, b, p);
    p
  }

  lemma ProductExists(a: int, b: int)
    ensures IsProduct(a, b, a * b)
  {
    var p := a * b;
    forall k: int
      ensures ProductAt(a, b, p, k)
    {
    }
  }

  lemma TimesIs(a: int, b: int)
    ensures Times(a, b) == a * b
  {
    ProductExists(a, b);
    assert ProductAt(a, b, Times(a, b), 0);
  }

  /** Adding multiples of the modulus does not change the remainder r. */
  ghost predicate RemainderAt(x: int, r: Residue, k: int) {
    (x + 0x7fff_ffff * k) % 0x7fff_ffff == r
  }

  ghost predicate IsRemainder(x: int, r: Residue) {
    forall k: int {:trigger RemainderAt(x, r, k)} :: RemainderAt(x, r, k)
  }

  /** The remainder modulo 2^31 - 1, by its characteristic property for the same reason. */
  ghost function Reduce(x: int): Residue {
    RemainderExists(x);
    var r: Residue :| IsRemainder(x, r);
    r
  }

  lemma RemainderExists(x: int)
    ensures IsRemainder(x, x % 0x7fff_ffff)
  {
    var r: Residue := x % 0x7fff_ffff;
    forall k: int
      ensures RemainderAt(x, r, k)
    {
      RemainderShift(x, k);
    }
  }

  lemma RemainderShift(x: int, k: int)
    ensures (x + 0x7fff_ffff * k) % 0x7fff_ffff == x % 0x7fff_ffff
  {
  }

  lemma ReduceIs(x: int)
    ensures Reduce(x) == x % 0x7fff_ffff
  {
    RemainderExists(x);
    assert RemainderAt(x, Reduce(x), 0);
  }

  lemma ReduceShift(x: int, k: int)
    ensures Reduce(x + 0x7fff_ffff * k) == Reduce(x)
  {
    ReduceIs(x);
    ReduceIs(x + 0x7fff_ffff * k);
    RemainderShift(x, k);
  }

  lemma ReduceResidue(x: Residue)
    ensures Reduce(x) == x
  {
    ReduceIs(x);
  }

  /** Reducing early does no harm. */
  lemma ReduceSum(a: int, b: int)
    ensures Reduce(Reduce(a) + b) == Reduce(a + b)
  {
    ReduceIs(a);
    ReduceIs(a + b);
    ReduceIs(a % 0x7fff_ffff + b);
    ModOfSum(a, b);
  }

  ghost function ModAdd(a: Residue, b: Residue): Residue { Reduce(a + b) }
  ghost function ModMul(a: Residue, b: Residue): Residue { Reduce(Times(a, b)) }
  ghost function ModMac(sum: Residue, a: Residue, b: Residue): Residue { Reduce(sum + Times(a, b)) }

  ghost function ModMac2(sum: Residue, a: Residue, b: Residue, c: Residue, d: Residue): Residue {
    Reduce(sum + Times(a, b) + Times(c, d))
  }

  ghost function ModMac3(sum: Residue, a: Residue, b: Residue, c: Residue, d: Residue, e: Residue, f: Residue): Residue {
    Reduce(sum + Times(a, b) + Times(c, d) + Times(e, f))
  }

  ghost function ModMac4(sum: Residue, a: Residue, b: Residue, c: Residue, d: Residue, e: Residue, f: Residue, g: Residue, h: Residue): Residue {
    Reduce(sum + Times(a, b) + Times(c, d) + Times(e, f) + Times(g, h))
  }

  lemma MacTwice(sum: Residue, a: Residue, b: Residue, c: Residue, d: Residue)
    ensures ModMac(ModMac(sum, a, b), c, d) == ModMac2(sum, a, b, c, d)
  {
    ReduceSum(sum + Times(a, b), Times(c, d));
  }

  lemma MacThrice(sum: Residue, a: Residue, b: Residue, c: Residue, d: Residue, e: Residue, f: Residue)
    ensures ModMac2(ModMac(sum, a, b), c, d, e, f) == ModMac3(sum, a, b, c, d, e, f)
  {
    ReduceSum(sum + Times(a, b), Times(c, d) + Times(e, f));
  }

  lemma MacFourTimes(sum: Residue, a: Residue, b: Residue, c: Residue, d: Residue, e: Residue, f: Residue, g: Residue, h: Residue)
    ensures ModMac2(ModMac2(sum, a, b, c, d), e, f, g, h) == ModMac4(sum, a, b, c, d, e, f, g, h)
  {
    ReduceSum(sum + Times(a, b) + Times(c, d), Times(e, f) + Times(g, h));
  }

  ghost function ModMulX(a: Residue): Residue { Reduce(107374182 * a) }
  ghost function ModMulY(a: Residue): Residue { Reduce(104480 * a) }
  ghost function ModMacY(sum: Residue, a: Residue): Residue { Reduce(sum + 104480 * a) }

  lemma {:induction false} ProductMonotone(a: nat, b: nat, c: nat)
    requires b <= c
    ensures a * b <= a * c
  {
    if a > 0 {
      ProductMonotone(a - 1, b, c);
    }
  }

  /** The product of two residues, and the bound that keeps it in 64 bits. */
  lemma ProductBound(a: Residue, b: Residue)
    ensures Times(a, b) == a * b && 0 <= a * b <= 0x3fff_fffe_0000_0004
  {
    TimesIs(a, b);
    ProductMonotone(a, 0, b);
    ProductMonotone(a, b, 0x7fff_fffe);
  }

  lemma ModOfSum(a: int, b: int)
    ensures (a % 0x7fff_ffff + b) % 0x7fff_ffff == (a + b) % 0x7fff_ffff
  {
  }

  lemma RemainderIs(n: int, q: int, r: int)
    requires n == 0x7fff_ffff * q + r && 0 <= r < 0x7fff_ffff
    ensures n % 0x7fff_ffff == r
  {
  }

  // -------------------------------------------------------------- 32-bit header

  function Add32(a: Residue, b: Residue): (r: Residue)
    ensures r == ModAdd(a, b)
  {
    ReduceIs(a + b);
    var x: uint32 := a as uint32 + b as uint32;
    (if x >= 0x7fff_ffff then x - 0x7fff_ffff else x) as int
  }

  /** 2^31 is 1 modulo 2^31 - 1, so the two halves of a product may be added. */
  function Fold(temp: uint64): (r: Residue)
    requires temp <= 0x3fff_fffe_8000_0002
    ensures r == temp as int % 0x7fff_ffff
  {
    var temp2: uint32 := (temp % 0x8000_0000) as uint32 + (temp / 0x8000_0000) as uint32;
    (if temp2 >= 0x7fff_ffff then temp2 - 0x7fff_ffff else temp2) as int
  }

  function Mul32(a: Residue, b: Residue): (r: Residue)
    ensures r == ModMul(a, b)
  {
    ReduceIs(a * b);
    ProductBound(a, b);
    Fold(a as uint64 * b as uint64)
  }

  function Mac32(sum: Residue, a: Residue, b: Residue): (r: Residue)
    ensures r == ModMac(sum, a, b)
  {
    ReduceIs(sum + a * b);
    ProductBound(a, b);
    Fold(a as uint64 * b as uint64 + sum as uint64)
  }

  function Mac2of32(sum: Residue, a: Residue, b: Residue, c: Residue, d: Residue): (r: Residue)
    ensures r == ModMac2(sum, a, b, c, d)
  {
    MacTwice(sum, a, b, c, d);
    Mac32(Mac32(sum, a, b), c, d)
  }

  function Mac3of32(sum: Residue, a: Residue, b: Residue, c: Residue, d: Residue, e: Residue, f: Residue): (r: Residue)
    ensures r == ModMac3(sum, a, b, c, d, e, f)
  {
    MacThrice(sum, a, b, c, d, e, f);
    Mac2of32(Mac32(sum, a, b), c, d, e, f)
  }

  function Mac4of32(sum: Residue, a: Residue, b: Residue, c: Residue, d: Residue, e: Residue, f: Residue, g: Residue, h: Residue): (r: Residue)
    ensures r == ModMac4(sum, a, b, c, d, e, f, g, h)
  {
    MacFourTimes(sum, a, b, c, d, e, f, g, h);
    Mac2of32(Mac2of32(sum, a, b, c, d), e, f, g, h)
  }

  /** Schrage's method: a * 107374182 without leaving 32 bits. */
  function MulX32(a: Residue): (r: Residue)
    ensures r == ModMulX(a)
  {
    ReduceIs(107374182 * a);
    var q: int32 := a as int32 / 20;
    var result: int32 := 107374182 * (a as int32 - q * 20) - q * 7;
    RemainderIs(107374182 * a, if result < 0 then q as int - 1 else q as int, if result < 0 then result as int + 0x7fff_ffff else result as int);
    (if result < 0 then result + 0x7fff_ffff else result) as int
  }

  function MulY32(a: Residue): (r: Residue)
    ensures r == ModMulY(a)
  {
    ReduceIs(104480 * a);
    var q: int32 := a as int32 / 20554;
    var result: int32 := 104480 * (a as int32 - q * 20554) - q * 1727;
    RemainderIs(104480 * a, if result < 0 then q as int - 1 else q as int, if result < 0 then result as int + 0x7fff_ffff else result as int);
    (if result < 0 then result + 0x7fff_ffff else result) as int
  }

  function MacY32(sum: Residue, a: Residue): (r: Residue)
    ensures r == ModMacY(sum, a)
  {
    ReduceSum(104480 * a, sum);
    Add32(sum, MulY32(a))
  }

  // -------------------------------------------------------------- 64-bit header

  function Add64(a: Residue, b: Residue): (r: Residue)
    ensures r == ModAdd(a, b)
  {
    ReduceIs(a + b);
    ((a as uint32 + b as uint32) % 0x7fff_ffff) as int
  }

  function Mul64(a: Residue, b: Residue): (r: Residue)
    ensures r == ModMul(a, b)
  {
    ReduceIs(a * b);
    ProductBound(a, b);
    ((a as uint64 * b as uint64) % 0x7fff_ffff) as int
  }

  function Mac64(sum: Residue, a: Residue, b: Residue): (r: Residue)
    ensures r == ModMac(sum, a, b)
  {
    ReduceIs(sum + a * b);
    ProductBound(a, b);
    ((a as uint64 * b as uint64 + sum as uint64) % 0x7fff_ffff) as int
  }

  function Mac2of64(sum: Residue, a: Residue, b: Residue, c: Residue, d: Residue): (r: Residue)
    ensures r == ModMac2(sum, a, b, c, d)
  {
    ReduceIs(sum + a * b + c * d);
    ProductBound(a, b);
    ProductBound(c, d);
    ((a as uint64 * b as uint64 + c as uint64 * d as uint64 + sum as uint64) % 0x7fff_ffff) as int
  }

  function Mac3of64(sum: Residue, a: Residue, b: Residue, c: Residue, d: Residue, e: Residue, f: Residue): (r: Residue)
    ensures r == ModMac3(sum, a, b, c, d, e, f)
  {
    ReduceIs(sum + a * b + c * d + e * f);
    ProductBound(a, b);
    ProductBound(c, d);
    ProductBound(e, f);
    ((a as uint64 * b as uint64 + c as uint64 * d as uint64 + e as uint64 * f as uint64 + sum as uint64) % 0x7fff_ffff) as int
  }

  function Mac4of64(sum: Residue, a: Residue, b: Residue, c: Residue, d: Residue, e: Residue, f: Residue, g: Residue, h: Residue): (r: Residue)
    ensures r == ModMac4(sum, a, b, c, d, e, f, g, h)
  {
    ReduceIs(sum + a * b + c * d + e * f + g * h);
    ProductBound(a, b);
    ProductBound(c, d);
    ProductBound(e, f);
    ProductBound(g, h);
    ((a as uint64 * b as uint64 + c as uint64 * d as uint64 + e as uint64 * f as uint64 + g as uint64 * h as uint64
      + sum as uint64) % 0x7fff_ffff) as int
  }

  function MulX64(a: Residue): (r: Residue)
    ensures r == ModMulX(a)
  {
    TimesIs(a, 107374182);
    Mul64(a, 107374182)
  }

  function MulY64(a: Residue): (r: Residue)
    ensures r == ModMulY(a)
  {
    TimesIs(a, 104480);
    Mul64(a, 104480)
  }

  function MacY64(sum: Residue, a: Residue): (r: Residue)
    ensures r == ModMacY(sum, a)
  {
    TimesIs(a, 104480);
    Mac64(sum, a, 104480)
  }
}
