/** Numbers and the sequences of their bits, lowest first. */
module BitStrings {

  /** Bit i of x. */
  function Bit(x: nat, i: nat): bool
    decreases i, x
  {
    if i == 0 then x % 2 == 1 else Bit(x / 2, i - 1)
  }

  /** The n lowest bits of x. */
  function BitsOf(n: nat, x: nat): (s: seq<bool>)
    ensures |s| == n
  {
    seq(n, i requires 0 <= i < n => Bit(x, i))
  }

  function ValueOf(s: seq<bool>): nat {
    if s == [] then 0 else (if s[0] then 1 else 0) + 2 * ValueOf(s[1..])
  }

  lemma {:induction false} BitOfValue(s: seq<bool>, i: nat)
    requires i < |s|
    ensures Bit(ValueOf(s), i) == s[i]
  {
    if i > 0 {
      BitOfValue(s[1..], i - 1);
    }
  }

  lemma BitsOfValue(s: seq<bool>)
    ensures BitsOf(|s|, ValueOf(s)) == s
  {
    forall i: nat | i < |s|
      ensures BitsOf(|s|, ValueOf(s))[i] == s[i]
    {
      BitOfValue(s, i);
    }
  }

  function Pow2(n: nat): (p: nat)
    ensures p > 0
  {
    if n == 0 then 1 else 2 * Pow2(n - 1)
  }

  lemma {:induction false} ValueBound(s: seq<bool>)
    ensures ValueOf(s) < Pow2(|s|)
  {
    if s != [] {
      ValueBound(s[1..]);
    }
  }

  lemma {:induction false} ValueOfBits(n: nat, x: nat)
    requires x < Pow2(n)
    ensures ValueOf(BitsOf(n, x)) == x
    decreases n
  {
    if n > 0 {
      ValueOfBits(n - 1, x / 2);
      assert BitsOf(n, x)[1..] == BitsOf(n - 1, x / 2);
    }
  }

  /** The bits in the opposite order. */
  function Reversed(s: seq<bool>): (r: seq<bool>)
    ensures |r| == |s| && forall i :: 0 <= i < |s| ==> r[i] == s[|s| - 1 - i]
  {
    seq(|s|, i requires 0 <= i < |s| => s[|s| - 1 - i])
  }

  /** Counting down from the largest number of n bits flips every bit. */
  lemma {:induction false} Complement(n: nat, i: nat, k: nat)
    requires i < Pow2(n) && k < n
    ensures Bit(Pow2(n) - 1 - i, k) == !Bit(i, k)
    decreases n
  {
    if k > 0 {
      Complement(n - 1, i / 2, k - 1);
      assert (Pow2(n) - 1 - i) / 2 == Pow2(n - 1) - 1 - i / 2;
    }
  }

  /** Dropping the k lowest bits is dividing by 2^k. */
  lemma {:induction false} DropIsQuotient(s: seq<bool>, k: nat)
    requires k <= |s|
    ensures ValueOf(s) / Pow2(k) == ValueOf(s[k..])
    decreases k
  {
    if k > 0 {
      DropIsQuotient(s[1..], k - 1);
      assert s[1..][k - 1..] == s[k..];
      var b := if s[0] then 1 else 0;
      HalfQuotient(ValueOf(s[1..]), b, Pow2(k - 1));
    } else {
      assert s[0..] == s;
    }
  }

  lemma HalfQuotient(v: nat, b: nat, p: nat)
    requires b <= 1 && p > 0
    ensures (b + 2 * v) / (2 * p) == v / p
  {
    var q, r := v / p, v % p;
    assert v == p * q + r;
    assert b + 2 * v == (2 * p) * q + (b + 2 * r) by {
      assert 2 * (p * q) == (2 * p) * q;
    }
    QuotientIs(b + 2 * v, 2 * p, q, b + 2 * r);
  }

  lemma QuotientIs(x: nat, d: nat, q: nat, r: nat)
    requires d > 0 && x == d * q + r && r < d
    ensures x / d == q
  {
    var k := x / d - q;
    assert d * k == r - x % d by {
      assert x == d * (x / d) + x % d;
      assert d * (x / d - q) == d * (x / d) - d * q;
    }
    assert d * -k == -(d * k);
    if k >= 1 {
      AtLeastOnce(d, k);
    } else if k <= -1 {
      AtLeastOnce(d, -k);
    }
  }

  lemma AtLeastOnce(d: nat, k: int)
    requires k >= 1
    ensures d * k >= d
  {
  }
}
