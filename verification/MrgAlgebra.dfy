/**
  The generator of trident-workloads/graph500/generator/splittable_mrg.c over the integers:
  states, the transition A, and the row vectors that stand for the powers of A.  All
  identities here are exact; reduction modulo 2^31 - 1 comes in through congruence.
*/
module MrgAlgebra {
  import opened ModArith

  /** mrg_state, and also any five integers. */
  datatype State = State(z1: int, z2: int, z3: int, z4: int, z5: int)

  /** The bottom row of a matrix that commutes with A. */
  datatype Row = Row(s: int, t: int, u: int, v: int, w: int)

  ghost function Step(z: State): State {
    State(107374182 * z.z1 + 104480 * z.z5, z.z1, z.z2, z.z3, z.z4)
  }

  ghost function Dot(r: Row, z: State): int {
    Times(r.s, z.z1) + Times(r.t, z.z2) + Times(r.u, z.z3) + Times(r.v, z.z4) + Times(r.w, z.z5)
  }

  /** The row times A. */
  ghost function TimesA(r: Row): Row {
    Row(107374182 * r.s + r.t, r.u, r.v, r.w, 104480 * r.s)
  }

  /** The matrix whose bottom row is r: row by row, r A^4, r A^3, r A^2, r A and r. */
  ghost function Apply(r: Row, z: State): State {
    var r4 := TimesA(r);
    var r3 := TimesA(r4);
    var r2 := TimesA(r3);
    State(Dot(TimesA(r2), z), Dot(r2, z), Dot(r3, z), Dot(r4, z), Dot(r, z))
  }

  // ------------------------------------------------------- laws of multiplication

  lemma Distribute(k: int, a: int, b: int)
    ensures k * (a + b) == k * a + k * b && (a + b) * k == a * k + b * k
  {
  }

  lemma TimesPlus(k: int, a: int, b: int)
    ensures Times(k, a + b) == Times(k, a) + Times(k, b)
    ensures Times(a + b, k) == Times(a, k) + Times(b, k)
  {
    TimesIs(k, a + b);
    TimesIs(k, a);
    TimesIs(k, b);
    TimesIs(a + b, k);
    TimesIs(a, k);
    TimesIs(b, k);
    Distribute(k, a, b);
  }

  lemma TimesX(a: int, b: int)
    ensures Times(a, 107374182 * b) == 107374182 * Times(a, b)
    ensures Times(107374182 * a, b) == 107374182 * Times(a, b)
  {
    TimesIs(a, 107374182 * b);
    TimesIs(107374182 * a, b);
    TimesIs(a, b);
  }

  lemma TimesY(a: int, b: int)
    ensures Times(a, 104480 * b) == 104480 * Times(a, b)
    ensures Times(104480 * a, b) == 104480 * Times(a, b)
  {
    TimesIs(a, 104480 * b);
    TimesIs(104480 * a, b);
    TimesIs(a, b);
  }

  lemma TimesAssociates(k: int, a: int, b: int)
    ensures Times(Times(k, a), b) == Times(k, Times(a, b))
  {
    TimesIs(k, a);
    TimesIs(a, b);
    TimesIs(k * a, b);
    TimesIs(k, a * b);
    Associate(k, a, b);
  }

  lemma Associate(k: int, a: int, b: int)
    ensures (k * a) * b == k * (a * b)
  {
  }

  lemma TimesCommutes(a: int, b: int)
    ensures Times(a, b) == Times(b, a)
  {
    TimesIs(a, b);
    TimesIs(b, a);
  }

  lemma DotTimesA(r: Row, z: State)
    ensures Dot(TimesA(r), z) == Dot(r, Step(z))
  {
    TimesPlus(r.s, 107374182 * z.z1, 104480 * z.z5);
    TimesX(r.s, z.z1);
    TimesY(r.s, z.z5);
    TimesPlus(z.z1, 107374182 * r.s, r.t);
  }

  /** The components of the product are the products with the successive states. */
  lemma ApplyBySteps(r: Row, z: State)
    ensures Apply(r, z) == State(Dot(r, Step(Step(Step(Step(z))))), Dot(r, Step(Step(Step(z)))), Dot(r, Step(Step(z))), Dot(r, Step(z)), Dot(r, z))
  {
    var r4 := TimesA(r);
    var r3 := TimesA(r4);
    var r2 := TimesA(r3);
    DotTimesA(r, z);
    DotTimesA(r4, z);
    DotTimesA(r, Step(z));
    DotTimesA(r3, z);
    DotTimesA(r4, Step(z));
    DotTimesA(r, Step(Step(z)));
    DotTimesA(r2, z);
    DotTimesA(r3, Step(z));
    DotTimesA(r4, Step(Step(z)));
    DotTimesA(r, Step(Step(Step(z))));
  }

  /** x times y plus y times z, for the constants x and y of A. */
  ghost function Combine(y: State, z: State): State {
    State(107374182 * y.z1 + 104480 * z.z1, 107374182 * y.z2 + 104480 * z.z2, 107374182 * y.z3 + 104480 * z.z3,
          107374182 * y.z4 + 104480 * z.z4, 107374182 * y.z5 + 104480 * z.z5)
  }

  lemma TimesCombines(k: int, a: int, b: int)
    ensures Times(k, 107374182 * a + 104480 * b) == 107374182 * Times(k, a) + 104480 * Times(k, b)
  {
    TimesPlus(k, 107374182 * a, 104480 * b);
    TimesX(k, a);
    TimesY(k, b);
  }

  lemma DotCombine(r: Row, y: State, z: State)
    ensures Dot(r, Combine(y, z)) == 107374182 * Dot(r, y) + 104480 * Dot(r, z)
  {
    TimesCombines(r.s, y.z1, z.z1);
    TimesCombines(r.t, y.z2, z.z2);
    TimesCombines(r.u, y.z3, z.z3);
    TimesCombines(r.v, y.z4, z.z4);
    TimesCombines(r.w, y.z5, z.z5);
  }

  /** A satisfies its own characteristic equation. */
  lemma FiveSteps(z: State)
    ensures Step(Step(Step(Step(Step(z))))) == Combine(Step(Step(Step(Step(z)))), z)
  {
  }

  /** Every such matrix commutes with A. */
  lemma ApplyStep(r: Row, z: State)
    ensures Apply(r, Step(z)) == Step(Apply(r, z))
  {
    ApplyBySteps(r, z);
    ApplyBySteps(r, Step(z));
    FiveSteps(z);
    DotCombine(r, Step(Step(Step(Step(z)))), z);
  }

  ghost function Scale(k: int, r: Row): Row {
    Row(Times(k, r.s), Times(k, r.t), Times(k, r.u), Times(k, r.v), Times(k, r.w))
  }

  ghost function Plus(q: Row, r: Row): Row {
    Row(q.s + r.s, q.t + r.t, q.u + r.u, q.v + r.v, q.w + r.w)
  }

  /** The bottom row of the product of the matrices of q and r: q times the rows of the second. */
  ghost function Product(q: Row, r: Row): Row {
    var r4 := TimesA(r);
    var r3 := TimesA(r4);
    var r2 := TimesA(r3);
    Plus(Plus(Plus(Plus(Scale(q.s, TimesA(r2)), Scale(q.t, r2)), Scale(q.u, r3)), Scale(q.v, r4)), Scale(q.w, r))
  }

  lemma DotPlus(q: Row, r: Row, z: State)
    ensures Dot(Plus(q, r), z) == Dot(q, z) + Dot(r, z)
  {
    TimesPlus(z.z1, q.s, r.s);
    TimesPlus(z.z2, q.t, r.t);
    TimesPlus(z.z3, q.u, r.u);
    TimesPlus(z.z4, q.v, r.v);
    TimesPlus(z.z5, q.w, r.w);
  }

  lemma TimesSum(k: int, a: int, b: int, c: int, d: int, e: int)
    ensures Times(k, a + b + c + d + e) == Times(k, a) + Times(k, b) + Times(k, c) + Times(k, d) + Times(k, e)
  {
    TimesPlus(k, a + b + c + d, e);
    TimesPlus(k, a + b + c, d);
    TimesPlus(k, a + b, c);
    TimesPlus(k, a, b);
  }

  lemma DotScale(k: int, r: Row, z: State)
    ensures Dot(Scale(k, r), z) == Times(k, Dot(r, z))
  {
    TimesAssociates(k, r.s, z.z1);
    TimesAssociates(k, r.t, z.z2);
    TimesAssociates(k, r.u, z.z3);
    TimesAssociates(k, r.v, z.z4);
    TimesAssociates(k, r.w, z.z5);
    TimesSum(k, Times(r.s, z.z1), Times(r.t, z.z2), Times(r.u, z.z3), Times(r.v, z.z4), Times(r.w, z.z5));
  }

  lemma DotProduct(q: Row, r: Row, z: State)
    ensures Dot(Product(q, r), z) == Dot(q, Apply(r, z))
  {
    var r4 := TimesA(r);
    var r3 := TimesA(r4);
    var r2 := TimesA(r3);
    var r1 := TimesA(r2);
    var p1, p2, p3, p4, p5 := Scale(q.s, r1), Scale(q.t, r2), Scale(q.u, r3), Scale(q.v, r4), Scale(q.w, r);
    DotScale(q.s, r1, z);
    DotScale(q.t, r2, z);
    DotScale(q.u, r3, z);
    DotScale(q.v, r4, z);
    DotScale(q.w, r, z);
    DotPlus(Plus(Plus(Plus(p1, p2), p3), p4), p5, z);
    DotPlus(Plus(Plus(p1, p2), p3), p4, z);
    DotPlus(Plus(p1, p2), p3, z);
    DotPlus(p1, p2, z);
  }

  /** Applying a product is applying one matrix after the other. */
  lemma ApplyProduct(q: Row, r: Row, z: State)
    ensures Apply(Product(q, r), z) == Apply(q, Apply(r, z))
  {
    var y := Apply(r, z);
    var z', z'', z''', z'''' := Step(z), Step(Step(z)), Step(Step(Step(z))), Step(Step(Step(Step(z))));
    ApplyBySteps(Product(q, r), z);
    ApplyBySteps(q, y);
    ApplyStep(r, z);
    ApplyStep(r, z');
    ApplyStep(r, z'');
    ApplyStep(r, z''');
    DotProduct(q, r, z);
    DotProduct(q, r, z');
    DotProduct(q, r, z'');
    DotProduct(q, r, z''');
    DotProduct(q, r, z'''');
  }

  /** Column k of the matrix with the given rows, as a state. */
  ghost function Column(r1: Row, r2: Row, r3: Row, r4: Row, r5: Row, k: nat): State {
    if k == 1 then State(r1.s, r2.s, r3.s, r4.s, r5.s)
    else if k == 2 then State(r1.t, r2.t, r3.t, r4.t, r5.t)
    else if k == 3 then State(r1.u, r2.u, r3.u, r4.u, r5.u)
    else if k == 4 then State(r1.v, r2.v, r3.v, r4.v, r5.v)
    else State(r1.w, r2.w, r3.w, r4.w, r5.w)
  }

  /** Column k of the matrix of r. */
  ghost function FullColumn(r: Row, k: nat): State {
    var r4 := TimesA(r);
    var r3 := TimesA(r4);
    var r2 := TimesA(r3);
    Column(TimesA(r2), r2, r3, r4, r, k)
  }

  lemma ProductColumns(q: Row, r: Row)
    ensures Product(q, r) == Row(Dot(q, FullColumn(r, 1)), Dot(q, FullColumn(r, 2)), Dot(q, FullColumn(r, 3)),
                                 Dot(q, FullColumn(r, 4)), Dot(q, FullColumn(r, 5)))
  {
    var r4 := TimesA(r);
    var r3 := TimesA(r4);
    var r2 := TimesA(r3);
    RowColumn(q, TimesA(r2), r2, r3, r4, r);
  }

  lemma RowColumn(q: Row, r1: Row, r2: Row, r3: Row, r4: Row, r5: Row)
    ensures Plus(Plus(Plus(Plus(Scale(q.s, r1), Scale(q.t, r2)), Scale(q.u, r3)), Scale(q.v, r4)), Scale(q.w, r5))
      == Row(Dot(q, Column(r1, r2, r3, r4, r5, 1)), Dot(q, Column(r1, r2, r3, r4, r5, 2)), Dot(q, Column(r1, r2, r3, r4, r5, 3)),
             Dot(q, Column(r1, r2, r3, r4, r5, 4)), Dot(q, Column(r1, r2, r3, r4, r5, 5)))
  {
  }

  // ------------------------------------------------------------------ congruence

  ghost predicate Cong(a: int, b: int) {
    Reduce(a) == Reduce(b)
  }

  ghost predicate CongRow(q: Row, r: Row) {
    Cong(q.s, r.s) && Cong(q.t, r.t) && Cong(q.u, r.u) && Cong(q.v, r.v) && Cong(q.w, r.w)
  }

  ghost predicate CongState(y: State, z: State) {
    Cong(y.z1, z.z1) && Cong(y.z2, z.z2) && Cong(y.z3, z.z3) && Cong(y.z4, z.z4) && Cong(y.z5, z.z5)
  }

  lemma CongSum(a: int, a': int, b: int, b': int)
    requires Cong(a, a') && Cong(b, b')
    ensures Cong(a + b, a' + b')
  {
    ReduceSum(a, b);
    ReduceSum(a', b);
    ReduceSum(b, a');
    ReduceSum(b', a');
  }

  lemma CongFactor(a: int, a': int, b: int)
    requires Cong(a, a')
    ensures Cong(Times(a, b), Times(a', b))
  {
    ReduceIs(a);
    ReduceIs(a');
    var k := a / 0x7fff_ffff - a' / 0x7fff_ffff;
    assert a == a' + 0x7fff_ffff * k;
    TimesPlus(b, a', 0x7fff_ffff * k);
    TimesIs(0x7fff_ffff * k, b);
    assert (0x7fff_ffff * k) * b == 0x7fff_ffff * (k * b);
    ReduceShift(Times(a', b), k * b);
  }

  lemma CongProduct(a: int, a': int, b: int, b': int)
    requires Cong(a, a') && Cong(b, b')
    ensures Cong(Times(a, b), Times(a', b'))
  {
    CongFactor(a, a', b);
    CongFactor(b, b', a');
    TimesCommutes(a', b);
    TimesCommutes(a', b');
  }

  lemma CongDot(q: Row, r: Row, y: State, z: State)
    requires CongRow(q, r) && CongState(y, z)
    ensures Cong(Dot(q, y), Dot(r, z))
  {
    CongProduct(q.s, r.s, y.z1, z.z1);
    CongProduct(q.t, r.t, y.z2, z.z2);
    CongProduct(q.u, r.u, y.z3, z.z3);
    CongProduct(q.v, r.v, y.z4, z.z4);
    CongProduct(q.w, r.w, y.z5, z.z5);
    CongSum5(Times(q.s, y.z1), Times(r.s, z.z1), Times(q.t, y.z2), Times(r.t, z.z2), Times(q.u, y.z3), Times(r.u, z.z3),
             Times(q.v, y.z4), Times(r.v, z.z4), Times(q.w, y.z5), Times(r.w, z.z5));
  }

  lemma CongSum5(a: int, a': int, b: int, b': int, c: int, c': int, d: int, d': int, e: int, e': int)
    requires Cong(a, a') && Cong(b, b') && Cong(c, c') && Cong(d, d') && Cong(e, e')
    ensures Cong(a + b + c + d + e, a' + b' + c' + d' + e')
  {
    CongSum(a, a', b, b');
    CongSum(a + b, a' + b', c, c');
    CongSum(a + b + c, a' + b' + c', d, d');
    CongSum(a + b + c + d, a' + b' + c' + d', e, e');
  }

  lemma CongScaled(a: int, a': int)
    requires Cong(a, a')
    ensures Cong(107374182 * a, 107374182 * a') && Cong(104480 * a, 104480 * a')
  {
    CongProduct(107374182, 107374182, a, a');
    CongProduct(104480, 104480, a, a');
    TimesIs(107374182, a);
    TimesIs(107374182, a');
    TimesIs(104480, a);
    TimesIs(104480, a');
  }

  lemma CongTimesA(q: Row, r: Row)
    requires CongRow(q, r)
    ensures CongRow(TimesA(q), TimesA(r))
  {
    CongScaled(q.s, r.s);
    CongSum(107374182 * q.s, 107374182 * r.s, q.t, r.t);
  }

  lemma CongApply(q: Row, r: Row, y: State, z: State)
    requires CongRow(q, r) && CongState(y, z)
    ensures CongState(Apply(q, y), Apply(r, z))
  {
    var q4, r4 := TimesA(q), TimesA(r);
    var q3, r3 := TimesA(q4), TimesA(r4);
    var q2, r2 := TimesA(q3), TimesA(r3);
    CongTimesA(q, r);
    CongTimesA(q4, r4);
    CongTimesA(q3, r3);
    CongTimesA(q2, r2);
    CongDot(q, r, y, z);
    CongDot(q4, r4, y, z);
    CongDot(q3, r3, y, z);
    CongDot(q2, r2, y, z);
    CongDot(TimesA(q2), TimesA(r2), y, z);
  }
}
