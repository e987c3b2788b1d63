/**
  The splittable generator of trident-workloads/graph500/generator/splittable_mrg.c:
  transition matrices in compressed form, their products and powers, the table of powers,
  and skipping ahead by a 192-bit number of steps.
*/
module SplittableMrg {
  import opened ModArith
  import opened MrgAlgebra

  /** The contents of an mrg_state. */
  datatype Seed = Seed(z1: Residue, z2: Residue, z3: Residue, z4: Residue, z5: Residue)

  /** mrg_transition_matrix: the bottom row and the cached first column above it. */
  datatype Matrix = Matrix(s: Residue, t: Residue, u: Residue, v: Residue, w: Residue,
                           a: Residue, b: Residue, c: Residue, d: Residue)

  // ------------------------------------------------------- what the code computes

  ghost function Cached(s: Residue, t: Residue, u: Residue, v: Residue, w: Residue): Matrix {
    var a := ModAdd(ModMulX(s), t);
    var b := ModAdd(ModMulX(a), u);
    var c := ModAdd(ModMulX(b), v);
    var d := ModAdd(ModMulX(c), w);
    Matrix(s, t, u, v, w, a, b, c, d)
  }

  ghost function Multiply(m: Matrix, n: Matrix): Matrix {
    Cached(
      ModMac(ModMac(ModMac(ModMac(ModMul(m.s, n.d), m.t, n.c), m.u, n.b), m.v, n.a), m.w, n.s),
      ModMac(ModMac(ModMac(ModMac(ModMulY(ModMul(m.s, n.s)), m.t, n.w), m.u, n.v), m.v, n.u), m.w, n.t),
      ModMac(ModMac(ModMac(ModMulY(ModMac(ModMul(m.s, n.a), m.t, n.s)), m.u, n.w), m.v, n.v), m.w, n.u),
      ModMac(ModMac(ModMulY(ModMac(ModMac(ModMul(m.s, n.b), m.t, n.a), m.u, n.s)), m.v, n.w), m.w, n.v),
      ModMac(ModMulY(ModMac(ModMac(ModMac(ModMul(m.s, n.c), m.t, n.b), m.u, n.a), m.v, n.s)), m.w, n.w))
  }

  ghost function Transition(m: Matrix, z: Seed): Seed {
    Seed(
      ModMacY(ModMul(m.d, z.z1), ModMac4(0, m.s, z.z2, m.a, z.z3, m.b, z.z4, m.c, z.z5)),
      ModMacY(ModMac2(0, m.c, z.z1, m.w, z.z2), ModMac3(0, m.s, z.z3, m.a, z.z4, m.b, z.z5)),
      ModMacY(ModMac3(0, m.b, z.z1, m.v, z.z2, m.w, z.z3), ModMac2(0, m.s, z.z4, m.a, z.z5)),
      ModMacY(ModMac4(0, m.a, z.z1, m.u, z.z2, m.v, z.z3, m.w, z.z4), ModMul(m.s, z.z5)),
      ModMac2(ModMac3(0, m.s, z.z1, m.t, z.z2, m.u, z.z3), m.v, z.z4, m.w, z.z5))
  }

  ghost function OrigStep(z: Seed): Seed {
    Seed(ModMacY(ModMulX(z.z1), z.z5), z.z1, z.z2, z.z3, z.z4)
  }

  /** n steps of the generator. */
  ghost function Steps(n: nat, z: Seed): Seed {
    if n == 0 then z else OrigStep(Steps(n - 1, z))
  }

  lemma {:induction false} StepsAdd(m: nat, n: nat, z: Seed)
    ensures Steps(m + n, z) == Steps(m, Steps(n, z))
  {
    if m > 0 {
      StepsAdd(m - 1, n, z);
    }
  }

  // -------------------------------------------------- the code against the algebra

  ghost function Lift(z: Seed): State {
    State(z.z1, z.z2, z.z3, z.z4, z.z5)
  }

  ghost function RowOf(m: Matrix): Row {
    Row(m.s, m.t, m.u, m.v, m.w)
  }

  lemma SameSeed(y: Seed, z: Seed)
    requires CongState(Lift(y), Lift(z))
    ensures y == z
  {
    ReduceResidue(y.z1);
    ReduceResidue(y.z2);
    ReduceResidue(y.z3);
    ReduceResidue(y.z4);
    ReduceResidue(y.z5);
    ReduceResidue(z.z1);
    ReduceResidue(z.z2);
    ReduceResidue(z.z3);
    ReduceResidue(z.z4);
    ReduceResidue(z.z5);
  }

  lemma OrigStepIs(z: Seed)
    ensures CongState(Lift(OrigStep(z)), Step(Lift(z)))
  {
    ReduceSum(107374182 * z.z1, 104480 * z.z5);
    Reduced(107374182 * z.z1 + 104480 * z.z5);
  }

  ghost predicate CacheOk(m: Matrix) {
    m == Cached(m.s, m.t, m.u, m.v, m.w)
  }

  /** The rows of the full matrix, in terms of the cache. */
  ghost function Row1(m: Matrix): Row { Row(m.d, 104480 * m.s, 104480 * m.a, 104480 * m.b, 104480 * m.c) }
  ghost function Row2(m: Matrix): Row { Row(m.c, m.w, 104480 * m.s, 104480 * m.a, 104480 * m.b) }
  ghost function Row3(m: Matrix): Row { Row(m.b, m.v, m.w, 104480 * m.s, 104480 * m.a) }
  ghost function Row4(m: Matrix): Row { Row(m.a, m.u, m.v, m.w, 104480 * m.s) }

  lemma AddMulX(p: Residue, q: Residue)
    ensures Cong(ModAdd(ModMulX(p), q), 107374182 * p + q)
  {
    ReduceSum(107374182 * p, q);
    Reduced(107374182 * p + q);
  }

  lemma CacheRow(p: Row, q: Row, r: Row)
    requires CongRow(q, TimesA(p)) && CongRow(p, r)
    ensures CongRow(q, TimesA(r))
  {
    CongTimesA(p, r);
  }

  /** The cache holds the rows r A, r A^2, r A^3 and r A^4. */
  lemma CacheRows(m: Matrix)
    requires CacheOk(m)
    ensures CongRow(Row4(m), TimesA(RowOf(m)))
    ensures CongRow(Row3(m), TimesA(TimesA(RowOf(m))))
    ensures CongRow(Row2(m), TimesA(TimesA(TimesA(RowOf(m)))))
    ensures CongRow(Row1(m), TimesA(TimesA(TimesA(TimesA(RowOf(m))))))
  {
    AddMulX(m.s, m.t);
    AddMulX(m.a, m.u);
    AddMulX(m.b, m.v);
    AddMulX(m.c, m.w);
    var r := RowOf(m);
    assert CongRow(Row4(m), TimesA(r));
    CacheRow(Row4(m), Row3(m), TimesA(r));
    CacheRow(Row3(m), Row2(m), TimesA(TimesA(r)));
    CacheRow(Row2(m), Row1(m), TimesA(TimesA(TimesA(r))));
  }

  /** A sum whose second part is multiplied by y, with a reduction after every step. */
  lemma WithY(p: int, q: int)
    ensures Cong(Reduce(Reduce(p) + 104480 * Reduce(q)), p + 104480 * q)
    ensures Cong(Reduce(104480 * Reduce(q) + p), p + 104480 * q)
  {
    Reduced(q);
    Reduced(p);
    CongScaled(Reduce(q), q);
    CongSum(Reduce(p), p, 104480 * Reduce(q), 104480 * q);
    Reduced(Reduce(p) + 104480 * Reduce(q));
    Reduced(104480 * Reduce(q) + p);
    CongSum(104480 * Reduce(q), 104480 * q, p, p);
  }

  lemma Reduced(x: int)
    ensures Cong(Reduce(x), x)
  {
    ReduceResidue(Reduce(x));
  }

  /** Each output is a row of the matrix times the state. */
  lemma Output1(m: Matrix, z: Seed)
    ensures Cong(Transition(m, z).z1, Dot(Row1(m), Lift(z)))
  {
    WithY(Times(m.d, z.z1), Times(m.s, z.z2) + Times(m.a, z.z3) + Times(m.b, z.z4) + Times(m.c, z.z5));
    TimesY(m.s, z.z2);
    TimesY(m.a, z.z3);
    TimesY(m.b, z.z4);
    TimesY(m.c, z.z5);
  }

  lemma Output2(m: Matrix, z: Seed)
    ensures Cong(Transition(m, z).z2, Dot(Row2(m), Lift(z)))
  {
    WithY(Times(m.c, z.z1) + Times(m.w, z.z2), Times(m.s, z.z3) + Times(m.a, z.z4) + Times(m.b, z.z5));
    TimesY(m.s, z.z3);
    TimesY(m.a, z.z4);
    TimesY(m.b, z.z5);
  }

  lemma Output3(m: Matrix, z: Seed)
    ensures Cong(Transition(m, z).z3, Dot(Row3(m), Lift(z)))
  {
    WithY(Times(m.b, z.z1) + Times(m.v, z.z2) + Times(m.w, z.z3), Times(m.s, z.z4) + Times(m.a, z.z5));
    TimesY(m.s, z.z4);
    TimesY(m.a, z.z5);
  }

  lemma Output4(m: Matrix, z: Seed)
    ensures Cong(Transition(m, z).z4, Dot(Row4(m), Lift(z)))
  {
    WithY(Times(m.a, z.z1) + Times(m.u, z.z2) + Times(m.v, z.z3) + Times(m.w, z.z4), Times(m.s, z.z5));
    TimesY(m.s, z.z5);
  }

  lemma Output5(m: Matrix, z: Seed)
    ensures Cong(Transition(m, z).z5, Dot(RowOf(m), Lift(z)))
  {
    ReduceSum(Times(m.s, z.z1) + Times(m.t, z.z2) + Times(m.u, z.z3), Times(m.v, z.z4) + Times(m.w, z.z5));
    Reduced(Dot(RowOf(m), Lift(z)));
  }

  /** mrg_apply_transition applies the matrix of the compressed row. */
  lemma TransitionIs(m: Matrix, z: Seed)
    requires CacheOk(m)
    ensures CongState(Lift(Transition(m, z)), Apply(RowOf(m), Lift(z)))
  {
    var r, y := RowOf(m), Lift(z);
    CacheRows(m);
    Output1(m, z);
    Output2(m, z);
    Output3(m, z);
    Output4(m, z);
    Output5(m, z);
    CongDot(Row1(m), TimesA(TimesA(TimesA(TimesA(r)))), y, y);
    CongDot(Row2(m), TimesA(TimesA(TimesA(r))), y, y);
    CongDot(Row3(m), TimesA(TimesA(r)), y, y);
    CongDot(Row4(m), TimesA(r), y, y);
  }

  /** Column k of the full matrix, from the cache. */
  ghost function CacheColumn(n: Matrix, k: nat): State {
    Column(Row1(n), Row2(n), Row3(n), Row4(n), RowOf(n), k)
  }

  /** Reducing after every term of a sum, or only at the end, comes to the same. */
  lemma Chain(p: int, a: int, b: int, c: int, d: int)
    ensures Reduce(Reduce(Reduce(Reduce(Reduce(p) + a) + b) + c) + d) == Reduce(p + a + b + c + d)
    ensures Reduce(Reduce(Reduce(Reduce(p) + a) + b) + c) == Reduce(p + a + b + c)
    ensures Reduce(Reduce(Reduce(p) + a) + b) == Reduce(p + a + b)
    ensures Reduce(Reduce(p) + a) == Reduce(p + a)
  {
    ReduceSum(p, a);
    ReduceSum(p + a, b);
    ReduceSum(p + a + b, c);
    ReduceSum(p + a + b + c, d);
  }

  lemma MultiplyS(m: Matrix, n: Matrix)
    ensures Cong(Multiply(m, n).s, Dot(RowOf(m), CacheColumn(n, 1)))
  {
    Chain(Times(m.s, n.d), Times(m.t, n.c), Times(m.u, n.b), Times(m.v, n.a), Times(m.w, n.s));
    Reduced(Dot(RowOf(m), CacheColumn(n, 1)));
  }

  lemma MultiplyT(m: Matrix, n: Matrix)
    ensures Cong(Multiply(m, n).t, Dot(RowOf(m), CacheColumn(n, 2)))
  {
    var q := Times(m.s, n.s);
    Chain(104480 * Reduce(q), Times(m.t, n.w), Times(m.u, n.v), Times(m.v, n.u), Times(m.w, n.t));
    WithY(Times(m.t, n.w) + Times(m.u, n.v) + Times(m.v, n.u) + Times(m.w, n.t), q);
    TimesY(m.s, n.s);
  }

  lemma MultiplyU(m: Matrix, n: Matrix)
    ensures Cong(Multiply(m, n).u, Dot(RowOf(m), CacheColumn(n, 3)))
  {
    var q := Times(m.s, n.a) + Times(m.t, n.s);
    Chain(Times(m.s, n.a), Times(m.t, n.s), 0, 0, 0);
    Chain(104480 * Reduce(q), Times(m.u, n.w), Times(m.v, n.v), Times(m.w, n.u), 0);
    WithY(Times(m.u, n.w) + Times(m.v, n.v) + Times(m.w, n.u), q);
    TimesY(m.s, n.a);
    TimesY(m.t, n.s);
  }

  lemma MultiplyV(m: Matrix, n: Matrix)
    ensures Cong(Multiply(m, n).v, Dot(RowOf(m), CacheColumn(n, 4)))
  {
    var q := Times(m.s, n.b) + Times(m.t, n.a) + Times(m.u, n.s);
    Chain(Times(m.s, n.b), Times(m.t, n.a), Times(m.u, n.s), 0, 0);
    Chain(104480 * Reduce(q), Times(m.v, n.w), Times(m.w, n.v), 0, 0);
    WithY(Times(m.v, n.w) + Times(m.w, n.v), q);
    TimesY(m.s, n.b);
    TimesY(m.t, n.a);
    TimesY(m.u, n.s);
  }

  lemma MultiplyW(m: Matrix, n: Matrix)
    ensures Cong(Multiply(m, n).w, Dot(RowOf(m), CacheColumn(n, 5)))
  {
    var q := Times(m.s, n.c) + Times(m.t, n.b) + Times(m.u, n.a) + Times(m.v, n.s);
    Chain(Times(m.s, n.c), Times(m.t, n.b), Times(m.u, n.a), Times(m.v, n.s), 0);
    Chain(104480 * Reduce(q), Times(m.w, n.w), 0, 0, 0);
    WithY(Times(m.w, n.w), q);
    TimesY(m.s, n.c);
    TimesY(m.t, n.b);
    TimesY(m.u, n.a);
    TimesY(m.v, n.s);
  }

  lemma CongColumn(m: Matrix, n: Matrix, k: nat)
    requires CacheOk(n)
    ensures Cong(Dot(RowOf(m), CacheColumn(n, k)), Dot(RowOf(m), FullColumn(RowOf(n), k)))
  {
    CacheRows(n);
    CongDot(RowOf(m), RowOf(m), CacheColumn(n, k), FullColumn(RowOf(n), k));
  }

  /** mrg_multiply computes the row of the product. */
  lemma MultiplyIs(m: Matrix, n: Matrix)
    requires CacheOk(n)
    ensures CongRow(RowOf(Multiply(m, n)), Product(RowOf(m), RowOf(n)))
  {
    MultiplyS(m, n);
    MultiplyT(m, n);
    MultiplyU(m, n);
    MultiplyV(m, n);
    MultiplyW(m, n);
    CongColumn(m, n, 1);
    CongColumn(m, n, 2);
    CongColumn(m, n, 3);
    CongColumn(m, n, 4);
    CongColumn(m, n, 5);
    ProductColumns(RowOf(m), RowOf(n));
  }

  /** The product of two matrices applies one after the other, in the compressed arithmetic of the code. */
  lemma MultiplyApplies(m: Matrix, n: Matrix, z: Seed)
    requires CacheOk(m) && CacheOk(n)
    ensures CacheOk(Multiply(m, n))
    ensures Transition(Multiply(m, n), z) == Transition(m, Transition(n, z))
  {
    var mn, y := Multiply(m, n), Transition(n, z);
    TransitionIs(mn, z);
    TransitionIs(n, z);
    TransitionIs(m, y);
    MultiplyIs(m, n);
    CongApply(RowOf(mn), Product(RowOf(m), RowOf(n)), Lift(z), Lift(z));
    ApplyProduct(RowOf(m), RowOf(n), Lift(z));
    CongApply(RowOf(m), RowOf(m), Lift(y), Apply(RowOf(n), Lift(z)));
    SameSeed(Transition(mn, z), Transition(m, y));
  }

  // ----------------------------------------------------------------- skipping

  ghost predicate SkipsAt(m: Matrix, n: nat, z: Seed) {
    CacheOk(m) && Transition(m, z) == Steps(n, z)
  }

  /** Applying m is n steps of the generator. */
  ghost predicate Skips(m: Matrix, n: nat) {
    forall z {:trigger SkipsAt(m, n, z)} :: SkipsAt(m, n, z)
  }

  lemma DotUnit(r: Row, z: State)
    requires r == Row(0, 0, 0, 0, 1)
    ensures Dot(r, z) == z.z5
  {
    TimesIs(0, z.z1);
    TimesIs(0, z.z2);
    TimesIs(0, z.z3);
    TimesIs(0, z.z4);
    TimesIs(1, z.z5);
  }

  lemma ApplyUnit(r: Row, z: State)
    requires r == Row(0, 0, 0, 0, 1)
    ensures Apply(r, z) == z
    ensures Apply(TimesA(r), z) == Step(z)
  {
    ApplyBySteps(r, z);
    ApplyBySteps(r, Step(z));
    ApplyBySteps(TimesA(r), z);
    DotUnit(r, z);
    DotUnit(r, Step(z));
    DotUnit(r, Step(Step(z)));
    DotUnit(r, Step(Step(Step(z))));
    DotUnit(r, Step(Step(Step(Step(z)))));
    DotUnit(r, Step(Step(Step(Step(Step(z))))));
    DotTimesA(r, z);
    DotTimesA(r, Step(z));
    DotTimesA(r, Step(Step(z)));
    DotTimesA(r, Step(Step(Step(z))));
    DotTimesA(r, Step(Step(Step(Step(z)))));
  }

  lemma SkipsIdentity(m: Matrix)
    requires m == Cached(0, 0, 0, 0, 1)
    ensures Skips(m, 0)
  {
    forall z
      ensures SkipsAt(m, 0, z)
    {
      TransitionIs(m, z);
      ApplyUnit(RowOf(m), Lift(z));
      SameSeed(Transition(m, z), z);
    }
  }

  lemma StepUnique(y: Seed, z: Seed)
    requires CongState(Lift(y), Step(Lift(z)))
    ensures y == OrigStep(z)
  {
    OrigStepIs(z);
    SameSeed(y, OrigStep(z));
  }

  lemma StepMatrix(m: Matrix, r: Row, z: Seed)
    requires CacheOk(m) && r == Row(0, 0, 0, 0, 1) && RowOf(m) == TimesA(r)
    ensures CongState(Lift(Transition(m, z)), Step(Lift(z)))
  {
    TransitionIs(m, z);
    ApplyUnit(r, Lift(z));
  }

  lemma SkipsA(m: Matrix, r: Row)
    requires CacheOk(m) && r == Row(0, 0, 0, 0, 1) && RowOf(m) == TimesA(r)
    ensures Skips(m, 1)
  {
    forall z
      ensures SkipsAt(m, 1, z)
    {
      StepMatrix(m, r, z);
      StepUnique(Transition(m, z), z);
      assert Steps(1, z) == OrigStep(Steps(0, z));
    }
  }

  lemma SkipsMultiply(m: Matrix, i: nat, n: Matrix, j: nat)
    requires Skips(m, i) && Skips(n, j)
    ensures Skips(Multiply(m, n), i + j)
  {
    var mn, k := Multiply(m, n), i + j;
    forall z
      ensures SkipsAt(mn, k, z)
    {
      assert SkipsAt(n, j, z) && SkipsAt(m, i, Steps(j, z));
      MultiplyApplies(m, n, z);
      StepsAdd(i, j, z);
    }
  }

  // ---------------------------------- the code, with the arithmetic of the 32-bit header

  method Add(a: Residue, b: Residue) returns (r: Residue)
    ensures r == ModAdd(a, b)
  {
    r := Add32(a, b);
  }

  method Mul(a: Residue, b: Residue) returns (r: Residue)
    ensures r == ModMul(a, b)
  {
    r := Mul32(a, b);
  }

  method Mac(sum: Residue, a: Residue, b: Residue) returns (r: Residue)
    ensures r == ModMac(sum, a, b)
  {
    r := Mac32(sum, a, b);
  }

  method MulX(a: Residue) returns (r: Residue)
    ensures r == ModMulX(a)
  {
    r := MulX32(a);
  }

  method MulY(a: Residue) returns (r: Residue)
    ensures r == ModMulY(a)
  {
    r := MulY32(a);
  }

  /** mrg_update_cache */
  method UpdateCache(s: Residue, t: Residue, u: Residue, v: Residue, w: Residue) returns (m: Matrix)
    ensures m == Cached(s, t, u, v, w)
  {
    var sx := MulX(s);
    var a := Add(sx, t);
    var ax := MulX(a);
    var b := Add(ax, u);
    var bx := MulX(b);
    var c := Add(bx, v);
    var cx := MulX(c);
    var d := Add(cx, w);
    m := Matrix(s, t, u, v, w, a, b, c, d);
  }

  /** mrg_make_identity */
  method MakeIdentity() returns (m: Matrix)
    ensures Skips(m, 0)
  {
    m := UpdateCache(0, 0, 0, 0, 1);
    SkipsIdentity(m);
  }

  /** mrg_make_A */
  method MakeA() returns (m: Matrix)
    ensures Skips(m, 1)
  {
    m := UpdateCache(0, 0, 0, 1, 0);
    SkipsA(m, Row(0, 0, 0, 0, 1));
  }

  /** mrg_multiply */
  method MultiplyMatrices(m: Matrix, n: Matrix) returns (r: Matrix)
    ensures r == Multiply(m, n)
  {
    var rs := Mul(m.s, n.d);
    rs := Mac(rs, m.t, n.c);
    rs := Mac(rs, m.u, n.b);
    rs := Mac(rs, m.v, n.a);
    rs := Mac(rs, m.w, n.s);
    var rt := Mul(m.s, n.s);
    rt := MulY(rt);
    rt := Mac(rt, m.t, n.w);
    rt := Mac(rt, m.u, n.v);
    rt := Mac(rt, m.v, n.u);
    rt := Mac(rt, m.w, n.t);
    var ru := Mul(m.s, n.a);
    ru := Mac(ru, m.t, n.s);
    ru := MulY(ru);
    ru := Mac(ru, m.u, n.w);
    ru := Mac(ru, m.v, n.v);
    ru := Mac(ru, m.w, n.u);
    var rv := Mul(m.s, n.b);
    rv := Mac(rv, m.t, n.a);
    rv := Mac(rv, m.u, n.s);
    rv := MulY(rv);
    rv := Mac(rv, m.v, n.w);
    rv := Mac(rv, m.w, n.v);
    var rw := Mul(m.s, n.c);
    rw := Mac(rw, m.t, n.b);
    rw := Mac(rw, m.u, n.a);
    rw := Mac(rw, m.v, n.s);
    rw := MulY(rw);
    rw := Mac(rw, m.w, n.w);
    r := UpdateCache(rs, rt, ru, rv, rw);
  }

  /** mrg_apply_transition */
  method ApplyTransition(m: Matrix, z: Seed) returns (r: Seed)
    ensures r == Transition(m, z)
  {
    var p1, q1 := Mul32(m.d, z.z1), Mac4of32(0, m.s, z.z2, m.a, z.z3, m.b, z.z4, m.c, z.z5);
    var p2, q2 := Mac2of32(0, m.c, z.z1, m.w, z.z2), Mac3of32(0, m.s, z.z3, m.a, z.z4, m.b, z.z5);
    var p3, q3 := Mac3of32(0, m.b, z.z1, m.v, z.z2, m.w, z.z3), Mac2of32(0, m.s, z.z4, m.a, z.z5);
    var p4, q4 := Mac4of32(0, m.a, z.z1, m.u, z.z2, m.v, z.z3, m.w, z.z4), Mul32(m.s, z.z5);
    var p5 := Mac3of32(0, m.s, z.z1, m.t, z.z2, m.u, z.z3);
    r := Seed(MacY32(p1, q1), MacY32(p2, q2), MacY32(p3, q3), MacY32(p4, q4), Mac2of32(p5, m.v, z.z4, m.w, z.z5));
  }

  /** mrg_power: repeated squaring. */
  method Power(m: Matrix, exponent: nat, ghost n: nat) returns (result: Matrix)
    requires Skips(m, n)
    ensures Skips(result, n * exponent)
  {
    var square, left := m, exponent;
    result := MakeIdentity();
    ghost var done, each := 0, n;
    while left > 0
      invariant Skips(result, done) && Skips(square, each)
      invariant done + each * left == n * exponent
    {
      Halve(each, left);
      if left % 2 == 1 {
        SkipsMultiply(result, done, square, each);
        result := MultiplyMatrices(result, square);
        done := done + each;
      }
      SkipsMultiply(square, each, square, each);
      square := MultiplyMatrices(square, square);
      each := each + each;
      left := left / 2;
    }
  }

  lemma Halve(each: nat, left: nat)
    ensures each * left == (each + each) * (left / 2) + (if left % 2 == 1 then each else 0)
  {
    var h := left / 2;
    assert left == 2 * h + left % 2;
    assert each * (2 * h) == (each + each) * h;
    if left % 2 == 1 {
      assert each * (2 * h + 1) == each * (2 * h) + each;
    }
  }

  ghost function Pow256(i: nat): nat {
    if i == 0 then 1 else 256 * Pow256(i - 1)
  }

  ghost predicate EntryOk(line: seq<Matrix>, i: nat, j: nat) {
    j < |line| && Skips(line[j], Weigh(i, j))
  }

  ghost predicate LineOk(line: seq<Matrix>, i: nat) {
    |line| == 256 && forall j: nat {:trigger EntryOk(line, i, j)} :: j < 256 ==> EntryOk(line, i, j)
  }

  /** Entry j of line i skips j * 256^i steps. */
  ghost predicate TableOk(table: seq<seq<Matrix>>) {
    |table| == 24 && forall i: nat {:trigger LineOk(table[i], i)} :: i < 24 ==> LineOk(table[i], i)
  }

  /** One line of the table, from the transition for its byte. */
  method TableLine(m: Matrix, ghost i: nat) returns (line: seq<Matrix>)
    requires Skips(m, Pow256(i))
    ensures LineOk(line, i)
  {
    var one := MakeIdentity();
    line := [one, m];
    WeighIs(i, 0);
    WeighIs(i, 1);
    assert EntryOk(line, i, 0) && EntryOk(line, i, 1);
    for j := 2 to 256
      invariant |line| == j
      invariant forall k: nat {:trigger EntryOk(line, i, k)} :: k < j ==> EntryOk(line, i, k)
    {
      var power := Power(m, j, Pow256(i));
      WeighIs(i, j);
      ghost var before := line;
      line := line + [power];
      forall k: nat | k < j + 1
        ensures EntryOk(line, i, k)
      {
        assert k < j ==> EntryOk(before, i, k);
      }
    }
  }

  /** dump_mrg_powers: the table it writes. */
  method DumpPowers() returns (table: seq<seq<Matrix>>)
    ensures TableOk(table)
  {
    table := [];
    var m := MakeA();
    for i := 0 to 24
      invariant |table| == i
      invariant forall k: nat {:trigger LineOk(table[k], k)} :: k < i ==> LineOk(table[k], k)
      invariant Skips(m, if i == 0 then 1 else Pow256(i - 1))
    {
      if i > 0 {
        m := Power(m, 256, Pow256(i - 1));
      }
      assert Skips(m, Pow256(i));
      var line := TableLine(m, i);
      table := table + [line];
    }
  }

  /** An mrg_state, updated in place. */
  class Mrg {
    var z1: Residue
    var z2: Residue
    var z3: Residue
    var z4: Residue
    var z5: Residue

    ghost function Value(): Seed
      reads this
    {
      Seed(z1, z2, z3, z4, z5)
    }

    /** mrg_seed */
    constructor (seed: Seed)
      ensures Value() == seed
    {
      z1, z2, z3, z4, z5 := seed.z1, seed.z2, seed.z3, seed.z4, seed.z5;
    }

    /** mrg_step */
    method Step(m: Matrix)
      modifies this
      ensures Value() == Transition(m, old(Value()))
    {
      var r := ApplyTransition(m, Seed(z1, z2, z3, z4, z5));
      z1, z2, z3, z4, z5 := r.z1, r.z2, r.z3, r.z4, r.z5;
    }

    /** mrg_get_uint_orig */
    method GetUint() returns (r: Residue)
      modifies this
      ensures Value() == Steps(1, old(Value())) && r == z1
    {
      assert Steps(1, Value()) == OrigStep(Steps(0, Value()));
      var newElt := MacY32(MulX32(z1), z5);
      z5 := z4;
      z4 := z3;
      z3 := z2;
      z2 := z1;
      z1 := newElt;
      r := z1;
    }

    /** One table entry of mrg_skip. */
    method SkipEntry(m: Matrix, ghost n: nat, ghost start: Seed, ghost done: nat)
      requires Skips(m, n) && Reached(start, done, Value())
      modifies this
      ensures Reached(start, done + n, Value())
    {
      ReachedSkip(start, done, Value(), m, n);
      Step(m);
    }

    /** The body of mrg_skip's loops: the lowest byte of what is left of the exponent. */
    method SkipByte(table: seq<seq<Matrix>>, byteIndex: nat, exponent: nat,
                    ghost start: Seed, ghost done: nat, ghost room: int, ghost all: nat) returns (ghost done': nat)
      requires TableOk(table) && Left(room, byteIndex, exponent, done, all) && byteIndex + room <= 24
      requires exponent != 0 && Reached(start, done, Value())
      modifies this
      ensures room > 0 && Left(room - 1, byteIndex + 1, exponent / 256, done', all) && Reached(start, done', Value())
    {
      var val := exponent % 256;
      ByteOff(room, byteIndex, exponent, done, all);
      done' := done + Weigh(byteIndex, val);
      if val != 0 {
        var line := table[byteIndex];
        assert LineOk(line, byteIndex) && EntryOk(line, byteIndex, val);
        SkipEntry(line[val], Weigh(byteIndex, val), start, done);
      }
    }

    /** One of the three loops of mrg_skip: the bytes of one 64-bit word, from byte first of the exponent on. */
    method SkipWord(table: seq<seq<Matrix>>, first: nat, word: nat, ghost start: Seed, ghost before: nat)
      requires TableOk(table) && first <= 16 && word < 0x1_0000_0000_0000_0000 && Reached(start, before, Value())
      modifies this
      ensures Reached(start, before + Weigh(first, word), Value())
    {
      var byteIndex: nat, exponent: nat := first, word;
      ghost var all: nat, done: nat, room: int := before + Weigh(first, word), before, 8;
      AllLeft(first, word, before);
      while exponent != 0
        invariant first + 8 == byteIndex + room && Left(room, byteIndex, exponent, done, all)
        invariant Reached(start, done, Value())
      {
        done := SkipByte(table, byteIndex, exponent, start, done, room, all);
        byteIndex := byteIndex + 1;
        exponent := exponent / 256;
        room := room - 1;
      }
      NothingLeft(room, byteIndex, done, all);
    }

    /** mrg_skip: for every 192-bit exponent, as many steps at once. */
    method Skip(table: seq<seq<Matrix>>, high: nat, middle: nat, low: nat)
      requires TableOk(table)
      requires high < 0x1_0000_0000_0000_0000 && middle < 0x1_0000_0000_0000_0000 && low < 0x1_0000_0000_0000_0000
      modifies this
      ensures Value() == Steps(Exponent(high, middle, low), old(Value()))
    {
      ghost var start := Value();
      ReachedStart(start);
      SkipWord(table, 0, low, start, 0);
      SkipWord(table, 8, middle, start, low);
      SkipWord(table, 16, high, start, low + Weigh(8, middle));
      ExponentIs(high, middle, low);
      ReachedIs(start, Exponent(high, middle, low), Value());
    }
  }

  /** The 192-bit number of three 64-bit words. */
  ghost function Exponent(high: nat, middle: nat, low: nat): nat {
    (high * 0x1_0000_0000_0000_0000 + middle) * 0x1_0000_0000_0000_0000 + low
  }

  lemma ExponentIs(high: nat, middle: nat, low: nat)
    ensures Exponent(high, middle, low) == low + Weigh(8, middle) + Weigh(16, high)
  {
    WordWidth();
    WeighIs(8, middle);
    WeighIs(16, high);
  }

  // ------------------------------------------------------- how far a state has come

  ghost predicate ReachedAt(start: Seed, n: nat, now: Seed, k: nat) {
    Steps(k, now) == Steps(k + n, start)
  }

  /** now is n steps after start, and stays so whatever number of steps is taken next. */
  ghost predicate Reached(start: Seed, n: nat, now: Seed) {
    forall k: nat {:trigger ReachedAt(start, n, now, k)} :: ReachedAt(start, n, now, k)
  }

  lemma ReachedIs(start: Seed, n: nat, now: Seed)
    requires Reached(start, n, now)
    ensures now == Steps(n, start)
  {
    assert ReachedAt(start, n, now, 0);
  }

  lemma ReachedStart(start: Seed)
    ensures Reached(start, 0, start)
  {
    forall k: nat
      ensures ReachedAt(start, 0, start, k)
    {
    }
  }

  lemma ReachedSkip(start: Seed, done: nat, now: Seed, m: Matrix, n: nat)
    requires Reached(start, done, now) && Skips(m, n)
    ensures Reached(start, done + n, Transition(m, now))
  {
    ReachedIs(start, done, now);
    assert SkipsAt(m, n, now);
    var next, all := Steps(n, now), done + n;
    forall k: nat
      ensures ReachedAt(start, all, next, k)
    {
      ThreeSkips(k, n, done, start);
    }
  }

  lemma ThreeSkips(a: nat, b: nat, c: nat, z: Seed)
    ensures Steps(a, Steps(b, Steps(c, z))) == Steps(a + b + c, z)
  {
    StepsAdd(b, c, z);
    StepsAdd(a, b + c, z);
  }

  /** 256^i times e. */
  ghost function Weigh(i: nat, e: nat): nat
    decreases i
  {
    if i == 0 then e else Weigh(i - 1, 256 * e)
  }

  lemma {:induction false} WeighIs(i: nat, e: nat)
    ensures Weigh(i, e) == Pow256(i) * e
  {
    if i > 0 {
      WeighIs(i - 1, 256 * e);
      var p := Pow256(i - 1);
      assert (256 * p) * e == p * (256 * e);
    }
  }

  lemma {:induction false} WeighSum(i: nat, a: nat, b: nat)
    ensures Weigh(i, a + b) == Weigh(i, a) + Weigh(i, b)
  {
    if i > 0 {
      WeighSum(i - 1, 256 * a, 256 * b);
    }
  }

  /** What is left of the exponent fits in room bytes and makes up the difference to all. */
  ghost predicate Left(room: int, byteIndex: nat, exponent: nat, done: nat, all: nat) {
    room >= 0 && exponent < Pow256(room) && done + Weigh(byteIndex, exponent) == all
  }

  lemma AllLeft(first: nat, word: nat, before: nat)
    requires word < 0x1_0000_0000_0000_0000
    ensures Left(8, first, word, before, before + Weigh(first, word))
  {
    WordWidth();
  }

  lemma ByteOff(room: int, byteIndex: nat, exponent: nat, done: nat, all: nat)
    requires Left(room, byteIndex, exponent, done, all) && exponent != 0
    ensures room > 0 && Left(room - 1, byteIndex + 1, exponent / 256, done + Weigh(byteIndex, exponent % 256), all)
  {
    WeighSum(byteIndex, exponent % 256, 256 * (exponent / 256));
  }

  lemma NothingLeft(room: int, byteIndex: nat, done: nat, all: nat)
    requires Left(room, byteIndex, 0, done, all)
    ensures done == all
  {
    WeighIs(byteIndex, 0);
  }

  /** The words of the exponent are 64 bits wide. */
  lemma WordWidth()
    ensures Pow256(8) == 0x1_0000_0000_0000_0000 && Pow256(16) == Pow256(8) * Pow256(8)
  {
    assert Pow256(4) == 0x1_0000_0000;
    assert Pow256(8) == 256 * 256 * 256 * 256 * Pow256(4);
    assert Pow256(12) == 256 * 256 * 256 * 256 * Pow256(8);
    assert Pow256(16) == 256 * 256 * 256 * 256 * Pow256(12);
  }
}
