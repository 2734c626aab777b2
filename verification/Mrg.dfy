/**
 The splittable multiple recursive generator of generators/prng/splittable_mrg.c: powers of its 5x5
 transition matrix kept as one row (plus a cache), and skipping ahead by a 192-bit number of steps.
 */
module Mrg {
  import opened ModArith

  /** Five integers: a generator state as a column, or a row of a transition matrix. */
  datatype Vec = Vec(x1: int, x2: int, x3: int, x4: int, x5: int)

  // ---------- over the integers: rows, steps, products ----------

  function Dot(r: Vec, z: Vec): int {
    r.x1 * z.x1 + r.x2 * z.x2 + r.x3 * z.x3 + r.x4 * z.x4 + r.x5 * z.x5
  }

  function Add(r: Vec, q: Vec): Vec {
    Vec(r.x1 + q.x1, r.x2 + q.x2, r.x3 + q.x3, r.x4 + q.x4, r.x5 + q.x5)
  }

  function Scale(k: int, r: Vec): Vec {
    Vec(k * r.x1, k * r.x2, k * r.x3, k * r.x4, k * r.x5)
  }

  /** One step of the recurrence, without reduction: A times the state. */
  function Step(z: Vec): Vec {
    Vec(MULT_X * z.x1 + MULT_Y * z.x5, z.x1, z.x2, z.x3, z.x4)
  }

  /** A row times A: the row above it in a power of A. */
  function Above(r: Vec): Vec {
    Vec(MULT_X * r.x1 + r.x2, r.x3, r.x4, r.x5, MULT_Y * r.x1)
  }

  /** The matrix whose bottom row is r (and whose other rows are r A, r A^2, r A^3, r A^4), times a state. */
  function Apply(r: Vec, z: Vec): Vec {
    Vec(Dot(Above(Above(Above(Above(r)))), z), Dot(Above(Above(Above(r))), z), Dot(Above(Above(r)), z),
      Dot(Above(r), z), Dot(r, z))
  }

  /** The bottom row of the product of the two matrices. */
  function Product(r: Vec, q: Vec): Vec {
    Add(Scale(r.x1, Above(Above(Above(Above(q))))),
        Add(Scale(r.x2, Above(Above(Above(q)))),
            Add(Scale(r.x3, Above(Above(q))),
                Add(Scale(r.x4, Above(q)), Scale(r.x5, q)))))
  }

  lemma DotAdd(r: Vec, q: Vec, z: Vec)
    ensures Dot(Add(r, q), z) == Dot(r, z) + Dot(q, z)
  {
    Distribute(r.x1, q.x1, z.x1);
    Distribute(r.x2, q.x2, z.x2);
    Distribute(r.x3, q.x3, z.x3);
    Distribute(r.x4, q.x4, z.x4);
    Distribute(r.x5, q.x5, z.x5);
  }

  lemma Distribute(a: int, b: int, c: int)
    ensures (a + b) * c == a * c + b * c
  {
  }

  lemma DotScale(k: int, r: Vec, z: Vec)
    ensures Dot(Scale(k, r), z) == k * Dot(r, z)
  {
    var a, b, c, d, e := r.x1 * z.x1, r.x2 * z.x2, r.x3 * z.x3, r.x4 * z.x4, r.x5 * z.x5;
    assert (k * r.x1) * z.x1 == k * a && (k * r.x2) * z.x2 == k * b && (k * r.x3) * z.x3 == k * c;
    assert (k * r.x4) * z.x4 == k * d && (k * r.x5) * z.x5 == k * e;
    Distribute5(k, a, b, c, d, e);
  }

  lemma Distribute5(k: int, a: int, b: int, c: int, d: int, e: int)
    ensures k * (a + b + c + d + e) == k * a + k * b + k * c + k * d + k * e
  {
  }

  /** Moving A from the row to the state. */
  lemma DotAbove(r: Vec, z: Vec)
    ensures Dot(Above(r), z) == Dot(r, Step(z))
  {
    Distribute(MULT_X * r.x1, r.x2, z.x1);
    assert r.x1 * (MULT_X * z.x1 + MULT_Y * z.x5) == MULT_X * r.x1 * z.x1 + MULT_Y * r.x1 * z.x5;
  }

  function Steps(z: Vec, n: nat): Vec {
    if n == 0 then z else Step(Steps(z, n - 1))
  }

  /** Every component of the product is the bottom row against a later state. */
  lemma ApplyByStates(r: Vec, z: Vec)
    ensures Apply(r, z)
      == Vec(Dot(r, Step(Step(Step(Step(z))))), Dot(r, Step(Step(Step(z)))), Dot(r, Step(Step(z))), Dot(r, Step(z)),
        Dot(r, z))
  {
    DotAbove(r, z);
    DotAbove(Above(r), z);
    DotAbove(r, Step(z));
    DotAbove(Above(Above(r)), z);
    DotAbove(Above(r), Step(z));
    DotAbove(r, Step(Step(z)));
    DotAbove(Above(Above(Above(r))), z);
    DotAbove(Above(Above(r)), Step(z));
    DotAbove(Above(r), Step(Step(z)));
    DotAbove(r, Step(Step(Step(z))));
  }

  /** A satisfies its characteristic equation: five steps are MULT_X times four steps plus MULT_Y times none. */
  lemma FiveSteps(z: Vec)
    ensures Step(Step(Step(Step(Step(z))))) == Add(Scale(MULT_X, Step(Step(Step(Step(z))))), Scale(MULT_Y, z))
  {
  }

  lemma DotCombination(r: Vec, i: int, z: Vec, j: int, y: Vec)
    ensures Dot(r, Add(Scale(i, z), Scale(j, y))) == i * Dot(r, z) + j * Dot(r, y)
  {
    DotCommutes(r, Add(Scale(i, z), Scale(j, y)));
    DotAdd(Scale(i, z), Scale(j, y), r);
    DotScale(i, z, r);
    DotScale(j, y, r);
    DotCommutes(r, z);
    DotCommutes(r, y);
  }

  lemma DotCommutes(r: Vec, z: Vec)
    ensures Dot(r, z) == Dot(z, r)
  {
  }

  /** Every such matrix commutes with a step. */
  lemma ApplyCommutes(r: Vec, z: Vec)
    ensures Apply(r, Step(z)) == Step(Apply(r, z))
  {
    ApplyByStates(r, z);
    ApplyByStates(r, Step(z));
    FiveSteps(z);
    DotCombination(r, MULT_X, Step(Step(Step(Step(z)))), MULT_Y, z);
  }

  lemma DotProduct(r: Vec, q: Vec, z: Vec)
    ensures Dot(Product(r, q), z) == Dot(r, Apply(q, z))
  {
    var q1, q2, q3, q4 := Above(q), Above(Above(q)), Above(Above(Above(q))), Above(Above(Above(Above(q))));
    var t4 := Add(Scale(r.x4, q1), Scale(r.x5, q));
    var t3 := Add(Scale(r.x3, q2), t4);
    var t2 := Add(Scale(r.x2, q3), t3);
    DotAdd(Scale(r.x1, q4), t2, z);
    DotAdd(Scale(r.x2, q3), t3, z);
    DotAdd(Scale(r.x3, q2), t4, z);
    DotAdd(Scale(r.x4, q1), Scale(r.x5, q), z);
    DotScale(r.x1, q4, z);
    DotScale(r.x2, q3, z);
    DotScale(r.x3, q2, z);
    DotScale(r.x4, q1, z);
    DotScale(r.x5, q, z);
  }

  /** The five-parameter form is closed under multiplication: the product's row acts like one matrix after the other. */
  lemma ProductApplies(r: Vec, q: Vec, z: Vec)
    ensures Apply(Product(r, q), z) == Apply(r, Apply(q, z))
  {
    var p := Product(r, q);
    var s1, s2, s3, s4 := Step(z), Step(Step(z)), Step(Step(Step(z))), Step(Step(Step(Step(z))));
    ApplyByStates(p, z);
    ApplyByStates(r, Apply(q, z));
    DotProduct(r, q, z);
    DotProduct(r, q, s1);
    DotProduct(r, q, s2);
    DotProduct(r, q, s3);
    DotProduct(r, q, s4);
    ApplyCommutes(q, z);
    ApplyCommutes(q, s1);
    ApplyCommutes(q, s2);
    ApplyCommutes(q, s3);
  }

  // ---------- modulo MERSENNE: the program's matrices and states ----------

  predicate CongVec(z: Vec, y: Vec) {
    Cong(z.x1, y.x1) && Cong(z.x2, y.x2) && Cong(z.x3, y.x3) && Cong(z.x4, y.x4) && Cong(z.x5, y.x5)
  }

  predicate Reduced(z: Vec) {
    && 0 <= z.x1 < MERSENNE && 0 <= z.x2 < MERSENNE && 0 <= z.x3 < MERSENNE && 0 <= z.x4 < MERSENNE &&
      0 <= z.x5 < MERSENNE
  }

  lemma ReducedUnique(z: Vec, y: Vec)
    requires Reduced(z) && Reduced(y) && CongVec(z, y)
    ensures z == y
  {
  }

  lemma DotCong(r: Vec, r': Vec, z: Vec, z': Vec)
    requires CongVec(r, r') && CongVec(z, z')
    ensures Cong(Dot(r, z), Dot(r', z'))
  {
    CongMul(r.x1, r'.x1, z.x1, z'.x1);
    CongMul(r.x2, r'.x2, z.x2, z'.x2);
    CongMul(r.x3, r'.x3, z.x3, z'.x3);
    CongMul(r.x4, r'.x4, z.x4, z'.x4);
    CongMul(r.x5, r'.x5, z.x5, z'.x5);
    CongAdd(r.x1 * z.x1, r'.x1 * z'.x1, r.x2 * z.x2, r'.x2 * z'.x2);
    CongAdd(r.x1 * z.x1 + r.x2 * z.x2, r'.x1 * z'.x1 + r'.x2 * z'.x2, r.x3 * z.x3, r'.x3 * z'.x3);
    CongAdd(r.x1 * z.x1 + r.x2 * z.x2 + r.x3 * z.x3, r'.x1 * z'.x1 + r'.x2 * z'.x2 + r'.x3 * z'.x3, r.x4 * z.x4,
      r'.x4 * z'.x4);
    CongAdd(r.x1 * z.x1 + r.x2 * z.x2 + r.x3 * z.x3 + r.x4 * z.x4,
      r'.x1 * z'.x1 + r'.x2 * z'.x2 + r'.x3 * z'.x3 + r'.x4 * z'.x4,
            r.x5 * z.x5, r'.x5 * z'.x5);
  }

  lemma AboveCong(r: Vec, r': Vec)
    requires CongVec(r, r')
    ensures CongVec(Above(r), Above(r'))
  {
    CongMul(MULT_X, MULT_X, r.x1, r'.x1);
    CongMul(MULT_Y, MULT_Y, r.x1, r'.x1);
    CongAdd(MULT_X * r.x1, MULT_X * r'.x1, r.x2, r'.x2);
  }

  lemma ApplyCong(r: Vec, r': Vec, z: Vec, z': Vec)
    requires CongVec(r, r') && CongVec(z, z')
    ensures CongVec(Apply(r, z), Apply(r', z'))
  {
    AboveCong(r, r');
    AboveCong(Above(r), Above(r'));
    AboveCong(Above(Above(r)), Above(Above(r')));
    AboveCong(Above(Above(Above(r))), Above(Above(Above(r'))));
    DotCong(r, r', z, z');
    DotCong(Above(r), Above(r'), z, z');
    DotCong(Above(Above(r)), Above(Above(r')), z, z');
    DotCong(Above(Above(Above(r))), Above(Above(Above(r'))), z, z');
    DotCong(Above(Above(Above(Above(r)))), Above(Above(Above(Above(r')))), z, z');
  }

  /** `mrg_transition_matrix`: the bottom row s t u v w, and the cached first column a b c d. */
  datatype Matrix = Matrix(s: Residue, t: Residue, u: Residue, v: Residue, w: Residue,
                           a: Residue, b: Residue, c: Residue, d: Residue)
  {
    function Row(): Vec {
      Vec(s, t, u, v, w)
    }

    /** What `mrg_update_cache` establishes. */
    predicate CacheOk() {
      && a == ModAdd(ModMulX(s), t) && b == ModAdd(ModMulX(a), u)
      && c == ModAdd(ModMulX(b), v) && d == ModAdd(ModMulX(c), w)
    }
  }

  /** `mrg_update_cache`. */
  function UpdateCache(s: Residue, t: Residue, u: Residue, v: Residue, w: Residue): (m: Matrix)
    ensures m.CacheOk() && m.Row() == Vec(s, t, u, v, w)
  {
    var a := ModAdd(ModMulX(s), t);
    var b := ModAdd(ModMulX(a), u);
    var c := ModAdd(ModMulX(b), v);
    var d := ModAdd(ModMulX(c), w);
    Matrix(s, t, u, v, w, a, b, c, d)
  }

  /** `mrg_make_identity`. */
  function Identity(): Matrix {
    UpdateCache(0, 0, 0, 0, 1)
  }

  /** `mrg_make_A`. */
  function MakeA(): Matrix {
    UpdateCache(0, 0, 0, 1, 0)
  }

  /** `mrg_multiply`. */
  function Multiply(m: Matrix, n: Matrix): Matrix {
    var rs := ModMac(ModMac(ModMac(ModMac(ModMul(m.s, n.d), m.t, n.c), m.u, n.b), m.v, n.a), m.w, n.s);
    var rt := ModMac(ModMac(ModMac(ModMac(ModMulY(ModMul(m.s, n.s)), m.t, n.w), m.u, n.v), m.v, n.u), m.w, n.t);
    var ru := ModMac(ModMac(ModMac(ModMulY(ModMac(ModMul(m.s, n.a), m.t, n.s)), m.u, n.w), m.v, n.v), m.w, n.u);
    var rv := ModMac(ModMac(ModMulY(ModMac(ModMac(ModMul(m.s, n.b), m.t, n.a), m.u, n.s)), m.v, n.w), m.w, n.v);
    var rw := ModMac(ModMulY(ModMac(ModMac(ModMac(ModMul(m.s, n.c), m.t, n.b), m.u, n.a), m.v, n.s)), m.w, n.w);
    UpdateCache(rs, rt, ru, rv, rw)
  }

  /** `mrg_apply_transition`. */
  function ApplyTransition(mat: Matrix, st: State): State {
    State(
      ModMacY(ModMul(mat.d, st.z1), ModMac4(0, mat.s, st.z2, mat.a, st.z3, mat.b, st.z4, mat.c, st.z5)),
      ModMacY(ModMac2(0, mat.c, st.z1, mat.w, st.z2), ModMac3(0, mat.s, st.z3, mat.a, st.z4, mat.b, st.z5)),
      ModMacY(ModMac3(0, mat.b, st.z1, mat.v, st.z2, mat.w, st.z3), ModMac2(0, mat.s, st.z4, mat.a, st.z5)),
      ModMacY(ModMac4(0, mat.a, st.z1, mat.u, st.z2, mat.v, st.z3, mat.w, st.z4), ModMul(mat.s, st.z5)),
      ModMac2(ModMac3(0, mat.s, st.z1, mat.t, st.z2, mat.u, st.z3), mat.v, st.z4, mat.w, st.z5))
  }

  /** `mrg_state`. */
  datatype State = State(z1: Residue, z2: Residue, z3: Residue, z4: Residue, z5: Residue) {
    function Vector(): (z: Vec)
      ensures Reduced(z)
    {
      Vec(z1, z2, z3, z4, z5)
    }
  }

  /** `mrg_orig_step`. */
  function OrigStep(st: State): State {
    State(ModMacY(ModMulX(st.z1), st.z5), st.z1, st.z2, st.z3, st.z4)
  }

  function OrigSteps(st: State, n: nat): State {
    if n == 0 then st else OrigStep(OrigSteps(st, n - 1))
  }

  /** The first entries of the rows, as the cache holds them. */
  lemma CacheRows(m: Matrix)
    requires m.CacheOk()
    ensures CongVec(Above(m.Row()), Vec(m.a, m.u, m.v, m.w, MULT_Y * m.s))
    ensures CongVec(Above(Above(m.Row())), Vec(m.b, m.v, m.w, MULT_Y * m.s, MULT_Y * m.a))
    ensures CongVec(Above(Above(Above(m.Row()))), Vec(m.c, m.w, MULT_Y * m.s, MULT_Y * m.a, MULT_Y * m.b))
    ensures CongVec(Above(Above(Above(Above(m.Row())))),
      Vec(m.d, MULT_Y * m.s, MULT_Y * m.a, MULT_Y * m.b, MULT_Y * m.c))
  {
    CacheEntry(m.s, m.t, m.a);
    CacheEntry(m.a, m.u, m.b);
    CacheEntry(m.b, m.v, m.c);
    CacheEntry(m.c, m.w, m.d);
    var r1 := Above(m.Row());
    var k1 := Vec(m.a, m.u, m.v, m.w, MULT_Y * m.s);
    AboveCong(r1, k1);
    CongVecTrans(Above(r1), Above(k1), Vec(m.b, m.v, m.w, MULT_Y * m.s, MULT_Y * m.a));
    var r2, k2 := Above(r1), Vec(m.b, m.v, m.w, MULT_Y * m.s, MULT_Y * m.a);
    AboveCong(r2, k2);
    CongVecTrans(Above(r2), Above(k2), Vec(m.c, m.w, MULT_Y * m.s, MULT_Y * m.a, MULT_Y * m.b));
    var r3, k3 := Above(r2), Vec(m.c, m.w, MULT_Y * m.s, MULT_Y * m.a, MULT_Y * m.b);
    AboveCong(r3, k3);
    CongVecTrans(Above(r3), Above(k3), Vec(m.d, MULT_Y * m.s, MULT_Y * m.a, MULT_Y * m.b, MULT_Y * m.c));
  }

  lemma CongVecTrans(x: Vec, y: Vec, z: Vec)
    requires CongVec(x, y) && CongVec(y, z)
    ensures CongVec(x, z)
  {
  }

  lemma CacheEntry(s: Residue, t: Residue, a: Residue)
    requires a == ModAdd(ModMulX(s), t)
    ensures Cong(MULT_X * s + t, a)
  {
    CongAdd(ModMulX(s), s * MULT_X, t, t);
  }

  /** Rewriting a sum of products under one more multiply-and-add by MULT_Y. */
  lemma MacYCong(sum: Residue, a: Residue, sum': int, a': int)
    requires Cong(sum, sum') && Cong(a, a')
    ensures Cong(ModMacY(sum, a), sum' + MULT_Y * a')
  {
    CongMul(a, a', MULT_Y, MULT_Y);
    CongAdd(a * MULT_Y, a' * MULT_Y, sum, sum');
  }

  lemma OutputRow1(m: Matrix, st: State)
    ensures Cong(ApplyTransition(m, st).z1,
      Dot(Vec(m.d, MULT_Y * m.s, MULT_Y * m.a, MULT_Y * m.b, MULT_Y * m.c), st.Vector()))
  {
    MacYCong(ModMul(m.d, st.z1), ModMac4(0, m.s, st.z2, m.a, st.z3, m.b, st.z4, m.c, st.z5),
             m.d * st.z1, m.s * st.z2 + m.a * st.z3 + m.b * st.z4 + m.c * st.z5);
    SpreadY(m.s, st.z2, m.a, st.z3, m.b, st.z4, m.c, st.z5);
  }

  lemma OutputRow2(m: Matrix, st: State)
    ensures Cong(ApplyTransition(m, st).z2, Dot(Vec(m.c, m.w, MULT_Y * m.s, MULT_Y * m.a, MULT_Y * m.b), st.Vector()))
  {
    MacYCong(ModMac2(0, m.c, st.z1, m.w, st.z2), ModMac3(0, m.s, st.z3, m.a, st.z4, m.b, st.z5),
             m.c * st.z1 + m.w * st.z2, m.s * st.z3 + m.a * st.z4 + m.b * st.z5);
    SpreadY(m.s, st.z3, m.a, st.z4, m.b, st.z5, 0, 0);
  }

  lemma OutputRow3(m: Matrix, st: State)
    ensures Cong(ApplyTransition(m, st).z3, Dot(Vec(m.b, m.v, m.w, MULT_Y * m.s, MULT_Y * m.a), st.Vector()))
  {
    MacYCong(ModMac3(0, m.b, st.z1, m.v, st.z2, m.w, st.z3), ModMac2(0, m.s, st.z4, m.a, st.z5),
             m.b * st.z1 + m.v * st.z2 + m.w * st.z3, m.s * st.z4 + m.a * st.z5);
    SpreadY(m.s, st.z4, m.a, st.z5, 0, 0, 0, 0);
  }

  lemma OutputRow4(m: Matrix, st: State)
    ensures Cong(ApplyTransition(m, st).z4, Dot(Vec(m.a, m.u, m.v, m.w, MULT_Y * m.s), st.Vector()))
  {
    MacYCong(ModMac4(0, m.a, st.z1, m.u, st.z2, m.v, st.z3, m.w, st.z4), ModMul(m.s, st.z5),
             m.a * st.z1 + m.u * st.z2 + m.v * st.z3 + m.w * st.z4, m.s * st.z5);
    SpreadY(m.s, st.z5, 0, 0, 0, 0, 0, 0);
  }

  lemma OutputRow5(m: Matrix, st: State)
    ensures Cong(ApplyTransition(m, st).z5, Dot(m.Row(), st.Vector()))
  {
    CongAdd(ModMac3(0, m.s, st.z1, m.t, st.z2, m.u, st.z3), m.s * st.z1 + m.t * st.z2 + m.u * st.z3,
            m.v * st.z4 + m.w * st.z5, m.v * st.z4 + m.w * st.z5);
  }

  lemma SpreadY(a: int, b: int, c: int, d: int, e: int, f: int, g: int, h: int)
    ensures MULT_Y * (a * b + c * d + e * f + g * h) ==
      (MULT_Y * a) * b + (MULT_Y * c) * d + (MULT_Y * e) * f + (MULT_Y * g) * h
  {
    assert (MULT_Y * a) * b == MULT_Y * (a * b) && (MULT_Y * c) * d == MULT_Y * (c * d) &&
      (MULT_Y * e) * f == MULT_Y * (e * f) && (MULT_Y * g) * h == MULT_Y * (g * h);
  }

  /** `mrg_apply_transition` is the matrix times the state, modulo MERSENNE. */
  lemma ApplyTransitionCong(m: Matrix, st: State)
    requires m.CacheOk()
    ensures CongVec(ApplyTransition(m, st).Vector(), Apply(m.Row(), st.Vector()))
  {
    var z, o := st.Vector(), ApplyTransition(m, st);
    CacheRows(m);
    OutputRow1(m, st);
    OutputRow2(m, st);
    OutputRow3(m, st);
    OutputRow4(m, st);
    OutputRow5(m, st);
    RowTimes(Above(Above(Above(Above(m.Row())))), Vec(m.d, MULT_Y * m.s, MULT_Y * m.a, MULT_Y * m.b, MULT_Y * m.c), z,
      o.z1);
    RowTimes(Above(Above(Above(m.Row()))), Vec(m.c, m.w, MULT_Y * m.s, MULT_Y * m.a, MULT_Y * m.b), z, o.z2);
    RowTimes(Above(Above(m.Row())), Vec(m.b, m.v, m.w, MULT_Y * m.s, MULT_Y * m.a), z, o.z3);
    RowTimes(Above(m.Row()), Vec(m.a, m.u, m.v, m.w, MULT_Y * m.s), z, o.z4);
  }

  lemma RowTimes(r: Vec, k: Vec, z: Vec, o: int)
    requires CongVec(r, k) && Cong(o, Dot(k, z))
    ensures Cong(o, Dot(r, z))
  {
    DotCong(r, k, z, z);
  }

  // ---------- multiplication ----------

  lemma MacCong(sum: Residue, a: Residue, b: Residue, sum': int)
    requires Cong(sum, sum')
    ensures Cong(ModMac(sum, a, b), sum' + a * b)
  {
    CongAdd(sum, sum', a * b, a * b);
  }

  lemma MulYCong(x: Residue, x': int)
    requires Cong(x, x')
    ensures Cong(ModMulY(x), MULT_Y * x')
  {
    CongMul(x, x', MULT_Y, MULT_Y);
  }

  /** One entry of the product: the left matrix's row against a column of the right matrix. */
  lemma ProductEntry(r: Vec, q4: int, q3: int, q2: int, q1: int, q0: int, k4: int, k3: int, k2: int, k1: int, out: int)
    requires Cong(q4, k4) && Cong(q3, k3) && Cong(q2, k2) && Cong(q1, k1)
    requires Cong(out, Dot(r, Vec(k4, k3, k2, k1, q0)))
    ensures Cong(out, r.x1 * q4 + (r.x2 * q3 + (r.x3 * q2 + (r.x4 * q1 + r.x5 * q0))))
  {
    DotCong(r, r, Vec(q4, q3, q2, q1, q0), Vec(k4, k3, k2, k1, q0));
  }

  lemma EntryS(m: Matrix, n: Matrix)
    ensures Cong(Multiply(m, n).s, Dot(m.Row(), Vec(n.d, n.c, n.b, n.a, n.s)))
  {
    var x1 := ModMul(m.s, n.d);
    MacCong(x1, m.t, n.c, m.s * n.d);
    var x2 := ModMac(x1, m.t, n.c);
    MacCong(x2, m.u, n.b, m.s * n.d + m.t * n.c);
    var x3 := ModMac(x2, m.u, n.b);
    MacCong(x3, m.v, n.a, m.s * n.d + m.t * n.c + m.u * n.b);
    var x4 := ModMac(x3, m.v, n.a);
    MacCong(x4, m.w, n.s, m.s * n.d + m.t * n.c + m.u * n.b + m.v * n.a);
  }

  lemma EntryT(m: Matrix, n: Matrix)
    ensures Cong(Multiply(m, n).t, Dot(m.Row(), Vec(MULT_Y * n.s, n.w, n.v, n.u, n.t)))
  {
    var y := m.s * (MULT_Y * n.s);
    MulYCong(ModMul(m.s, n.s), m.s * n.s);
    assert y == MULT_Y * (m.s * n.s);
    var x1 := ModMulY(ModMul(m.s, n.s));
    MacCong(x1, m.t, n.w, y);
    var x2 := ModMac(x1, m.t, n.w);
    MacCong(x2, m.u, n.v, y + m.t * n.w);
    var x3 := ModMac(x2, m.u, n.v);
    MacCong(x3, m.v, n.u, y + m.t * n.w + m.u * n.v);
    var x4 := ModMac(x3, m.v, n.u);
    MacCong(x4, m.w, n.t, y + m.t * n.w + m.u * n.v + m.v * n.u);
  }

  lemma EntryU(m: Matrix, n: Matrix)
    ensures Cong(Multiply(m, n).u, Dot(m.Row(), Vec(MULT_Y * n.a, MULT_Y * n.s, n.w, n.v, n.u)))
  {
    var y := m.s * (MULT_Y * n.a) + m.t * (MULT_Y * n.s);
    var inner := ModMac(ModMul(m.s, n.a), m.t, n.s);
    MacCong(ModMul(m.s, n.a), m.t, n.s, m.s * n.a);
    MulYCong(inner, m.s * n.a + m.t * n.s);
    SpreadRight(m.s, n.a, m.t, n.s, 0, 0, 0, 0);
    var x1 := ModMulY(inner);
    MacCong(x1, m.u, n.w, y);
    var x2 := ModMac(x1, m.u, n.w);
    MacCong(x2, m.v, n.v, y + m.u * n.w);
    var x3 := ModMac(x2, m.v, n.v);
    MacCong(x3, m.w, n.u, y + m.u * n.w + m.v * n.v);
  }

  lemma EntryV(m: Matrix, n: Matrix)
    ensures Cong(Multiply(m, n).v, Dot(m.Row(), Vec(MULT_Y * n.b, MULT_Y * n.a, MULT_Y * n.s, n.w, n.v)))
  {
    var y := m.s * (MULT_Y * n.b) + m.t * (MULT_Y * n.a) + m.u * (MULT_Y * n.s);
    var i1 := ModMac(ModMul(m.s, n.b), m.t, n.a);
    var inner := ModMac(i1, m.u, n.s);
    MacCong(ModMul(m.s, n.b), m.t, n.a, m.s * n.b);
    MacCong(i1, m.u, n.s, m.s * n.b + m.t * n.a);
    MulYCong(inner, m.s * n.b + m.t * n.a + m.u * n.s);
    SpreadRight(m.s, n.b, m.t, n.a, m.u, n.s, 0, 0);
    var x1 := ModMulY(inner);
    MacCong(x1, m.v, n.w, y);
    MacCong(ModMac(x1, m.v, n.w), m.w, n.v, y + m.v * n.w);
  }

  lemma EntryW(m: Matrix, n: Matrix)
    ensures Cong(Multiply(m, n).w, Dot(m.Row(), Vec(MULT_Y * n.c, MULT_Y * n.b, MULT_Y * n.a, MULT_Y * n.s, n.w)))
  {
    var y := m.s * (MULT_Y * n.c) + m.t * (MULT_Y * n.b) + m.u * (MULT_Y * n.a) + m.v * (MULT_Y * n.s);
    var i1 := ModMac(ModMul(m.s, n.c), m.t, n.b);
    var i2 := ModMac(i1, m.u, n.a);
    var inner := ModMac(i2, m.v, n.s);
    MacCong(ModMul(m.s, n.c), m.t, n.b, m.s * n.c);
    MacCong(i1, m.u, n.a, m.s * n.c + m.t * n.b);
    MacCong(i2, m.v, n.s, m.s * n.c + m.t * n.b + m.u * n.a);
    MulYCong(inner, m.s * n.c + m.t * n.b + m.u * n.a + m.v * n.s);
    SpreadRight(m.s, n.c, m.t, n.b, m.u, n.a, m.v, n.s);
    MacCong(ModMulY(inner), m.w, n.w, y);
  }

  lemma SpreadRight(a: int, b: int, c: int, d: int, e: int, f: int, g: int, h: int)
    ensures MULT_Y * (a * b + c * d + e * f + g * h) ==
      a * (MULT_Y * b) + c * (MULT_Y * d) + e * (MULT_Y * f) + g * (MULT_Y * h)
  {
    assert a * (MULT_Y * b) == MULT_Y * (a * b) && c * (MULT_Y * d) == MULT_Y * (c * d) &&
      e * (MULT_Y * f) == MULT_Y * (e * f) && g * (MULT_Y * h) == MULT_Y * (g * h);
  }

  lemma MultiplyCong(m: Matrix, n: Matrix)
    requires n.CacheOk()
    ensures CongVec(Multiply(m, n).Row(), Product(m.Row(), n.Row()))
  {
    CacheRows(n);
    var r, q, o := m.Row(), n.Row(), Multiply(m, n);
    var q1 := Above(q);
    var q2 := Above(q1);
    var q3 := Above(q2);
    var q4 := Above(q3);
    EntryS(m, n);
    ProductEntry(r, q4.x1, q3.x1, q2.x1, q1.x1, q.x1, n.d, n.c, n.b, n.a, o.s);
    EntryT(m, n);
    ProductEntry(r, q4.x2, q3.x2, q2.x2, q1.x2, q.x2, MULT_Y * n.s, n.w, n.v, n.u, o.t);
    EntryU(m, n);
    ProductEntry(r, q4.x3, q3.x3, q2.x3, q1.x3, q.x3, MULT_Y * n.a, MULT_Y * n.s, n.w, n.v, o.u);
    EntryV(m, n);
    ProductEntry(r, q4.x4, q3.x4, q2.x4, q1.x4, q.x4, MULT_Y * n.b, MULT_Y * n.a, MULT_Y * n.s, n.w, o.v);
    EntryW(m, n);
    ProductEntry(r, q4.x5, q3.x5, q2.x5, q1.x5, q.x5, MULT_Y * n.c, MULT_Y * n.b, MULT_Y * n.a, MULT_Y * n.s, o.w);
  }

  /** `mrg_multiply` is matrix multiplication: applying the product is applying one matrix after the other. */
  lemma MultiplyApplies(m: Matrix, n: Matrix, st: State)
    requires m.CacheOk() && n.CacheOk()
    ensures Multiply(m, n).CacheOk()
    ensures ApplyTransition(Multiply(m, n), st) == ApplyTransition(m, ApplyTransition(n, st))
  {
    var mn, z, mid := Multiply(m, n), st.Vector(), ApplyTransition(n, st);
    ApplyTransitionCong(mn, st);
    MultiplyCong(m, n);
    ApplyCong(mn.Row(), Product(m.Row(), n.Row()), z, z);
    ProductApplies(m.Row(), n.Row(), z);
    ApplyTransitionCong(n, st);
    ApplyCong(m.Row(), m.Row(), mid.Vector(), Apply(n.Row(), z));
    ApplyTransitionCong(m, mid);
    ReducedUnique(ApplyTransition(mn, st).Vector(), ApplyTransition(m, mid).Vector());
  }

  // ---------- powers ----------

  /** m stands for n steps of the generator. */
  ghost predicate IsPower(m: Matrix, n: nat) {
    m.CacheOk() && forall st :: ApplyTransition(m, st) == OrigSteps(st, n)
  }

  lemma UnitRow(z: Vec)
    ensures Apply(Vec(0, 0, 0, 0, 1), z) == z
  {
  }

  lemma IdentityApplies(st: State)
    ensures ApplyTransition(Identity(), st) == st
  {
    ApplyTransitionCong(Identity(), st);
    UnitRow(st.Vector());
    ReducedUnique(ApplyTransition(Identity(), st).Vector(), st.Vector());
  }

  lemma IdentityIsPower()
    ensures IsPower(Identity(), 0)
  {
    forall st
      ensures ApplyTransition(Identity(), st) == OrigSteps(st, 0)
    {
      IdentityApplies(st);
    }
  }

  lemma OrigStepCong(st: State)
    ensures CongVec(OrigStep(st).Vector(), Step(st.Vector()))
  {
    MacYCong(ModMulX(st.z1), st.z5, st.z1 * MULT_X, st.z5);
  }

  lemma ARow(z: Vec)
    ensures Apply(Vec(0, 0, 0, 1, 0), z) == Step(z)
  {
  }

  lemma AApplies(st: State)
    ensures ApplyTransition(MakeA(), st) == OrigStep(st)
  {
    ApplyTransitionCong(MakeA(), st);
    ARow(st.Vector());
    OrigStepCong(st);
    ReducedUnique(ApplyTransition(MakeA(), st).Vector(), OrigStep(st).Vector());
  }

  lemma AIsPower()
    ensures IsPower(MakeA(), 1)
  {
    forall st
      ensures ApplyTransition(MakeA(), st) == OrigSteps(st, 1)
    {
      AApplies(st);
      assert OrigSteps(st, 0) == st;
    }
  }

  lemma {:induction false} OrigStepsAdd(st: State, i: nat, j: nat)
    ensures OrigSteps(OrigSteps(st, j), i) == OrigSteps(st, i + j)
  {
    if i > 0 {
      OrigStepsAdd(st, i - 1, j);
    }
  }

  lemma PowersMultiply(m: Matrix, i: nat, n: Matrix, j: nat)
    requires IsPower(m, i) && IsPower(n, j)
    ensures IsPower(Multiply(m, n), i + j)
  {
    forall st
      ensures ApplyTransition(Multiply(m, n), st) == OrigSteps(st, i + j)
    {
      MultiplyApplies(m, n, st);
      OrigStepsAdd(st, i, j);
    }
  }

  /** 256^i: the weight of byte i of an exponent. */
  function Weight(i: nat): (w: nat)
    ensures w > 0
  {
    if i == 0 then 1 else 256 * Weight(i - 1)
  }

  lemma WordWeights()
    ensures Weight(8) == WORD64 && Weight(16) == WORD64 * WORD64 && Weight(24) == WORD64 * WORD64 * WORD64
  {
    assert Weight(4) == 0x1_0000_0000;
  }

  /** A matrix the C functions overwrite through a pointer. */
  class MatrixCell {
    var value: Matrix

    constructor ()
      ensures value == Identity()
    {
      value := Identity();
    }

    method MakeIdentity()
      modifies this
      ensures value == Identity()
    {
      value := UpdateCache(0, 0, 0, 0, 1);
    }

    /** `mrg_multiply(m, n, result)`; the result may be either operand, or both. */
    method SetProduct(m: MatrixCell, n: MatrixCell)
      modifies this
      ensures value == Multiply(old(m.value), old(n.value))
    {
      value := Multiply(m.value, n.value);
    }

    /** The product of two powers of A. */
    method SetPowerProduct(m: MatrixCell, ghost i: nat, n: MatrixCell, ghost j: nat)
      requires IsPower(m.value, i) && IsPower(n.value, j)
      modifies this
      ensures IsPower(value, i + j)
    {
      PowersMultiply(m.value, i, n.value, j);
      SetProduct(m, n);
    }

    /** `mrg_power(m, exponent, result)`: square and multiply. */
    method SetPower(m: MatrixCell, exponent: nat, ghost steps: nat)
      requires m != this && IsPower(m.value, steps)
      modifies this
      ensures IsPower(value, steps * exponent)
    {
      var current := new MatrixCell();
      current.value := m.value;
      SetIdentity();
      var e := exponent;
      ghost var square: nat, done: nat := steps, 0;
      while e > 0
        invariant IsPower(current.value, square) && IsPower(value, done)
        invariant done + square * e == steps * exponent
        modifies this, current
      {
        HalveExponent(square, e);
        if e % 2 == 1 {
          SetPowerProduct(this, done, current, square);
          done := done + square;
        }
        current.SetPowerProduct(current, square, current, square);
        square := square + square;
        e := e / 2;
      }
    }

    method SetIdentity()
      modifies this
      ensures IsPower(value, 0)
    {
      MakeIdentity();
      IdentityIsPower();
    }
  }

  lemma HalveExponent(square: nat, e: nat)
    ensures square * e == (square + square) * (e / 2) + (if e % 2 == 1 then square else 0)
  {
    var h := e / 2;
    assert (square + square) * h == square * (2 * h);
    if e % 2 == 1 {
      assert square * (2 * h + 1) == square * (2 * h) + square;
    }
  }

  /** The skip table: entry [i][j] stands for j * 256^i steps. */
  ghost predicate TableOk(table: seq<seq<Matrix>>, bytes: nat) {
    && |table| >= bytes
    && forall i: nat :: i < bytes ==> RowOk(table[i], i, 256)
  }

  ghost predicate RowOk(row: seq<Matrix>, i: nat, entries: nat) {
    |row| >= entries && forall j: nat :: j < entries ==> EntryOk(row[j], i, j)
  }

  ghost predicate EntryOk(m: Matrix, i: nat, j: nat) {
    IsPower(m, Weight(i) * j)
  }

  lemma FirstEntries(i: nat, m: Matrix, base: Matrix)
    requires IsPower(m, 0) && IsPower(base, Weight(i))
    ensures EntryOk(m, i, 0) && EntryOk(base, i, 1)
  {
    assert Weight(i) * 0 == 0 && Weight(i) * 1 == Weight(i);
  }

  method DumpEntry(base: MatrixCell, ghost i: nat, j: nat) returns (m: Matrix)
    requires IsPower(base.value, Weight(i))
    ensures EntryOk(m, i, j)
  {
    var cell := new MatrixCell();
    cell.SetPower(base, j, Weight(i));
    m := cell.value;
  }

  /** One row of `dump_mrg_powers`: the identity, the base, and the base to the powers 2 to 255. */
  method DumpRow(base: MatrixCell, ghost i: nat) returns (row: seq<Matrix>)
    requires IsPower(base.value, Weight(i))
    ensures |row| == 256 && RowOk(row, i, 256)
  {
    var m := new MatrixCell();
    m.SetIdentity();
    FirstEntries(i, m.value, base.value);
    row := [m.value, base.value];
    var j := 2;
    while j < 256
      invariant 2 <= j <= 256 && |row| == j && RowOk(row, i, j)
    {
      var entry := DumpEntry(base, i, j);
      row := row + [entry];
      j := j + 1;
    }
  }

  /** `dump_mrg_powers`: 192 / 8 rows, each from the last one's base to the power 256. */
  method DumpPowers() returns (table: seq<seq<Matrix>>)
    ensures |table| == 24 && TableOk(table, 24)
  {
    table := [];
    var base := new MatrixCell();
    base.value := MakeA();
    AIsPower();
    var i := 0;
    while i < 24
      invariant 0 <= i <= 24 && |table| == i && TableOk(table, i)
      invariant IsPower(base.value, if i == 0 then 1 else Weight(i - 1))
      invariant fresh(base)
    {
      if i > 0 {
        var next := new MatrixCell();
        next.SetPower(base, 256, Weight(i - 1));
        base := next;
      }
      var row := DumpRow(base, i);
      table := table + [row];
      i := i + 1;
    }
  }

  /** An `mrg_state` the C functions overwrite through a pointer. */
  class Generator {
    var state: State

    constructor (seed: State)
      ensures state == seed
    {
      state := seed;
    }

    /** The loop of `mrg_skip` over the bytes of one exponent word, whose first byte has index `firstByte`. */
    method SkipWord(table: seq<seq<Matrix>>, firstByte: nat, exponent: nat)
      requires firstByte + 8 <= |table| && TableOk(table, |table|) && exponent < Weight(8)
      modifies this
      ensures state == OrigSteps(old(state), exponent * Weight(firstByte))
    {
      var byteIndex: nat, rest: nat := firstByte, exponent;
      ghost var done: nat := 0;
      while rest != 0
        invariant firstByte <= byteIndex <= firstByte + 8 && rest < Weight(8 - (byteIndex - firstByte))
        invariant done + rest * Weight(byteIndex) == exponent * Weight(firstByte)
        invariant state == OrigSteps(old(state), done)
        decreases rest
      {
        SplitByte(rest, byteIndex);
        SkipByte(table[byteIndex], byteIndex, rest % 256);
        OrigStepsAdd(old(state), Weight(byteIndex) * (rest % 256), done);
        done := done + Weight(byteIndex) * (rest % 256);
        byteIndex := byteIndex + 1;
        rest := rest / 256;
      }
    }

    method SkipByte(row: seq<Matrix>, ghost i: nat, val: nat)
      requires RowOk(row, i, 256) && val < 256
      modifies this
      ensures state == OrigSteps(old(state), Weight(i) * val)
    {
      if val != 0 {
        assert EntryOk(row[val], i, val);
        state := ApplyTransition(row[val], state);
      }
    }

    /** `mrg_skip`: exactly the steps of `mrg_orig_step` the three words of the exponent spell. */
    method Skip(table: seq<seq<Matrix>>, high: nat, middle: nat, low: nat)
      requires |table| == 24 && TableOk(table, 24)
      requires high < WORD64 && middle < WORD64 && low < WORD64
      modifies this
      ensures state == OrigSteps(old(state), low + middle * WORD64 + high * WORD64 * WORD64)
    {
      WordWeights();
      SkipWord(table, 0, low);
      SkipWord(table, 8, middle);
      OrigStepsAdd(old(state), middle * WORD64, low);
      SkipWord(table, 16, high);
      OrigStepsAdd(old(state), high * (WORD64 * WORD64), low + middle * WORD64);
    }
  }

  lemma SplitByte(rest: nat, i: nat)
    ensures rest * Weight(i) == Weight(i) * (rest % 256) + rest / 256 * Weight(i + 1)
  {
    var q, r := rest / 256, rest % 256;
    assert rest * Weight(i) == (256 * q + r) * Weight(i);
    assert (256 * q + r) * Weight(i) == q * (256 * Weight(i)) + r * Weight(i);
  }
}
