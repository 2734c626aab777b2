/** The modular arithmetic of generators/prng/mod_arith_64bit.h, for the modulus 2^31 - 1. */
module ModArith {

  const MERSENNE: int := 0x7FFF_FFFF
  const WORD64: int := 0x1_0000_0000_0000_0000

  /** The operands the assertions of the header admit. */
  type Residue = r: int | 0 <= r < 0x7FFF_FFFF

  lemma ProductFits(a: Residue, b: Residue)
    ensures 0 <= a * b <= 0x7FFF_FFFE * 0x7FFF_FFFE
  {
    MulBounds(a, b, 0x7FFF_FFFE);
  }

  lemma MulBounds(a: int, b: int, bound: int)
    requires 0 <= a <= bound && 0 <= b <= bound
    ensures 0 <= a * b <= bound * bound
  {
    assert (bound - a) * b + a * b == bound * b;
    assert (bound - b) * bound + b * bound == bound * bound;
    assert 0 <= a * b && 0 <= (bound - a) * b && 0 <= (bound - b) * bound;
  }

  function ModAdd(a: Residue, b: Residue): (r: Residue)
    ensures Cong(r, a + b)
  {
    (a + b) % MERSENNE
  }

  function ModMul(a: Residue, b: Residue): (r: Residue)
    ensures Cong(r, a * b)
  {
    a * b % MERSENNE
  }

  /** The sums of products below never leave a 64-bit word. */
  function ModMac(sum: Residue, a: Residue, b: Residue): (r: Residue)
    ensures 0 <= a * b + sum < WORD64 && Cong(r, a * b + sum)
  {
    ProductFits(a, b);
    (a * b + sum) % MERSENNE
  }

  function ModMac2(sum: Residue, a: Residue, b: Residue, c: Residue, d: Residue): (r: Residue)
    ensures 0 <= a * b + c * d + sum < WORD64 && Cong(r, a * b + c * d + sum)
  {
    ProductFits(a, b);
    ProductFits(c, d);
    (a * b + c * d + sum) % MERSENNE
  }

  function ModMac3(sum: Residue, a: Residue, b: Residue, c: Residue, d: Residue, e: Residue, f: Residue): (r: Residue)
    ensures 0 <= a * b + c * d + e * f + sum < WORD64 && Cong(r, a * b + c * d + e * f + sum)
  {
    ProductFits(a, b);
    ProductFits(c, d);
    ProductFits(e, f);
    (a * b + c * d + e * f + sum) % MERSENNE
  }

  function ModMac4(sum: Residue, a: Residue, b: Residue, c: Residue, d: Residue,
                   e: Residue, f: Residue, g: Residue, h: Residue): (r: Residue)
    ensures 0 <= a * b + c * d + e * f + g * h + sum < WORD64 && Cong(r, a * b + c * d + e * f + g * h + sum)
  {
    ProductFits(a, b);
    ProductFits(c, d);
    ProductFits(e, f);
    ProductFits(g, h);
    (a * b + c * d + e * f + g * h + sum) % MERSENNE
  }

  const MULT_X: Residue := 107374182
  const MULT_Y: Residue := 104480

  function ModMulX(a: Residue): Residue {
    ModMul(a, MULT_X)
  }

  function ModMulY(a: Residue): Residue {
    ModMul(a, MULT_Y)
  }

  function ModMacY(sum: Residue, a: Residue): Residue {
    ModMac(sum, a, MULT_Y)
  }

  // ---------- congruence ----------

  predicate Cong(a: int, b: int) {
    a % MERSENNE == b % MERSENNE
  }

  lemma CongByMultiple(a: int, b: int, k: int)
    requires a == b + k * MERSENNE
    ensures Cong(a, b)
  {
  }

  lemma CongMultiple(a: int, b: int) returns (k: int)
    requires Cong(a, b)
    ensures a == b + k * MERSENNE
  {
    k := a / MERSENNE - b / MERSENNE;
  }

  lemma CongAdd(a: int, a': int, b: int, b': int)
    requires Cong(a, a') && Cong(b, b')
    ensures Cong(a + b, a' + b')
  {
    var i := CongMultiple(a, a');
    var j := CongMultiple(b, b');
    CongByMultiple(a + b, a' + b', i + j);
  }

  lemma CongMul(a: int, a': int, b: int, b': int)
    requires Cong(a, a') && Cong(b, b')
    ensures Cong(a * b, a' * b')
  {
    var i := CongMultiple(a, a');
    var j := CongMultiple(b, b');
    MulShift(a', b', i, j, MERSENNE);
    CongByMultiple(a * b, a' * b', i * b' + a' * j + i * j * MERSENNE);
  }

  lemma MulShift(a: int, b: int, i: int, j: int, p: int)
    ensures (a + i * p) * (b + j * p) == a * b + (i * b + a * j + i * j * p) * p
  {
    assert (a + i * p) * (b + j * p) == a * b + a * (j * p) + (i * p) * b + (i * p) * (j * p);
    assert a * (j * p) == (a * j) * p && (i * p) * b == (i * b) * p && (i * p) * (j * p) == (i * j * p) * p;
    assert (i * b + a * j + i * j * p) * p == (i * b) * p + (a * j) * p + (i * j * p) * p;
  }
}
