/**
 The 32-bit forms of generators/prng/mod_arith_32bit.h: reduction modulo 2^31 - 1 by folding the high bits onto the
 low ones, and the two constant multiplications without 64-bit products. They equal the forms of the 64-bit header.
 */
module ModArith32 {
  import opened ModArith

  const WORD32: int := 0x1_0000_0000

  predicate InInt32(x: int) {
    -0x8000_0000 <= x < 0x8000_0000
  }

  /** A residue is determined by its congruence class. */
  lemma ResidueUnique(r: Residue, x: int, k: int)
    requires x == r + k * MERSENNE
    ensures x % MERSENNE == r
  {
    CongByMultiple(x, r, k);
  }

  /** `temp & 0x7FFFFFFF` plus `temp >> 31`, and one conditional subtraction. */
  function Fold(temp: int): (r: Residue)
    requires 0 <= temp <= 0x3FFF_FFFE_8000_0002
    ensures temp % 0x8000_0000 + temp / 0x8000_0000 < WORD32
    ensures r == temp % MERSENNE
  {
    var lo, hi := temp % 0x8000_0000, temp / 0x8000_0000;
    FoldIsResidue(temp, lo, hi);
    if lo + hi >= MERSENNE then lo + hi - MERSENNE else lo + hi
  }

  lemma FoldIsResidue(temp: int, lo: int, hi: int)
    requires 0 <= temp <= 0x3FFF_FFFE_8000_0002 && lo == temp % 0x8000_0000 && hi == temp / 0x8000_0000
    ensures 0 <= lo + hi <= 0xFFFF_FFFC
    ensures temp % MERSENNE == if lo + hi >= MERSENNE then lo + hi - MERSENNE else lo + hi
  {
    assert temp == hi * MERSENNE + (hi + lo);
    if lo + hi >= MERSENNE {
      ResidueUnique(lo + hi - MERSENNE, temp, hi + 1);
    } else {
      ResidueUnique(lo + hi, temp, hi);
    }
  }

  function ModAdd32(a: Residue, b: Residue): (r: Residue)
    ensures a + b < WORD32 && r == ModAdd(a, b)
  {
    if a + b >= MERSENNE then a + b - MERSENNE else a + b
  }

  function ModMul32(a: Residue, b: Residue): (r: Residue)
    ensures r == ModMul(a, b)
  {
    ProductFits(a, b);
    Fold(a * b)
  }

  function ModMac32(sum: Residue, a: Residue, b: Residue): (r: Residue)
    ensures r == ModMac(sum, a, b)
  {
    ProductFits(a, b);
    Fold(a * b + sum)
  }

  lemma MacAfterMac(s: int, p: int, q: int)
    ensures (q + (p + s) % MERSENNE) % MERSENNE == (p + q + s) % MERSENNE
  {
    var k := (p + s) / MERSENNE;
    CongByMultiple(q + (p + s) % MERSENNE, p + q + s, -k);
  }

  function ModMac2of32(sum: Residue, a: Residue, b: Residue, c: Residue, d: Residue): (r: Residue)
    ensures r == ModMac2(sum, a, b, c, d)
  {
    MacAfterMac(sum, a * b, c * d);
    ModMac32(ModMac32(sum, a, b), c, d)
  }

  function ModMac3of32(sum: Residue, a: Residue, b: Residue, c: Residue, d: Residue, e: Residue,
                       f: Residue): (r: Residue)
    ensures r == ModMac3(sum, a, b, c, d, e, f)
  {
    MacAfterMac(sum, a * b, c * d + e * f);
    ModMac2of32(ModMac32(sum, a, b), c, d, e, f)
  }

  /** Two sums of two products, one after the other, are the sum of four. */
  lemma TwiceMac2(sum: Residue, first: Residue, r: Residue, p: int, q: int)
    requires first == (p + sum) % MERSENNE && r == (q + first) % MERSENNE
    ensures r == (p + q + sum) % MERSENNE
  {
    MacAfterMac(sum, p, q);
  }

  function ModMac4of32(sum: Residue, a: Residue, b: Residue, c: Residue, d: Residue,
                       e: Residue, f: Residue, g: Residue, h: Residue): (r: Residue)
    ensures r == ModMac4(sum, a, b, c, d, e, f, g, h)
  {
    var first := ModMac2of32(sum, a, b, c, d);
    var r := ModMac2of32(first, e, f, g, h);
    TwiceMac2(sum, first, r, a * b + c * d, e * f + g * h);
    r
  }

  /**
   Schrage's form for a constant m with MERSENNE == m * q + r: the product stays within 32 bits, and one conditional
   addition gives the residue.
   */
  function Schrage(m: int, q: int, r: int, a: Residue): (x: Residue)
    requires (m == MULT_X && q == 20 && r == 7) || (m == MULT_Y && q == 20554 && r == 1727)
    ensures InInt32(m * (a - a / q * q)) && InInt32(a / q * r) && InInt32(m * (a - a / q * q) - a / q * r)
    ensures x == a * m % MERSENNE
  {
    SchrageIsResidue(m, q, r, a, a / q, a % q);
    var result := m * (a - a / q * q) - a / q * r;
    if result < 0 then result + MERSENNE else result
  }

  lemma SchrageIsResidue(m: int, q: int, r: int, a: Residue, k: int, rest: int)
    requires (m == MULT_X && q == 20 && r == 7) || (m == MULT_Y && q == 20554 && r == 1727)
    requires k == a / q && rest == a % q
    ensures a - a / q * q == rest && InInt32(m * rest) && InInt32(k * r) && InInt32(m * rest - k * r)
    ensures a * m % MERSENNE == if m * rest - k * r < 0 then m * rest - k * r + MERSENNE else m * rest - k * r
  {
    assert a == k * q + rest && 0 <= rest < q;
    assert MERSENNE == m * q + r;
    var result := m * rest - k * r;
    assert a * m == result + k * MERSENNE;
    if result < 0 {
      ResidueUnique(result + MERSENNE, a * m, k - 1);
    } else {
      ResidueUnique(result, a * m, k);
    }
  }

  function ModMulX32(a: Residue): (r: Residue)
    ensures r == ModMulX(a)
  {
    Schrage(MULT_X, 20, 7, a)
  }

  function ModMulY32(a: Residue): (r: Residue)
    ensures r == ModMulY(a)
  {
    Schrage(MULT_Y, 20554, 1727, a)
  }

  function ModMacY32(sum: Residue, a: Residue): (r: Residue)
    ensures r == ModMacY(sum, a)
  {
    MacAfterMac(0, a * MULT_Y, sum);
    ModAdd32(sum, ModMulY32(a))
  }
}
