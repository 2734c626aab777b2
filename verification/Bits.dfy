/** Bitwise operations of the C sources on unsigned integers, written on `nat`. */
module Bits {

  /** `1UL << k`. */
  function Pow2(k: nat): (p: nat)
    ensures p > 0
  {
    if k == 0 then 1 else 2 * Pow2(k - 1)
  }

  /** `a & b`. */
  function And(a: nat, b: nat): (r: nat)
    ensures r <= a && r <= b
  {
    if a == 0 || b == 0 then 0
    else (if a % 2 == 1 && b % 2 == 1 then 1 else 0) + 2 * And(a / 2, b / 2)
  }

  /** `a | b`. */
  function Or(a: nat, b: nat): nat
    decreases a + b
  {
    if a == 0 then b
    else if b == 0 then a
    else (if a % 2 == 1 || b % 2 == 1 then 1 else 0) + 2 * Or(a / 2, b / 2)
  }

  /** `a >> k`. */
  function Shr(a: nat, k: nat): nat
    decreases k
  {
    if k == 0 then a else Shr(a / 2, k - 1)
  }

  /** `a << k`, for operands whose result fits the word. */
  function Shl(a: nat, k: nat): nat {
    if k == 0 then a else 2 * Shl(a, k - 1)
  }

  lemma {:induction false} Pow2Add(i: nat, j: nat)
    ensures Pow2(i + j) == Pow2(i) * Pow2(j)
  {
    if i != 0 {
      Pow2Add(i - 1, j);
      assert 2 * (Pow2(i - 1) * Pow2(j)) == (2 * Pow2(i - 1)) * Pow2(j);
    }
  }

  lemma Pow2Of16()
    ensures Pow2(16) == 0x1_0000
  {
    Pow2Add(4, 4);
    Pow2Add(8, 8);
  }

  lemma {:induction false} Pow2Monotone(i: nat, j: nat)
    requires i < j
    ensures Pow2(i) < Pow2(j)
    decreases j
  {
    if i < j - 1 {
      Pow2Monotone(i, j - 1);
    }
  }

  lemma {:induction false} ShlTimes(a: nat, k: nat)
    ensures Shl(a, k) == a * Pow2(k)
  {
    if k > 0 {
      ShlTimes(a, k - 1);
      assert 2 * (a * Pow2(k - 1)) == a * (2 * Pow2(k - 1));
    }
  }

  /** Shifting right keeps the quotient: x is (x >> k) << k plus the k low bits. */
  lemma {:induction false} ShrOfShl(x: nat, k: nat, q: nat, r: nat)
    requires x == Shl(q, k) + r && r < Pow2(k)
    ensures Shr(x, k) == q
  {
    if k > 0 {
      ShrOfShl(x / 2, k - 1, q, r / 2);
    }
  }

  /** Every x is its upper bits shifted back plus a rest below 2^k. */
  lemma {:induction false} ShrRest(x: nat, k: nat) returns (r: nat)
    ensures x == Shl(Shr(x, k), k) + r && r < Pow2(k)
  {
    if k == 0 {
      r := 0;
    } else {
      var r' := ShrRest(x / 2, k - 1);
      r := 2 * r' + x % 2;
    }
  }

  /** Shifting twice is shifting by the sum. */
  lemma {:induction false} ShrShr(x: nat, i: nat, j: nat)
    ensures Shr(Shr(x, i), j) == Shr(x, i + j)
    decreases i
  {
    if i > 0 {
      ShrShr(x / 2, i - 1, j);
    }
  }

  lemma {:induction false} ShlShl(x: nat, i: nat, j: nat)
    ensures Shl(Shl(x, i), j) == Shl(x, i + j)
  {
    if j > 0 {
      ShlShl(x, i, j - 1);
    }
  }

  lemma {:induction false} ShrMonotone(x: nat, y: nat, k: nat)
    requires x <= y
    ensures Shr(x, k) <= Shr(y, k)
    decreases k
  {
    if k > 0 {
      ShrMonotone(x / 2, y / 2, k - 1);
    }
  }

  /** `&` of two numbers given by their last digit and the rest. */
  lemma AndDigits(a: nat, b: nat, a': nat, i: nat, b': nat, j: nat)
    requires a == 2 * a' + i && b == 2 * b' + j && i < 2 && j < 2
    ensures And(a, b) == 2 * And(a', b') + if i == 1 && j == 1 then 1 else 0
  {
    assert a / 2 == a' && a % 2 == i && b / 2 == b' && b % 2 == j;
  }

  /** Masking with 2^k - 1 keeps the k low bits. */
  lemma {:induction false} AndMask(x: nat, k: nat, q: nat, r: nat)
    requires x == Shl(q, k) + r && r < Pow2(k)
    ensures And(x, Pow2(k) - 1) == r
  {
    if k > 0 {
      AndMask(x / 2, k - 1, q, r / 2);
      AndDigits(x, Pow2(k) - 1, x / 2, x % 2, Pow2(k - 1) - 1, 1);
    }
  }

  /** Or of something shifted left by k with something below 2^k is their sum. */
  lemma {:induction false} OrDisjoint(hi: nat, k: nat, lo: nat)
    requires lo < Pow2(k)
    ensures Or(Shl(hi, k), lo) == Shl(hi, k) + lo
    decreases k
  {
    if k > 0 && lo > 0 {
      OrDisjoint(hi, k - 1, lo / 2);
    }
  }

  /** And works separately on the low k bits and on the bits above them. */
  lemma {:induction false} AndSplit(a: nat, b: nat, k: nat, qa: nat, ra: nat, qb: nat, rb: nat)
    requires a == Shl(qa, k) + ra && ra < Pow2(k)
    requires b == Shl(qb, k) + rb && rb < Pow2(k)
    ensures And(a, b) == Shl(And(qa, qb), k) + And(ra, rb)
  {
    if k > 0 {
      AndSplit(a / 2, b / 2, k - 1, qa, ra / 2, qb, rb / 2);
      AndDigits(a, b, a / 2, a % 2, b / 2, b % 2);
      AndDigits(ra, rb, ra / 2, ra % 2, rb / 2, rb % 2);
    }
  }

  /** A smaller quotient makes a smaller number, whatever the remainder. */
  lemma SmallerQuotient(q: nat, r: nat, q': nat, d: nat)
    requires q < q' && r < d
    ensures q * d + r < q' * d
  {
    assert q' * d == q * d + d + (q' - q - 1) * d;
  }

  lemma DivisionUnique(q: nat, r: nat, q': nat, r': nat, d: nat)
    requires r < d && r' < d && q * d + r == q' * d + r'
    ensures q == q' && r == r'
  {
    if q < q' {
      SmallerQuotient(q, r, q', d);
    } else if q' < q {
      SmallerQuotient(q', r', q, d);
    }
  }

  /** The quotient and the remainder are the only ones. */
  lemma DivisionIs(x: nat, d: nat, q: nat, r: nat)
    requires r < d && x == q * d + r
    ensures x / d == q && x % d == r
  {
    var q', r' := x / d, x % d;
    assert x == q' * d + r';
    DivisionUnique(q, r, q', r', d);
  }

  /** Masking with 2^k - 1 is the remainder modulo 2^k. */
  lemma MaskIsRemainder(x: nat, k: nat)
    ensures And(x, Pow2(k) - 1) == x % Pow2(k)
  {
    var r := ShrRest(x, k);
    AndMask(x, k, Shr(x, k), r);
    ShlTimes(Shr(x, k), k);
    DivisionIs(x, Pow2(k), Shr(x, k), r);
  }

  /** Bit j of an `&` is set when it is set in both operands. */
  lemma {:induction false} AndBit(a: nat, b: nat, j: nat)
    ensures Shr(And(a, b), j) % 2 == 1 <==> Shr(a, j) % 2 == 1 && Shr(b, j) % 2 == 1
  {
    if a == 0 || b == 0 {
      ShrZero(j);
    } else {
      AndDigits(a, b, a / 2, a % 2, b / 2, b % 2);
      if j > 0 {
        AndBit(a / 2, b / 2, j - 1);
        assert And(a, b) / 2 == And(a / 2, b / 2);
      }
    }
  }

  /** Bit j of an `|` is set when it is set in one of the operands. */
  lemma {:induction false} OrBit(a: nat, b: nat, j: nat)
    ensures Shr(Or(a, b), j) % 2 == 1 <==> Shr(a, j) % 2 == 1 || Shr(b, j) % 2 == 1
    decreases j
  {
    if a == 0 || b == 0 {
      ShrZero(j);
    } else if j > 0 {
      OrBit(a / 2, b / 2, j - 1);
      assert Or(a, b) / 2 == Or(a / 2, b / 2);
    }
  }

  lemma {:induction false} ShrZero(j: nat)
    ensures Shr(0, j) == 0
  {
    if j > 0 {
      ShrZero(j - 1);
    }
  }

  /** `>>` is the division by a power of two. */
  lemma ShrIsQuotient(x: nat, k: nat)
    ensures Shr(x, k) == x / Pow2(k)
  {
    var r := ShrRest(x, k);
    ShlTimes(Shr(x, k), k);
    DivisionIs(x, Pow2(k), Shr(x, k), r);
  }
}
