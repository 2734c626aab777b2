/** The four Bloom positions of a vertex id, as core/sg_driver.hpp derives them from two CRC steps. */
module BloomHash {
  import opened Bits
  import opened BitshufflePasses

  /** `_mm_crc32_u64(seed, word)`. */
  type Crc = (nat, nat) -> nat

  datatype Positions = Positions(a: nat, b: nat, c: nat, d: nat) {
    predicate Below(bits: nat) {
      a < bits && b < bits && c < bits && d < bits
    }

    predicate Has(h: nat) {
      h == a || h == b || h == c || h == d
    }
  }

  /** `two_bf_mask`: the mask for one position, in both halves of a word. */
  function TwoMask(bits: nat): nat
    requires bits > 0
  {
    Shl(bits - 1, 16) + (bits - 1)
  }

  function HashPositions(crc: Crc, word: nat, bits: nat): Positions
    requires bits > 0
  {
    var tmp := crc(0, word);
    var hash1, hash2 := And(tmp, TwoMask(bits)), And(crc(tmp, word), TwoMask(bits));
    Positions(And(hash1, 0xFFFF), Shr(hash1, 16), And(hash2, 0xFFFF), Shr(hash2, 16))
  }

  /** The two halves of a masked word are the masked halves. */
  lemma HalvesOfMasked(word: nat, bits: nat, hi: nat, lo: nat)
    requires 0 < bits && bits - 1 < Pow2(16) && word == Shl(hi, 16) + lo && lo < Pow2(16)
    ensures And(And(word, TwoMask(bits)), 0xFFFF) == And(lo, bits - 1)
    ensures Shr(And(word, TwoMask(bits)), 16) == And(hi, bits - 1)
  {
    AndSplit(word, TwoMask(bits), 16, hi, lo, bits - 1, bits - 1);
    Pow2Of16();
    AndMask(And(word, TwoMask(bits)), 16, And(hi, bits - 1), And(lo, bits - 1));
    ShrOfShl(And(word, TwoMask(bits)), 16, And(hi, bits - 1), And(lo, bits - 1));
  }

  lemma HalvesBelow(word: nat, bits: nat)
    requires 0 < bits <= 0x1_0000
    ensures And(And(word, TwoMask(bits)), 0xFFFF) < bits
    ensures Shr(And(word, TwoMask(bits)), 16) < bits
  {
    var lo := ShrRest(word, 16);
    Pow2Of16();
    HalvesOfMasked(word, bits, Shr(word, 16), lo);
  }

  /** Every position lies within the filter, whatever the CRC is. */
  lemma PositionsBelow(crc: Crc, word: nat, bits: nat)
    requires 0 < bits <= 0x1_0000
    ensures HashPositions(crc, word, bits).Below(bits)
  {
    HalvesBelow(crc(0, word), bits);
    HalvesBelow(crc(crc(0, word), word), bits);
  }

  /** With a power of two, the masked halves of a word are their residues. */
  lemma HalvesAreResidues(word: nat, k: nat, hi: nat, lo: nat)
    requires k <= 16 && word == Shl(hi, 16) + lo && lo < Pow2(16)
    ensures And(And(word, TwoMask(Pow2(k))), 0xFFFF) == Residue(lo, Pow2(k))
    ensures Shr(And(word, TwoMask(Pow2(k))), 16) == Residue(hi, Pow2(k))
  {
    if k < 16 {
      Pow2Monotone(k, 16);
    }
    HalvesOfMasked(word, Pow2(k), hi, lo);
    MaskIsResidue(lo, k);
    MaskIsResidue(hi, k);
  }

  /** The positions are the halves of both CRCs modulo the filter size. */
  lemma PositionsAreResidues(crc: Crc, word: nat, k: nat, hi1: nat, lo1: nat, hi2: nat, lo2: nat)
    requires k <= 16 && lo1 < Pow2(16) && lo2 < Pow2(16)
    requires crc(0, word) == Shl(hi1, 16) + lo1 && crc(crc(0, word), word) == Shl(hi2, 16) + lo2
    ensures HashPositions(crc, word, Pow2(k)) ==
      Positions(Residue(lo1, Pow2(k)), Residue(hi1, Pow2(k)), Residue(lo2, Pow2(k)), Residue(hi2, Pow2(k)))
  {
    HalvesAreResidues(crc(0, word), k, hi1, lo1);
    HalvesAreResidues(crc(crc(0, word), word), k, hi2, lo2);
  }

  function Residue(x: nat, m: nat): nat
    requires m > 0
  {
    x % m
  }

  lemma MaskIsResidue(x: nat, k: nat)
    ensures And(x, Pow2(k) - 1) == Residue(x, Pow2(k))
  {
    MaskIsRemainder(x, k);
  }

  /** `int src = F::split_key(...)`, then widened to 64 bits by the builder: ids of 2^31 and more are sign-extended. */
  function BuilderWord(key: nat): nat
    requires key < 0x1_0000_0000
  {
    if key < 0x8000_0000 then key else key + 0xFFFF_FFFF_0000_0000
  }

  /** `unsigned int tmp_v`, widened by the query. */
  function QueryWord(key: nat): nat
    requires key < 0x1_0000_0000
  {
    key
  }
}

/** Bloom filters for the pages of an edge file, built bit by bit and stored bit-sliced (core/sg_driver.hpp 335-460). */
module BloomFilters {
  import opened Bitshuffle
  import opened BitshufflePasses
  import opened BitshuffleBlocks
  import opened BloomHash

  const SIMD_LEN: nat := 256

  type Hash = nat -> Positions

  ghost predicate Ranged(hash: Hash, bits: nat) {
    forall w: nat :: hash(w).Below(bits)
  }

  // ---------- the filters of one group of 256 pages ----------

  /** Bit h of the filter of page m, filters being es bytes long. */
  predicate FilterBit(filters: seq<bv8>, es: nat, m: nat, h: nat) {
    At(m, es, h / 8) < |filters| && Bit(filters[At(m, es, h / 8)], h % 8)
  }

  /** Setting bit j sets bit j and no other. */
  predicate SetsOnly(b: bv8, j: nat)
    requires j < 8
  {
    && Bit(b | Mask(j), 0) == (Bit(b, 0) || j == 0) && Bit(b | Mask(j), 1) == (Bit(b, 1) || j == 1)
    && Bit(b | Mask(j), 2) == (Bit(b, 2) || j == 2) && Bit(b | Mask(j), 3) == (Bit(b, 3) || j == 3)
    && Bit(b | Mask(j), 4) == (Bit(b, 4) || j == 4) && Bit(b | Mask(j), 5) == (Bit(b, 5) || j == 5)
    && Bit(b | Mask(j), 6) == (Bit(b, 6) || j == 6) && Bit(b | Mask(j), 7) == (Bit(b, 7) || j == 7)
  }

  lemma OrMask0(b: bv8, j: nat)
    requires j == 0
    ensures SetsOnly(b, j)
  {
  }

  lemma OrMask1(b: bv8, j: nat)
    requires j == 1
    ensures SetsOnly(b, j)
  {
  }

  lemma OrMask2(b: bv8, j: nat)
    requires j == 2
    ensures SetsOnly(b, j)
  {
  }

  lemma OrMask3(b: bv8, j: nat)
    requires j == 3
    ensures SetsOnly(b, j)
  {
  }

  lemma OrMask4(b: bv8, j: nat)
    requires j == 4
    ensures SetsOnly(b, j)
  {
  }

  lemma OrMask5(b: bv8, j: nat)
    requires j == 5
    ensures SetsOnly(b, j)
  {
  }

  lemma OrMask6(b: bv8, j: nat)
    requires j == 6
    ensures SetsOnly(b, j)
  {
  }

  lemma OrMask7(b: bv8, j: nat)
    requires j == 7
    ensures SetsOnly(b, j)
  {
  }

  lemma OrMask(b: bv8, j: nat)
    requires j < 8
    ensures forall i: nat :: i < 8 ==> Bit(b | Mask(j), i) == (Bit(b, i) || i == j)
  {
    if j == 0 { OrMask0(b, j); }
    else if j == 1 { OrMask1(b, j); }
    else if j == 2 { OrMask2(b, j); }
    else if j == 3 { OrMask3(b, j); }
    else if j == 4 { OrMask4(b, j); }
    else if j == 5 { OrMask5(b, j); }
    else if j == 6 { OrMask6(b, j); }
    else { OrMask7(b, j); }
    OnlyThat(b, j);
  }

  lemma OnlyThat(b: bv8, j: nat)
    requires j < 8 && SetsOnly(b, j)
    ensures forall i: nat :: i < 8 ==> Bit(b | Mask(j), i) == (Bit(b, i) || i == j)
  {
    forall i: nat | i < 8
      ensures Bit(b | Mask(j), i) == (Bit(b, i) || i == j)
    {
      assert i == 0 || i == 1 || i == 2 || i == 3 || i == 4 || i == 5 || i == 6 || i == 7;
    }
  }

  /** `b | 1 << j`. */
  function WithBit(b: bv8, j: nat): (r: bv8)
    requires j < 8
    ensures forall i: nat :: i < 8 ==> Bit(r, i) == (Bit(b, i) || i == j)
  {
    OrMask(b, j);
    b | Mask(j)
  }

  /** `sub_bloom_filter[h >> 6] |= 1ull << (h & 0x3F)`, on the bytes of the little-endian quadword. */
  method SetFilterBit(filters: array<bv8>, es: nat, m: nat, h: nat)
    requires filters.Length == SIMD_LEN * es && m < SIMD_LEN && h < 8 * es
    modifies filters
    ensures forall m': nat, h': nat :: m' < SIMD_LEN && h' < 8 * es ==>
      FilterBit(filters[..], es, m', h') == (FilterBit(old(filters[..]), es, m', h') || (m' == m && h' == h))
  {
    AtBound(m, SIMD_LEN, es, h / 8);
    var k := m * es + h / 8;
    filters[k] := WithBit(filters[k], h % 8);
    forall m': nat, h': nat | m' < SIMD_LEN && h' < 8 * es
      ensures FilterBit(filters[..], es, m', h') == (FilterBit(old(filters[..]), es, m', h') || (m' == m && h' == h))
    {
      OtherFilterBit(old(filters[..]), filters[..], filters[k], es, m, h, m', h');
    }
  }

  /** Byte r is byte b with bit j set. */
  predicate HasBitSet(b: bv8, r: bv8, j: nat) {
    forall i: nat :: i < 8 ==> Bit(r, i) == (Bit(b, i) || i == j)
  }

  lemma OtherFilterBit(filters: seq<bv8>, filters': seq<bv8>, r: bv8, es: nat, m: nat, h: nat, m': nat, h': nat)
    requires |filters| == SIMD_LEN * es && m < SIMD_LEN && h < 8 * es && m' < SIMD_LEN && h' < 8 * es
    requires At(m, es, h / 8) < |filters| && HasBitSet(filters[At(m, es, h / 8)], r, h % 8)
    requires filters' == filters[At(m, es, h / 8) := r]
    ensures FilterBit(filters', es, m', h') == (FilterBit(filters, es, m', h') || (m' == m && h' == h))
  {
    AtBound(m', SIMD_LEN, es, h' / 8);
    if At(m', es, h' / 8) == At(m, es, h / 8) {
      AtInjective(m', h' / 8, m, h / 8, es);
    }
  }

  /** Edge i lies in page m. */
  predicate InPage(i: nat, bpp: nat, m: nat) {
    At(m, bpp, 0) <= i < At(m, bpp, bpp)
  }

  /** Some of the first `upTo` edges lies in page m and hashes to position h. */
  ghost predicate Marked(hash: Hash, words: seq<nat>, upTo: nat, bpp: nat, m: nat, h: nat) {
    exists i: nat :: i < upTo && i < |words| && InPage(i, bpp, m) && hash(words[i]).Has(h)
  }

  ghost predicate FiltersFor(hash: Hash, words: seq<nat>, upTo: nat, bpp: nat, es: nat, filters: seq<bv8>) {
    forall m: nat, h: nat :: m < SIMD_LEN && h < 8 * es ==>
      FilterBit(filters, es, m, h) == Marked(hash, words, upTo, bpp, m, h)
  }

  /** The four read-modify-writes for one edge. */
  method AddEdge(filters: array<bv8>, ghost hash: Hash, ghost words: seq<nat>, ghost k: nat, bpp: nat, es: nat, m: nat,
                 p: Positions)
    requires filters.Length == SIMD_LEN * es && m < SIMD_LEN && k < |words| && InPage(k, bpp, m)
    requires p == hash(words[k]) && p.Below(8 * es)
    requires FiltersFor(hash, words, k, bpp, es, filters[..])
    modifies filters
    ensures FiltersFor(hash, words, k + 1, bpp, es, filters[..])
  {
    SetFilterBit(filters, es, m, p.a);
    SetFilterBit(filters, es, m, p.b);
    SetFilterBit(filters, es, m, p.c);
    SetFilterBit(filters, es, m, p.d);
    forall m': nat, h: nat | m' < SIMD_LEN && h < 8 * es
      ensures Marked(hash, words, k + 1, bpp, m', h) == (Marked(hash, words, k, bpp, m', h) || (m' == m && p.Has(h)))
    {
      OneMoreMarked(hash, words, k, bpp, m, m', h);
    }
  }

  lemma OneMoreMarked(hash: Hash, words: seq<nat>, k: nat, bpp: nat, m: nat, m': nat, h: nat)
    requires k < |words| && InPage(k, bpp, m)
    ensures Marked(hash, words, k + 1, bpp, m', h) ==
      (Marked(hash, words, k, bpp, m', h) || (m' == m && hash(words[k]).Has(h)))
  {
    if InPage(k, bpp, m') {
      AtInjective(m, k - At(m, bpp, 0), m', k - At(m', bpp, 0), bpp);
    }
  }

  /** The loop nest of `bloom_filter_calculation` over the pages of a group and the edges of a page. */
  method FillFilters(hash: Hash, words: seq<nat>, bpp: nat, es: nat) returns (filters: array<bv8>)
    requires bpp > 0 && |words| <= SIMD_LEN * bpp && Ranged(hash, 8 * es)
    ensures fresh(filters) && filters.Length == SIMD_LEN * es
    ensures FiltersFor(hash, words, |words|, bpp, es, filters[..])
  {
    filters := new bv8[SIMD_LEN * es];
    var i := 0;
    while i < filters.Length
      invariant 0 <= i <= filters.Length
      invariant forall k :: 0 <= k < i ==> filters[k] == 0
    {
      filters[i] := 0;
      i := i + 1;
    }
    NothingMarked(hash, words, bpp, es, filters[..]);
    var j, m := 0, 0;
    while j < |words|
      invariant j == At(m, bpp, 0) && (if j < |words| then j else |words|) <= |words|
      invariant FiltersFor(hash, words, if j < |words| then j else |words|, bpp, es, filters[..])
      decreases |words| + bpp - j
    {
      PageInGroup(m, bpp, |words|);
      FillPage(filters, hash, words, bpp, es, j, m);
      j := j + bpp;
      m := m + 1;
    }
  }

  lemma PageInGroup(m: nat, bpp: nat, edges: nat)
    requires At(m, bpp, 0) < edges <= SIMD_LEN * bpp
    ensures m < SIMD_LEN && At(m + 1, bpp, 0) == At(m, bpp, bpp)
  {
    if m >= SIMD_LEN {
      MulMonotone(SIMD_LEN, m, bpp);
    }
  }

  lemma NothingMarked(hash: Hash, words: seq<nat>, bpp: nat, es: nat, filters: seq<bv8>)
    requires forall k :: 0 <= k < |filters| ==> filters[k] == 0
    ensures FiltersFor(hash, words, 0, bpp, es, filters)
  {
  }

  method FillPage(filters: array<bv8>, hash: Hash, words: seq<nat>, bpp: nat, es: nat, j: nat, m: nat)
    requires filters.Length == SIMD_LEN * es && m < SIMD_LEN && Ranged(hash, 8 * es)
    requires j == At(m, bpp, 0) && j < |words|
    requires FiltersFor(hash, words, j, bpp, es, filters[..])
    modifies filters
    ensures FiltersFor(hash, words, if j + bpp < |words| then j + bpp else |words|, bpp, es, filters[..])
  {
    var end := if |words| < j + bpp then |words| else j + bpp;
    var k := j;
    while k < end
      invariant j <= k <= end
      invariant FiltersFor(hash, words, k, bpp, es, filters[..])
    {
      AddEdge(filters, hash, words, k, bpp, es, m, hash(words[k]));
      k := k + 1;
    }
  }

  // ---------- the same bits, sliced into rows ----------

  /** Bit p of row h: rows are 32 bytes, one bit for each of 256 pages. */
  predicate RowBit(rows: seq<bv8>, h: nat, p: nat) {
    At(h, 32, p / 8) < |rows| && Bit(rows[At(h, 32, p / 8)], p % 8)
  }

  /** The stored form of a group: row h tells for every page whether one of its edges hashes to h. */
  ghost predicate GroupRows(hash: Hash, words: seq<nat>, bpp: nat, es: nat, rows: seq<bv8>) {
    && |rows| == SIMD_LEN * es
    && forall h: nat, p: nat :: h < 8 * es && p < SIMD_LEN ==>
      RowBit(rows, h, p) == Marked(hash, words, |words|, bpp, p, h)
  }

  lemma RowIsFilterBit(filters: seq<bv8>, rows: seq<bv8>, es: nat, h: nat, p: nat)
    requires Transpose(filters, rows, 32, es) && h < 8 * es && p < SIMD_LEN
    ensures RowBit(rows, h, p) == FilterBit(filters, es, p, h)
  {
    assert BitCarried(filters, rows, 32, es, p / 8, p % 8, h / 8, h % 8);
  }

  /** A block longer than the group: everything falls into the shorter last block. */
  lemma OneShortBlock(src: seq<bv8>, dst: seq<bv8>, es: nat, block: nat)
    requires block > SIMD_LEN && Blocked(Shuffle, src, dst, SIMD_LEN, es, block)
    ensures Transpose(src, dst, 32, es)
  {
    assert SIMD_LEN / block == 0 && SIMD_LEN % block == SIMD_LEN;
    assert LastBlock(SIMD_LEN, block) == SIMD_LEN;
    assert At(0, block * es, 0) == 0;
    assert src[0..SIMD_LEN * es] == src && dst[0..SIMD_LEN * es] == dst;
  }

  /** `bloom_filter_calculation`, up to the write. */
  method GroupFilters(form: Form, hash: Hash, words: seq<nat>, bpp: nat, es: nat) returns (rows: seq<bv8>)
    requires bpp > 0 && |words| <= SIMD_LEN * bpp && es >= 4 && Ranged(hash, 8 * es)
    ensures GroupRows(hash, words, bpp, es, rows)
  {
    var bloomIn := FillFilters(hash, words, bpp, es);
    var bloomOut := new bv8[SIMD_LEN * es];
    var count := BlockedWrap(Shuffle, form, bloomIn[..], bloomOut, SIMD_LEN, es, SIMD_LEN * es);
    OneShortBlock(bloomIn[..], bloomOut[..], es, SIMD_LEN * es);
    rows := bloomOut[..];
    forall h: nat, p: nat | h < 8 * es && p < SIMD_LEN
      ensures RowBit(rows, h, p) == Marked(hash, words, |words|, bpp, p, h)
    {
      RowIsFilterBit(bloomIn[..], rows, es, h, p);
    }
  }

  /** The stored form is determined by the edges. */
  lemma GroupRowsUnique(hash: Hash, words: seq<nat>, bpp: nat, es: nat, rows: seq<bv8>, rows': seq<bv8>)
    requires GroupRows(hash, words, bpp, es, rows) && GroupRows(hash, words, bpp, es, rows')
    ensures rows == rows'
  {
    forall k | 0 <= k < |rows|
      ensures rows[k] == rows'[k]
    {
      var h, c := AtSurjective(k, 8 * es, 32);
      SameRowBits(hash, words, bpp, es, rows, rows', h, c);
    }
  }

  lemma SameRowBits(hash: Hash, words: seq<nat>, bpp: nat, es: nat, rows: seq<bv8>, rows': seq<bv8>, h: nat, c: nat)
    requires GroupRows(hash, words, bpp, es, rows) && GroupRows(hash, words, bpp, es, rows')
    requires h < 8 * es && c < 32 && At(h, 32, c) < |rows|
    ensures rows[At(h, 32, c)] == rows'[At(h, 32, c)]
  {
    forall i: nat | i < 8
      ensures Bit(rows[At(h, 32, c)], i) == Bit(rows'[At(h, 32, c)], i)
    {
      var p := 8 * c + i;
      assert RowBit(rows, h, p) == RowBit(rows', h, p);
    }
    BitsDetermineByte(rows[At(h, 32, c)], rows'[At(h, 32, c)]);
  }
}
