/** The passes of the scalar bitshuffle over byte arrays, and what they move where. */
module BitshufflePasses {
  import opened Bitshuffle

  // ---------- row-major indices ----------

  /** Column `col` of row `row` in rows of the given width. */
  function At(row: nat, width: nat, col: nat): nat {
    row * width + col
  }

  lemma AtBound(row: nat, rows: nat, width: nat, col: nat)
    requires row < rows && col < width
    ensures At(row, width, col) < rows * width
  {
    assert (row + 1) * width == row * width + width;
    MulMonotone(row + 1, rows, width);
  }

  lemma MulMonotone(a: nat, b: nat, c: nat)
    requires a <= b
    ensures a * c <= b * c
  {
    assert b * c == a * c + (b - a) * c;
  }

  lemma AtInjective(r: nat, c: nat, r': nat, c': nat, width: nat)
    requires c < width && c' < width && At(r, width, c) == At(r', width, c')
    ensures r == r' && c == c'
  {
    if r < r' {
      AtBound(r, r', width, c);
    } else if r' < r {
      AtBound(r', r, width, c');
    }
  }

  /** Every index below rows * width is some column of some row. */
  lemma AtSurjective(k: nat, rows: nat, width: nat) returns (r: nat, c: nat)
    requires k < rows * width
    ensures r < rows && c < width && k == At(r, width, c)
  {
    r, c := k / width, k % width;
    if r >= rows {
      MulMonotone(rows, r, width);
    }
  }

  /** Rows of rows are rows. */
  lemma AtAssoc(a: nat, m: nat, b: nat, n: nat, c: nat)
    ensures At(At(a, m, b), n, c) == At(a, m * n, At(b, n, c))
  {
    assert (a * m + b) * n == a * (m * n) + b * n;
  }

  // ---------- pass 1: bytes of elements ----------

  /** Byte j of element i has become element i of byte row j. */
  predicate Moved(inp: seq<bv8>, out: seq<bv8>, size: nat, es: nat, i: nat, j: nat) {
    At(i, es, j) < |inp| && At(j, size, i) < |out| && out[At(j, size, i)] == inp[At(i, es, j)]
  }

  ghost predicate ByteTransposed(inp: seq<bv8>, out: seq<bv8>, size: nat, es: nat) {
    forall i: nat, j: nat :: i < size && j < es ==> Moved(inp, out, size, es, i, j)
  }

  /** Storing one byte of the transpose keeps the others. */
  lemma StoreKeeps(inp: seq<bv8>, out: seq<bv8>, out': seq<bv8>, size: nat, es: nat, i: nat, j: nat, i': nat, j': nat)
    requires i < size && j < es && i' < size && j' < es
    requires At(j, size, i) < |out| && At(i, es, j) < |inp|
    requires out' == out[At(j, size, i) := inp[At(i, es, j)]]
    ensures Moved(inp, out', size, es, i, j)
    ensures Moved(inp, out, size, es, i', j') ==> Moved(inp, out', size, es, i', j')
  {
    if At(j, size, i) == At(j', size, i') {
      AtInjective(j, i, j', i', size);
    }
  }

  /** `bshuf_trans_byte_elem_scal`, for any number of elements. */
  method TransByteElem(inp: seq<bv8>, out: array<bv8>, size: nat, es: nat)
    requires |inp| == size * es == out.Length
    modifies out
    ensures ByteTransposed(inp, out[..], size, es)
  {
    TransByteElemRemainder(inp, out, size, es, 0);
  }

  /** `bshuf_trans_byte_elem_remainder`: the elements from `start` on, those before being done. */
  method TransByteElemRemainder(inp: seq<bv8>, out: array<bv8>, size: nat, es: nat, start: nat)
    requires |inp| == size * es == out.Length && start <= size && start % 8 == 0
    requires forall i: nat, j: nat :: i < start && j < es ==> Moved(inp, out[..], size, es, i, j)
    modifies out
    ensures ByteTransposed(inp, out[..], size, es)
  {
    if size > start {
      var ii := start;
      while ii + 7 < size
        invariant start <= ii <= size && ii % 8 == 0
        invariant forall i: nat, j: nat :: i < ii && j < es ==> Moved(inp, out[..], size, es, i, j)
      {
        EightElements(inp, out, size, es, ii);
        ii := ii + 8;
      }
      ii := size - size % 8;
      while ii < size
        invariant 0 <= ii <= size
        invariant forall i: nat, j: nat :: i < ii && j < es ==> Moved(inp, out[..], size, es, i, j)
      {
        OneElement(inp, out, size, es, ii);
        ii := ii + 1;
      }
    }
  }

  method EightElements(inp: seq<bv8>, out: array<bv8>, size: nat, es: nat, ii: nat)
    requires |inp| == size * es == out.Length && ii + 8 <= size
    modifies out
    ensures forall i: nat, j: nat :: ii <= i < ii + 8 && j < es ==> Moved(inp, out[..], size, es, i, j)
    ensures forall i: nat, j: nat :: i < size && j < es && Moved(inp, old(out[..]), size, es, i, j) ==>
      Moved(inp, out[..], size, es, i, j)
  {
    var jj := 0;
    while jj < es
      invariant 0 <= jj <= es
      invariant forall i: nat, j: nat :: ii <= i < ii + 8 && j < jj ==> Moved(inp, out[..], size, es, i, j)
      invariant forall i: nat, j: nat :: i < size && j < es && Moved(inp, old(out[..]), size, es, i, j) ==>
        Moved(inp, out[..], size, es, i, j)
    {
      var kk := 0;
      while kk < 8
        invariant 0 <= kk <= 8
        invariant forall i: nat, j: nat ::
          (ii <= i < ii + 8 && j < jj) || (ii <= i < ii + kk && j == jj) ==> Moved(inp, out[..], size, es, i, j)
        invariant forall i: nat, j: nat :: i < size && j < es && Moved(inp, old(out[..]), size, es, i, j) ==>
          Moved(inp, out[..], size, es, i, j)
      {
        StoreByte(inp, out, size, es, ii + kk, jj);
        kk := kk + 1;
      }
      jj := jj + 1;
    }
  }

  method OneElement(inp: seq<bv8>, out: array<bv8>, size: nat, es: nat, ii: nat)
    requires |inp| == size * es == out.Length && ii < size
    modifies out
    ensures forall j: nat :: j < es ==> Moved(inp, out[..], size, es, ii, j)
    ensures forall i: nat, j: nat :: i < size && j < es && Moved(inp, old(out[..]), size, es, i, j) ==>
      Moved(inp, out[..], size, es, i, j)
  {
    var jj := 0;
    while jj < es
      invariant 0 <= jj <= es
      invariant forall j: nat :: j < jj ==> Moved(inp, out[..], size, es, ii, j)
      invariant forall i: nat, j: nat :: i < size && j < es && Moved(inp, old(out[..]), size, es, i, j) ==>
        Moved(inp, out[..], size, es, i, j)
    {
      StoreByte(inp, out, size, es, ii, jj);
      jj := jj + 1;
    }
  }

  /** `out_b[jj * size + ii] = in_b[ii * elem_size + jj]`. */
  method StoreByte(inp: seq<bv8>, out: array<bv8>, size: nat, es: nat, i: nat, j: nat)
    requires |inp| == size * es == out.Length && i < size && j < es
    modifies out
    ensures Moved(inp, out[..], size, es, i, j)
    ensures forall i': nat, j': nat :: i' < size && j' < es && Moved(inp, old(out[..]), size, es, i', j') ==>
      Moved(inp, out[..], size, es, i', j')
  {
    AtBound(i, size, es, j);
    AtBound(j, es, size, i);
    out[j * size + i] := inp[i * es + j];
    forall i': nat, j': nat | i' < size && j' < es && Moved(inp, old(out[..]), size, es, i', j')
      ensures Moved(inp, out[..], size, es, i', j')
    {
      StoreKeeps(inp, old(out[..]), out[..], size, es, i, j, i', j');
    }
  }

  // ---------- pass 2: bits of bytes ----------

  /** The quadword at byte 8 * i of the input. */
  function QuadAt(inp: seq<bv8>, i: nat): bv64
    requires At(i, 8, 8) <= |inp|
  {
    Load(inp[At(i, 8, 0)..At(i, 8, 8)])
  }

  /** Byte k of the transposed quadword i has become byte i of bit row k. */
  predicate Spread(inp: seq<bv8>, out: seq<bv8>, nrow: nat, i: nat, k: nat)
    requires k < 8
  {
    && At(i, 8, 8) <= |inp| && At(k, nrow, i) < |out|
    && out[At(k, nrow, i)] == Byte(TransBit8x8(QuadAt(inp, i)), k)
  }

  /** The first n quadwords have been dealt out. */
  ghost predicate SpreadUpTo(inp: seq<bv8>, out: seq<bv8>, nrow: nat, n: nat) {
    forall i: nat, k: nat :: i < n && k < 8 ==> Spread(inp, out, nrow, i, k)
  }

  ghost predicate BitTransposed(inp: seq<bv8>, out: seq<bv8>, nrow: nat) {
    forall i: nat, k: nat :: i < nrow && k < 8 ==> Spread(inp, out, nrow, i, k)
  }

  /** `bshuf_trans_bit_byte_scal` (little-endian). */
  method TransBitByte(inp: seq<bv8>, out: array<bv8>, nrow: nat)
    requires |inp| == 8 * nrow == out.Length
    modifies out
    ensures BitTransposed(inp, out[..], nrow)
  {
    TransBitByteRemainder(inp, out, nrow, 0);
  }

  /**
   `bshuf_trans_bit_byte_remainder`: the quadwords from `start` on are transposed and their bytes dealt out to eight
   rows.
   */
  method TransBitByteRemainder(inp: seq<bv8>, out: array<bv8>, nrow: nat, start: nat)
    requires |inp| == 8 * nrow == out.Length && start <= nrow
    requires SpreadUpTo(inp, out[..], nrow, start)
    modifies out
    ensures BitTransposed(inp, out[..], nrow)
  {
    var ii := start;
    while ii < nrow
      invariant start <= ii <= nrow
      invariant forall i: nat, k: nat :: i < ii && k < 8 ==> Spread(inp, out[..], nrow, i, k)
    {
      var x := TransBit8x8(QuadAt(inp, ii));
      var kk := 0;
      while kk < 8
        invariant 0 <= kk <= 8
        invariant forall i: nat, k: nat :: (i < ii && k < 8) || (i == ii && k < kk) ==> Spread(inp, out[..], nrow, i, k)
      {
        StoreSpread(inp, out, nrow, ii, kk, Byte(x, kk));
        kk := kk + 1;
      }
      ii := ii + 1;
    }
  }

  /** Store the byte that belongs at position i of bit row k. */
  method StoreSpread(inp: seq<bv8>, out: array<bv8>, nrow: nat, i: nat, k: nat, b: bv8)
    requires |inp| == 8 * nrow == out.Length && i < nrow && k < 8 && b == Byte(TransBit8x8(QuadAt(inp, i)), k)
    modifies out
    ensures Spread(inp, out[..], nrow, i, k)
    ensures forall i': nat, k': nat :: i' < nrow && k' < 8 && Spread(inp, old(out[..]), nrow, i', k') ==>
      Spread(inp, out[..], nrow, i', k')
  {
    AtBound(k, 8, nrow, i);
    out[k * nrow + i] := b;
    forall i': nat, k': nat | i' < nrow && k' < 8 && Spread(inp, old(out[..]), nrow, i', k')
      ensures Spread(inp, out[..], nrow, i', k')
    {
      if At(k', nrow, i') == At(k, nrow, i) {
        AtInjective(k', i', k, i, nrow);
      }
    }
  }

  // ---------- pass 3: rows of bits ----------

  /** Byte b of chunk (i, j) has become byte b of chunk (j, i). */
  predicate Carried(inp: seq<bv8>, out: seq<bv8>, lda: nat, ldb: nat, n: nat, i: nat, j: nat, b: nat) {
    && At(At(i, ldb, j), n, b) < |inp| && At(At(j, lda, i), n, b) < |out|
    && out[At(At(j, lda, i), n, b)] == inp[At(At(i, ldb, j), n, b)]
  }

  ghost predicate ChunkTransposed(inp: seq<bv8>, out: seq<bv8>, lda: nat, ldb: nat, n: nat) {
    forall i: nat, j: nat, b: nat :: i < lda && j < ldb && b < n ==> Carried(inp, out, lda, ldb, n, i, j, b)
  }

  /** `bshuf_trans_elem`: transpose an lda x ldb array of n-byte chunks. */
  method TransElem(inp: seq<bv8>, out: array<bv8>, lda: nat, ldb: nat, n: nat)
    requires |inp| == lda * ldb * n == out.Length
    modifies out
    ensures ChunkTransposed(inp, out[..], lda, ldb, n)
  {
    var ii := 0;
    while ii < lda
      invariant 0 <= ii <= lda
      invariant forall i: nat, j: nat, b: nat :: i < ii && j < ldb && b < n ==>
        Carried(inp, out[..], lda, ldb, n, i, j, b)
    {
      var jj := 0;
      while jj < ldb
        invariant 0 <= jj <= ldb
        invariant forall i: nat, j: nat, b: nat :: ((i < ii && j < ldb) || (i == ii && j < jj)) && b < n ==>
          Carried(inp, out[..], lda, ldb, n, i, j, b)
      {
        CopyChunk(inp, out, lda, ldb, n, ii, jj);
        jj := jj + 1;
      }
      ii := ii + 1;
    }
  }

  /** `memcpy(&out_b[(jj * lda + ii) * elem_size], &in_b[(ii * ldb + jj) * elem_size], elem_size)`. */
  method CopyChunk(inp: seq<bv8>, out: array<bv8>, lda: nat, ldb: nat, n: nat, i: nat, j: nat)
    requires |inp| == lda * ldb * n == out.Length && i < lda && j < ldb
    modifies out
    ensures forall b: nat :: b < n ==> Carried(inp, out[..], lda, ldb, n, i, j, b)
    ensures forall i': nat, j': nat, b: nat ::
      i' < lda && j' < ldb && b < n && Carried(inp, old(out[..]), lda, ldb, n, i', j', b) ==>
      Carried(inp, out[..], lda, ldb, n, i', j', b)
  {
    ChunkBounds(lda, ldb, n, i, j);
    ghost var before := out[..];
    MemCopy(inp, out, (i * ldb + j) * n, (j * lda + i) * n, n);
    ChunkCopied(inp, before, out[..], lda, ldb, n, i, j);
  }

  lemma ChunkCopied(inp: seq<bv8>, before: seq<bv8>, out: seq<bv8>, lda: nat, ldb: nat, n: nat, i: nat, j: nat)
    requires |out| == |before| && i < lda && j < ldb
    requires At(At(i, ldb, j), n, n) <= |inp| && At(At(j, lda, i), n, n) <= |out|
    requires Copied(inp, before, out, At(At(i, ldb, j), n, 0), At(At(j, lda, i), n, 0), n)
    ensures forall b: nat :: b < n ==> Carried(inp, out, lda, ldb, n, i, j, b)
    ensures forall i': nat, j': nat, b: nat ::
      i' < lda && j' < ldb && b < n && Carried(inp, before, lda, ldb, n, i', j', b) ==>
      Carried(inp, out, lda, ldb, n, i', j', b)
  {
    forall i': nat, j': nat, b: nat | i' < lda && j' < ldb && b < n && Carried(inp, before, lda, ldb, n, i', j', b)
      ensures Carried(inp, out, lda, ldb, n, i', j', b)
    {
      ChunkKeeps(inp, before, out, lda, ldb, n, i, j, i', j', b);
    }
  }

  /** n bytes from `from` of the input are at `to`, and nothing else has changed. */
  ghost predicate Copied(inp: seq<bv8>, before: seq<bv8>, out: seq<bv8>, from: nat, to: nat, n: nat) {
    && |out| == |before| && from + n <= |inp|
    && forall k: nat :: k < |out| ==> out[k] == if to <= k < to + n then inp[from + k - to] else before[k]
  }

  lemma ChunkBounds(lda: nat, ldb: nat, n: nat, i: nat, j: nat)
    requires i < lda && j < ldb
    ensures At(At(i, ldb, j), n, 0) == (i * ldb + j) * n && At(At(i, ldb, j), n, n) <= lda * ldb * n
    ensures At(At(j, lda, i), n, 0) == (j * lda + i) * n && At(At(j, lda, i), n, n) <= lda * ldb * n
  {
    AtBound(j, ldb, lda, i);
    AtBound(i, lda, ldb, j);
    var to, from := At(j, lda, i), At(i, ldb, j);
    MulMonotone(to + 1, lda * ldb, n);
    MulMonotone(from + 1, lda * ldb, n);
    assert (to + 1) * n == to * n + n && (from + 1) * n == from * n + n;
  }

  method MemCopy(inp: seq<bv8>, out: array<bv8>, from: nat, to: nat, n: nat)
    requires from + n <= |inp| && to + n <= out.Length
    modifies out
    ensures Copied(inp, old(out[..]), out[..], from, to, n)
  {
    forall b | 0 <= b < n {
      out[to + b] := inp[from + b];
    }
  }

  /** Storing one chunk keeps the others. */
  lemma ChunkKeeps(inp: seq<bv8>, out: seq<bv8>, out': seq<bv8>, lda: nat, ldb: nat, n: nat, i: nat, j: nat, i': nat,
                   j': nat, b: nat)
    requires |out| == |out'| && i < lda && i' < lda && b < n && Carried(inp, out, lda, ldb, n, i', j', b)
    requires forall k: nat :: k < |out| && out'[k] != out[k] ==> At(At(j, lda, i), n, 0) <= k < At(At(j, lda, i), n, n)
    requires forall c: nat :: c < n ==> Carried(inp, out', lda, ldb, n, i, j, c)
    ensures Carried(inp, out', lda, ldb, n, i', j', b)
  {
    var k, to := At(At(j', lda, i'), n, b), At(j, lda, i);
    if out'[k] != out[k] {
      AtInjective(At(j', lda, i'), b, to, k - At(to, n, 0), n);
      AtInjective(j', i', j, i, lda);
    }
  }

  // ---------- the inverse passes ----------

  /** Byte i of bit row (j, k) has become byte k of byte j of eight-element block i. */
  predicate Gathered(inp: seq<bv8>, out: seq<bv8>, nrow: nat, es: nat, i: nat, j: nat, k: nat) {
    && At(At(j, 8, k), nrow, i) < |inp| && At(At(i, es, j), 8, k) < |out|
    && out[At(At(i, es, j), 8, k)] == inp[At(At(j, 8, k), nrow, i)]
  }

  /** `bshuf_trans_byte_bitrow_scal`. */
  method TransByteBitrow(inp: seq<bv8>, out: array<bv8>, nrow: nat, es: nat)
    requires |inp| == nrow * es * 8 == out.Length
    modifies out
    ensures forall i: nat, j: nat, k: nat :: i < nrow && j < es && k < 8 ==> Gathered(inp, out[..], nrow, es, i, j, k)
  {
    var jj := 0;
    while jj < es
      invariant 0 <= jj <= es
      invariant forall i: nat, j: nat, k: nat :: i < nrow && j < jj && k < 8 ==>
        Gathered(inp, out[..], nrow, es, i, j, k)
    {
      var ii := 0;
      while ii < nrow
        invariant 0 <= ii <= nrow
        invariant forall i: nat, j: nat, k: nat :: ((i < nrow && j < jj) || (i < ii && j == jj)) && k < 8 ==>
          Gathered(inp, out[..], nrow, es, i, j, k)
      {
        var kk := 0;
        while kk < 8
          invariant 0 <= kk <= 8
          invariant forall i: nat, j: nat, k: nat ::
            (((i < nrow && j < jj) || (i < ii && j == jj)) && k < 8) || (i == ii && j == jj && k < kk) ==>
            Gathered(inp, out[..], nrow, es, i, j, k)
        {
          GatheredBounds(nrow, es, ii, jj, kk);
          StoreGathered(inp, out, nrow, es, ii, jj, kk, inp[At(At(jj, 8, kk), nrow, ii)]);
          kk := kk + 1;
        }
        ii := ii + 1;
      }
      jj := jj + 1;
    }
  }

  lemma GatheredBounds(nrow: nat, es: nat, i: nat, j: nat, k: nat)
    requires i < nrow && j < es && k < 8
    ensures At(At(i, es, j), 8, k) < nrow * es * 8
    ensures At(At(i, es, j), 8, k) == i * 8 * es + j * 8 + k
    ensures At(At(j, 8, k), nrow, i) < nrow * es * 8
  {
    AtBound(i, nrow, es, j);
    AtBound(At(i, es, j), nrow * es, 8, k);
    AtBound(j, es, 8, k);
    AtBound(At(j, 8, k), es * 8, nrow, i);
    assert es * 8 * nrow == nrow * es * 8;
  }

  /** `out_b[ii * 8 * elem_size + jj * 8 + kk] = in_b[(jj * 8 + kk) * nbyte_row + ii]`. */
  method StoreGathered(inp: seq<bv8>, out: array<bv8>, nrow: nat, es: nat, i: nat, j: nat, k: nat, b: bv8)
    requires |inp| == nrow * es * 8 == out.Length && i < nrow && j < es && k < 8
    requires At(At(j, 8, k), nrow, i) < |inp| && b == inp[At(At(j, 8, k), nrow, i)]
    modifies out
    ensures Gathered(inp, out[..], nrow, es, i, j, k)
    ensures forall i': nat, j': nat, k': nat ::
      i' < nrow && j' < es && k' < 8 && Gathered(inp, old(out[..]), nrow, es, i', j', k') ==>
      Gathered(inp, out[..], nrow, es, i', j', k')
  {
    GatheredBounds(nrow, es, i, j, k);
    out[At(At(i, es, j), 8, k)] := b;
    forall i': nat, j': nat, k': nat | i' < nrow && j' < es && k' < 8 &&
      Gathered(inp, old(out[..]), nrow, es, i', j', k')
      ensures Gathered(inp, out[..], nrow, es, i', j', k')
    {
      if At(At(i', es, j'), 8, k') == At(At(i, es, j), 8, k) {
        AtInjective(At(i', es, j'), k', At(i, es, j), k, 8);
        AtInjective(i', j', i, j, es);
      }
    }
  }

  /** Byte k of the transposed quadword (i, j) has become byte j of element k of block i. */
  predicate Unspread(inp: seq<bv8>, out: seq<bv8>, es: nat, i: nat, j: nat, k: nat)
    requires k < 8
  {
    && At(At(i, es, j), 8, 8) <= |inp| && At(At(i, 8, k), es, j) < |out|
    && out[At(At(i, 8, k), es, j)] == Byte(TransBit8x8(QuadAt(inp, At(i, es, j))), k)
  }

  /** `bshuf_shuffle_bit_eightelem_scal` (little-endian). */
  method ShuffleBitEightElem(inp: seq<bv8>, out: array<bv8>, nrow: nat, es: nat)
    requires |inp| == nrow * es * 8 == out.Length
    modifies out
    ensures forall i: nat, j: nat, k: nat :: i < nrow && j < es && k < 8 ==> Unspread(inp, out[..], es, i, j, k)
  {
    var jj := 0;
    while jj < es
      invariant 0 <= jj <= es
      invariant forall i: nat, j: nat, k: nat :: i < nrow && j < jj && k < 8 ==> Unspread(inp, out[..], es, i, j, k)
    {
      var ii := 0;
      while ii < nrow
        invariant 0 <= ii <= nrow
        invariant forall i: nat, j: nat, k: nat :: ((i < nrow && j < jj) || (i < ii && j == jj)) && k < 8 ==>
          Unspread(inp, out[..], es, i, j, k)
      {
        AtBound(ii, nrow, es, jj);
        var x := TransBit8x8(QuadAt(inp, At(ii, es, jj)));
        var kk := 0;
        while kk < 8
          invariant 0 <= kk <= 8
          invariant forall i: nat, j: nat, k: nat ::
            (((i < nrow && j < jj) || (i < ii && j == jj)) && k < 8) || (i == ii && j == jj && k < kk) ==>
            Unspread(inp, out[..], es, i, j, k)
        {
          StoreUnspread(inp, out, nrow, es, ii, jj, kk, Byte(x, kk));
          kk := kk + 1;
        }
        ii := ii + 1;
      }
      jj := jj + 1;
    }
  }

  lemma UnspreadBounds(nrow: nat, es: nat, i: nat, j: nat, k: nat)
    requires i < nrow && j < es && k < 8
    ensures At(At(i, 8, k), es, j) < nrow * es * 8
    ensures At(At(i, 8, k), es, j) == 8 * es * i + j + k * es
  {
    AtBound(i, nrow, 8, k);
    AtBound(At(i, 8, k), nrow * 8, es, j);
    assert nrow * 8 * es == nrow * es * 8;
    assert (i * 8 + k) * es == 8 * es * i + k * es;
  }

  /** `out_b[ii + jj / 8 + kk * elem_size] = x >> 8 * kk` for the block at ii = 8 * elem_size * i and jj = 8 * j. */
  method StoreUnspread(inp: seq<bv8>, out: array<bv8>, nrow: nat, es: nat, i: nat, j: nat, k: nat, b: bv8)
    requires |inp| == nrow * es * 8 == out.Length && i < nrow && j < es && k < 8
    requires At(At(i, es, j), 8, 8) <= |inp| && b == Byte(TransBit8x8(QuadAt(inp, At(i, es, j))), k)
    modifies out
    ensures Unspread(inp, out[..], es, i, j, k)
    ensures forall i': nat, j': nat, k': nat ::
      i' < nrow && j' < es && k' < 8 && Unspread(inp, old(out[..]), es, i', j', k') ==>
      Unspread(inp, out[..], es, i', j', k')
  {
    UnspreadBounds(nrow, es, i, j, k);
    out[At(At(i, 8, k), es, j)] := b;
    forall i': nat, j': nat, k': nat | i' < nrow && j' < es && k' < 8 && Unspread(inp, old(out[..]), es, i', j', k')
      ensures Unspread(inp, out[..], es, i', j', k')
    {
      if At(At(i', 8, k'), es, j') == At(At(i, 8, k), es, j) {
        AtInjective(At(i', 8, k'), j', At(i, 8, k), j, es);
        AtInjective(i', k', i, k, 8);
      }
    }
  }

  // ---------- the whole transposition ----------

  /** Bit c of byte q of bit row (j, b) is bit b of byte j of element 8 * q + c. */
  predicate BitCarried(inp: seq<bv8>, out: seq<bv8>, nrow: nat, es: nat, q: nat, c: nat, j: nat, b: nat)
    requires c < 8 && b < 8
  {
    && At(At(q, 8, c), es, j) < |inp| && At(At(j, 8, b), nrow, q) < |out|
    && Bit(out[At(At(j, 8, b), nrow, q)], c) == Bit(inp[At(At(q, 8, c), es, j)], b)
  }

  /**
   The bit-matrix transpose of 8 * nrow elements of es bytes: bit e of row r equals bit r of element e, with
   e = 8 * q + c and r = 8 * j + b.
   */
  ghost predicate Transpose(inp: seq<bv8>, out: seq<bv8>, nrow: nat, es: nat) {
    && |inp| == |out| == 8 * nrow * es
    && forall q: nat, c: nat, j: nat, b: nat :: q < nrow && c < 8 && j < es && b < 8 ==>
      BitCarried(inp, out, nrow, es, q, c, j, b)
  }

  lemma QuadByte(inp: seq<bv8>, i: nat, c: nat)
    requires At(i, 8, 8) <= |inp| && c < 8
    ensures Byte(QuadAt(inp, i), c) == inp[At(i, 8, c)]
  {
    LoadBytes(inp[At(i, 8, 0)..At(i, 8, 8)], c);
  }

  /** Pass 2, bit by bit. */
  lemma SpreadBit(inp: seq<bv8>, out: seq<bv8>, nrow: nat, i: nat, k: nat, c: nat)
    requires k < 8 && c < 8 && Spread(inp, out, nrow, i, k)
    ensures Bit(out[At(k, nrow, i)], c) == Bit(inp[At(i, 8, c)], k)
  {
    TransBit8x8Transposes(QuadAt(inp, i), k, c);
    QuadByte(inp, i, c);
  }

  lemma PassesTranspose(inp: seq<bv8>, p1: seq<bv8>, p2: seq<bv8>, out: seq<bv8>, nrow: nat, es: nat)
    requires |inp| == |out| == 8 * nrow * es
    requires ByteTransposed(inp, p1, 8 * nrow, es)
    requires BitTransposed(p1, p2, es * nrow)
    requires ChunkTransposed(p2, out, 8, es, nrow)
    ensures Transpose(inp, out, nrow, es)
  {
    forall q: nat, c: nat, j: nat, b: nat | q < nrow && c < 8 && j < es && b < 8
      ensures BitCarried(inp, out, nrow, es, q, c, j, b)
    {
      BitThroughPasses(inp, p1, p2, out, nrow, es, q, c, j, b);
    }
  }

  lemma BitThroughPasses(inp: seq<bv8>, p1: seq<bv8>, p2: seq<bv8>, out: seq<bv8>, nrow: nat, es: nat,
                         q: nat, c: nat, j: nat, b: nat)
    requires ByteTransposed(inp, p1, 8 * nrow, es)
    requires BitTransposed(p1, p2, es * nrow)
    requires ChunkTransposed(p2, out, 8, es, nrow)
    requires q < nrow && c < 8 && j < es && b < 8
    ensures BitCarried(inp, out, nrow, es, q, c, j, b)
  {
    var i := At(j, nrow, q);
    assert Carried(p2, out, 8, es, nrow, b, j, q);
    AtAssoc(b, es, j, nrow, q);
    AtBound(j, es, nrow, q);
    assert Spread(p1, p2, es * nrow, i, b);
    SpreadBit(p1, p2, es * nrow, i, b, c);
    AtAssoc(j, nrow, q, 8, c);
    AtBound(q, nrow, 8, c);
    assert Moved(inp, p1, 8 * nrow, es, At(q, 8, c), j);
    assert nrow * 8 == 8 * nrow;
  }

  /** The inverse passes transpose the other way round. */
  lemma InversePassesTranspose(inp: seq<bv8>, p1: seq<bv8>, out: seq<bv8>, nrow: nat, es: nat)
    requires |inp| == |out| == 8 * nrow * es
    requires forall i: nat, j: nat, k: nat :: i < nrow && j < es && k < 8 ==> Gathered(inp, p1, nrow, es, i, j, k)
    requires forall i: nat, j: nat, k: nat :: i < nrow && j < es && k < 8 ==> Unspread(p1, out, es, i, j, k)
    ensures Transpose(out, inp, nrow, es)
  {
    forall q: nat, c: nat, j: nat, b: nat | q < nrow && c < 8 && j < es && b < 8
      ensures BitCarried(out, inp, nrow, es, q, c, j, b)
    {
      assert Gathered(inp, p1, nrow, es, q, j, b);
      assert Unspread(p1, out, es, q, j, c);
      TransBit8x8Transposes(QuadAt(p1, At(q, es, j)), c, b);
      QuadByte(p1, At(q, es, j), b);
    }
  }

  // ---------- the drivers for one block ----------

  /** `bshuf_trans_bit_elem_scal`; -80 unless the number of elements is a multiple of 8. */
  method TransBitElemScalar(inp: seq<bv8>, out: array<bv8>, size: nat, es: nat) returns (count: int)
    requires |inp| == size * es == out.Length
    modifies out
    ensures size % 8 != 0 ==> count == -80
    ensures size % 8 == 0 ==> count == size * es && Transpose(inp, out[..], size / 8, es)
  {
    if size % 8 != 0 {
      return -80;
    }
    var nrow := size / 8;
    RowBytes(nrow, es);
    TransByteElem(inp, out, size, es);
    ghost var p1 := out[..];
    var tmp := new bv8[size * es];
    TransBitByte(out[..], tmp, es * nrow);
    TransElem(tmp[..], out, 8, es, nrow);
    PassesTranspose(inp, p1, tmp[..], out[..], nrow, es);
    count := size * es;
  }

  lemma RowBytes(nrow: nat, es: nat)
    ensures 8 * nrow * es == 8 * (es * nrow) == 8 * es * nrow == nrow * es * 8
  {
  }

  /** `bshuf_untrans_bit_elem_scal`. */
  method UntransBitElem(inp: seq<bv8>, out: array<bv8>, size: nat, es: nat) returns (count: int)
    requires |inp| == size * es == out.Length
    modifies out
    ensures size % 8 != 0 ==> count == -80
    ensures size % 8 == 0 ==> count == size * es && Transpose(out[..], inp, size / 8, es)
  {
    if size % 8 != 0 {
      return -80;
    }
    var nrow := size / 8;
    RowBytes(nrow, es);
    var tmp := new bv8[size * es];
    TransByteBitrow(inp, tmp, nrow, es);
    ShuffleBitEightElem(tmp[..], out, nrow, es);
    InversePassesTranspose(inp, tmp[..], out[..], nrow, es);
    count := size * es;
  }

  // ---------- the transpose determines its argument and its result ----------

  lemma SameByte(inp: seq<bv8>, inp': seq<bv8>, out: seq<bv8>, nrow: nat, es: nat, q: nat, c: nat, j: nat)
    requires Transpose(inp, out, nrow, es) && Transpose(inp', out, nrow, es) && q < nrow && c < 8 && j < es
    ensures At(At(q, 8, c), es, j) < |inp| && inp[At(At(q, 8, c), es, j)] == inp'[At(At(q, 8, c), es, j)]
  {
    forall b: nat | b < 8
      ensures At(At(q, 8, c), es, j) < |inp|
      ensures Bit(inp[At(At(q, 8, c), es, j)], b) == Bit(inp'[At(At(q, 8, c), es, j)], b)
    {
      assert BitCarried(inp, out, nrow, es, q, c, j, b) && BitCarried(inp', out, nrow, es, q, c, j, b);
    }
    assert BitCarried(inp, out, nrow, es, q, c, j, 0);
    BitsDetermineByte(inp[At(At(q, 8, c), es, j)], inp'[At(At(q, 8, c), es, j)]);
  }

  /** What is transposed back from the same rows is the same, so unshuffling undoes shuffling. */
  lemma TransposeInjective(inp: seq<bv8>, inp': seq<bv8>, out: seq<bv8>, nrow: nat, es: nat)
    requires Transpose(inp, out, nrow, es) && Transpose(inp', out, nrow, es)
    ensures inp == inp'
  {
    forall k | 0 <= k < |inp|
      ensures inp[k] == inp'[k]
    {
      var e, j := AtSurjective(k, 8 * nrow, es);
      var q, c := AtSurjective(e, nrow, 8);
      SameByte(inp, inp', out, nrow, es, q, c, j);
    }
  }
}
