/** The SSE and AVX forms of the bitshuffle passes, register by register, equal the scalar ones. */
module BitshuffleSimd {
  import opened Bitshuffle
  import opened BitshufflePasses

  // ---------- 16-byte registers and the unpack instructions ----------

  /** An __m128i as its sixteen bytes, lowest first. */
  datatype Register = R(b0: bv8, b1: bv8, b2: bv8, b3: bv8, b4: bv8, b5: bv8, b6: bv8, b7: bv8,
                        b8: bv8, b9: bv8, b10: bv8, b11: bv8, b12: bv8, b13: bv8, b14: bv8, b15: bv8)

  /** `_mm_unpacklo_epi8`. */
  function UnpackLo8(a: Register, b: Register): Register {
    R(a.b0, b.b0, a.b1, b.b1, a.b2, b.b2, a.b3, b.b3,
      a.b4, b.b4, a.b5, b.b5, a.b6, b.b6, a.b7, b.b7)
  }

  /** `_mm_unpackhi_epi8`. */
  function UnpackHi8(a: Register, b: Register): Register {
    R(a.b8, b.b8, a.b9, b.b9, a.b10, b.b10, a.b11, b.b11,
      a.b12, b.b12, a.b13, b.b13, a.b14, b.b14, a.b15, b.b15)
  }

  /** `_mm_unpacklo_epi32`. */
  function UnpackLo32(a: Register, b: Register): Register {
    R(a.b0, a.b1, a.b2, a.b3, b.b0, b.b1, b.b2, b.b3,
      a.b4, a.b5, a.b6, a.b7, b.b4, b.b5, b.b6, b.b7)
  }

  /** `_mm_unpackhi_epi32`. */
  function UnpackHi32(a: Register, b: Register): Register {
    R(a.b8, a.b9, a.b10, a.b11, b.b8, b.b9, b.b10, b.b11,
      a.b12, a.b13, a.b14, a.b15, b.b12, b.b13, b.b14, b.b15)
  }

  /** `_mm_unpacklo_epi64`. */
  function UnpackLo64(a: Register, b: Register): Register {
    R(a.b0, a.b1, a.b2, a.b3, a.b4, a.b5, a.b6, a.b7,
      b.b0, b.b1, b.b2, b.b3, b.b4, b.b5, b.b6, b.b7)
  }

  /** `_mm_unpackhi_epi64`. */
  function UnpackHi64(a: Register, b: Register): Register {
    R(a.b8, a.b9, a.b10, a.b11, a.b12, a.b13, a.b14, a.b15,
      b.b8, b.b9, b.b10, b.b11, b.b12, b.b13, b.b14, b.b15)
  }

  /** Byte e of a register, as a store writes it. */
  function Lane(r: Register, e: nat): bv8
    requires e < 16
  {
    match e
    case 0 => r.b0
    case 1 => r.b1
    case 2 => r.b2
    case 3 => r.b3
    case 4 => r.b4
    case 5 => r.b5
    case 6 => r.b6
    case 7 => r.b7
    case 8 => r.b8
    case 9 => r.b9
    case 10 => r.b10
    case 11 => r.b11
    case 12 => r.b12
    case 13 => r.b13
    case 14 => r.b14
    case _ => r.b15
  }

  /** `_mm_loadu_si128` at byte k. */
  function LoadRegister(m: seq<bv8>, k: nat): Register
    requires k + 16 <= |m|
  {
    R(m[k], m[k + 1], m[k + 2], m[k + 3], m[k + 4], m[k + 5], m[k + 6], m[k + 7],
      m[k + 8], m[k + 9], m[k + 10], m[k + 11], m[k + 12], m[k + 13], m[k + 14], m[k + 15])
  }

  // ---------- byte transposition of 16 elements, register by register ----------

  /** Byte j of each of the sixteen w-byte elements in m. */
  function Column(m: seq<bv8>, w: nat, j: nat): Register
    requires 15 * w + j < |m|
  {
    R(m[j], m[w + j], m[2 * w + j], m[3 * w + j], m[4 * w + j], m[5 * w + j], m[6 * w + j], m[7 * w + j],
      m[8 * w + j], m[9 * w + j], m[10 * w + j], m[11 * w + j], m[12 * w + j], m[13 * w + j], m[14 * w + j],
        m[15 * w + j])
  }

  lemma ColumnLane(m: seq<bv8>, w: nat, j: nat, e: nat)
    requires 15 * w + j < |m| && e < 16
    ensures e * w + j < |m| && Lane(Column(m, w, j), e) == m[e * w + j]
  {
    MulMonotone(e, 15, w);
    if e < 8 {
      assert e == 0 || e == 1 || e == 2 || e == 3 || e == 4 || e == 5 || e == 6 || e == 7;
    } else {
      assert e == 8 || e == 9 || e == 10 || e == 11 || e == 12 || e == 13 || e == 14 || e == 15;
    }
  }

  /** Two rounds of 8-bit unpacks. */
  function Lo2(a: Register, b: Register): Register {
    UnpackLo8(UnpackLo8(a, b), UnpackHi8(a, b))
  }

  function Hi2(a: Register, b: Register): Register {
    UnpackHi8(UnpackLo8(a, b), UnpackHi8(a, b))
  }

  /** Output register j of `bshuf_trans_byte_elem_SSE_64` for the 128 bytes in m. */
  function Network64(m: seq<bv8>, j: nat): Register
    requires |m| == 128 && j < 8
  {
    var r0, r1, r2, r3 := LoadRegister(m, 0), LoadRegister(m, 16), LoadRegister(m, 32), LoadRegister(m, 48);
    var r4, r5, r6, r7 := LoadRegister(m, 64), LoadRegister(m, 80), LoadRegister(m, 96), LoadRegister(m, 112);
    var a, b, c, d := Lo2(r0, r1), Hi2(r0, r1), Lo2(r2, r3), Hi2(r2, r3);
    var e, f, g, h := Lo2(r4, r5), Hi2(r4, r5), Lo2(r6, r7), Hi2(r6, r7);
    match j
    case 0 => UnpackLo64(UnpackLo32(a, c), UnpackLo32(e, g))
    case 1 => UnpackHi64(UnpackLo32(a, c), UnpackLo32(e, g))
    case 2 => UnpackLo64(UnpackHi32(a, c), UnpackHi32(e, g))
    case 3 => UnpackHi64(UnpackHi32(a, c), UnpackHi32(e, g))
    case 4 => UnpackLo64(UnpackLo32(b, d), UnpackLo32(f, h))
    case 5 => UnpackHi64(UnpackLo32(b, d), UnpackLo32(f, h))
    case 6 => UnpackLo64(UnpackHi32(b, d), UnpackHi32(f, h))
    case _ => UnpackHi64(UnpackHi32(b, d), UnpackHi32(f, h))
  }

  lemma Low64(m: seq<bv8>)
    requires |m| == 128
    ensures Network64(m, 0) == Column(m, 8, 0)
    ensures Network64(m, 1) == Column(m, 8, 1)
  {
  }

  lemma LowMid64(m: seq<bv8>)
    requires |m| == 128
    ensures Network64(m, 2) == Column(m, 8, 2)
    ensures Network64(m, 3) == Column(m, 8, 3)
  {
  }

  lemma HighMid64(m: seq<bv8>)
    requires |m| == 128
    ensures Network64(m, 4) == Column(m, 8, 4)
    ensures Network64(m, 5) == Column(m, 8, 5)
  {
  }

  lemma High64(m: seq<bv8>)
    requires |m| == 128
    ensures Network64(m, 6) == Column(m, 8, 6)
    ensures Network64(m, 7) == Column(m, 8, 7)
  {
  }

  lemma Network64IsColumn(m: seq<bv8>, j: nat)
    requires |m| == 128 && j < 8
    ensures Network64(m, j) == Column(m, 8, j)
  {
    Low64(m);
    LowMid64(m);
    HighMid64(m);
    High64(m);
    assert j == 0 || j == 1 || j == 2 || j == 3 || j == 4 || j == 5 || j == 6 || j == 7;
  }

  /** Output register j of `bshuf_trans_byte_elem_SSE_32` for the 64 bytes in m. */
  function Network32(m: seq<bv8>, j: nat): Register
    requires |m| == 64 && j < 4
  {
    var r0, r1, r2, r3 := LoadRegister(m, 0), LoadRegister(m, 16), LoadRegister(m, 32), LoadRegister(m, 48);
    var a, b, c, d := Lo2(r0, r1), Hi2(r0, r1), Lo2(r2, r3), Hi2(r2, r3);
    match j
    case 0 => UnpackLo64(UnpackLo8(a, b), UnpackLo8(c, d))
    case 1 => UnpackHi64(UnpackLo8(a, b), UnpackLo8(c, d))
    case 2 => UnpackLo64(UnpackHi8(a, b), UnpackHi8(c, d))
    case _ => UnpackHi64(UnpackHi8(a, b), UnpackHi8(c, d))
  }

  lemma Low32(m: seq<bv8>)
    requires |m| == 64
    ensures Network32(m, 0) == Column(m, 4, 0)
    ensures Network32(m, 1) == Column(m, 4, 1)
  {
  }

  lemma High32(m: seq<bv8>)
    requires |m| == 64
    ensures Network32(m, 2) == Column(m, 4, 2)
    ensures Network32(m, 3) == Column(m, 4, 3)
  {
  }

  lemma Network32IsColumn(m: seq<bv8>, j: nat)
    requires |m| == 64 && j < 4
    ensures Network32(m, j) == Column(m, 4, j)
  {
    Low32(m);
    High32(m);
    assert j == 0 || j == 1 || j == 2 || j == 3;
  }

  /** Output register j of `bshuf_trans_byte_elem_SSE_16` for the 32 bytes in m. */
  function Network16(m: seq<bv8>, j: nat): Register
    requires |m| == 32 && j < 2
  {
    var a, b := LoadRegister(m, 0), LoadRegister(m, 16);
    if j == 0 then Lo2(Lo2(a, b), Hi2(a, b)) else Hi2(Lo2(a, b), Hi2(a, b))
  }

  lemma Low16(m: seq<bv8>)
    requires |m| == 32
    ensures Network16(m, 0) == Column(m, 2, 0)
  {
  }

  lemma High16(m: seq<bv8>)
    requires |m| == 32
    ensures Network16(m, 1) == Column(m, 2, 1)
  {
  }

  lemma Network16IsColumn(m: seq<bv8>, j: nat)
    requires |m| == 32 && j < 2
    ensures Network16(m, j) == Column(m, 2, j)
  {
    Low16(m);
    High16(m);
    assert j == 0 || j == 1;
  }

  /** Output register j of the network for w-byte elements. */
  function Network(m: seq<bv8>, w: nat, j: nat): Register
    requires (w == 2 || w == 4 || w == 8) && |m| == 16 * w && j < w
  {
    if w == 8 then Network64(m, j) else if w == 4 then Network32(m, j) else Network16(m, j)
  }

  lemma NetworkIsColumn(m: seq<bv8>, w: nat, j: nat)
    requires (w == 2 || w == 4 || w == 8) && |m| == 16 * w && j < w
    ensures Network(m, w, j) == Column(m, w, j)
  {
    if w == 8 {
      Network64IsColumn(m, j);
    } else if w == 4 {
      Network32IsColumn(m, j);
    } else {
      Network16IsColumn(m, j);
    }
  }

  /** Lane e holds byte j of element e. */
  predicate HoldsBytes(m: seq<bv8>, w: nat, j: nat, r: Register) {
    forall e: nat :: e < 16 ==> At(e, w, j) < |m| && Lane(r, e) == m[At(e, w, j)]
  }

  /** Loads, unpacks and the register that is stored to byte row j. */
  method RunNetwork(m: seq<bv8>, w: nat, j: nat) returns (r: Register)
    requires (w == 2 || w == 4 || w == 8) && |m| == 16 * w && j < w
    ensures HoldsBytes(m, w, j, r)
  {
    r := Network(m, w, j);
    NetworkIsColumn(m, w, j);
    ghost var c := Column(m, w, j);
    forall e: nat | e < 16
      ensures At(e, w, j) < |m| && Lane(c, e) == m[At(e, w, j)]
    {
      ColumnLane(m, w, j, e);
    }
  }

  /** `bshuf_trans_byte_elem_SSE_16`, `_32` and `_64`: sixteen elements at a time, then the scalar remainder. */
  method TransByteElemSseW(inp: seq<bv8>, out: array<bv8>, size: nat, w: nat)
    requires w == 2 || w == 4 || w == 8
    requires |inp| == size * w == out.Length
    modifies out
    ensures ByteTransposed(inp, out[..], size, w)
  {
    var ii := 0;
    while ii + 15 < size
      invariant 0 <= ii <= size && ii % 16 == 0
      invariant forall i: nat, j: nat :: i < ii && j < w ==> Moved(inp, out[..], size, w, i, j)
    {
      SixteenElements(inp, out, size, w, ii);
      ii := ii + 16;
    }
    TransByteElemRemainder(inp, out, size, w, size - size % 16);
  }

  method SixteenElements(inp: seq<bv8>, out: array<bv8>, size: nat, w: nat, ii: nat)
    requires w == 2 || w == 4 || w == 8
    requires |inp| == size * w == out.Length && ii + 16 <= size
    modifies out
    ensures forall i: nat, j: nat :: ii <= i < ii + 16 && j < w ==> Moved(inp, out[..], size, w, i, j)
    ensures forall i: nat, j: nat :: i < size && j < w && Moved(inp, old(out[..]), size, w, i, j) ==>
      Moved(inp, out[..], size, w, i, j)
  {
    MulMonotone(ii + 16, size, w);
    assert (ii + 16) * w == w * ii + 16 * w;
    var m := inp[w * ii..w * ii + 16 * w];
    var j := 0;
    while j < w
      invariant 0 <= j <= w
      invariant forall i: nat, k: nat :: ii <= i < ii + 16 && k < j ==> Moved(inp, out[..], size, w, i, k)
      invariant forall i: nat, k: nat :: i < size && k < w && Moved(inp, old(out[..]), size, w, i, k) ==>
        Moved(inp, out[..], size, w, i, k)
    {
      var r := RunNetwork(m, w, j);
      StoreRegister(inp, out, size, w, ii, j, m, r);
      j := j + 1;
    }
  }

  /** `_mm_storeu_si128(&out_b[j * size + ii], ...)`. */
  method StoreRegister(inp: seq<bv8>, out: array<bv8>, size: nat, w: nat, i: nat, j: nat, ghost m: seq<bv8>,
                       r: Register)
    requires |inp| == size * w == out.Length && i + 16 <= size && j < w
    requires w * i + 16 * w <= |inp| && m == inp[w * i..w * i + 16 * w] && HoldsBytes(m, w, j, r)
    modifies out
    ensures forall e: nat :: i <= e < i + 16 ==> Moved(inp, out[..], size, w, e, j)
    ensures forall i': nat, j': nat :: i' < size && j' < w && Moved(inp, old(out[..]), size, w, i', j') ==>
      Moved(inp, out[..], size, w, i', j')
  {
    var e := 0;
    while e < 16
      invariant 0 <= e <= 16
      invariant forall x: nat :: i <= x < i + e ==> Moved(inp, out[..], size, w, x, j)
      invariant forall i': nat, j': nat :: i' < size && j' < w && Moved(inp, old(out[..]), size, w, i', j') ==>
        Moved(inp, out[..], size, w, i', j')
    {
      SameElementByte(inp, size, w, i, j, m, e);
      StoreByteValue(inp, out, size, w, i + e, j, Lane(r, e));
      e := e + 1;
    }
  }

  lemma SameElementByte(inp: seq<bv8>, size: nat, w: nat, i: nat, j: nat, m: seq<bv8>, e: nat)
    requires |inp| == size * w && i + 16 <= size && j < w && e < 16
    requires w * i + 16 * w <= |inp| && m == inp[w * i..w * i + 16 * w] && At(e, w, j) < |m|
    ensures At(i + e, w, j) < |inp| && inp[At(i + e, w, j)] == m[At(e, w, j)]
  {
    assert (i + e) * w == w * i + e * w;
  }

  /** Store a register lane that is the byte belonging there. */
  method StoreByteValue(inp: seq<bv8>, out: array<bv8>, size: nat, es: nat, i: nat, j: nat, b: bv8)
    requires |inp| == size * es == out.Length && i < size && j < es
    requires At(i, es, j) < |inp| && b == inp[At(i, es, j)]
    modifies out
    ensures Moved(inp, out[..], size, es, i, j)
    ensures forall i': nat, j': nat :: i' < size && j' < es && Moved(inp, old(out[..]), size, es, i', j') ==>
      Moved(inp, out[..], size, es, i', j')
  {
    AtBound(j, es, size, i);
    out[j * size + i] := b;
    forall i': nat, j': nat | i' < size && j' < es && Moved(inp, old(out[..]), size, es, i', j')
      ensures Moved(inp, out[..], size, es, i', j')
    {
      StoreKeeps(inp, old(out[..]), out[..], size, es, i, j, i', j');
    }
  }

  // ---------- the hierarchical path for wide elements ----------

  /** TRANS_ELEM_TYPE: transpose lda x ldb chunks of n bytes, eight rows at a time and then the remaining ones. */
  method TransElemType(inp: seq<bv8>, out: array<bv8>, lda: nat, ldb: nat, n: nat)
    requires |inp| == lda * ldb * n == out.Length
    modifies out
    ensures ChunkTransposed(inp, out[..], lda, ldb, n)
  {
    var ii := 0;
    while ii + 7 < lda
      invariant 0 <= ii <= lda && ii % 8 == 0
      invariant forall i: nat, j: nat, b: nat :: i < ii && j < ldb && b < n ==>
        Carried(inp, out[..], lda, ldb, n, i, j, b)
    {
      var jj := 0;
      while jj < ldb
        invariant 0 <= jj <= ldb
        invariant forall i: nat, j: nat, b: nat :: ((i < ii && j < ldb) || (ii <= i < ii + 8 && j < jj)) && b < n ==>
          Carried(inp, out[..], lda, ldb, n, i, j, b)
      {
        var kk := 0;
        while kk < 8
          invariant 0 <= kk <= 8
          invariant forall i: nat, j: nat, b: nat ::
            ((i < ii && j < ldb) || (ii <= i < ii + 8 && j < jj) || (ii <= i < ii + kk && j == jj)) && b < n ==>
            Carried(inp, out[..], lda, ldb, n, i, j, b)
        {
          CopyChunk(inp, out, lda, ldb, n, ii + kk, jj);
          kk := kk + 1;
        }
        jj := jj + 1;
      }
      ii := ii + 8;
    }
    ii := lda - lda % 8;
    while ii < lda
      invariant 0 <= ii <= lda
      invariant forall i: nat, j: nat, b: nat :: i < ii && j < ldb && b < n ==>
        Carried(inp, out[..], lda, ldb, n, i, j, b)
    {
      var jj := 0;
      while jj < ldb
        invariant 0 <= jj <= ldb
        invariant forall i: nat, j: nat, b: nat :: ((i < ii && j < ldb) || (i == ii && j < jj)) && b < n ==>
          Carried(inp, out[..], lda, ldb, n, i, j, b)
      {
        CopyChunk(inp, out, lda, ldb, n, ii, jj);
        jj := jj + 1;
      }
      ii := ii + 1;
    }
  }

  /** Chunks first, bytes of chunks next, rows last: together the byte transposition of the wide elements. */
  lemma HierarchyTransposes(inp: seq<bv8>, p1: seq<bv8>, p2: seq<bv8>, out: seq<bv8>, size: nat, chunks: nat, w: nat)
    requires ChunkTransposed(inp, p1, size, chunks, w)
    requires ByteTransposed(p1, p2, chunks * size, w)
    requires ChunkTransposed(p2, out, w, chunks, size)
    ensures ByteTransposed(inp, out, size, chunks * w)
  {
    forall i: nat, j: nat | i < size && j < chunks * w
      ensures Moved(inp, out, size, chunks * w, i, j)
    {
      var c, b := AtSurjective(j, chunks, w);
      assert Carried(inp, p1, size, chunks, w, i, c, b);
      AtAssoc(i, chunks, c, w, b);
      AtBound(c, chunks, size, i);
      assert Moved(p1, p2, chunks * size, w, At(c, size, i), b);
      AtAssoc(b, chunks, c, size, i);
      assert Carried(p2, out, w, chunks, size, b, c, i);
    }
  }

  /** `bshuf_trans_byte_elem_SSE`: the best form for the element size. */
  method TransByteElemSse(inp: seq<bv8>, out: array<bv8>, size: nat, es: nat)
    requires |inp| == size * es == out.Length
    modifies out
    ensures ByteTransposed(inp, out[..], size, es)
  {
    if es == 1 {
      CopyBytes(inp, out, size);
    } else if es == 2 || es == 4 || es == 8 {
      TransByteElemSseW(inp, out, size, es);
    } else if es % 4 != 0 {
      TransByteElem(inp, out, size, es);
    } else if es % 8 == 0 {
      TransByHierarchy(inp, out, size, es / 8, 8);
    } else {
      TransByHierarchy(inp, out, size, es / 4, 4);
    }
  }

  /** `bshuf_copy` of one-byte elements. */
  method CopyBytes(inp: seq<bv8>, out: array<bv8>, size: nat)
    requires |inp| == size == out.Length
    modifies out
    ensures ByteTransposed(inp, out[..], size, 1)
  {
    forall i | 0 <= i < size {
      out[i] := inp[i];
    }
    assert forall i: nat :: At(i, 1, 0) == i && At(0, size, i) == i;
  }

  method TransByHierarchy(inp: seq<bv8>, out: array<bv8>, size: nat, chunks: nat, w: nat)
    requires w == 4 || w == 8
    requires |inp| == size * (chunks * w) == out.Length
    modifies out
    ensures ByteTransposed(inp, out[..], size, chunks * w)
  {
    ChunkSizes(size, chunks, w);
    TransElemType(inp, out, size, chunks, w);
    ghost var p1 := out[..];
    var tmp := new bv8[out.Length];
    TransByteElemSseW(out[..], tmp, chunks * size, w);
    TransElem(tmp[..], out, w, chunks, size);
    HierarchyTransposes(inp, p1, tmp[..], out[..], size, chunks, w);
  }

  lemma ChunkSizes(size: nat, chunks: nat, w: nat)
    ensures size * (chunks * w) == size * chunks * w == chunks * size * w == w * chunks * size
  {
  }

  // ---------- the movemask form of the middle pass ----------

  /** A 16-bit lane from its two bytes, low byte first. */
  function Lane16(lo: bv8, hi: bv8): bv16 {
    (lo as bv16) | ((hi as bv16) << 8)
  }

  /** `_mm_slli_epi16(x, 1)` on a lane, k times over. */
  function Shifted(lane: bv16, k: nat): bv16
    requires k < 8
  {
    match k
    case 0 => lane
    case 1 => lane << 1
    case 2 => lane << 2
    case 3 => lane << 3
    case 4 => lane << 4
    case 5 => lane << 5
    case 6 => lane << 6
    case _ => lane << 7
  }

  lemma Shift1(lane: bv16, k: nat)
    requires k == 1
    ensures Shifted(lane, k) << 1 == Shifted(lane, k + 1)
  {
  }

  lemma Shift2(lane: bv16, k: nat)
    requires k == 2
    ensures Shifted(lane, k) << 1 == Shifted(lane, k + 1)
  {
  }

  lemma Shift3(lane: bv16, k: nat)
    requires k == 3
    ensures Shifted(lane, k) << 1 == Shifted(lane, k + 1)
  {
  }

  lemma Shift4(lane: bv16, k: nat)
    requires k == 4
    ensures Shifted(lane, k) << 1 == Shifted(lane, k + 1)
  {
  }

  lemma Shift5(lane: bv16, k: nat)
    requires k == 5
    ensures Shifted(lane, k) << 1 == Shifted(lane, k + 1)
  {
  }

  lemma Shift6(lane: bv16, k: nat)
    requires k == 6
    ensures Shifted(lane, k) << 1 == Shifted(lane, k + 1)
  {
  }

  lemma ShiftOnce(lane: bv16, k: nat)
    requires k < 7
    ensures Shifted(lane, k) << 1 == Shifted(lane, k + 1)
  {
    if k == 0 {
    } else if k == 1 { Shift1(lane, k); }
    else if k == 2 { Shift2(lane, k); }
    else if k == 3 { Shift3(lane, k); }
    else if k == 4 { Shift4(lane, k); }
    else if k == 5 { Shift5(lane, k); }
    else { Shift6(lane, k); }
  }

  /** The top bits of the two bytes of a lane, which is what `_mm_movemask_epi8` collects. */
  predicate TopLo(lane: bv16) { lane & 0x0080 != 0 }
  predicate TopHi(lane: bv16) { lane & 0x8000 != 0 }

  predicate TopsAre(lo: bv8, hi: bv8, k: nat)
    requires k < 8
  {
    && TopLo(Shifted(Lane16(lo, hi), k)) == Bit(lo, 7 - k)
    && TopHi(Shifted(Lane16(lo, hi), k)) == Bit(hi, 7 - k)
  }

  lemma Tops0(lo: bv8, hi: bv8, k: nat)
    requires k == 0
    ensures TopsAre(lo, hi, k)
  {
  }

  lemma Tops1(lo: bv8, hi: bv8, k: nat)
    requires k == 1
    ensures TopsAre(lo, hi, k)
  {
  }

  lemma Tops2(lo: bv8, hi: bv8, k: nat)
    requires k == 2
    ensures TopsAre(lo, hi, k)
  {
  }

  lemma Tops3(lo: bv8, hi: bv8, k: nat)
    requires k == 3
    ensures TopsAre(lo, hi, k)
  {
  }

  lemma Tops4(lo: bv8, hi: bv8, k: nat)
    requires k == 4
    ensures TopsAre(lo, hi, k)
  {
  }

  lemma Tops5(lo: bv8, hi: bv8, k: nat)
    requires k == 5
    ensures TopsAre(lo, hi, k)
  {
  }

  lemma Tops6(lo: bv8, hi: bv8, k: nat)
    requires k == 6
    ensures TopsAre(lo, hi, k)
  {
  }

  lemma Tops7(lo: bv8, hi: bv8, k: nat)
    requires k == 7
    ensures TopsAre(lo, hi, k)
  {
  }

  /**
   k left shifts bring bit 7 - k of either byte to its top: what leaves the low byte does not reach the high byte's
   top.
   */
  lemma ShiftedTops(lo: bv8, hi: bv8, k: nat)
    requires k < 8
    ensures TopsAre(lo, hi, k)
  {
    if k == 0 { Tops0(lo, hi, k); }
    else if k == 1 { Tops1(lo, hi, k); }
    else if k == 2 { Tops2(lo, hi, k); }
    else if k == 3 { Tops3(lo, hi, k); }
    else if k == 4 { Tops4(lo, hi, k); }
    else if k == 5 { Tops5(lo, hi, k); }
    else if k == 6 { Tops6(lo, hi, k); }
    else { Tops7(lo, hi, k); }
  }

  function BitIf(b: bool, j: nat): bv8
    requires j < 8
  {
    if b then Mask(j) else 0
  }

  /** One byte of the movemask result: the tops of four neighbouring lanes. */
  function MoveMaskByte(l0: bv16, l1: bv16, l2: bv16, l3: bv16): bv8 {
    BitIf(TopLo(l0), 0) | BitIf(TopHi(l0), 1) | BitIf(TopLo(l1), 2) | BitIf(TopHi(l1), 3)
    | BitIf(TopLo(l2), 4) | BitIf(TopHi(l2), 5) | BitIf(TopLo(l3), 6) | BitIf(TopHi(l3), 7)
  }

  lemma MoveMaskBits(l0: bv16, l1: bv16, l2: bv16, l3: bv16)
    ensures var m := MoveMaskByte(l0, l1, l2, l3);
      && Bit(m, 0) == TopLo(l0) && Bit(m, 1) == TopHi(l0) && Bit(m, 2) == TopLo(l1) && Bit(m, 3) == TopHi(l1)
      && Bit(m, 4) == TopLo(l2) && Bit(m, 5) == TopHi(l2) && Bit(m, 6) == TopLo(l3) && Bit(m, 7) == TopHi(l3)
  {
  }

  /** The movemask byte of eight bytes whose register has been shifted k times. */
  function ShiftedMask(q: seq<bv8>, k: nat): bv8
    requires |q| == 8 && k < 8
  {
    MoveMaskByte(Shifted(Lane16(q[0], q[1]), k), Shifted(Lane16(q[2], q[3]), k),
                 Shifted(Lane16(q[4], q[5]), k), Shifted(Lane16(q[6], q[7]), k))
  }

  lemma ShiftedMaskBits(q: seq<bv8>, k: nat)
    requires |q| == 8 && k < 8
    ensures forall c: nat :: c < 8 ==> Bit(ShiftedMask(q, k), c) == Bit(q[c], 7 - k)
  {
    MoveMaskBits(Shifted(Lane16(q[0], q[1]), k), Shifted(Lane16(q[2], q[3]), k),
                 Shifted(Lane16(q[4], q[5]), k), Shifted(Lane16(q[6], q[7]), k));
    ShiftedTops(q[0], q[1], k);
    ShiftedTops(q[2], q[3], k);
    ShiftedTops(q[4], q[5], k);
    ShiftedTops(q[6], q[7], k);
  }

  /** Bit c of row r of a transposed quadword is bit r of its byte c. */
  lemma RowBit(inp: seq<bv8>, i: nat, r: nat, c: nat)
    requires At(i, 8, 8) <= |inp| && r < 8 && c < 8
    ensures Bit(Byte(TransBit8x8(QuadAt(inp, i)), r), c) == Bit(inp[At(i, 8, c)], r)
  {
    TransBit8x8Transposes(QuadAt(inp, i), r, c);
    QuadByte(inp, i, c);
  }

  /** A byte holding bit r of each byte of a quadword is row r of its transposition. */
  lemma BitsAreRow(inp: seq<bv8>, i: nat, r: nat, mask: bv8, row: bv8)
    requires At(i, 8, 8) <= |inp| && r < 8
    requires forall c: nat :: c < 8 ==> Bit(mask, c) == Bit(inp[At(i, 8, c)], r)
    requires forall c: nat :: c < 8 ==> Bit(row, c) == Bit(inp[At(i, 8, c)], r)
    ensures mask == row
  {
    BitsDetermineByte(mask, row);
  }

  lemma MaskBit(inp: seq<bv8>, i: nat, k: nat, c: nat)
    requires At(i, 8, 8) <= |inp| && k < 8 && c < 8
    ensures Bit(ShiftedMask(inp[At(i, 8, 0)..At(i, 8, 8)], k), c) == Bit(inp[At(i, 8, c)], 7 - k)
  {
    ShiftedMaskBits(inp[At(i, 8, 0)..At(i, 8, 8)], k);
  }

  /** After k shifts the movemask byte of a quadword is row 7 - k of its transposition. */
  lemma MoveMaskIsRow(inp: seq<bv8>, i: nat, k: nat)
    requires At(i, 8, 8) <= |inp| && k < 8
    ensures ShiftedMask(inp[At(i, 8, 0)..At(i, 8, 8)], k) == Byte(TransBit8x8(QuadAt(inp, i)), 7 - k)
  {
    forall c: nat | c < 8
      ensures Bit(ShiftedMask(inp[At(i, 8, 0)..At(i, 8, 8)], k), c) == Bit(inp[At(i, 8, c)], 7 - k)
    {
      MaskBit(inp, i, k, c);
    }
    forall c: nat | c < 8
      ensures Bit(Byte(TransBit8x8(QuadAt(inp, i)), 7 - k), c) == Bit(inp[At(i, 8, c)], 7 - k)
    {
      RowBit(inp, i, 7 - k, c);
    }
    BitsAreRow(inp, i, 7 - k, ShiftedMask(inp[At(i, 8, 0)..At(i, 8, 8)], k), Byte(TransBit8x8(QuadAt(inp, i)), 7 - k));
  }

  /** 16-bit lane p of the register loaded from byte 8 * i on. */
  function LaneAt(inp: seq<bv8>, i: nat, p: nat): bv16
    requires 8 * i + 2 * p + 2 <= |inp|
  {
    Lane16(inp[8 * i + 2 * p], inp[8 * i + 2 * p + 1])
  }

  /** Four lanes to a quadword, every one shifted k times since it was loaded. */
  predicate ShiftedLanes(inp: seq<bv8>, i: nat, quads: nat, xmm: seq<bv16>, k: nat)
    requires At(i, 8, 8 * quads) <= |inp| && k < 8
  {
    |xmm| == 4 * quads && forall p: nat :: p < 4 * quads ==> xmm[p] == Shifted(LaneAt(inp, i, p), k)
  }

  /** `_mm_loadu_si128`, `_mm256_loadu_si256`. */
  method LoadLanes(inp: seq<bv8>, i: nat, quads: nat) returns (xmm: seq<bv16>)
    requires At(i, 8, 8 * quads) <= |inp|
    ensures ShiftedLanes(inp, i, quads, xmm, 0)
  {
    xmm := [];
    var p := 0;
    while p < 4 * quads
      invariant 0 <= p <= 4 * quads && |xmm| == p
      invariant forall p': nat :: p' < p ==> xmm[p'] == Shifted(LaneAt(inp, i, p'), 0)
    {
      xmm := xmm + [LaneAt(inp, i, p)];
      p := p + 1;
    }
  }

  /** `_mm_slli_epi16(xmm, 1)`. */
  method ShiftLanes(ghost inp: seq<bv8>, ghost i: nat, quads: nat, xmm: seq<bv16>, ghost k: nat) returns (r: seq<bv16>)
    requires At(i, 8, 8 * quads) <= |inp| && k < 8 && ShiftedLanes(inp, i, quads, xmm, k)
    ensures k < 7 ==> ShiftedLanes(inp, i, quads, r, k + 1)
  {
    r := [];
    var p := 0;
    while p < 4 * quads
      invariant 0 <= p <= 4 * quads && |r| == p
      invariant k < 7 ==> forall p': nat :: p' < p ==> r[p'] == Shifted(LaneAt(inp, i, p'), k + 1)
    {
      if k < 7 {
        ShiftOnce(LaneAt(inp, i, p), k);
      }
      r := r + [xmm[p] << 1];
      p := p + 1;
    }
  }

  /** One byte of `_mm_movemask_epi8`. */
  method MoveMask(inp: seq<bv8>, i: nat, quads: nat, g: nat, k: nat, xmm: seq<bv16>) returns (bt: bv8)
    requires At(i, 8, 8 * quads) <= |inp| && g < quads && k < 8
    requires ShiftedLanes(inp, i, quads, xmm, k)
    ensures At(i + g, 8, 8) <= |inp| && bt == Byte(TransBit8x8(QuadAt(inp, i + g)), 7 - k)
  {
    bt := MoveMaskByte(xmm[4 * g], xmm[4 * g + 1], xmm[4 * g + 2], xmm[4 * g + 3]);
    SameLanes(inp, i, quads, g, k, xmm, bt);
    MaskIsRow(inp, i + g, k, bt);
  }

  lemma SameLanes(inp: seq<bv8>, i: nat, quads: nat, g: nat, k: nat, xmm: seq<bv16>, bt: bv8)
    requires At(i, 8, 8 * quads) <= |inp| && g < quads && k < 8
    requires ShiftedLanes(inp, i, quads, xmm, k)
    requires bt == MoveMaskByte(xmm[4 * g], xmm[4 * g + 1], xmm[4 * g + 2], xmm[4 * g + 3])
    ensures IsMask(inp, i + g, k, bt)
  {
    var q := inp[At(i + g, 8, 0)..At(i + g, 8, 8)];
    assert q[0] == inp[8 * i + 2 * (4 * g)] && q[1] == inp[8 * i + 2 * (4 * g) + 1];
    assert q[2] == inp[8 * i + 2 * (4 * g + 1)] && q[3] == inp[8 * i + 2 * (4 * g + 1) + 1];
    assert q[4] == inp[8 * i + 2 * (4 * g + 2)] && q[5] == inp[8 * i + 2 * (4 * g + 2) + 1];
    assert q[6] == inp[8 * i + 2 * (4 * g + 3)] && q[7] == inp[8 * i + 2 * (4 * g + 3) + 1];
  }

  predicate IsMask(inp: seq<bv8>, i: nat, k: nat, bt: bv8)
    requires k < 8
  {
    At(i, 8, 8) <= |inp| && bt == ShiftedMask(inp[At(i, 8, 0)..At(i, 8, 8)], k)
  }

  lemma MaskIsRow(inp: seq<bv8>, i: nat, k: nat, bt: bv8)
    requires k < 8 && IsMask(inp, i, k, bt)
    ensures bt == Byte(TransBit8x8(QuadAt(inp, i)), 7 - k)
  {
    MoveMaskIsRow(inp, i, k);
  }

  /** `bshuf_trans_bit_byte_SSE` (two quadwords to a register) and `bshuf_trans_bit_byte_AVX` (four). */
  method TransBitByteMoveMask(inp: seq<bv8>, out: array<bv8>, nrow: nat, quads: nat)
    requires |inp| == 8 * nrow == out.Length && (quads == 2 || quads == 4)
    modifies out
    ensures BitTransposed(inp, out[..], nrow)
  {
    MoveMaskRegisters(inp, out, nrow, quads);
    TransBitByteRemainder(inp, out, nrow, WholeRegisters(nrow, quads));
  }

  /** The quadwords that fill whole registers: `nbyte - nbyte % 16`, `nbyte - nbyte % 32`. */
  function WholeRegisters(nrow: nat, quads: nat): (n: nat)
    requires quads == 2 || quads == 4
    ensures n <= nrow
  {
    nrow - if quads == 2 then nrow % 2 else nrow % 4
  }

  /** r registers of quadwords have been done and no further one fits. */
  lemma AllRegisters(r: nat, ii: nat, nrow: nat, quads: nat)
    requires quads == 2 || quads == 4
    requires ii <= nrow < ii + quads && ii == if quads == 2 then 2 * r else 4 * r
    ensures ii == WholeRegisters(nrow, quads)
  {
  }

  method MoveMaskRegisters(inp: seq<bv8>, out: array<bv8>, nrow: nat, quads: nat)
    requires |inp| == 8 * nrow == out.Length && (quads == 2 || quads == 4)
    modifies out
    ensures SpreadUpTo(inp, out[..], nrow, WholeRegisters(nrow, quads))
  {
    var ii := 0;
    ghost var r: nat := 0;
    while ii + quads <= nrow
      invariant 0 <= ii <= nrow && ii == if quads == 2 then 2 * r else 4 * r
      invariant SpreadUpTo(inp, out[..], nrow, ii)
    {
      MoveMaskRegister(inp, out, nrow, quads, ii);
      ii := ii + quads;
      r := r + 1;
    }
    AllRegisters(r, ii, nrow, quads);
  }

  method MoveMaskRegister(inp: seq<bv8>, out: array<bv8>, nrow: nat, quads: nat, ii: nat)
    requires |inp| == 8 * nrow == out.Length && ii + quads <= nrow
    requires SpreadUpTo(inp, out[..], nrow, ii)
    modifies out
    ensures SpreadUpTo(inp, out[..], nrow, ii + quads)
  {
    var xmm := LoadLanes(inp, ii, quads);
    var kk := 0;
    while kk < 8
      invariant 0 <= kk <= 8
      invariant kk < 8 ==> ShiftedLanes(inp, ii, quads, xmm, kk)
      invariant forall i: nat, k: nat :: ii <= i < ii + quads && 8 - kk <= k < 8 ==> Spread(inp, out[..], nrow, i, k)
      invariant forall i: nat, k: nat :: i < nrow && k < 8 && Spread(inp, old(out[..]), nrow, i, k) ==>
        Spread(inp, out[..], nrow, i, k)
    {
      StoreMask(inp, out, nrow, quads, ii, kk, xmm);
      xmm := ShiftLanes(inp, ii, quads, xmm, kk);
      kk := kk + 1;
    }
  }

  /** Store all bytes of one movemask result to bit row 7 - kk. */
  method StoreMask(inp: seq<bv8>, out: array<bv8>, nrow: nat, quads: nat, ii: nat, kk: nat, xmm: seq<bv16>)
    requires |inp| == 8 * nrow == out.Length && ii + quads <= nrow && kk < 8
    requires ShiftedLanes(inp, ii, quads, xmm, kk)
    modifies out
    ensures forall i: nat, k: nat :: ii <= i < ii + quads && k == 7 - kk ==> Spread(inp, out[..], nrow, i, k)
    ensures forall i: nat, k: nat :: i < nrow && k < 8 && Spread(inp, old(out[..]), nrow, i, k) ==>
      Spread(inp, out[..], nrow, i, k)
  {
    var g := 0;
    while g < quads
      invariant 0 <= g <= quads
      invariant forall i: nat, k: nat :: ii <= i < ii + g && k == 7 - kk ==> Spread(inp, out[..], nrow, i, k)
      invariant forall i: nat, k: nat :: i < nrow && k < 8 && Spread(inp, old(out[..]), nrow, i, k) ==>
        Spread(inp, out[..], nrow, i, k)
    {
      var bt := MoveMask(inp, ii, quads, g, kk, xmm);
      StoreSpread(inp, out, nrow, ii + g, 7 - kk, bt);
      g := g + 1;
    }
  }

  /** `bshuf_trans_bit_elem_SSE` and `bshuf_trans_bit_elem_AVX`: the same transpose as the scalar driver. */
  method TransBitElemSimd(inp: seq<bv8>, out: array<bv8>, size: nat, es: nat, quads: nat) returns (count: int)
    requires |inp| == size * es == out.Length && (quads == 2 || quads == 4)
    modifies out
    ensures size % 8 != 0 ==> count == -80
    ensures size % 8 == 0 ==> count == size * es && Transpose(inp, out[..], size / 8, es)
  {
    if size % 8 != 0 {
      return -80;
    }
    var nrow := size / 8;
    RowBytes(nrow, es);
    TransByteElemSse(inp, out, size, es);
    ghost var p1 := out[..];
    var tmp := new bv8[size * es];
    TransBitByteMoveMask(out[..], tmp, es * nrow, quads);
    TransElem(tmp[..], out, 8, es, nrow);
    PassesTranspose(inp, p1, tmp[..], out[..], nrow, es);
    count := size * es;
  }

  lemma SameRowByte(inp: seq<bv8>, out: seq<bv8>, out': seq<bv8>, nrow: nat, es: nat, q: nat, j: nat, b: nat)
    requires Transpose(inp, out, nrow, es) && Transpose(inp, out', nrow, es) && q < nrow && j < es && b < 8
    ensures At(At(j, 8, b), nrow, q) < |out| && out[At(At(j, 8, b), nrow, q)] == out'[At(At(j, 8, b), nrow, q)]
  {
    assert BitCarried(inp, out, nrow, es, q, 0, j, b);
    forall c: nat | c < 8
      ensures Bit(out[At(At(j, 8, b), nrow, q)], c) == Bit(out'[At(At(j, 8, b), nrow, q)], c)
    {
      assert BitCarried(inp, out, nrow, es, q, c, j, b) && BitCarried(inp, out', nrow, es, q, c, j, b);
    }
    BitsDetermineByte(out[At(At(j, 8, b), nrow, q)], out'[At(At(j, 8, b), nrow, q)]);
  }

  /** Whatever form computes it, the shuffled block is the same. */
  lemma TransposeIsUnique(inp: seq<bv8>, out: seq<bv8>, out': seq<bv8>, nrow: nat, es: nat)
    requires Transpose(inp, out, nrow, es) && Transpose(inp, out', nrow, es)
    ensures out == out'
  {
    RowBytes(nrow, es);
    forall k | 0 <= k < |out|
      ensures out[k] == out'[k]
    {
      var r, q := AtSurjective(k, 8 * es, nrow);
      var j, b := AtSurjective(r, es, 8);
      SameRowByte(inp, out, out', nrow, es, q, j, b);
    }
  }
}
