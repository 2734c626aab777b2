/** The SSE and AVX forms of the inverse passes equal the scalar ones (core/bitshuffle_core.c 1152-1314, 1440-1590). */
module BitshuffleInverse {
  import opened Bitshuffle
  import opened BitshufflePasses
  import opened BitshuffleSimd

  // ---------- movemask back into elements ----------

  /** Every byte is where the scalar pass puts it. */
  ghost predicate AllUnspread(inp: seq<bv8>, out: seq<bv8>, nrow: nat, es: nat) {
    forall i: nat, j: nat, k: nat :: i < nrow && j < es && k < 8 ==> Unspread(inp, out, es, i, j, k)
  }

  /** What has been put in place stays there. */
  ghost predicate UnspreadKept(inp: seq<bv8>, before: seq<bv8>, out: seq<bv8>, nrow: nat, es: nat) {
    forall i: nat, j: nat, k: nat :: i < nrow && j < es && k < 8 && Unspread(inp, before, es, i, j, k) ==>
      Unspread(inp, out, es, i, j, k)
  }

  /** The bytes of `quads` neighbouring quadwords of block i lie within the input. */
  lemma RegisterFits(nrow: nat, es: nat, i: nat, j: nat, quads: nat)
    requires i < nrow && j + quads <= es
    ensures At(At(i, es, j), 8, 8 * quads) <= nrow * es * 8
  {
    MulMonotone(i + 1, nrow, es);
    assert (i + 1) * es == i * es + es;
  }

  /** All bytes of one movemask result go to element 7 - kk of block i. */
  method StoreMaskBack(inp: seq<bv8>, out: array<bv8>, nrow: nat, es: nat, quads: nat, i: nat, j: nat, kk: nat,
                       xmm: seq<bv16>)
    requires |inp| == nrow * es * 8 == out.Length && i < nrow && j + quads <= es && kk < 8
    requires At(At(i, es, j), 8, 8 * quads) <= |inp| && ShiftedLanes(inp, At(i, es, j), quads, xmm, kk)
    modifies out
    ensures forall c: nat, k: nat :: j <= c < j + quads && k == 7 - kk ==> Unspread(inp, out[..], es, i, c, k)
    ensures UnspreadKept(inp, old(out[..]), out[..], nrow, es)
  {
    var g := 0;
    while g < quads
      invariant 0 <= g <= quads
      invariant forall c: nat, k: nat :: j <= c < j + g && k == 7 - kk ==> Unspread(inp, out[..], es, i, c, k)
      invariant UnspreadKept(inp, old(out[..]), out[..], nrow, es)
    {
      var bt := MoveMask(inp, At(i, es, j), quads, g, kk, xmm);
      assert At(i, es, j) + g == At(i, es, j + g);
      StoreUnspread(inp, out, nrow, es, i, j + g, 7 - kk, bt);
      g := g + 1;
    }
  }

  /** One register: load, and eight times movemask and shift. */
  method ShuffleRegister(inp: seq<bv8>, out: array<bv8>, nrow: nat, es: nat, quads: nat, i: nat, j: nat)
    requires |inp| == nrow * es * 8 == out.Length && i < nrow && j + quads <= es
    modifies out
    ensures forall c: nat, k: nat :: j <= c < j + quads && k < 8 ==> Unspread(inp, out[..], es, i, c, k)
    ensures UnspreadKept(inp, old(out[..]), out[..], nrow, es)
  {
    RegisterFits(nrow, es, i, j, quads);
    var xmm := LoadLanes(inp, At(i, es, j), quads);
    var kk := 0;
    while kk < 8
      invariant 0 <= kk <= 8 && (kk < 8 ==> ShiftedLanes(inp, At(i, es, j), quads, xmm, kk))
      invariant forall c: nat, k: nat :: j <= c < j + quads && 8 - kk <= k < 8 ==> Unspread(inp, out[..], es, i, c, k)
      invariant UnspreadKept(inp, old(out[..]), out[..], nrow, es)
    {
      StoreMaskBack(inp, out, nrow, es, quads, i, j, kk, xmm);
      xmm := ShiftLanes(inp, At(i, es, j), quads, xmm, kk);
      kk := kk + 1;
    }
  }

  /** `bshuf_shuffle_bit_eightelem_SSE`: block by block; odd element sizes take the scalar path. */
  method ShuffleBitEightElemSse(inp: seq<bv8>, out: array<bv8>, nrow: nat, es: nat)
    requires |inp| == nrow * es * 8 == out.Length
    modifies out
    ensures AllUnspread(inp, out[..], nrow, es)
  {
    if es % 2 != 0 {
      ShuffleBitEightElem(inp, out, nrow, es);
      return;
    }
    var ii := 0;
    while ii < nrow
      invariant 0 <= ii <= nrow
      invariant forall i: nat, j: nat, k: nat :: i < ii && j < es && k < 8 ==> Unspread(inp, out[..], es, i, j, k)
    {
      var jj := 0;
      while jj + 1 < es
        invariant 0 <= jj <= es && jj % 2 == 0
        invariant forall i: nat, j: nat, k: nat :: ((i < ii && j < es) || (i == ii && j < jj)) && k < 8 ==>
          Unspread(inp, out[..], es, i, j, k)
      {
        ShuffleRegister(inp, out, nrow, es, 2, ii, jj);
        jj := jj + 2;
      }
      ii := ii + 1;
    }
  }

  /** `bshuf_shuffle_bit_eightelem_AVX`: register column by register column; other element sizes take the SSE path. */
  method ShuffleBitEightElemAvx(inp: seq<bv8>, out: array<bv8>, nrow: nat, es: nat)
    requires |inp| == nrow * es * 8 == out.Length
    modifies out
    ensures AllUnspread(inp, out[..], nrow, es)
  {
    if es % 4 != 0 {
      ShuffleBitEightElemSse(inp, out, nrow, es);
      return;
    }
    var jj := 0;
    while jj + 3 < es
      invariant 0 <= jj <= es && jj % 4 == 0
      invariant forall i: nat, j: nat, k: nat :: i < nrow && j < jj && k < 8 ==> Unspread(inp, out[..], es, i, j, k)
    {
      RegisterColumn(inp, out, nrow, es, jj);
      jj := jj + 4;
    }
  }

  method RegisterColumn(inp: seq<bv8>, out: array<bv8>, nrow: nat, es: nat, j: nat)
    requires |inp| == nrow * es * 8 == out.Length && j + 4 <= es
    modifies out
    ensures forall i: nat, c: nat, k: nat :: i < nrow && j <= c < j + 4 && k < 8 ==> Unspread(inp, out[..], es, i, c, k)
    ensures UnspreadKept(inp, old(out[..]), out[..], nrow, es)
  {
    var ii := 0;
    while ii < nrow
      invariant 0 <= ii <= nrow
      invariant forall i: nat, c: nat, k: nat :: i < ii && j <= c < j + 4 && k < 8 ==>
        Unspread(inp, out[..], es, i, c, k)
      invariant UnspreadKept(inp, old(out[..]), out[..], nrow, es)
    {
      ShuffleRegister(inp, out, nrow, es, 4, ii, j);
      ii := ii + 1;
    }
  }

  // ---------- unpacking eight bit rows, sixteen bytes at a time ----------

  /** `_mm_unpacklo_epi16`. */
  function UnpackLo16(a: Register, b: Register): Register {
    R(a.b0, a.b1, b.b0, b.b1, a.b2, a.b3, b.b2, b.b3,
      a.b4, a.b5, b.b4, b.b5, a.b6, a.b7, b.b6, b.b7)
  }

  /** `_mm_unpackhi_epi16`. */
  function UnpackHi16(a: Register, b: Register): Register {
    R(a.b8, a.b9, b.b8, b.b9, a.b10, a.b11, b.b10, b.b11,
      a.b12, a.b13, b.b12, b.b13, a.b14, a.b15, b.b14, b.b15)
  }

  /** Register r after the three rounds of unpacks on eight loaded rows. */
  function RowNetwork(rows: seq<Register>, r: nat): Register
    requires |rows| == 8 && r < 8
  {
    var a1, b1 := UnpackLo8(rows[0], rows[1]), UnpackLo8(rows[2], rows[3]);
    var c1, d1 := UnpackLo8(rows[4], rows[5]), UnpackLo8(rows[6], rows[7]);
    var e1, f1 := UnpackHi8(rows[0], rows[1]), UnpackHi8(rows[2], rows[3]);
    var g1, h1 := UnpackHi8(rows[4], rows[5]), UnpackHi8(rows[6], rows[7]);
    match r
    case 0 => UnpackLo32(UnpackLo16(a1, b1), UnpackLo16(c1, d1))
    case 1 => UnpackHi32(UnpackLo16(a1, b1), UnpackLo16(c1, d1))
    case 2 => UnpackLo32(UnpackHi16(a1, b1), UnpackHi16(c1, d1))
    case 3 => UnpackHi32(UnpackHi16(a1, b1), UnpackHi16(c1, d1))
    case 4 => UnpackLo32(UnpackLo16(e1, f1), UnpackLo16(g1, h1))
    case 5 => UnpackHi32(UnpackLo16(e1, f1), UnpackLo16(g1, h1))
    case 6 => UnpackLo32(UnpackHi16(e1, f1), UnpackHi16(g1, h1))
    case _ => UnpackHi32(UnpackHi16(e1, f1), UnpackHi16(g1, h1))
  }

  /** Byte 2 * r of all eight rows, then byte 2 * r + 1. */
  function TwoColumns(rows: seq<Register>, r: nat): Register
    requires |rows| == 8 && r < 8
  {
    match r
    case 0 => R(rows[0].b0, rows[1].b0, rows[2].b0, rows[3].b0, rows[4].b0, rows[5].b0, rows[6].b0, rows[7].b0,
                rows[0].b1, rows[1].b1, rows[2].b1, rows[3].b1, rows[4].b1, rows[5].b1, rows[6].b1, rows[7].b1)
    case 1 => R(rows[0].b2, rows[1].b2, rows[2].b2, rows[3].b2, rows[4].b2, rows[5].b2, rows[6].b2, rows[7].b2,
                rows[0].b3, rows[1].b3, rows[2].b3, rows[3].b3, rows[4].b3, rows[5].b3, rows[6].b3, rows[7].b3)
    case 2 => R(rows[0].b4, rows[1].b4, rows[2].b4, rows[3].b4, rows[4].b4, rows[5].b4, rows[6].b4, rows[7].b4,
                rows[0].b5, rows[1].b5, rows[2].b5, rows[3].b5, rows[4].b5, rows[5].b5, rows[6].b5, rows[7].b5)
    case 3 => R(rows[0].b6, rows[1].b6, rows[2].b6, rows[3].b6, rows[4].b6, rows[5].b6, rows[6].b6, rows[7].b6,
                rows[0].b7, rows[1].b7, rows[2].b7, rows[3].b7, rows[4].b7, rows[5].b7, rows[6].b7, rows[7].b7)
    case 4 => R(rows[0].b8, rows[1].b8, rows[2].b8, rows[3].b8, rows[4].b8, rows[5].b8, rows[6].b8, rows[7].b8,
                rows[0].b9, rows[1].b9, rows[2].b9, rows[3].b9, rows[4].b9, rows[5].b9, rows[6].b9, rows[7].b9)
    case 5 => R(rows[0].b10, rows[1].b10, rows[2].b10, rows[3].b10, rows[4].b10, rows[5].b10, rows[6].b10, rows[7].b10,
                rows[0].b11, rows[1].b11, rows[2].b11, rows[3].b11, rows[4].b11, rows[5].b11, rows[6].b11, rows[7].b11)
    case 6 => R(rows[0].b12, rows[1].b12, rows[2].b12, rows[3].b12, rows[4].b12, rows[5].b12, rows[6].b12, rows[7].b12,
                rows[0].b13, rows[1].b13, rows[2].b13, rows[3].b13, rows[4].b13, rows[5].b13, rows[6].b13, rows[7].b13)
    case _ => R(rows[0].b14, rows[1].b14, rows[2].b14, rows[3].b14, rows[4].b14, rows[5].b14, rows[6].b14, rows[7].b14,
                rows[0].b15, rows[1].b15, rows[2].b15, rows[3].b15, rows[4].b15, rows[5].b15, rows[6].b15, rows[7].b15)
  }

  lemma NetworkLow(rows: seq<Register>, r: nat)
    requires |rows| == 8 && r < 4
    ensures RowNetwork(rows, r) == TwoColumns(rows, r)
  {
    assert r == 0 || r == 1 || r == 2 || r == 3;
  }

  lemma NetworkHigh(rows: seq<Register>, r: nat)
    requires |rows| == 8 && 4 <= r < 8
    ensures RowNetwork(rows, r) == TwoColumns(rows, r)
  {
    assert r == 4 || r == 5 || r == 6 || r == 7;
  }

  lemma TwoColumnsLane(rows: seq<Register>, r: nat, h: nat, k: nat)
    requires |rows| == 8 && r < 8 && h < 2 && k < 8
    ensures Lane(TwoColumns(rows, r), 8 * h + k) == Lane(rows[k], 2 * r + h)
  {
    assert k == 0 || k == 1 || k == 2 || k == 3 || k == 4 || k == 5 || k == 6 || k == 7;
    if h == 0 {
      assert 8 * h + k == k;
    } else {
      assert h == 1;
    }
  }

  /** Lane 8 * h + k of register r is byte 2 * r + h of row k. */
  lemma RowNetworkLane(rows: seq<Register>, r: nat, h: nat, k: nat)
    requires |rows| == 8 && r < 8 && h < 2 && k < 8
    ensures Lane(RowNetwork(rows, r), 8 * h + k) == Lane(rows[k], 2 * r + h)
  {
    if r < 4 {
      NetworkLow(rows, r);
    } else {
      NetworkHigh(rows, r);
    }
    TwoColumnsLane(rows, r, h, k);
  }

  // ---------- bytes of bit rows back into blocks ----------

  ghost predicate AllGathered(inp: seq<bv8>, out: seq<bv8>, nrow: nat, es: nat) {
    forall i: nat, j: nat, k: nat :: i < nrow && j < es && k < 8 ==> Gathered(inp, out, nrow, es, i, j, k)
  }

  ghost predicate GatheredKept(inp: seq<bv8>, before: seq<bv8>, out: seq<bv8>, nrow: nat, es: nat) {
    forall i: nat, j: nat, k: nat :: i < nrow && j < es && k < 8 && Gathered(inp, before, nrow, es, i, j, k) ==>
      Gathered(inp, out, nrow, es, i, j, k)
  }

  predicate LaneLoaded(inp: seq<bv8>, bitRow: nat, nrow: nat, i: nat, row: Register, c: nat)
    requires c < 16
  {
    At(bitRow, nrow, i + c) < |inp| && Lane(row, c) == inp[At(bitRow, nrow, i + c)]
  }

  /** Row k holds bytes i to i + 15 of bit row (j, k). */
  predicate RowLoaded(inp: seq<bv8>, nrow: nat, i: nat, j: nat, k: nat, row: Register) {
    forall c: nat :: c < 16 ==> LaneLoaded(inp, At(j, 8, k), nrow, i, row, c)
  }

  predicate RowsLoaded(inp: seq<bv8>, nrow: nat, i: nat, j: nat, rows: seq<Register>) {
    |rows| == 8 && forall k: nat :: k < 8 ==> RowLoaded(inp, nrow, i, j, k, rows[k])
  }

  lemma LoadedLane(m: seq<bv8>, at: nat, c: nat)
    requires at + 16 <= |m| && c < 16
    ensures Lane(LoadRegister(m, at), c) == m[at + c]
  {
    if c < 8 {
      assert c == 0 || c == 1 || c == 2 || c == 3 || c == 4 || c == 5 || c == 6 || c == 7;
    } else {
      assert c == 8 || c == 9 || c == 10 || c == 11 || c == 12 || c == 13 || c == 14 || c == 15;
    }
  }

  lemma LoadedRow(inp: seq<bv8>, nrow: nat, i: nat, j: nat, k: nat, row: Register)
    requires k < 8 && At(At(j, 8, k), nrow, i) + 16 <= |inp| && row == LoadRegister(inp, At(At(j, 8, k), nrow, i))
    ensures RowLoaded(inp, nrow, i, j, k, row)
  {
    var at := At(At(j, 8, k), nrow, i);
    forall c: nat | c < 16
      ensures LaneLoaded(inp, At(j, 8, k), nrow, i, row, c)
    {
      NextColumn(At(j, 8, k), nrow, i, c);
      LoadedLane(inp, at, c);
    }
  }

  lemma NextColumn(row: nat, width: nat, i: nat, c: nat)
    ensures At(row, width, i + c) == At(row, width, i) + c
  {
  }

  method LoadRow(inp: seq<bv8>, nrow: nat, es: nat, i: nat, j: nat, k: nat) returns (row: Register)
    requires |inp| == nrow * es * 8 && i + 16 <= nrow && j < es && k < 8
    ensures RowLoaded(inp, nrow, i, j, k, row)
  {
    GatheredBounds(nrow, es, i + 15, j, k);
    NextColumn(At(j, 8, k), nrow, i, 15);
    row := LoadRegister(inp, At(At(j, 8, k), nrow, i));
    LoadedRow(inp, nrow, i, j, k, row);
  }

  method LoadRows(inp: seq<bv8>, nrow: nat, es: nat, i: nat, j: nat) returns (rows: seq<Register>)
    requires |inp| == nrow * es * 8 && i + 16 <= nrow && j < es
    ensures RowsLoaded(inp, nrow, i, j, rows)
  {
    rows := [];
    var k := 0;
    while k < 8
      invariant 0 <= k <= 8 && |rows| == k && forall k': nat :: k' < k ==> RowLoaded(inp, nrow, i, j, k', rows[k'])
    {
      var row := LoadRow(inp, nrow, es, i, j, k);
      rows := rows + [row];
      k := k + 1;
    }
  }

  /** The eight bytes of a half are those of block i, byte j. */
  predicate BytesOf(inp: seq<bv8>, nrow: nat, i: nat, j: nat, bytes: seq<bv8>) {
    |bytes| == 8 && forall k: nat :: k < 8 ==>
      At(At(j, 8, k), nrow, i) < |inp| && bytes[k] == inp[At(At(j, 8, k), nrow, i)]
  }

  function Half(r: Register, h: nat): (bytes: seq<bv8>)
    requires h < 2
    ensures |bytes| == 8
  {
    if h == 0 then [r.b0, r.b1, r.b2, r.b3, r.b4, r.b5, r.b6, r.b7]
    else [r.b8, r.b9, r.b10, r.b11, r.b12, r.b13, r.b14, r.b15]
  }

  lemma HalfLane(r: Register, h: nat, k: nat)
    requires h < 2 && k < 8
    ensures Half(r, h)[k] == Lane(r, 8 * h + k)
  {
    if h == 0 {
      LowLane(r, k);
    } else {
      HighLane(r, k);
    }
  }

  lemma LowLane(r: Register, k: nat)
    requires k < 8
    ensures Half(r, 0)[k] == Lane(r, k)
  {
    if k < 4 {
      assert k == 0 || k == 1 || k == 2 || k == 3;
    } else {
      assert k == 4 || k == 5 || k == 6 || k == 7;
    }
  }

  lemma HighLane(r: Register, k: nat)
    requires k < 8
    ensures Half(r, 1)[k] == Lane(r, 8 + k)
  {
    if k < 4 {
      assert k == 0 || k == 1 || k == 2 || k == 3;
    } else {
      assert k == 4 || k == 5 || k == 6 || k == 7;
    }
  }

  /** Half h of register r belongs to block i + 2 * r + h. */
  lemma NetworkBytes(inp: seq<bv8>, nrow: nat, i: nat, j: nat, rows: seq<Register>, r: nat, h: nat)
    requires RowsLoaded(inp, nrow, i, j, rows) && r < 8 && h < 2
    ensures BytesOf(inp, nrow, i + 2 * r + h, j, Half(RowNetwork(rows, r), h))
  {
    forall k: nat | k < 8
      ensures At(At(j, 8, k), nrow, i + 2 * r + h) < |inp|
      ensures Half(RowNetwork(rows, r), h)[k] == inp[At(At(j, 8, k), nrow, i + 2 * r + h)]
    {
      HalfLane(RowNetwork(rows, r), h, k);
      RowNetworkLane(rows, r, h, k);
      assert RowLoaded(inp, nrow, i, j, k, rows[k]);
      assert LaneLoaded(inp, At(j, 8, k), nrow, i, rows[k], 2 * r + h);
    }
  }

  /** `_mm_storel_pi`, `_mm_storeh_pi`: eight bytes of block i. */
  method StoreHalf(inp: seq<bv8>, out: array<bv8>, nrow: nat, es: nat, i: nat, j: nat, bytes: seq<bv8>)
    requires |inp| == nrow * es * 8 == out.Length && i < nrow && j < es && BytesOf(inp, nrow, i, j, bytes)
    modifies out
    ensures forall k: nat :: k < 8 ==> Gathered(inp, out[..], nrow, es, i, j, k)
    ensures GatheredKept(inp, old(out[..]), out[..], nrow, es)
  {
    var k := 0;
    while k < 8
      invariant 0 <= k <= 8 && forall k': nat :: k' < k ==> Gathered(inp, out[..], nrow, es, i, j, k')
      invariant GatheredKept(inp, old(out[..]), out[..], nrow, es)
    {
      StoreGathered(inp, out, nrow, es, i, j, k, bytes[k]);
      k := k + 1;
    }
  }

  /** Block i + d has been stored: the halves before h, and half h of the registers before r. */
  predicate HalfStored(d: nat, h: nat, r: nat) {
    d < 16 && (d % 2 < h || (d % 2 == h && d < 2 * r))
  }

  lemma HalfStoredNext(d: nat, h: nat, r: nat)
    requires h < 2 && r < 8
    ensures HalfStored(d, h, r + 1) <==> HalfStored(d, h, r) || d == 2 * r + h
    ensures HalfStored(d, h, 8) <==> HalfStored(d, h + 1, 0)
    ensures HalfStored(d, 2, 0) <==> d < 16
    ensures !HalfStored(d, 0, 0)
  {
  }

  ghost predicate HalvesSoFar(inp: seq<bv8>, out: seq<bv8>, nrow: nat, es: nat, i: nat, j: nat, h: nat, r: nat) {
    forall c: nat, k: nat :: i <= c && HalfStored(c - i, h, r) && k < 8 ==> Gathered(inp, out, nrow, es, c, j, k)
  }

  lemma HalvesNext(inp: seq<bv8>, before: seq<bv8>, out: seq<bv8>, nrow: nat, es: nat, i: nat, j: nat, h: nat, r: nat,
                   t: nat)
    requires HalvesSoFar(inp, before, nrow, es, i, j, h, r) && GatheredKept(inp, before, out, nrow, es)
    requires i + 16 <= nrow && j < es && h < 2 && r < 8 && t == i + 2 * r + h
    requires forall k: nat :: k < 8 ==> Gathered(inp, out, nrow, es, t, j, k)
    ensures HalvesSoFar(inp, out, nrow, es, i, j, h, r + 1)
  {
    forall c: nat, k: nat | i <= c && HalfStored(c - i, h, r + 1) && k < 8
      ensures Gathered(inp, out, nrow, es, c, j, k)
    {
      HalfStoredNext(c - i, h, r);
      assert c == t || Gathered(inp, before, nrow, es, c, j, k);
    }
  }

  lemma HalfDone(inp: seq<bv8>, out: seq<bv8>, nrow: nat, es: nat, i: nat, j: nat, h: nat)
    requires HalvesSoFar(inp, out, nrow, es, i, j, h, 8) && h < 2
    ensures HalvesSoFar(inp, out, nrow, es, i, j, h + 1, 0)
  {
    forall c: nat, k: nat | i <= c && HalfStored(c - i, h + 1, 0) && k < 8
      ensures Gathered(inp, out, nrow, es, c, j, k)
    {
      HalfStoredNext(c - i, h, 0);
    }
  }

  /** All low halves are stored, then all high ones. */
  method SixteenBlocks(inp: seq<bv8>, out: array<bv8>, nrow: nat, es: nat, i: nat, j: nat)
    requires |inp| == nrow * es * 8 == out.Length && i + 16 <= nrow && j < es
    modifies out
    ensures forall c: nat, k: nat :: i <= c < i + 16 && k < 8 ==> Gathered(inp, out[..], nrow, es, c, j, k)
    ensures GatheredKept(inp, old(out[..]), out[..], nrow, es)
  {
    var rows := LoadRows(inp, nrow, es, i, j);
    var h := 0;
    while h < 2
      invariant 0 <= h <= 2 && HalvesSoFar(inp, out[..], nrow, es, i, j, h, 0)
      invariant GatheredKept(inp, old(out[..]), out[..], nrow, es)
    {
      StoreHalves(inp, out, nrow, es, i, j, rows, h);
      h := h + 1;
    }
    forall c: nat, k: nat | i <= c < i + 16 && k < 8
      ensures Gathered(inp, out[..], nrow, es, c, j, k)
    {
      HalfStoredNext(c - i, 0, 0);
    }
  }

  method StoreHalves(inp: seq<bv8>, out: array<bv8>, nrow: nat, es: nat, i: nat, j: nat, rows: seq<Register>, h: nat)
    requires |inp| == nrow * es * 8 == out.Length && i + 16 <= nrow && j < es && h < 2
    requires RowsLoaded(inp, nrow, i, j, rows) && HalvesSoFar(inp, out[..], nrow, es, i, j, h, 0)
    modifies out
    ensures HalvesSoFar(inp, out[..], nrow, es, i, j, h + 1, 0) && GatheredKept(inp, old(out[..]), out[..], nrow, es)
  {
    var r := 0;
    while r < 8
      invariant 0 <= r <= 8 && HalvesSoFar(inp, out[..], nrow, es, i, j, h, r)
      invariant GatheredKept(inp, old(out[..]), out[..], nrow, es)
    {
      ghost var before := out[..];
      NetworkBytes(inp, nrow, i, j, rows, r, h);
      var t := i + 2 * r + h;
      StoreHalf(inp, out, nrow, es, t, j, Half(RowNetwork(rows, r), h));
      HalvesNext(inp, before, out[..], nrow, es, i, j, h, r, t);
      r := r + 1;
    }
    HalfDone(inp, out[..], nrow, es, i, j, h);
  }

  /** `bshuf_trans_byte_bitrow_SSE`. */
  method TransByteBitrowSse(inp: seq<bv8>, out: array<bv8>, nrow: nat, es: nat)
    requires |inp| == nrow * es * 8 == out.Length
    modifies out
    ensures AllGathered(inp, out[..], nrow, es)
  {
    var ii := 0;
    while ii < es
      invariant 0 <= ii <= es
      invariant forall i: nat, j: nat, k: nat :: i < nrow && j < ii && k < 8 ==>
        Gathered(inp, out[..], nrow, es, i, j, k)
    {
      EightRows(inp, out, nrow, es, ii);
      ii := ii + 1;
    }
  }

  /** Eight bit rows: sixteen bytes at a time, and one by one what is left. */
  method EightRows(inp: seq<bv8>, out: array<bv8>, nrow: nat, es: nat, j: nat)
    requires |inp| == nrow * es * 8 == out.Length && j < es
    modifies out
    ensures forall i: nat, k: nat :: i < nrow && k < 8 ==> Gathered(inp, out[..], nrow, es, i, j, k)
    ensures GatheredKept(inp, old(out[..]), out[..], nrow, es)
  {
    var jj := 0;
    while jj + 15 < nrow
      invariant 0 <= jj <= nrow && jj % 16 == 0
      invariant forall i: nat, k: nat :: i < jj && k < 8 ==> Gathered(inp, out[..], nrow, es, i, j, k)
      invariant GatheredKept(inp, old(out[..]), out[..], nrow, es)
    {
      SixteenBlocks(inp, out, nrow, es, jj, j);
      jj := jj + 16;
    }
    jj := nrow - nrow % 16;
    while jj < nrow
      invariant nrow - nrow % 16 <= jj <= nrow
      invariant forall i: nat, k: nat :: i < jj && k < 8 ==> Gathered(inp, out[..], nrow, es, i, j, k)
      invariant GatheredKept(inp, old(out[..]), out[..], nrow, es)
    {
      OneBlock(inp, out, nrow, es, jj, j);
      jj := jj + 1;
    }
  }

  method OneBlock(inp: seq<bv8>, out: array<bv8>, nrow: nat, es: nat, i: nat, j: nat)
    requires |inp| == nrow * es * 8 == out.Length && i < nrow && j < es
    modifies out
    ensures forall k: nat :: k < 8 ==> Gathered(inp, out[..], nrow, es, i, j, k)
    ensures GatheredKept(inp, old(out[..]), out[..], nrow, es)
  {
    var k := 0;
    while k < 8
      invariant 0 <= k <= 8 && forall k': nat :: k' < k ==> Gathered(inp, out[..], nrow, es, i, j, k')
      invariant GatheredKept(inp, old(out[..]), out[..], nrow, es)
    {
      GatheredBounds(nrow, es, i, j, k);
      StoreGathered(inp, out, nrow, es, i, j, k, inp[At(At(j, 8, k), nrow, i)]);
      k := k + 1;
    }
  }

  // ---------- 32-byte registers ----------

  /** An __m256i: the unpacks work on both halves alike. */
  datatype Ymm = Ymm(lo: Register, hi: Register)

  function YmmUnpackLo64(a: Ymm, b: Ymm): Ymm {
    Ymm(UnpackLo64(a.lo, b.lo), UnpackLo64(a.hi, b.hi))
  }

  function YmmUnpackHi64(a: Ymm, b: Ymm): Ymm {
    Ymm(UnpackHi64(a.lo, b.lo), UnpackHi64(a.hi, b.hi))
  }

  /** Register x of the four that are stored, after the 64-bit unpacks and `_mm256_permute2x128_si256` by 32 or 49. */
  function Permuted(s: seq<Ymm>, x: nat): Ymm
    requires |s| == 4 && x < 4
  {
    var y0, y1 := YmmUnpackLo64(s[0], s[1]), YmmUnpackLo64(s[2], s[3]);
    var y2, y3 := YmmUnpackHi64(s[0], s[1]), YmmUnpackHi64(s[2], s[3]);
    match x
    case 0 => Ymm(y0.lo, y1.lo)
    case 1 => Ymm(y2.lo, y3.lo)
    case 2 => Ymm(y0.hi, y1.hi)
    case _ => Ymm(y2.hi, y3.hi)
  }

  /** Eight bytes of a 32-byte register. */
  function Eighth(y: Ymm, hh: nat): seq<bv8>
    requires hh < 4
  {
    Half(if hh < 2 then y.lo else y.hi, hh % 2)
  }

  /** They are half x % 2 of the x / 2 part of the register unpacked from rows hh. */
  lemma PermutedEighth(s: seq<Ymm>, x: nat, hh: nat)
    requires |s| == 4 && x < 4 && hh < 4
    ensures Eighth(Permuted(s, x), hh) == Half(if x < 2 then s[hh].lo else s[hh].hi, x % 2)
  {
    assert x == 0 || x == 1 || x == 2 || x == 3;
    assert hh == 0 || hh == 1 || hh == 2 || hh == 3;
  }

  /** Both halves of eight 32-byte loads: bytes i to i + 31 of eight bit rows. */
  datatype Loaded = Loaded(lo: seq<Register>, hi: seq<Register>)

  predicate AreLoaded(inp: seq<bv8>, nrow: nat, i: nat, j: nat, rows: Loaded) {
    RowsLoaded(inp, nrow, i, j, rows.lo) && RowsLoaded(inp, nrow, i + 16, j, rows.hi)
  }

  /** `ymm_storeage[mm]`: what the three rounds of unpacks leave in register mm, for four groups of eight rows. */
  function Storage(rows: seq<Loaded>, mm: nat): (s: seq<Ymm>)
    requires |rows| == 4 && mm < 8 && forall hh: nat :: hh < 4 ==> |rows[hh].lo| == 8 && |rows[hh].hi| == 8
    ensures |s| == 4
  {
    [Ymm(RowNetwork(rows[0].lo, mm), RowNetwork(rows[0].hi, mm)),
      Ymm(RowNetwork(rows[1].lo, mm), RowNetwork(rows[1].hi, mm)),
     Ymm(RowNetwork(rows[2].lo, mm), RowNetwork(rows[2].hi, mm)),
       Ymm(RowNetwork(rows[3].lo, mm), RowNetwork(rows[3].hi, mm))]
  }

  ghost predicate FourLoaded(inp: seq<bv8>, nrow: nat, i: nat, j: nat, rows: seq<Loaded>) {
    |rows| == 4 && forall hh: nat :: hh < 4 ==> AreLoaded(inp, nrow, i, j + hh, rows[hh])
  }

  /** Where register x of round mm goes: to block i + 2 * mm + 16 * (x / 2) + x % 2. */
  function Target(mm: nat, x: nat): nat {
    2 * mm + (if x < 2 then 0 else 16) + x % 2
  }

  lemma StorageAt(rows: seq<Loaded>, mm: nat, hh: nat)
    requires |rows| == 4 && mm < 8 && hh < 4 && forall h: nat :: h < 4 ==> |rows[h].lo| == 8 && |rows[h].hi| == 8
    ensures Storage(rows, mm)[hh] == Ymm(RowNetwork(rows[hh].lo, mm), RowNetwork(rows[hh].hi, mm))
  {
    assert hh == 0 || hh == 1 || hh == 2 || hh == 3;
  }

  /** Eight bytes of y are the half register x takes from rows hh. */
  predicate IsEighth(y: Ymm, rows: Loaded, mm: nat, x: nat, hh: nat)
    requires |rows.lo| == 8 && |rows.hi| == 8 && mm < 8 && hh < 4
  {
    Eighth(y, hh) == Half(RowNetwork(if x < 2 then rows.lo else rows.hi, mm), x % 2)
  }

  lemma EighthOfStorage(rows: seq<Loaded>, mm: nat, x: nat, hh: nat)
    requires |rows| == 4 && mm < 8 && x < 4 && hh < 4 && forall h: nat :: h < 4 ==>
      |rows[h].lo| == 8 && |rows[h].hi| == 8
    ensures IsEighth(Permuted(Storage(rows, mm), x), rows[hh], mm, x, hh)
  {
    PermutedEighth(Storage(rows, mm), x, hh);
    StorageAt(rows, mm, hh);
  }

  lemma AllLoaded(inp: seq<bv8>, nrow: nat, i: nat, j: nat, rows: seq<Loaded>)
    requires FourLoaded(inp, nrow, i, j, rows)
    ensures forall h: nat :: h < 4 ==> |rows[h].lo| == 8 && |rows[h].hi| == 8
  {
    forall h: nat | h < 4
      ensures |rows[h].lo| == 8 && |rows[h].hi| == 8
    {
      assert AreLoaded(inp, nrow, i, j + h, rows[h]);
    }
  }

  lemma EighthBytes(inp: seq<bv8>, nrow: nat, i: nat, j: nat, rows: Loaded, mm: nat, x: nat, hh: nat, y: Ymm)
    requires AreLoaded(inp, nrow, i, j, rows) && mm < 8 && x < 4 && hh < 4 && IsEighth(y, rows, mm, x, hh)
    ensures BytesOf(inp, nrow, i + Target(mm, x), j, Eighth(y, hh))
  {
    LoadedBytes(inp, nrow, i, j, rows, mm, x);
  }

  /** The half register x takes from a group of eight rows. */
  lemma LoadedBytes(inp: seq<bv8>, nrow: nat, i: nat, j: nat, rows: Loaded, mm: nat, x: nat)
    requires AreLoaded(inp, nrow, i, j, rows) && mm < 8 && x < 4
    ensures BytesOf(inp, nrow, i + Target(mm, x), j, Half(RowNetwork(if x < 2 then rows.lo else rows.hi, mm), x % 2))
  {
    if x < 2 {
      NetworkBytes(inp, nrow, i, j, rows.lo, mm, x % 2);
    } else {
      NetworkBytes(inp, nrow, i + 16, j, rows.hi, mm, x % 2);
      assert i + 16 + 2 * mm + x % 2 == i + Target(mm, x);
    }
  }

  method LoadFour(inp: seq<bv8>, nrow: nat, es: nat, i: nat, j: nat) returns (rows: seq<Loaded>)
    requires |inp| == nrow * es * 8 && i + 32 <= nrow && j + 4 <= es
    ensures FourLoaded(inp, nrow, i, j, rows)
  {
    rows := [];
    var hh := 0;
    while hh < 4
      invariant 0 <= hh <= 4 && |rows| == hh && forall h: nat :: h < hh ==> AreLoaded(inp, nrow, i, j + h, rows[h])
    {
      var lo := LoadRows(inp, nrow, es, i, j + hh);
      var hi := LoadRows(inp, nrow, es, i + 16, j + hh);
      rows := rows + [Loaded(lo, hi)];
      hh := hh + 1;
    }
  }

  /** `_mm256_storeu_si256`: bytes j to j + 3 of one block. */
  method StoreYmm(inp: seq<bv8>, out: array<bv8>, nrow: nat, es: nat, i: nat, j: nat, y: Ymm)
    requires |inp| == nrow * es * 8 == out.Length && i < nrow && j + 4 <= es
    requires forall hh: nat :: hh < 4 ==> BytesOf(inp, nrow, i, j + hh, Eighth(y, hh))
    modifies out
    ensures forall c: nat, k: nat :: j <= c < j + 4 && k < 8 ==> Gathered(inp, out[..], nrow, es, i, c, k)
    ensures GatheredKept(inp, old(out[..]), out[..], nrow, es)
  {
    var hh := 0;
    while hh < 4
      invariant 0 <= hh <= 4
      invariant forall c: nat, k: nat :: j <= c < j + hh && k < 8 ==> Gathered(inp, out[..], nrow, es, i, c, k)
      invariant GatheredKept(inp, old(out[..]), out[..], nrow, es)
    {
      StoreHalf(inp, out, nrow, es, i, j + hh, Eighth(y, hh));
      hh := hh + 1;
    }
  }

  /** Block i + d has been stored by the rounds before mm and the registers of mm before x. */
  predicate Stored(d: nat, mm: nat, x: nat) {
    d < 32 && (d % 16 / 2 < mm || (d % 16 / 2 == mm && 2 * (d / 16) + d % 2 < x))
  }

  lemma StoredNext(d: nat, mm: nat, x: nat)
    requires mm < 8 && x < 4
    ensures Stored(d, mm, x + 1) <==> Stored(d, mm, x) || d == Target(mm, x)
  {
    if d < 16 {
      assert d / 16 == 0 && d % 16 == d;
    } else if d < 32 {
      assert d / 16 == 1 && d % 16 == d - 16;
    }
  }

  lemma RoundStored(d: nat, mm: nat)
    ensures Stored(d, mm, 4) <==> Stored(d, mm + 1, 0)
    ensures Stored(d, 8, 0) <==> d < 32
    ensures !Stored(d, 0, 0)
  {
  }

  /** 32 blocks of four bytes each. */
  method ThirtyTwoBlocks(inp: seq<bv8>, out: array<bv8>, nrow: nat, es: nat, i: nat, j: nat)
    requires |inp| == nrow * es * 8 == out.Length && i + 32 <= nrow && j + 4 <= es
    modifies out
    ensures forall d: nat, c: nat, k: nat :: i <= d < i + 32 && j <= c < j + 4 && k < 8 ==>
      Gathered(inp, out[..], nrow, es, d, c, k)
    ensures GatheredKept(inp, old(out[..]), out[..], nrow, es)
  {
    var rows := LoadFour(inp, nrow, es, i, j);
    var mm := 0;
    while mm < 8
      invariant 0 <= mm <= 8 && StoredSoFar(inp, out[..], nrow, es, i, j, mm, 0)
      invariant GatheredKept(inp, old(out[..]), out[..], nrow, es)
    {
      StoreRound(inp, out, nrow, es, i, j, rows, mm);
      mm := mm + 1;
    }
    forall d: nat, c: nat, k: nat | i <= d < i + 32 && j <= c < j + 4 && k < 8
      ensures Gathered(inp, out[..], nrow, es, d, c, k)
    {
      RoundStored(d - i, 8);
    }
  }

  ghost predicate StoredSoFar(inp: seq<bv8>, out: seq<bv8>, nrow: nat, es: nat, i: nat, j: nat, mm: nat, x: nat) {
    forall d: nat, c: nat, k: nat :: i <= d && Stored(d - i, mm, x) && j <= c < j + 4 && k < 8 ==>
      Gathered(inp, out, nrow, es, d, c, k)
  }

  method StoreRound(inp: seq<bv8>, out: array<bv8>, nrow: nat, es: nat, i: nat, j: nat, rows: seq<Loaded>, mm: nat)
    requires |inp| == nrow * es * 8 == out.Length && i + 32 <= nrow && j + 4 <= es && mm < 8
    requires FourLoaded(inp, nrow, i, j, rows) && StoredSoFar(inp, out[..], nrow, es, i, j, mm, 0)
    modifies out
    ensures StoredSoFar(inp, out[..], nrow, es, i, j, mm + 1, 0) && GatheredKept(inp, old(out[..]), out[..], nrow, es)
  {
    var x := 0;
    while x < 4
      invariant 0 <= x <= 4 && StoredSoFar(inp, out[..], nrow, es, i, j, mm, x)
      invariant GatheredKept(inp, old(out[..]), out[..], nrow, es)
    {
      StoreOne(inp, out, nrow, es, i, j, rows, mm, x);
      x := x + 1;
    }
    forall d: nat, c: nat, k: nat | i <= d && Stored(d - i, mm + 1, 0) && j <= c < j + 4 && k < 8
      ensures Gathered(inp, out[..], nrow, es, d, c, k)
    {
      RoundStored(d - i, mm);
    }
  }

  /** Register x of round mm. */
  method RoundRegister(ghost inp: seq<bv8>, ghost nrow: nat, ghost i: nat, ghost j: nat, rows: seq<Loaded>, mm: nat,
                       x: nat)
    returns (y: Ymm)
    requires FourLoaded(inp, nrow, i, j, rows) && mm < 8 && x < 4
    ensures forall hh: nat :: hh < 4 ==> BytesOf(inp, nrow, i + Target(mm, x), j + hh, Eighth(y, hh))
  {
    AllLoaded(inp, nrow, i, j, rows);
    y := TakeRegister(rows, mm, x);
    forall hh: nat | hh < 4
      ensures BytesOf(inp, nrow, i + Target(mm, x), j + hh, Eighth(y, hh))
    {
      assert AreLoaded(inp, nrow, i, j + hh, rows[hh]);
      EighthBytes(inp, nrow, i, j + hh, rows[hh], mm, x, hh, y);
    }
  }

  method TakeRegister(rows: seq<Loaded>, mm: nat, x: nat) returns (y: Ymm)
    requires |rows| == 4 && mm < 8 && x < 4 && forall h: nat :: h < 4 ==> |rows[h].lo| == 8 && |rows[h].hi| == 8
    ensures forall hh: nat :: hh < 4 ==> IsEighth(y, rows[hh], mm, x, hh)
  {
    y := Permuted(Storage(rows, mm), x);
    forall hh: nat | hh < 4
      ensures IsEighth(y, rows[hh], mm, x, hh)
    {
      EighthOfStorage(rows, mm, x, hh);
    }
  }

  method StoreOne(inp: seq<bv8>, out: array<bv8>, nrow: nat, es: nat, i: nat, j: nat, rows: seq<Loaded>, mm: nat,
                  x: nat)
    requires |inp| == nrow * es * 8 == out.Length && i + 32 <= nrow && j + 4 <= es && mm < 8 && x < 4
    requires FourLoaded(inp, nrow, i, j, rows) && StoredSoFar(inp, out[..], nrow, es, i, j, mm, x)
    modifies out
    ensures StoredSoFar(inp, out[..], nrow, es, i, j, mm, x + 1) && GatheredKept(inp, old(out[..]), out[..], nrow, es)
  {
    ghost var before := out[..];
    var y := RoundRegister(inp, nrow, i, j, rows, mm, x);
    StoreYmm(inp, out, nrow, es, i + Target(mm, x), j, y);
    StoredOneMore(inp, before, out[..], nrow, es, i, j, mm, x, i + Target(mm, x));
  }

  lemma StoredOneMore(inp: seq<bv8>, before: seq<bv8>, out: seq<bv8>, nrow: nat, es: nat, i: nat, j: nat, mm: nat,
                      x: nat,
                      t: nat)
    requires StoredSoFar(inp, before, nrow, es, i, j, mm, x) && GatheredKept(inp, before, out, nrow, es)
    requires i + 32 <= nrow && j + 4 <= es && mm < 8 && x < 4 && t == i + Target(mm, x)
    requires forall c: nat, k: nat :: j <= c < j + 4 && k < 8 ==> Gathered(inp, out, nrow, es, t, c, k)
    ensures StoredSoFar(inp, out, nrow, es, i, j, mm, x + 1)
  {
    forall d: nat, c: nat, k: nat | i <= d && Stored(d - i, mm, x + 1) && j <= c < j + 4 && k < 8
      ensures Gathered(inp, out, nrow, es, d, c, k)
    {
      StoredNext(d - i, mm, x);
      assert d == t || Gathered(inp, before, nrow, es, d, c, k);
    }
  }

  /** `bshuf_trans_byte_bitrow_AVX`: element sizes that are no multiple of 4 take the SSE path. */
  method TransByteBitrowAvx(inp: seq<bv8>, out: array<bv8>, nrow: nat, es: nat)
    requires |inp| == nrow * es * 8 == out.Length
    modifies out
    ensures AllGathered(inp, out[..], nrow, es)
  {
    if es % 4 != 0 {
      TransByteBitrowSse(inp, out, nrow, es);
      return;
    }
    var jj := 0;
    while jj + 31 < nrow
      invariant 0 <= jj <= nrow && jj % 32 == 0
      invariant forall i: nat, j: nat, k: nat :: i < jj && j < es && k < 8 ==> Gathered(inp, out[..], nrow, es, i, j, k)
    {
      AllBytesOf32(inp, out, nrow, es, jj);
      jj := jj + 32;
    }
    RemainingBlocks(inp, out, nrow, es, jj);
  }

  method AllBytesOf32(inp: seq<bv8>, out: array<bv8>, nrow: nat, es: nat, i: nat)
    requires |inp| == nrow * es * 8 == out.Length && i + 32 <= nrow && es % 4 == 0
    modifies out
    ensures forall d: nat, j: nat, k: nat :: i <= d < i + 32 && j < es && k < 8 ==>
      Gathered(inp, out[..], nrow, es, d, j, k)
    ensures GatheredKept(inp, old(out[..]), out[..], nrow, es)
  {
    var ii := 0;
    while ii + 3 < es
      invariant 0 <= ii <= es && ii % 4 == 0
      invariant forall d: nat, j: nat, k: nat :: i <= d < i + 32 && j < ii && k < 8 ==>
        Gathered(inp, out[..], nrow, es, d, j, k)
      invariant GatheredKept(inp, old(out[..]), out[..], nrow, es)
    {
      ThirtyTwoBlocks(inp, out, nrow, es, i, ii);
      ii := ii + 4;
    }
  }

  /** The last loop: every bit row, from the last whole 32 bytes on. */
  method RemainingBlocks(inp: seq<bv8>, out: array<bv8>, nrow: nat, es: nat, done: nat)
    requires |inp| == nrow * es * 8 == out.Length && nrow - nrow % 32 <= done
    requires forall i: nat, j: nat, k: nat :: i < done && i < nrow && j < es && k < 8 ==>
      Gathered(inp, out[..], nrow, es, i, j, k)
    modifies out
    ensures AllGathered(inp, out[..], nrow, es)
  {
    var from := nrow - nrow % 32;
    var j := 0;
    while j < es
      invariant 0 <= j <= es
      invariant forall i: nat, j': nat, k: nat :: i < nrow && (i < from || j' < j) && j' < es && k < 8 ==>
        Gathered(inp, out[..], nrow, es, i, j', k)
    {
      var i := from;
      while i < nrow
        invariant from <= i <= nrow
        invariant forall d: nat, j': nat, k: nat ::
          d < nrow && (d < from || j' < j || (j' == j && d < i)) && j' < es && k < 8 ==>
          Gathered(inp, out[..], nrow, es, d, j', k)
      {
        OneBlock(inp, out, nrow, es, i, j);
        i := i + 1;
      }
      j := j + 1;
    }
  }

  // ---------- the drivers ----------

  /** `bshuf_untrans_bit_elem_SSE`, `bshuf_untrans_bit_elem_AVX`: the same preimage as the scalar driver. */
  method UntransBitElemSimd(inp: seq<bv8>, out: array<bv8>, size: nat, es: nat, avx: bool) returns (count: int)
    requires |inp| == size * es == out.Length
    modifies out
    ensures size % 8 != 0 ==> count == -80
    ensures size % 8 == 0 ==> count == size * es && Transpose(out[..], inp, size / 8, es)
  {
    if size % 8 != 0 {
      return -80;
    }
    var nrow := size / 8;
    RowBytes(nrow, es);
    var tmp := new bv8[size * es];
    if avx {
      TransByteBitrowAvx(inp, tmp, nrow, es);
      ShuffleBitEightElemAvx(tmp[..], out, nrow, es);
    } else {
      TransByteBitrowSse(inp, tmp, nrow, es);
      ShuffleBitEightElemSse(tmp[..], out, nrow, es);
    }
    InversePassesTranspose(inp, tmp[..], out[..], nrow, es);
    count := size * es;
  }
}
