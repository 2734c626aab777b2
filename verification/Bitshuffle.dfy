/** Bits of bytes, and the macro of core/bitshuffle_core.c 87-96 that transposes an 8x8 bit matrix in a quadword. */
module Bitshuffle {

  // ---------- bits of bytes and words ----------

  /** `1 << j` on a byte. */
  function Mask(j: nat): bv8
    requires j < 8
  {
    match j
    case 0 => 1
    case 1 => 2
    case 2 => 4
    case 3 => 8
    case 4 => 16
    case 5 => 32
    case 6 => 64
    case _ => 128
  }

  predicate Bit(b: bv8, j: nat)
    requires j < 8
  {
    b & Mask(j) != 0
  }

  /** A byte is its eight bits. */
  lemma BitsDetermineByte(a: bv8, b: bv8)
    requires forall j: nat :: j < 8 ==> Bit(a, j) == Bit(b, j)
    ensures a == b
  {
    assert Bit(a, 0) == Bit(b, 0) && Bit(a, 1) == Bit(b, 1) && Bit(a, 2) == Bit(b, 2) && Bit(a, 3) == Bit(b, 3);
    assert Bit(a, 4) == Bit(b, 4) && Bit(a, 5) == Bit(b, 5) && Bit(a, 6) == Bit(b, 6) && Bit(a, 7) == Bit(b, 7);
  }

  /** Byte i of a quadword, little-endian: `(uint8_t)(x >> 8 * i)`. */
  function Byte(x: bv64, i: nat): bv8
    requires i < 8
  {
    var shifted := match i
      case 0 => x
      case 1 => x >> 8
      case 2 => x >> 16
      case 3 => x >> 24
      case 4 => x >> 32
      case 5 => x >> 40
      case 6 => x >> 48
      case _ => x >> 56;
    (shifted & 0xFF) as bv8
  }

  /** The quadword stored in eight bytes, little-endian. */
  function Load(b: seq<bv8>): bv64
    requires |b| == 8
  {
    (b[0] as bv64) | ((b[1] as bv64) << 8) | ((b[2] as bv64) << 16) | ((b[3] as bv64) << 24)
    | ((b[4] as bv64) << 32) | ((b[5] as bv64) << 40) | ((b[6] as bv64) << 48) | ((b[7] as bv64) << 56)
  }

  lemma LoadBytes(b: seq<bv8>, i: nat)
    requires |b| == 8 && i < 8
    ensures Byte(Load(b), i) == b[i]
  {
  }

  /** The macro TRANS_BIT_8X8. */
  function TransBit8x8(x0: bv64): bv64 {
    var t1 := (x0 ^ (x0 >> 7)) & 0x00AA00AA00AA00AA;
    var x1 := x0 ^ t1 ^ (t1 << 7);
    var t2 := (x1 ^ (x1 >> 14)) & 0x0000CCCC0000CCCC;
    var x2 := x1 ^ t2 ^ (t2 << 14);
    var t3 := (x2 ^ (x2 >> 28)) & 0x00000000F0F0F0F0;
    x2 ^ t3 ^ (t3 << 28)
  }

  /**
   Columns 0 to 3 (or 4 to 7) of row r of the result are rows 0 to 3 (4 to 7) of column r of the argument, the rows
   being the bytes.
   */
  predicate RowIsColumn(x: bv64, r: nat, upper: bool)
    requires r < 8
  {
    var row := Byte(TransBit8x8(x), r);
    if upper then
      && Bit(row, 4) == Bit(Byte(x, 4), r) && Bit(row, 5) == Bit(Byte(x, 5), r)
      && Bit(row, 6) == Bit(Byte(x, 6), r) && Bit(row, 7) == Bit(Byte(x, 7), r)
    else
      && Bit(row, 0) == Bit(Byte(x, 0), r) && Bit(row, 1) == Bit(Byte(x, 1), r)
      && Bit(row, 2) == Bit(Byte(x, 2), r) && Bit(row, 3) == Bit(Byte(x, 3), r)
  }

  lemma Row0Bit0(x: bv64)
    ensures TransBit8x8(x) & 0x1 == 0 <==> x & 0x1 == 0
  {
  }

  lemma Row0Bit1(x: bv64)
    ensures TransBit8x8(x) & 0x2 == 0 <==> x & 0x100 == 0
  {
  }

  lemma Row0Bit2(x: bv64)
    ensures TransBit8x8(x) & 0x4 == 0 <==> x & 0x10000 == 0
  {
  }

  lemma Row0Bit3(x: bv64)
    ensures TransBit8x8(x) & 0x8 == 0 <==> x & 0x1000000 == 0
  {
  }

  lemma Row0Lower(x: bv64, r: nat)
    requires r == 0
    ensures RowIsColumn(x, r, false)
  {
    Row0Bit0(x);
    Row0Bit1(x);
    Row0Bit2(x);
    Row0Bit3(x);
  }

  lemma Row0Upper(x: bv64, r: nat)
    requires r == 0
    ensures RowIsColumn(x, r, true)
  {
  }

  lemma Row1Lower(x: bv64, r: nat)
    requires r == 1
    ensures RowIsColumn(x, r, false)
  {
    var row := TransBit8x8(x);
    assert row & 0x100 == 0 <==> x & 0x2 == 0;
    assert row & 0x200 == 0 <==> x & 0x200 == 0;
    assert row & 0x400 == 0 <==> x & 0x20000 == 0;
    assert row & 0x800 == 0 <==> x & 0x2000000 == 0;
  }

  lemma Row1Upper(x: bv64, r: nat)
    requires r == 1
    ensures RowIsColumn(x, r, true)
  {
  }

  lemma Row2Lower(x: bv64, r: nat)
    requires r == 2
    ensures RowIsColumn(x, r, false)
  {
  }

  lemma Row2Upper(x: bv64, r: nat)
    requires r == 2
    ensures RowIsColumn(x, r, true)
  {
  }

  lemma Row3Lower(x: bv64, r: nat)
    requires r == 3
    ensures RowIsColumn(x, r, false)
  {
  }

  lemma Row3Upper(x: bv64, r: nat)
    requires r == 3
    ensures RowIsColumn(x, r, true)
  {
  }

  lemma Row4Lower(x: bv64, r: nat)
    requires r == 4
    ensures RowIsColumn(x, r, false)
  {
  }

  lemma Row4Upper(x: bv64, r: nat)
    requires r == 4
    ensures RowIsColumn(x, r, true)
  {
  }

  lemma Row5Lower(x: bv64, r: nat)
    requires r == 5
    ensures RowIsColumn(x, r, false)
  {
  }

  lemma Row5Upper(x: bv64, r: nat)
    requires r == 5
    ensures RowIsColumn(x, r, true)
  {
  }

  lemma Row6Lower(x: bv64, r: nat)
    requires r == 6
    ensures RowIsColumn(x, r, false)
  {
  }

  lemma Row6Upper(x: bv64, r: nat)
    requires r == 6
    ensures RowIsColumn(x, r, true)
  {
  }

  lemma Row7Lower(x: bv64, r: nat)
    requires r == 7
    ensures RowIsColumn(x, r, false)
  {
  }

  lemma Row7Upper(x: bv64, r: nat)
    requires r == 7
    ensures RowIsColumn(x, r, true)
  {
  }

  /** TRANS_BIT_8X8 transposes the 8x8 bit matrix whose rows are the bytes. */
  lemma TransBit8x8Transposes(x: bv64, r: nat, c: nat)
    requires r < 8 && c < 8
    ensures Bit(Byte(TransBit8x8(x), r), c) == Bit(Byte(x, c), r)
  {
    AnyRow(x, r);
    ColumnOfRow(x, r, c);
  }

  lemma AnyRow(x: bv64, r: nat)
    requires r < 8
    ensures RowIsColumn(x, r, false) && RowIsColumn(x, r, true)
  {
    if r == 0 { Row0Lower(x, r); Row0Upper(x, r); }
    else if r == 1 { Row1Lower(x, r); Row1Upper(x, r); }
    else if r == 2 { Row2Lower(x, r); Row2Upper(x, r); }
    else if r == 3 { Row3Lower(x, r); Row3Upper(x, r); }
    else if r == 4 { Row4Lower(x, r); Row4Upper(x, r); }
    else if r == 5 { Row5Lower(x, r); Row5Upper(x, r); }
    else if r == 6 { Row6Lower(x, r); Row6Upper(x, r); }
    else { Row7Lower(x, r); Row7Upper(x, r); }
  }

  lemma ColumnOfRow(x: bv64, r: nat, c: nat)
    requires r < 8 && c < 8 && RowIsColumn(x, r, c >= 4)
    ensures Bit(Byte(TransBit8x8(x), r), c) == Bit(Byte(x, c), r)
  {
    assert c == 0 || c == 1 || c == 2 || c == 3 || c == 4 || c == 5 || c == 6 || c == 7;
  }
}
