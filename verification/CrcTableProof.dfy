/** Each table entry is what eight division steps make of its index. */
module CrcTableProof {
  import opened CrcTables
  import opened Crc

  /** The four bytes of a remainder, lowest first. */
  function Join(b0: bv8, b1: bv8, b2: bv8, b3: bv8): bv32 {
    (b0 as bv32) | ((b1 as bv32) << 8) | ((b2 as bv32) << 16) | ((b3 as bv32) << 24)
  }

  function Octet(c: bv32): bv32 {
    Bit(Bit(Bit(Bit(Bit(Bit(Bit(Bit(c))))))))
  }

  lemma OctetIsSteps(c: bv32)
    ensures Octet(c) == Steps(8, c)
  {
    hide Bit;
    var c1 := Bit(c);
    var c2 := Bit(c1);
    var c3 := Bit(c2);
    var c4 := Bit(c3);
    var c5 := Bit(c4);
    var c6 := Bit(c5);
    var c7 := Bit(c6);
    assert Steps(8, c) == Steps(7, c1);
    assert Steps(7, c1) == Steps(6, c2);
    assert Steps(6, c2) == Steps(5, c3);
    assert Steps(5, c3) == Steps(4, c4);
    assert Steps(4, c4) == Steps(3, c5);
    assert Steps(3, c5) == Steps(2, c6);
    assert Steps(2, c6) == Steps(1, c7);
  }

  // ------------------------------------------------- entries with half an index

  /** The entries with a high half of 0, and those with a low half of 0. */
  lemma LowEntry(i: bv8)
    requires i < 0x10
    ensures Join(Table0(i), Table1(i), Table2(i), Table3(i)) == Octet(Widen(i))
  {
  }

  lemma HighEntry(i: bv8)
    requires i & 0x0F == 0 && i < 0x80
    ensures Join(Table0(i), Table1(i), Table2(i), Table3(i)) == Octet(Widen(i))
  {
  }

  lemma TopEntry(i: bv8)
    requires i & 0x0F == 0 && i >= 0x80
    ensures Join(Table0(i), Table1(i), Table2(i), Table3(i)) == Octet(Widen(i))
  {
  }

  // -------------------------------------------------- the two halves add up

  function Xor128(a: bv128, b: bv128): bv128 {
    a ^ b
  }

  /** The same byte sixteen times. */
  function Spread(b: bv8): bv128 {
    var w := b as bv128;
    var w2 := w | (w << 8);
    var w4 := w2 | (w2 << 16);
    var w8 := w4 | (w4 << 32);
    w8 | (w8 << 64)
  }

  function LowHalf(i: bv8): bv8 {
    i & 0x0F
  }

  function HighHalf(i: bv8): bv8 {
    i & 0xF0
  }

  function RowOf(i: bv8): bv8 {
    i >> 4
  }

  lemma PickXorPlain(r: bv128, s: bv128, i: bv8)
    ensures Pick(r ^ s, i) == Pick(r, i) ^ Pick(s, i)
  {
  }

  lemma PickXor(r: bv128, s: bv128, i: bv8)
    ensures Pick(Xor128(r, s), i) == Xor8(Pick(r, i), Pick(s, i))
  {
    hide Pick;
    PickXorPlain(r, s, i);
  }

  lemma PickSpread(b: bv8, i: bv8)
    ensures Pick(Spread(b), i) == b
  {
  }

  lemma PickHalves(r: bv128, i: bv8)
    ensures Pick(r, LowHalf(i)) == Pick(r, i) && Pick(r, HighHalf(i)) == Pick(r, 0)
  {
  }

  lemma HalfRows(i: bv8)
    ensures RowOf(LowHalf(i)) == 0 && RowOf(HighHalf(i)) == RowOf(i) && RowOf(i) < 0x10
    ensures LowHalf(i) < 0x10 && HighHalf(i) & 0x0F == 0
  {
  }

  lemma RowSplit0(n: bv8)
    requires n < 0x08
    ensures Row0(n) == Xor128(Row0(0), Spread(Pick(Row0(n), 0)))
  {
  }

  lemma RowSplit0Up(n: bv8)
    requires 0x08 <= n < 0x10
    ensures Row0(n) == Xor128(Row0(0), Spread(Pick(Row0(n), 0)))
  {
  }

  lemma RowSplit1(n: bv8)
    requires n < 0x08
    ensures Row1(n) == Xor128(Row1(0), Spread(Pick(Row1(n), 0)))
  {
  }

  lemma RowSplit1Up(n: bv8)
    requires 0x08 <= n < 0x10
    ensures Row1(n) == Xor128(Row1(0), Spread(Pick(Row1(n), 0)))
  {
  }

  lemma RowSplit2(n: bv8)
    requires n < 0x08
    ensures Row2(n) == Xor128(Row2(0), Spread(Pick(Row2(n), 0)))
  {
  }

  lemma RowSplit2Up(n: bv8)
    requires 0x08 <= n < 0x10
    ensures Row2(n) == Xor128(Row2(0), Spread(Pick(Row2(n), 0)))
  {
  }

  lemma RowSplit3(n: bv8)
    requires n < 0x08
    ensures Row3(n) == Xor128(Row3(0), Spread(Pick(Row3(n), 0)))
  {
  }

  lemma RowSplit3Up(n: bv8)
    requires 0x08 <= n < 0x10
    ensures Row3(n) == Xor128(Row3(0), Spread(Pick(Row3(n), 0)))
  {
  }

  lemma RowSplit(n: bv8)
    requires n < 0x10
    ensures Row0(n) == Xor128(Row0(0), Spread(Pick(Row0(n), 0)))
    ensures Row1(n) == Xor128(Row1(0), Spread(Pick(Row1(n), 0)))
    ensures Row2(n) == Xor128(Row2(0), Spread(Pick(Row2(n), 0)))
    ensures Row3(n) == Xor128(Row3(0), Spread(Pick(Row3(n), 0)))
  {
    hide Pick, Spread, Xor128, Row0, Row1, Row2, Row3;
    if n < 0x08 {
      RowSplit0(n);
      RowSplit1(n);
      RowSplit2(n);
      RowSplit3(n);
    } else {
      RowSplit0Up(n);
      RowSplit1Up(n);
      RowSplit2Up(n);
      RowSplit3Up(n);
    }
  }

  /** A row that is the first one with the same byte added everywhere. */
  lemma RowEntry(row: bv128, first: bv128, i: bv8)
    requires row == Xor128(first, Spread(Pick(row, 0)))
    ensures Pick(row, i) == Xor8(Pick(first, LowHalf(i)), Pick(row, HighHalf(i)))
  {
    hide Pick, Spread, Xor8, Xor128, LowHalf, HighHalf;
    PickXor(first, Spread(Pick(row, 0)), i);
    PickSpread(Pick(row, 0), i);
    PickHalves(first, i);
    PickHalves(row, i);
  }

  lemma TableIs(i: bv8)
    ensures Table0(i) == Pick(Row0(RowOf(i)), i) && Table1(i) == Pick(Row1(RowOf(i)), i)
    ensures Table2(i) == Pick(Row2(RowOf(i)), i) && Table3(i) == Pick(Row3(RowOf(i)), i)
  {
    hide Pick, Row0, Row1, Row2, Row3;
  }

  lemma TableSplit(i: bv8)
    ensures Table0(i) == Xor8(Table0(LowHalf(i)), Table0(HighHalf(i)))
    ensures Table1(i) == Xor8(Table1(LowHalf(i)), Table1(HighHalf(i)))
    ensures Table2(i) == Xor8(Table2(LowHalf(i)), Table2(HighHalf(i)))
    ensures Table3(i) == Xor8(Table3(LowHalf(i)), Table3(HighHalf(i)))
  {
    hide Pick, Spread, Xor8, Xor128, LowHalf, HighHalf, RowOf, Row0, Row1, Row2, Row3, Table0, Table1, Table2, Table3;
    var n := RowOf(i);
    HalfRows(i);
    TableIs(i);
    TableIs(LowHalf(i));
    TableIs(HighHalf(i));
    RowSplit(n);
    RowEntry(Row0(n), Row0(0), i);
    RowEntry(Row1(n), Row1(0), i);
    RowEntry(Row2(n), Row2(0), i);
    RowEntry(Row3(n), Row3(0), i);
  }

  lemma IndexSplit(i: bv8)
    ensures Widen(i) == Xor(Widen(LowHalf(i)), Widen(HighHalf(i)))
  {
  }

  lemma JoinSplit(a0: bv8, a1: bv8, a2: bv8, a3: bv8, b0: bv8, b1: bv8, b2: bv8, b3: bv8)
    ensures Join(Xor8(a0, b0), Xor8(a1, b1), Xor8(a2, b2), Xor8(a3, b3)) ==
      Xor(Join(a0, a1, a2, a3), Join(b0, b1, b2, b3))
  {
  }

  lemma TableEntry(i: bv8)
    ensures Join(Table0(i), Table1(i), Table2(i), Table3(i)) == Steps(8, Widen(i))
  {
    hide Table0, Table1, Table2, Table3, Join, Steps, Octet, Widen, Xor, Xor8, LowHalf, HighHalf;
    var l, h := LowHalf(i), HighHalf(i);
    HalfRows(i);
    IndexSplit(i);
    StepsXor(8, Widen(l), Widen(h));
    OctetIsSteps(Widen(l));
    OctetIsSteps(Widen(h));
    LowEntry(l);
    if h < 0x80 {
      HighEntry(h);
    } else {
      TopEntry(h);
    }
    TableSplit(i);
    JoinSplit(Table0(l), Table1(l), Table2(l), Table3(l), Table0(h), Table1(h), Table2(h), Table3(h));
  }
}
