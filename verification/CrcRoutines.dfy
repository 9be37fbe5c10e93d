/** The driver's CRC routines: table look-ups over four bytes of state. */
module CrcRoutines {
  import opened CrcTables
  import opened Crc
  import opened CrcTableProof

  /** The state of the computation as the driver holds it, lowest byte first. */
  datatype CrcState = CrcState(b0: bv8, b1: bv8, b2: bv8, b3: bv8)

  function Value(c: CrcState): bv32 {
    Join(c.b0, c.b1, c.b2, c.b3)
  }

  /** One message byte. */
  function Next(c: CrcState, b: bv8): CrcState {
    var index := Xor8(b, c.b0);
    CrcState(Xor8(c.b1, Table0(index)), Xor8(c.b2, Table1(index)), Xor8(c.b3, Table2(index)), Table3(index))
  }

  function Update(c: CrcState, s: seq<bv8>): CrcState
    decreases |s|
  {
    if s == [] then c else Update(Next(c, s[0]), s[1..])
  }

  function Zeroes(n: nat): (r: seq<bv8>)
    ensures |r| == n
  {
    seq(n, _ => 0)
  }

  lemma {:induction false} UpdateConcat(c: CrcState, s: seq<bv8>, t: seq<bv8>)
    ensures Update(c, s + t) == Update(Update(c, s), t)
    decreases |s|
  {
    hide Next;
    if s == [] {
      assert s + t == t;
    } else {
      assert (s + t)[0] == s[0] && (s + t)[1..] == s[1..] + t;
      UpdateConcat(Next(c, s[0]), s[1..], t);
    }
  }

  /** The bytes from `data` on, one after the other. */
  method CrcUpdate(c: CrcState, data: seq<bv8>) returns (r: CrcState)
    ensures r == Update(c, data)
  {
    hide Next, Xor8, Table0, Table1, Table2, Table3;
    var b0, b1, b2, b3 := c.b0, c.b1, c.b2, c.b3;
    var start := 0;
    while start != |data|
      invariant start <= |data| && Update(CrcState(b0, b1, b2, b3), data[start..]) == Update(c, data)
    {
      ghost var before := CrcState(b0, b1, b2, b3);
      var index := Xor8(data[start], b0);
      b0 := Xor8(b1, Table0(index));
      b1 := Xor8(b2, Table1(index));
      b2 := Xor8(b3, Table2(index));
      b3 := Table3(index);
      NextFields(before, data[start], CrcState(b0, b1, b2, b3));
      assert data[start..][0] == data[start] && data[start..][1..] == data[start + 1..];
      start := start + 1;
    }
    return CrcState(b0, b1, b2, b3);
  }

  lemma NextFields(c: CrcState, b: bv8, d: CrcState)
    requires var index := Xor8(b, c.b0);
             d == CrcState(Xor8(c.b1, Table0(index)), Xor8(c.b2, Table1(index)), Xor8(c.b3, Table2(index)),
                           Table3(index))
    ensures d == Next(c, b)
  {
    hide Xor8, Table0, Table1, Table2, Table3;
  }

  /** `nZeroes` zero bytes without a buffer to read them from. */
  method CrcUpdateZeroes(c: CrcState, nZeroes: nat) returns (r: CrcState)
    ensures r == Update(c, Zeroes(nZeroes))
  {
    hide Next, Xor8, Table0, Table1, Table2, Table3;
    var b0, b1, b2, b3 := c.b0, c.b1, c.b2, c.b3;
    var n: nat := nZeroes;
    while n != 0
      invariant 0 <= n <= nZeroes && Update(CrcState(b0, b1, b2, b3), Zeroes(n)) == Update(c, Zeroes(nZeroes))
    {
      ghost var before := CrcState(b0, b1, b2, b3);
      var index := b0;
      b0 := Xor8(b1, Table0(index));
      b1 := Xor8(b2, Table1(index));
      b2 := Xor8(b3, Table2(index));
      b3 := Table3(index);
      ZeroIndex(before.b0);
      NextFields(before, 0, CrcState(b0, b1, b2, b3));
      assert Zeroes(n)[1..] == Zeroes(n - 1);
      n := n - 1;
    }
    return CrcState(b0, b1, b2, b3);
  }

  lemma ZeroIndex(b: bv8)
    ensures Xor8(0, b) == b
  {
  }
}
