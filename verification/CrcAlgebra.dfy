/** What the table-driven CRC computes, and what errors it cannot miss. */
module CrcAlgebra {
  import opened CrcTables
  import opened Crc
  import opened CrcTableProof
  import opened CrcRoutines

  // --------------------------------------------- the table step is division

  lemma JoinParts(b0: bv8, b1: bv8, b2: bv8, b3: bv8, b: bv8)
    ensures High(Xor(Join(b0, b1, b2, b3), Widen(b))) == Join(b1, b2, b3, 0)
    ensures Low(Xor(Join(b0, b1, b2, b3), Widen(b))) == Widen(Xor8(b, b0))
  {
  }

  lemma JoinXor(b1: bv8, b2: bv8, b3: bv8, t0: bv8, t1: bv8, t2: bv8, t3: bv8)
    ensures Xor(Join(b1, b2, b3, 0), Join(t0, t1, t2, t3)) == Join(Xor8(b1, t0), Xor8(b2, t1), Xor8(b3, t2), t3)
  {
  }

  lemma NextIsDivision(c: CrcState, b: bv8)
    ensures Value(Next(c, b)) == Steps(8, Xor(Value(c), Widen(b)))
  {
    hide Table0, Table1, Table2, Table3, Steps, Xor, Xor8, Widen, Join, High, Low;
    var i := Xor8(b, c.b0);
    OctetSplit(Xor(Value(c), Widen(b)));
    JoinParts(c.b0, c.b1, c.b2, c.b3, b);
    TableEntry(i);
    JoinXor(c.b1, c.b2, c.b3, Table0(i), Table1(i), Table2(i), Table3(i));
  }

  lemma {:induction false} UpdateIsRemainder(c: CrcState, s: seq<bv8>)
    ensures Value(Update(c, s)) == Remainder(Value(c), s)
    decreases |s|
  {
    hide Next, Steps, Xor, Widen, Join;
    if s != [] {
      NextIsDivision(c, s[0]);
      UpdateIsRemainder(Next(c, s[0]), s[1..]);
    }
  }

  /** Division of a message, one bit at a time. */
  ghost function Serial(c: bv32, bits: seq<bool>): bv32
    decreases |bits|
  {
    if bits == [] then c else Serial(Bit(Xor(c, if bits[0] then 1 else 0)), bits[1..])
  }

  function Half(b: bv32): bv32 {
    b >> 1
  }

  predicate Odd(b: bv32) {
    b & 1 == 1
  }

  /** The lowest `n` bits, lowest first. */
  ghost function LowBits(n: nat, b: bv32): (r: seq<bool>)
    ensures |r| == n
  {
    if n == 0 then [] else [Odd(b)] + LowBits(n - 1, Half(b))
  }

  /** All bits of a message in the order they are sent. */
  ghost function BitsOf(s: seq<bv8>): seq<bool> {
    if s == [] then [] else LowBits(8, Widen(s[0])) + BitsOf(s[1..])
  }

  function Halved(n: nat, b: bv32): bv32 {
    if n == 0 then b else Halved(n - 1, Half(b))
  }

  lemma SplitLowest(c: bv32, b: bv32)
    ensures Xor(c, b) == Xor(Xor(c, if Odd(b) then 1 else 0), Double(Half(b))) && Below31(Half(b))
  {
    var l: bv32 := if Odd(b) then 1 else 0;
    LowestBit(b, l);
    hide Odd, Half, Double, Below31;
    XorAssociative(c, l, Double(Half(b)));
  }

  lemma LowestBit(b: bv32, l: bv32)
    requires l == if Odd(b) then 1 else 0
    ensures b == Xor(l, Double(Half(b))) && Below31(Half(b))
  {
  }

  lemma XorAssociative(a: bv32, b: bv32, c: bv32)
    ensures Xor(a, Xor(b, c)) == Xor(Xor(a, b), c)
  {
  }

  lemma {:induction false} StepsAreSerial(n: nat, c: bv32, b: bv32)
    ensures Steps(n, Xor(c, b)) == Xor(Serial(c, LowBits(n, b)), Halved(n, b))
  {
    hide Bit, Xor, Odd, Half, Double, Below31;
    if n > 0 {
      SplitLowest(c, b);
      var d: bv32 := Xor(c, if Odd(b) then 1 else 0);
      BitXor(d, Double(Half(b)));
      BitDoubled(Half(b));
      StepsAreSerial(n - 1, Bit(d), Half(b));
      assert LowBits(n, b)[1..] == LowBits(n - 1, Half(b));
    }
  }

  lemma HalvedByte(b: bv8)
    ensures Halved(8, Widen(b)) == 0
  {
    var h := Widen(b);
    var h2 := Half(Half(h));
    var h4 := Half(Half(h2));
    var h6 := Half(Half(h4));
    HalvedTwice(8, h);
    HalvedTwice(6, h2);
    HalvedTwice(4, h4);
    HalvedTwice(2, h6);
    hide Halved, Half, Widen;
    EightHalves(b, h, h2, h4, h6);
  }

  lemma HalvedTwice(n: nat, b: bv32)
    requires n >= 2
    ensures Halved(n, b) == Halved(n - 2, Half(Half(b))) && Halved(0, b) == b
    ensures Halved(0, Half(Half(b))) == Half(Half(b))
  {
    hide Half;
  }

  lemma EightHalves(b: bv8, h: bv32, h2: bv32, h4: bv32, h6: bv32)
    requires h == Widen(b) && h2 == Half(Half(h)) && h4 == Half(Half(h2)) && h6 == Half(Half(h4))
    ensures Half(Half(h6)) == 0
  {
  }

  lemma XorZero(a: bv32)
    ensures Xor(a, 0) == a
  {
  }

  lemma {:induction false} SerialConcat(c: bv32, s: seq<bool>, t: seq<bool>)
    ensures Serial(c, s + t) == Serial(Serial(c, s), t)
    decreases |s|
  {
    hide Bit, Xor;
    if s == [] {
      assert s + t == t;
    } else {
      assert (s + t)[0] == s[0] && (s + t)[1..] == s[1..] + t;
      SerialConcat(Bit(Xor(c, if s[0] then 1 else 0)), s[1..], t);
    }
  }

  /** The table-driven update is the bit-by-bit division of the message. */
  lemma {:induction false} UpdateIsSerial(c: CrcState, s: seq<bv8>)
    ensures Value(Update(c, s)) == Serial(Value(c), BitsOf(s))
    decreases |s|
  {
    hide Next, Steps, Xor, Widen, Join, Serial, Halved, LowBits;
    if s == [] {
      SerialNone(Value(c));
    } else {
      var b := Widen(s[0]);
      NextIsDivision(c, s[0]);
      StepsAreSerial(8, Value(c), b);
      HalvedByte(s[0]);
      XorZero(Serial(Value(c), LowBits(8, b)));
      UpdateIsSerial(Next(c, s[0]), s[1..]);
      SerialConcat(Value(c), LowBits(8, b), BitsOf(s[1..]));
    }
  }

  lemma SerialNone(c: bv32)
    ensures Serial(c, []) == c
  {
  }

  // ---------------------------------------------------------------- linearity

  function XorBytes(s: seq<bv8>, t: seq<bv8>): (r: seq<bv8>)
    requires |s| == |t|
    ensures |r| == |s|
  {
    seq(|s|, i requires 0 <= i < |s| => Xor8(s[i], t[i]))
  }

  lemma XorWiden(c: bv32, d: bv32, a: bv8, b: bv8)
    ensures Xor(Xor(c, d), Widen(Xor8(a, b))) == Xor(Xor(c, Widen(a)), Xor(d, Widen(b)))
  {
    hide Xor, Xor8, Widen;
    WidenXor(a, b);
    XorFour(c, d, Widen(a), Widen(b));
  }

  lemma WidenXor(a: bv8, b: bv8)
    ensures Widen(Xor8(a, b)) == Xor(Widen(a), Widen(b))
  {
  }

  lemma XorFour(c: bv32, d: bv32, a: bv32, b: bv32)
    ensures Xor(Xor(c, d), Xor(a, b)) == Xor(Xor(c, a), Xor(d, b))
  {
    hide Xor;
    XorAssociative(Xor(c, d), a, b);
    XorAssociative(c, d, a);
    XorCommutes(d, a);
    XorAssociative(c, a, d);
    XorAssociative(Xor(c, a), d, b);
  }

  lemma XorCommutes(a: bv32, b: bv32)
    ensures Xor(a, b) == Xor(b, a)
  {
  }

  /** The remainder is linear in state and message together. */
  lemma {:induction false} RemainderLinear(c: bv32, d: bv32, s: seq<bv8>, t: seq<bv8>)
    requires |s| == |t|
    ensures Remainder(Xor(c, d), XorBytes(s, t)) == Xor(Remainder(c, s), Remainder(d, t))
    decreases |s|
  {
    hide Steps, Xor, Xor8, Widen;
    if s != [] {
      var x, y := Xor(c, Widen(s[0])), Xor(d, Widen(t[0]));
      XorWiden(c, d, s[0], t[0]);
      StepsXor(8, x, y);
      assert XorBytes(s, t)[1..] == XorBytes(s[1..], t[1..]);
      RemainderLinear(Steps(8, x), Steps(8, y), s[1..], t[1..]);
    }
  }

  // ---------------------------------------------------------- error detection

  lemma JoinInjective(b0: bv8, b1: bv8, b2: bv8, b3: bv8, d0: bv8, d1: bv8, d2: bv8, d3: bv8)
    requires Join(b0, b1, b2, b3) == Join(d0, d1, d2, d3)
    ensures b0 == d0 && b1 == d1 && b2 == d2 && b3 == d3
  {
  }

  lemma ValueInjective(c: CrcState, d: CrcState)
    requires Value(c) == Value(d)
    ensures c == d
  {
    JoinInjective(c.b0, c.b1, c.b2, c.b3, d.b0, d.b1, d.b2, d.b3);
  }

  lemma XorCancel(a: bv32, b: bv32, c: bv32)
    ensures Xor(a, c) == Xor(b, c) ==> a == b
    ensures Xor(c, a) == Xor(c, b) ==> a == b
  {
  }

  /** Different states stay different whatever follows. */
  lemma {:induction false} RemainderInjective(c: bv32, d: bv32, s: seq<bv8>)
    requires Remainder(c, s) == Remainder(d, s)
    ensures c == d
    decreases |s|
  {
    hide Steps, Xor, Widen;
    if s != [] {
      var x, y := Xor(c, Widen(s[0])), Xor(d, Widen(s[0]));
      RemainderInjective(Steps(8, x), Steps(8, y), s[1..]);
      StepsInjective(8, x, y);
      XorCancel(c, d, Widen(s[0]));
    }
  }

  lemma {:induction false} StepsAdd(n: nat, m: nat, c: bv32)
    ensures Steps(n + m, c) == Steps(m, Steps(n, c))
  {
    hide Bit;
    if n > 0 {
      StepsAdd(n - 1, m, Bit(c));
    }
  }

  lemma PeelJoin(b0: bv8, b1: bv8, b2: bv8, b3: bv8)
    ensures Join(b0, b1, b2, b3) == Xor(Widen(b0), Shifted(Join(b1, b2, b3, 0)))
    ensures Join(b1, b2, b3, 0) < 0x0100_0000
  {
  }

  /** Eight steps consume the lowest byte of a word and move the others down. */
  lemma PeelByte(c: bv32, b0: bv8, b1: bv8, b2: bv8, b3: bv8)
    ensures Steps(8, Xor(c, Join(b0, b1, b2, b3))) == Xor(Steps(8, Xor(c, Widen(b0))), Join(b1, b2, b3, 0))
  {
    var h := Join(b1, b2, b3, 0);
    PeelJoin(b0, b1, b2, b3);
    ShiftedSteps(h);
    hide Steps, Xor, Widen, Join, Shifted;
    XorAssociative(c, Widen(b0), Shifted(h));
    StepsXor(8, Xor(c, Widen(b0)), Shifted(h));
  }

  lemma ShiftedSteps(h: bv32)
    requires h < 0x0100_0000
    ensures Steps(8, Shifted(h)) == h
  {
    hide Steps, Shifted, Doubled, Below31;
    DoubledEight(h);
    StepsDoubled(8, h);
  }

  lemma JoinNothing(b: bv8)
    ensures Join(b, 0, 0, 0) == Widen(b) && Join(0, 0, 0, 0) == 0
  {
  }

  /** Four bytes at once: 32 steps on the state with the whole word added. */
  lemma RemainderWord(c: bv32, w0: bv8, w1: bv8, w2: bv8, w3: bv8)
    ensures Remainder(c, [w0, w1, w2, w3]) == Steps(32, Xor(c, Join(w0, w1, w2, w3)))
  {
    hide Steps, Xor, Widen, Join;
    var c1 := Steps(8, Xor(c, Widen(w0)));
    var c2 := Steps(8, Xor(c1, Widen(w1)));
    var c3 := Steps(8, Xor(c2, Widen(w2)));
    var c4 := Steps(8, Xor(c3, Widen(w3)));
    RemainderFour(c, w0, w1, w2, w3, c1, c2, c3);
    PeelByte(c, w0, w1, w2, w3);
    PeelByte(c1, w1, w2, w3, 0);
    PeelByte(c2, w2, w3, 0, 0);
    PeelByte(c3, w3, 0, 0, 0);
    JoinNothing(w3);
    XorZero(c4);
    StepsAdd(8, 24, Xor(c, Join(w0, w1, w2, w3)));
    StepsAdd(8, 16, Xor(c1, Join(w1, w2, w3, 0)));
    StepsAdd(8, 8, Xor(c2, Join(w2, w3, 0, 0)));
  }

  lemma RemainderFour(c: bv32, w0: bv8, w1: bv8, w2: bv8, w3: bv8, c1: bv32, c2: bv32, c3: bv32)
    requires c1 == Steps(8, Xor(c, Widen(w0))) && c2 == Steps(8, Xor(c1, Widen(w1)))
    requires c3 == Steps(8, Xor(c2, Widen(w2)))
    ensures Remainder(c, [w0, w1, w2, w3]) == Steps(8, Xor(c3, Widen(w3)))
  {
    hide Steps, Xor, Widen;
    var s := [w0, w1, w2, w3];
    assert s[1..] == [w1, w2, w3];
    assert [w1, w2, w3][1..] == [w2, w3];
    assert [w2, w3][1..] == [w3];
    assert Remainder(c3, [w3]) == Steps(8, Xor(c3, Widen(w3)));
    assert Remainder(c2, [w2, w3]) == Remainder(c3, [w3]);
    assert Remainder(c1, [w1, w2, w3]) == Remainder(c2, [w2, w3]);
  }

  lemma {:induction false} RemainderConcat(c: bv32, s: seq<bv8>, t: seq<bv8>)
    ensures Remainder(c, s + t) == Remainder(Remainder(c, s), t)
    decreases |s|
  {
    hide Steps, Xor, Widen;
    if s == [] {
      assert s + t == t;
    } else {
      assert (s + t)[0] == s[0] && (s + t)[1..] == s[1..] + t;
      RemainderConcat(Steps(8, Xor(c, Widen(s[0]))), s[1..], t);
    }
  }

  lemma WordInjective(c: bv32, w: seq<bv8>, x: seq<bv8>)
    requires |w| == |x| == 4 && Remainder(c, w) == Remainder(c, x)
    ensures w == x
  {
    assert w == [w[0], w[1], w[2], w[3]] && x == [x[0], x[1], x[2], x[3]];
    hide Steps, Xor, Widen, Join, Remainder;
    RemainderWord(c, w[0], w[1], w[2], w[3]);
    RemainderWord(c, x[0], x[1], x[2], x[3]);
    var a, b := Join(w[0], w[1], w[2], w[3]), Join(x[0], x[1], x[2], x[3]);
    StepsInjective(32, Xor(c, a), Xor(c, b));
    XorCancel(a, b, c);
    JoinInjective(w[0], w[1], w[2], w[3], x[0], x[1], x[2], x[3]);
  }

  /** A difference confined to four consecutive bytes never goes unnoticed. */
  lemma BurstDetected(c: CrcState, s: seq<bv8>, t: seq<bv8>, k: nat)
    requires |s| == |t| && k <= |s| && s != t
    requires s[..k] == t[..k] && forall i :: k + 4 <= i < |s| ==> s[i] == t[i]
    ensures Update(c, s) != Update(c, t)
  {
    hide Update, Value, Remainder;
    UpdateIsRemainder(c, s);
    UpdateIsRemainder(c, t);
    if Remainder(Value(c), s) == Remainder(Value(c), t) {
      BurstInjective(Value(c), s, t, k);
    }
  }

  lemma BurstInjective(c: bv32, s: seq<bv8>, t: seq<bv8>, k: nat)
    requires |s| == |t| && k <= |s| && Remainder(c, s) == Remainder(c, t)
    requires s[..k] == t[..k] && forall i :: k + 4 <= i < |s| ==> s[i] == t[i]
    ensures s == t
  {
    hide Remainder;
    var z := Zeroes(4);
    var a, b := s + z, t + z;
    RemainderConcat(c, s, z);
    RemainderConcat(c, t, z);
    WindowAgrees(s, t, z, k);
    WindowInjective(c, a[..k], a[k..k + 4], b[k..k + 4], a[k + 4..]);
    assert s == a[..|s|] && t == b[..|s|];
  }

  /** Outside the window of four bytes at `k` the two messages with `z` behind them are the same. */
  lemma WindowAgrees(s: seq<bv8>, t: seq<bv8>, z: seq<bv8>, k: nat)
    requires |s| == |t| && k <= |s| && |z| == 4
    requires s[..k] == t[..k] && forall i :: k + 4 <= i < |s| ==> s[i] == t[i]
    ensures var a, b := s + z, t + z;
            a == a[..k] + a[k..k + 4] + a[k + 4..] && b == a[..k] + b[k..k + 4] + a[k + 4..]
  {
    var a, b := s + z, t + z;
    assert b[..k] == a[..k];
    assert b[k + 4..] == a[k + 4..];
  }

  lemma WindowInjective(c: bv32, p: seq<bv8>, w: seq<bv8>, x: seq<bv8>, q: seq<bv8>)
    requires |w| == |x| == 4 && Remainder(c, p + w + q) == Remainder(c, p + x + q)
    ensures w == x
  {
    hide Remainder;
    RemainderConcat(c, p + w, q);
    RemainderConcat(c, p + x, q);
    RemainderConcat(c, p, w);
    RemainderConcat(c, p, x);
    var d := Remainder(c, p);
    RemainderInjective(Remainder(d, w), Remainder(d, x), q);
    WordInjective(d, w, x);
  }
}
