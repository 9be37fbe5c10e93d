/** The CRC-32 of IEEE Std 802.3, clause 3.2.9, computed by table, and its algebra. */
module Crc {

  // ------------------------------------------------- division, bit by bit

  const POLYNOMIAL: bv32 := 0xEDB88320

  /** One step of the division by the reflected polynomial. */
  function Bit(c: bv32): bv32 {
    if c & 1 == 1 then (c >> 1) ^ POLYNOMIAL else c >> 1
  }

  function Steps(n: nat, c: bv32): bv32 {
    if n == 0 then c else Steps(n - 1, Bit(c))
  }

  function Xor(a: bv32, b: bv32): bv32 {
    a ^ b
  }

  function Xor8(a: bv8, b: bv8): bv8 {
    a ^ b
  }

  function Widen(b: bv8): bv32 {
    b as bv32
  }

  /** The remainder after the bytes `s`, their bits taken lowest first. */
  ghost function Remainder(c: bv32, s: seq<bv8>): bv32
    decreases |s|
  {
    if s == [] then c else Remainder(Steps(8, Xor(c, Widen(s[0]))), s[1..])
  }

  lemma BitXor(x: bv32, y: bv32)
    ensures Bit(Xor(x, y)) == Xor(Bit(x), Bit(y))
  {
    hide Bit;
    BitXorPlain(x, y);
  }

  lemma BitXorPlain(x: bv32, y: bv32)
    ensures Bit(x ^ y) == Bit(x) ^ Bit(y)
  {
    XorShift(x, y);
    LowBit(x, y);
    XorSwap(x >> 1, y >> 1, POLYNOMIAL);
  }

  lemma XorShift(x: bv32, y: bv32)
    ensures (x ^ y) >> 1 == (x >> 1) ^ (y >> 1)
  {
  }

  lemma LowBit(x: bv32, y: bv32)
    ensures (x ^ y) & 1 == (x & 1) ^ (y & 1)
    ensures (x & 1 == 0 || x & 1 == 1) && (y & 1 == 0 || y & 1 == 1)
  {
  }

  lemma XorSwap(a: bv32, b: bv32, p: bv32)
    ensures (a ^ p) ^ (b ^ p) == a ^ b && (a ^ p) ^ b == (a ^ b) ^ p && a ^ (b ^ p) == (a ^ b) ^ p
  {
  }

  /** Division is linear. */
  lemma {:induction false} StepsXor(n: nat, x: bv32, y: bv32)
    ensures Steps(n, Xor(x, y)) == Xor(Steps(n, x), Steps(n, y))
  {
    hide Bit, Xor;
    if n > 0 {
      BitXor(x, y);
      StepsXor(n - 1, Bit(x), Bit(y));
    }
  }

  function Double(h: bv32): bv32 {
    h << 1
  }

  function Doubled(n: nat, h: bv32): bv32 {
    if n == 0 then h else Double(Doubled(n - 1, h))
  }

  /** `n` steps take back `n` doublings that lose no bit. */
  lemma {:induction false} StepsDoubled(n: nat, h: bv32)
    requires forall k :: 0 <= k < n ==> Below31(Doubled(k, h))
    ensures Steps(n, Doubled(n, h)) == h
  {
    hide Bit, Double, Below31;
    if n > 0 {
      BitDoubled(Doubled(n - 1, h));
      StepsDoubled(n - 1, h);
    }
  }

  predicate Below31(h: bv32) {
    h < 0x8000_0000
  }

  lemma BitDoubled(h: bv32)
    requires Below31(h)
    ensures Bit(Double(h)) == h
  {
  }

  lemma DoubleBelow(h: bv32)
    ensures h < 0x0100_0000 ==> Double(h) < 0x0200_0000
    ensures h < 0x0200_0000 ==> Double(h) < 0x0400_0000
    ensures h < 0x0400_0000 ==> Double(h) < 0x0800_0000
    ensures h < 0x0800_0000 ==> Double(h) < 0x1000_0000
    ensures h < 0x1000_0000 ==> Double(h) < 0x2000_0000
    ensures h < 0x2000_0000 ==> Double(h) < 0x4000_0000
    ensures h < 0x4000_0000 ==> Below31(Double(h))
    ensures h < 0x8000_0000 ==> Below31(h)
  {
  }

  lemma EightDoubles(h: bv32)
    ensures Double(Double(Double(Double(Double(Double(Double(Double(h)))))))) == Shifted(h)
  {
  }

  /** A value of 24 bits shifted up by one byte, bit by bit. */
  lemma DoubledEight(h: bv32)
    requires h < 0x0100_0000
    ensures Doubled(8, h) == Shifted(h) && forall k :: 0 <= k < 8 ==> Below31(Doubled(k, h))
  {
    hide Double, Below31, Shifted;
    var d1 := Double(h);
    var d2 := Double(d1);
    var d3 := Double(d2);
    var d4 := Double(d3);
    var d5 := Double(d4);
    var d6 := Double(d5);
    var d7 := Double(d6);
    EightDoubles(h);
    SevenBelow(h, d1, d2, d3, d4, d5, d6, d7);
    DoubledUnrolled(h, d1, d2, d3, d4, d5, d6, d7);
  }

  lemma SevenBelow(h: bv32, d1: bv32, d2: bv32, d3: bv32, d4: bv32, d5: bv32, d6: bv32, d7: bv32)
    requires h < 0x0100_0000
    requires d1 == Double(h) && d2 == Double(d1) && d3 == Double(d2) && d4 == Double(d3)
    requires d5 == Double(d4) && d6 == Double(d5) && d7 == Double(d6)
    ensures Below31(h) && Below31(d1) && Below31(d2) && Below31(d3)
    ensures Below31(d4) && Below31(d5) && Below31(d6) && Below31(d7)
  {
    hide Double, Below31;
    DoubleBelow(h);
    DoubleBelow(d1);
    DoubleBelow(d2);
    DoubleBelow(d3);
    DoubleBelow(d4);
    DoubleBelow(d5);
    DoubleBelow(d6);
    DoubleBelow(d7);
  }

  lemma DoubledUnrolled(h: bv32, d1: bv32, d2: bv32, d3: bv32, d4: bv32, d5: bv32, d6: bv32, d7: bv32)
    requires d1 == Double(h) && d2 == Double(d1) && d3 == Double(d2) && d4 == Double(d3)
    requires d5 == Double(d4) && d6 == Double(d5) && d7 == Double(d6)
    ensures Doubled(0, h) == h && Doubled(1, h) == d1 && Doubled(2, h) == d2 && Doubled(3, h) == d3
    ensures Doubled(4, h) == d4 && Doubled(5, h) == d5 && Doubled(6, h) == d6 && Doubled(7, h) == d7
    ensures Doubled(8, h) == Double(d7)
  {
    hide Double;
  }

  function Shifted(h: bv32): bv32 {
    h << 8
  }

  function High(c: bv32): bv32 {
    c >> 8
  }

  function Low(c: bv32): bv32 {
    c & 0xFF
  }

  lemma HighLow(c: bv32)
    ensures c == Xor(Shifted(High(c)), Low(c)) && High(c) < 0x0100_0000
  {
  }

  /** Eight steps shift the upper bytes down and divide the lowest one. */
  lemma OctetSplit(c: bv32)
    ensures Steps(8, c) == Xor(High(c), Steps(8, Low(c)))
  {
    hide Steps, Doubled, Xor, Shifted, High, Low, Below31;
    HighLow(c);
    StepsXor(8, Shifted(High(c)), Low(c));
    DoubledEight(High(c));
    StepsDoubled(8, High(c));
  }

  /** No step loses anything. */
  lemma BitInjective(x: bv32, y: bv32)
    requires Bit(x) == Bit(y)
    ensures x == y
  {
  }

  lemma {:induction false} StepsInjective(n: nat, x: bv32, y: bv32)
    requires Steps(n, x) == Steps(n, y)
    ensures x == y
  {
    hide Bit;
    if n > 0 {
      StepsInjective(n - 1, Bit(x), Bit(y));
      BitInjective(x, y);
    }
  }
}
