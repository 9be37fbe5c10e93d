/** Fixed-width integers, 512-byte blocks and the little-endian fields inside them. */
module Bytes {
  type byte = x: int | 0 <= x < 0x100
  type word = x: int | 0 <= x < 0x1_0000
  type dword = x: int | 0 <= x < 0x1_0000_0000

  const BLOCK_SIZE: int := 512

  type Block = b: seq<byte> | |b| == BLOCK_SIZE witness seq(BLOCK_SIZE, _ => 0)
  type Disk = seq<Block>

  function Min(a: int, b: int): int {
    if a < b then a else b
  }

  /** `len` bytes from offset `off` of a file of `size` bytes on: the sums that the driver forms in 16
      bits stay in range. Only the last block of the file makes it add length and place in the block. */
  predicate InRange16(size: nat, off: nat, len: nat) {
    off % BLOCK_SIZE + len < 0x1_0000 || size > off - off % BLOCK_SIZE + BLOCK_SIZE
  }

  /** The `i`-th 16-bit word of a block. */
  function GetWord(b: Block, i: nat): word
    requires i < 256
  {
    (b[2 * i] as int) + 256 * (b[2 * i + 1] as int)
  }

  lemma GetWordBytes(b: Block, i: nat)
    requires i < 256
    ensures GetWord(b, i) % 256 == b[2 * i] && GetWord(b, i) / 256 == b[2 * i + 1]
  {
  }

  function PutWord(b: Block, i: nat, w: word): (r: Block)
    requires i < 256
  {
    b[2 * i := w % 256][2 * i + 1 := w / 256]
  }

  lemma PutWordGet(b: Block, i: nat, w: word, k: nat)
    requires i < 256 && k < 256
    ensures GetWord(PutWord(b, i, w), k) == if k == i then w else GetWord(b, k)
  {
  }

  lemma WordsDetermineBlock(a: Block, b: Block)
    requires forall i :: 0 <= i < 256 ==> GetWord(a, i) == GetWord(b, i)
    ensures a == b
  {
    forall j | 0 <= j < BLOCK_SIZE
      ensures a[j] == b[j]
    {
      assert GetWord(a, j / 2) == GetWord(b, j / 2);
      assert j == 2 * (j / 2) || j == 2 * (j / 2) + 1;
    }
  }

  /** `b` with the bytes from `at` on replaced by `s`. */
  function Splice<T>(b: seq<T>, at: nat, s: seq<T>): (r: seq<T>)
    requires at + |s| <= |b|
    ensures |r| == |b|
    ensures forall i :: 0 <= i < |b| ==> r[i] == if at <= i < at + |s| then s[i - at] else b[i]
  {
    b[..at] + s + b[at + |s|..]
  }

  /** Bitwise and of two non-negative integers. */
  function BitAnd(a: nat, b: nat): nat {
    if a == 0 || b == 0 then 0
    else 2 * BitAnd(a / 2, b / 2) + (if a % 2 == 1 && b % 2 == 1 then 1 else 0)
  }

  function Pow2(k: nat): (r: nat)
    ensures r > 0
  {
    if k == 0 then 1 else 2 * Pow2(k - 1)
  }

  /** Masking with 2^k - 1 is the remainder modulo 2^k. */
  lemma {:induction false} BitAndMask(x: nat, k: nat)
    ensures BitAnd(x, Pow2(k) - 1) == x % Pow2(k)
  {
    if k > 0 {
      BitAndMask(x / 2, k - 1);
      var p := Pow2(k - 1);
      assert (2 * p - 1) / 2 == p - 1;
      ModHalf(x, p);
    }
  }

  /** Bit `k` of a number is set. */
  predicate HasBit(a: nat, k: nat) {
    (a / Pow2(k)) % 2 == 1
  }

  lemma BitAbove(a: nat, k: nat)
    requires k > 0
    ensures HasBit(a, k) <==> HasBit(a / 2, k - 1)
  {
    var p := Pow2(k - 1);
    HalfThenDivide(a, p);
  }

  lemma HalfThenDivide(a: nat, p: nat)
    requires p > 0
    ensures a / (2 * p) == (a / 2) / p
  {
    ModHalf(a, p);
    var q, r := (a / 2) / p, (a / 2) % p;
    assert a / 2 == q * p + r;
    assert a == q * (2 * p) + (2 * r + a % 2);
    ModUnique(a, q, 2 * p, 2 * r + a % 2);
  }

  /** The bitwise and, bit by bit. */
  lemma {:induction false} BitAndBits(a: nat, b: nat, k: nat)
    ensures HasBit(BitAnd(a, b), k) <==> HasBit(a, k) && HasBit(b, k)
    decreases k
  {
    if k == 0 {
      assert Pow2(0) == 1;
    } else {
      BitAbove(a, k);
      BitAbove(b, k);
      BitAbove(BitAnd(a, b), k);
      BitAndBits(a / 2, b / 2, k - 1);
      BitAndHalf(a, b);
    }
  }

  lemma BitAndHalf(a: nat, b: nat)
    ensures BitAnd(a, b) / 2 == BitAnd(a / 2, b / 2)
  {
  }

  /** Two numbers have a bit in common. */
  ghost predicate Meet(a: nat, b: nat) {
    exists k: nat :: HasBit(a, k) && HasBit(b, k)
  }

  lemma {:induction false} SomeBit(x: nat) returns (k: nat)
    requires x != 0
    ensures HasBit(x, k)
  {
    if x % 2 == 1 {
      k := 0;
      assert Pow2(0) == 1;
    } else {
      k := SomeBit(x / 2);
      k := k + 1;
      BitAbove(x, k);
    }
  }

  lemma ZeroBits(k: nat)
    ensures !HasBit(0, k)
  {
    ModUnique(0, 0, Pow2(k), 0);
  }

  lemma BitAndMeets(a: nat, b: nat)
    ensures BitAnd(a, b) != 0 <==> Meet(a, b)
  {
    hide HasBit, BitAnd;
    if BitAnd(a, b) != 0 {
      var k := SomeBit(BitAnd(a, b));
      BitAndBits(a, b, k);
    }
    if k: nat :| HasBit(a, k) && HasBit(b, k) {
      BitAndBits(a, b, k);
      ZeroBits(k);
    }
  }

  /** Masking with 16 asks for bit 4. */
  lemma BitAndSixteen(a: nat)
    ensures BitAnd(a, 16) != 0 <==> (a / 16) % 2 == 1
  {
    assert BitAnd(a, 16) == 0 <==> BitAnd(a / 2, 8) == 0;
    assert BitAnd(a / 2, 8) == 0 <==> BitAnd(a / 2 / 2, 4) == 0;
    assert BitAnd(a / 4, 4) == 0 <==> BitAnd(a / 4 / 2, 2) == 0;
    assert BitAnd(a / 8, 2) == 0 <==> BitAnd(a / 8 / 2, 1) == 0;
    assert BitAnd(a / 16, 1) == 0 <==> (a / 16) % 2 == 0;
  }

  lemma ModHalf(x: nat, p: nat)
    requires p > 0
    ensures x % (2 * p) == 2 * ((x / 2) % p) + x % 2
  {
    var q, r := (x / 2) / p, (x / 2) % p;
    assert x / 2 == q * p + r;
    assert x == q * (2 * p) + (2 * r + x % 2);
    ModUnique(x, q, 2 * p, 2 * r + x % 2);
  }

  lemma ModUnique(x: nat, q: nat, m: nat, r: nat)
    requires m > 0 && r < m && x == q * m + r
    ensures x / m == q && x % m == r
  {
    var t := x / m;
    assert x == t * m + x % m;
    assert (t - q) * m == r - x % m && (q - t) * m == x % m - r;
    if t > q {
      MulAtLeast(t - q, m);
    } else if t < q {
      MulAtLeast(q - t, m);
    }
  }

  lemma MulAtLeast(a: int, m: nat)
    requires a >= 1
    ensures a * m >= m
  {
    assert (a - 1) * m >= 0;
  }
}
