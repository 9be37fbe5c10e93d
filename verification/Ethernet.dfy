/** The transmitter: every frame is laid out in one fixed buffer, in the bit order the board wants. */
module Ethernet {
  import opened Bytes
  import opened BitmixTable
  import opened Crc
  import opened CrcTables
  import opened CrcRoutines
  import opened CrcCheck

  const TX_BUF_LEN: int := 1024
  const PREAMBLE_LEN: int := 12
  const FCS_LEN: int := 4
  const MAX_SIZE: int := 1007

  // ------------------------------------------------------------- bit order

  /** The bits of each half byte reversed. */
  function NibblesReversed(b: bv8): bv8 {
    ((b & 0x11) << 3) | ((b & 0x22) << 1) | ((b & 0x44) >> 1) | ((b & 0x88) >> 3)
  }

  lemma BitmixLow(b: bv8)
    requires b < 0x80
    ensures Bitmix(b) == NibblesReversed(b)
  {
  }

  lemma BitmixHigh(b: bv8)
    requires b >= 0x80
    ensures Bitmix(b) == NibblesReversed(b)
  {
  }

  lemma BitmixIs(b: bv8)
    ensures Bitmix(b) == NibblesReversed(b)
  {
    hide Bitmix, NibblesReversed;
    if b < 0x80 {
      BitmixLow(b);
    } else {
      BitmixHigh(b);
    }
  }

  lemma NibblesTwice(b: bv8)
    ensures NibblesReversed(NibblesReversed(b)) == b
    ensures NibblesReversed(Not8(b)) == Not8(NibblesReversed(b))
    ensures NibblesReversed(0) == 0
  {
  }

  /** The table is its own inverse and commutes with complement. */
  lemma BitmixTwice(b: bv8)
    ensures Bitmix(Bitmix(b)) == b && Bitmix(Not8(b)) == Not8(Bitmix(b)) && Bitmix(0) == 0
  {
    hide Bitmix, NibblesReversed, Not8;
    BitmixIs(b);
    BitmixIs(Bitmix(b));
    BitmixIs(Not8(b));
    BitmixIs(0);
    NibblesTwice(b);
  }

  function Mixed(s: seq<bv8>): (r: seq<bv8>)
    ensures |r| == |s|
  {
    seq(|s|, i requires 0 <= i < |s| => Bitmix(s[i]))
  }

  lemma MixedTwice(s: seq<bv8>)
    ensures Mixed(Mixed(s)) == s
  {
    hide Bitmix;
    forall i | 0 <= i < |s|
      ensures Mixed(Mixed(s))[i] == s[i]
    {
      BitmixTwice(s[i]);
    }
  }

  lemma MixedConcat(s: seq<bv8>, t: seq<bv8>)
    ensures Mixed(s + t) == Mixed(s) + Mixed(t)
  {
    hide Bitmix;
  }

  lemma MixedZeroes(n: nat)
    ensures Mixed(Zeroes(n)) == Zeroes(n)
  {
    hide Bitmix;
    BitmixTwice(0);
  }

  /** Copies `length` bytes, each through the table. */
  method BitmixMemcpy(dst: array<bv8>, at: nat, src: seq<bv8>)
    requires at + |src| <= dst.Length
    modifies dst
    ensures dst[..] == Splice(old(dst[..]), at, Mixed(src))
  {
    hide Bitmix;
    var length, i := |src|, 0;
    while length != 0
      invariant 0 <= length && i == |src| - length
      invariant dst[..at] == old(dst[..at]) && dst[at + i..] == old(dst[at + i..])
      invariant forall k :: 0 <= k < i ==> dst[at + k] == Mixed(src)[k]
    {
      length := length - 1;
      dst[at + i] := Bitmix(src[i]);
      i := i + 1;
    }
  }

  // ---------------------------------------------------------------- frames

  function Preamble(): (r: seq<bv8>)
    ensures |r| == PREAMBLE_LEN
  {
    seq(PREAMBLE_LEN - 1, _ => 0x55) + [0xD5]
  }

  /** The payload filled up with zeroes to the fixed length. */
  function Padded(data: seq<bv8>): (r: seq<bv8>)
    requires |data| <= MAX_SIZE
    ensures |r| == MAX_SIZE
  {
    data + Zeroes(MAX_SIZE - |data|)
  }

  /** The byte that makes the last byte of the check sequence zero. */
  function Adjustment(data: seq<bv8>): bv8
    requires |data| <= MAX_SIZE
  {
    Xor8(0xD9, Update(START, Padded(data)).b0)
  }

  /** The frame that carries `data`: padded payload, adjustment byte, check sequence. */
  function FrameOf(data: seq<bv8>): (r: seq<bv8>)
    requires |data| <= MAX_SIZE
    ensures |r| == TX_BUF_LEN - PREAMBLE_LEN
  {
    var body := Padded(data) + [Adjustment(data)];
    body + Fcs(Update(START, body))
  }

  lemma AdjustedState(c: CrcState)
    ensures Next(c, Xor8(0xD9, c.b0)).b3 == 0xFF && Not8(0xFF) == 0
  {
    XorBack(0xD9, c.b0);
    hide Xor8, Table0, Table1, Table2;
  }

  lemma XorBack(a: bv8, b: bv8)
    ensures Xor8(Xor8(a, b), b) == a
  {
  }

  /** The body of a frame leaves a state whose top byte is all ones. */
  lemma BodyState(data: seq<bv8>)
    requires |data| <= MAX_SIZE
    ensures var c := Update(START, Padded(data)); var body := Padded(data) + [Adjustment(data)];
            Update(START, body) == Next(c, Adjustment(data)) && Not8(Update(START, body).b3) == 0
  {
    hide Next, Xor8, Not8, Padded;
    var c, adj := Update(START, Padded(data)), Adjustment(data);
    UpdateConcat(START, Padded(data), [adj]);
    assert [adj][1..] == [];
    assert Update(c, [adj]) == Update(Next(c, adj), []);
    AdjustedState(c);
  }

  /** Every frame ends in a zero byte and is accepted by the receiver's check, also with one byte
      read too many; and its payload can be read off. */
  lemma FrameIsSound(data: seq<bv8>)
    requires |data| <= MAX_SIZE
    ensures SoundFrame(FrameOf(data)) && FrameOf(data)[|FrameOf(data)| - 1] == 0
    ensures FrameOf(data)[..|data|] == data
    ensures forall extra: bv8 :: SoundFrame((FrameOf(data) + [extra])[..|FrameOf(data)|])
  {
    BodyState(data);
    hide Update, Xor8, Not8;
    var body, f := Padded(data) + [Adjustment(data)], FrameOf(data);
    assert f[..|f| - 4] == body && f[|f| - 4..] == Fcs(Update(START, body));
    forall extra: bv8
      ensures (f + [extra])[..|f|] == f
    {
    }
  }

  /** What the buffer has to hold for a payload. */
  ghost function Wire(data: seq<bv8>): (r: seq<bv8>)
    requires |data| <= MAX_SIZE
    ensures |r| == TX_BUF_LEN
  {
    Preamble() + FrameOf(data)
  }

  class Transmitter {
    const buf: array<bv8>
    var lastFrameLen: nat

    /** The preamble is in place and everything between the last payload and the adjustment byte is zero. */
    ghost predicate Ready()
      reads this, buf
    {
      && buf.Length == TX_BUF_LEN && lastFrameLen <= MAX_SIZE
      && buf[..PREAMBLE_LEN] == Mixed(Preamble())
      && buf[PREAMBLE_LEN + lastFrameLen..PREAMBLE_LEN + MAX_SIZE] == Zeroes(MAX_SIZE - lastFrameLen)
    }

    method Fill(at: nat, n: nat, b: bv8)
      requires at + n <= buf.Length
      modifies buf
      ensures buf[..] == Splice(old(buf[..]), at, seq(n, _ => b))
    {
      forall i | 0 <= i < n {
        buf[at + i] := b;
      }
    }

    constructor ()
      ensures buf.Length == TX_BUF_LEN
    {
      buf := new bv8[TX_BUF_LEN];
      lastFrameLen := 0;
    }

    /** Writes the preamble and clears the rest. */
    method EthInit()
      requires buf.Length == TX_BUF_LEN
      modifies this, buf
      ensures Ready() && lastFrameLen == 0
    {
      hide Bitmix, Mixed, Preamble;
      MixedPreamble();
      Fill(0, PREAMBLE_LEN - 1, Bitmix(0x55));
      buf[PREAMBLE_LEN - 1] := Bitmix(0xD5);
      assert buf[..PREAMBLE_LEN] == seq(PREAMBLE_LEN - 1, _ => Bitmix(0x55)) + [Bitmix(0xD5)];
      label written:
      Fill(PREAMBLE_LEN, TX_BUF_LEN - PREAMBLE_LEN - FCS_LEN, 0);
      assert buf[..PREAMBLE_LEN] == old@written(buf[..PREAMBLE_LEN]);
      lastFrameLen := 0;
    }

    /** Writes the payload over the previous one and clears what the previous one leaves behind it. */
    method PutPayload(data: seq<bv8>)
      requires Ready() && |data| <= MAX_SIZE
      modifies this, buf
      ensures lastFrameLen == |data| && LaidOut(buf[..], data)
    {
      hide Mixed, Preamble, Bitmix, LaidOut;
      var size := |data|;
      BitmixMemcpy(buf, PREAMBLE_LEN, data);
      if size < lastFrameLen {
        Fill(PREAMBLE_LEN + size, lastFrameLen - size, 0);
      }
      PayloadLaidOut(old(buf[..]), data, lastFrameLen, buf[..]);
      lastFrameLen := size;
    }

    /** Writes the adjustment byte and the check sequence. */
    method PutTail(adj: bv8, c: CrcState)
      requires buf.Length == TX_BUF_LEN
      modifies buf
      ensures buf[..] == old(buf[..TX_BUF_LEN - 5]) +
        [Bitmix(adj), Not8(Bitmix(c.b0)), Not8(Bitmix(c.b1)), Not8(Bitmix(c.b2)), 0x00]
    {
      hide Bitmix, Not8;
      buf[TX_BUF_LEN - 5] := Bitmix(adj);
      buf[TX_BUF_LEN - 4] := Not8(Bitmix(c.b0));
      buf[TX_BUF_LEN - 3] := Not8(Bitmix(c.b1));
      buf[TX_BUF_LEN - 2] := Not8(Bitmix(c.b2));
      buf[TX_BUF_LEN - 1] := 0x00;
    }

    /** Lays out the frame for `data` over the previous one: only what may have changed is written. */
    method EthTransmit(data: seq<bv8>)
      requires Ready() && |data| <= MAX_SIZE
      modifies this, buf
      ensures Ready() && lastFrameLen == |data|
      ensures Mixed(buf[..]) == Wire(data)
    {
      hide Mixed, Preamble, Update, Xor8, Not8, Bitmix, Next, LaidOut, Wire, Zeroes;
      PutPayload(data);
      ghost var laid := buf[..];
      var c := CrcUpdate(START, data);
      c := CrcUpdateZeroes(c, TX_BUF_LEN - FCS_LEN - PREAMBLE_LEN - 1 - |data|);
      UpdateConcat(START, data, Zeroes(MAX_SIZE - |data|));
      var adj := Xor8(0xD9, c.b0);
      c := CrcUpdate(c, [adj]);
      UpdateConcat(START, Padded(data), [adj]);
      PutTail(adj, c);
      TailLaidOut(data, laid, c, buf[..]);
      LaidOutReady(laid, data, buf[..]);
    }
  }

  lemma LaidOutReady(a: seq<bv8>, data: seq<bv8>, b: seq<bv8>)
    requires |data| <= MAX_SIZE && LaidOut(a, data) && |b| == TX_BUF_LEN
    requires b[..PREAMBLE_LEN + MAX_SIZE] == a[..PREAMBLE_LEN + MAX_SIZE]
    ensures b[..PREAMBLE_LEN] == Mixed(Preamble())
    ensures b[PREAMBLE_LEN + |data|..PREAMBLE_LEN + MAX_SIZE] == Zeroes(MAX_SIZE - |data|)
  {
    hide Bitmix, Mixed, Preamble;
    MixedConcat(Preamble(), Padded(data));
    MixedConcat(data, Zeroes(MAX_SIZE - |data|));
    MixedZeroes(MAX_SIZE - |data|);
    var m := b[..PREAMBLE_LEN + MAX_SIZE];
    assert m[..PREAMBLE_LEN] == b[..PREAMBLE_LEN];
    assert m[PREAMBLE_LEN + |data|..] == b[PREAMBLE_LEN + |data|..PREAMBLE_LEN + MAX_SIZE];
  }

  lemma MixedPreamble()
    ensures Mixed(Preamble()) == seq(PREAMBLE_LEN - 1, _ => Bitmix(0x55)) + [Bitmix(0xD5)]
  {
    hide Bitmix;
  }

  /** The first part of the buffer after the payload and the zeroes behind it have been written. */
  ghost predicate LaidOut(b: seq<bv8>, data: seq<bv8>)
    requires |data| <= MAX_SIZE
  {
    |b| == TX_BUF_LEN && b[..PREAMBLE_LEN + MAX_SIZE] == Mixed(Preamble() + Padded(data))
  }

  lemma PayloadLaidOut(a: seq<bv8>, data: seq<bv8>, last: nat, b: seq<bv8>)
    requires |a| == TX_BUF_LEN && |data| <= MAX_SIZE && last <= MAX_SIZE
    requires a[..PREAMBLE_LEN] == Mixed(Preamble())
    requires a[PREAMBLE_LEN + last..PREAMBLE_LEN + MAX_SIZE] == Zeroes(MAX_SIZE - last)
    requires var m := Splice(a, PREAMBLE_LEN, Mixed(data));
             b == if |data| < last then Splice(m, PREAMBLE_LEN + |data|, seq(last - |data|, _ => 0)) else m
    ensures LaidOut(b, data)
  {
    hide Bitmix, Mixed, Preamble;
    MixedConcat(Preamble(), Padded(data));
    MixedConcat(data, Zeroes(MAX_SIZE - |data|));
    MixedZeroes(MAX_SIZE - |data|);
    PayloadZeroes(a, data, last, b);
    var m := b[..PREAMBLE_LEN + MAX_SIZE];
    assert m == b[..PREAMBLE_LEN] + b[PREAMBLE_LEN..PREAMBLE_LEN + |data|]
      + b[PREAMBLE_LEN + |data|..PREAMBLE_LEN + MAX_SIZE];
    assert b[..PREAMBLE_LEN] == a[..PREAMBLE_LEN];
    assert b[PREAMBLE_LEN..PREAMBLE_LEN + |data|] == Mixed(data);
  }

  lemma PayloadZeroes(a: seq<bv8>, data: seq<bv8>, last: nat, b: seq<bv8>)
    requires |a| == TX_BUF_LEN && |data| <= MAX_SIZE && last <= MAX_SIZE
    requires a[PREAMBLE_LEN + last..PREAMBLE_LEN + MAX_SIZE] == Zeroes(MAX_SIZE - last)
    requires var m := Splice(a, PREAMBLE_LEN, Mixed(data));
             b == if |data| < last then Splice(m, PREAMBLE_LEN + |data|, seq(last - |data|, _ => 0)) else m
    ensures b[PREAMBLE_LEN + |data|..PREAMBLE_LEN + MAX_SIZE] == Zeroes(MAX_SIZE - |data|)
  {
    hide Bitmix, Mixed;
    var n := |data|;
    var z := b[PREAMBLE_LEN + n..PREAMBLE_LEN + MAX_SIZE];
    forall i | 0 <= i < MAX_SIZE - n
      ensures z[i] == 0
    {
      if n + i >= last {
        assert a[PREAMBLE_LEN + last..PREAMBLE_LEN + MAX_SIZE][n + i - last] == 0;
      }
    }
  }

  /** The adjustment byte and the check sequence, the last byte of which is known to be zero. */
  lemma TailLaidOut(data: seq<bv8>, a: seq<bv8>, c: CrcState, b: seq<bv8>)
    requires |data| <= MAX_SIZE && LaidOut(a, data)
    requires c == Update(START, Padded(data) + [Adjustment(data)])
    requires b == a[..PREAMBLE_LEN + MAX_SIZE] + [Bitmix(Adjustment(data)),
                    Not8(Bitmix(c.b0)), Not8(Bitmix(c.b1)), Not8(Bitmix(c.b2)), 0x00]
    ensures Mixed(b) == Wire(data)
  {
    hide Bitmix, Mixed, Preamble, Update, Not8, Next, Padded, Adjustment;
    BodyState(data);
    var p, t := Preamble() + Padded(data), [Bitmix(Adjustment(data)),
                    Not8(Bitmix(c.b0)), Not8(Bitmix(c.b1)), Not8(Bitmix(c.b2)), 0x00];
    MixedConcat(Mixed(p), t);
    MixedTwice(p);
    MixedTail(Adjustment(data), c);
  }

  lemma MixedTail(a: bv8, c: CrcState)
    ensures Mixed([Bitmix(a), Not8(Bitmix(c.b0)), Not8(Bitmix(c.b1)), Not8(Bitmix(c.b2)), 0x00]) ==
      [a, Not8(c.b0), Not8(c.b1), Not8(c.b2), 0x00]
  {
    hide Bitmix, Mixed, Not8;
    BitmixTwice(c.b0);
    BitmixTwice(c.b1);
    BitmixTwice(c.b2);
    BitmixTwice(Not8(c.b0));
    BitmixTwice(Not8(c.b1));
    BitmixTwice(Not8(c.b2));
    BitmixTwice(a);
    MixedFive(Bitmix(a), Not8(Bitmix(c.b0)), Not8(Bitmix(c.b1)), Not8(Bitmix(c.b2)), 0x00);
    BitmixTwice(0x00);
  }

  lemma MixedFive(b0: bv8, b1: bv8, b2: bv8, b3: bv8, b4: bv8)
    ensures Mixed([b0, b1, b2, b3, b4]) == [Bitmix(b0), Bitmix(b1), Bitmix(b2), Bitmix(b3), Bitmix(b4)]
  {
    hide Bitmix;
  }

  /** Any number of frames, one after the other: after each the buffer holds exactly its frame,
      whatever was sent before. */
  method TransmitAll(t: Transmitter, frames: seq<seq<bv8>>) returns (ghost sent: seq<seq<bv8>>)
    requires t.buf.Length == TX_BUF_LEN && forall i :: 0 <= i < |frames| ==> |frames[i]| <= MAX_SIZE
    modifies t, t.buf
    ensures |sent| == |frames|
    ensures forall i :: 0 <= i < |frames| ==> sent[i] == Wire(frames[i])
  {
    hide Wire, Mixed;
    sent := [];
    t.EthInit();
    for k := 0 to |frames|
      invariant t.Ready()
      invariant |sent| == k && forall i :: 0 <= i < k ==> sent[i] == Wire(frames[i])
    {
      t.EthTransmit(frames[k]);
      sent := sent + [Mixed(t.buf[..])];
    }
  }
}
