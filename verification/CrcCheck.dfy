/** Checking a received frame against its frame check sequence. */
module CrcCheck {
  import opened CrcTables
  import opened Crc
  import opened CrcTableProof
  import opened CrcRoutines
  import opened CrcAlgebra

  const START: CrcState := CrcState(0xFF, 0xFF, 0xFF, 0xFF)
  const RESIDUE: CrcState := CrcState(0xE3, 0x20, 0xBB, 0xDE)

  function Not8(b: bv8): bv8 {
    !b
  }

  /** The frame check sequence of a message whose CRC state is `c`: complemented, lowest byte first. */
  function Fcs(c: CrcState): (r: seq<bv8>)
    ensures |r| == 4
  {
    [Not8(c.b0), Not8(c.b1), Not8(c.b2), Not8(c.b3)]
  }

  /** The frame ends with the frame check sequence of what comes before it. */
  ghost predicate SoundFrame(frame: seq<bv8>) {
    |frame| >= 4 && frame[|frame| - 4..] == Fcs(Update(START, frame[..|frame| - 4]))
  }

  lemma NotJoin(b0: bv8, b1: bv8, b2: bv8, b3: bv8)
    ensures Xor(Join(b0, b1, b2, b3), Join(Not8(b0), Not8(b1), Not8(b2), Not8(b3))) == 0xFFFF_FFFF
  {
  }

  const ONES: bv32 := 0xFFFF_FFFF

  lemma OctetsOfOnes()
    ensures Octet(ONES) == 0x2DFD_1072 && Octet(0x2DFD_1072) == 0xBE26_ED00
    ensures Octet(0xBE26_ED00) == 0x00BE_26ED && Octet(0x00BE_26ED) == Value(RESIDUE)
    ensures Value(START) == ONES
  {
  }

  /** Division steps on all ones, up to the residue. */
  lemma StepsOfOnes()
    ensures Steps(8, ONES) == 0x2DFD_1072 && Steps(16, ONES) == 0xBE26_ED00 && Steps(24, ONES) == 0x00BE_26ED
    ensures Steps(32, ONES) == Value(RESIDUE)
  {
    hide Steps, Octet, Value;
    OctetsOfOnes();
    OctetIsSteps(ONES);
    OctetIsSteps(0x2DFD_1072);
    OctetIsSteps(0xBE26_ED00);
    OctetIsSteps(0x00BE_26ED);
    StepsAdd(8, 8, ONES);
    StepsAdd(16, 8, ONES);
    StepsAdd(24, 8, ONES);
  }

  /** A message followed by four bytes leaves the residue just when they are its check sequence. */
  lemma ResidueExactly(c: CrcState, w: seq<bv8>)
    requires |w| == 4
    ensures Update(c, w) == RESIDUE <==> w == Fcs(c)
  {
    hide Update, Steps, Xor, Join, Remainder, Not8;
    assert w == [w[0], w[1], w[2], w[3]];
    var a, v := Join(w[0], w[1], w[2], w[3]), Value(c);
    var n := Join(Not8(c.b0), Not8(c.b1), Not8(c.b2), Not8(c.b3));
    UpdateIsRemainder(c, w);
    RemainderWord(v, w[0], w[1], w[2], w[3]);
    NotJoin(c.b0, c.b1, c.b2, c.b3);
    StepsOfOnes();
    if Update(c, w) == RESIDUE {
      StepsInjective(32, Xor(v, a), ONES);
      XorCancel(a, n, v);
      JoinInjective(w[0], w[1], w[2], w[3], Not8(c.b0), Not8(c.b1), Not8(c.b2), Not8(c.b3));
    }
    if w == Fcs(c) {
      ValueInjective(Update(c, w), RESIDUE);
    }
  }

  lemma RemainderOne(c: bv32, w: bv8)
    ensures Remainder(c, []) == c && Remainder(c, [w]) == Steps(8, Xor(c, Widen(w)))
  {
    hide Steps, Xor, Widen;
    assert [w][1..] == [];
  }

  /** One, two or three bytes as one division. */
  lemma RemainderShort(c: bv32, w0: bv8, w1: bv8, w2: bv8)
    ensures Remainder(c, []) == c
    ensures Remainder(c, [w0]) == Steps(8, Xor(c, Join(w0, 0, 0, 0)))
    ensures Remainder(c, [w0, w1]) == Steps(16, Xor(c, Join(w0, w1, 0, 0)))
    ensures Remainder(c, [w0, w1, w2]) == Steps(24, Xor(c, Join(w0, w1, w2, 0)))
  {
    hide Steps, Xor, Widen, Join, Remainder;
    var c1 := Steps(8, Xor(c, Widen(w0)));
    var c2 := Steps(8, Xor(c1, Widen(w1)));
    PeelByte(c, w0, w1, w2, 0);
    PeelByte(c, w0, w1, 0, 0);
    PeelByte(c1, w1, w2, 0, 0);
    JoinNothing(w0);
    JoinNothing(w1);
    JoinNothing(w2);
    StepsAdd(8, 16, Xor(c, Join(w0, w1, w2, 0)));
    StepsAdd(8, 8, Xor(c, Join(w0, w1, 0, 0)));
    StepsAdd(8, 8, Xor(c1, Join(w1, w2, 0, 0)));
    RemainderOne(c, w0);
    RemainderOne(c1, w1);
    RemainderOne(c2, w2);
    assert [w0] + [w1] == [w0, w1] && [w0, w1] + [w2] == [w0, w1, w2];
    RemainderConcat(c, [w0], [w1]);
    RemainderConcat(c, [w0, w1], [w2]);
  }

  lemma ShortDiffers(w0: bv8, w1: bv8, w2: bv8)
    ensures Xor(ONES, Join(w0, 0, 0, 0)) != 0x00BE_26ED
    ensures Xor(ONES, Join(w0, w1, 0, 0)) != 0xBE26_ED00
    ensures Xor(ONES, Join(w0, w1, w2, 0)) != 0x2DFD_1072
    ensures ONES != Value(RESIDUE)
  {
  }

  /** Fewer than four bytes never leave the residue. */
  lemma ShortNeverResidue(s: seq<bv8>)
    requires |s| < 4
    ensures Update(START, s) != RESIDUE
  {
    hide Update, Steps, Xor, Join, Remainder, Value;
    var w0: bv8 := if |s| > 0 then s[0] else 0;
    var w1: bv8 := if |s| > 1 then s[1] else 0;
    var w2: bv8 := if |s| > 2 then s[2] else 0;
    assert s == [] || s == [w0] || s == [w0, w1] || s == [w0, w1, w2];
    UpdateIsRemainder(START, s);
    OctetsOfOnes();
    StepsOfOnes();
    RemainderShort(ONES, w0, w1, w2);
    ShortDiffers(w0, w1, w2);
    StepsAdd(24, 8, ONES);
    StepsAdd(16, 16, ONES);
    StepsAdd(8, 24, ONES);
    if Update(START, s) == RESIDUE {
      if |s| == 1 {
        StepsInjective(8, Xor(ONES, Join(w0, 0, 0, 0)), Steps(24, ONES));
      } else if |s| == 2 {
        StepsInjective(16, Xor(ONES, Join(w0, w1, 0, 0)), Steps(16, ONES));
      } else if |s| == 3 {
        StepsInjective(24, Xor(ONES, Join(w0, w1, w2, 0)), Steps(8, ONES));
      }
    }
  }

  /** The residue tells sound frames exactly. */
  lemma SoundExactly(frame: seq<bv8>)
    ensures Update(START, frame) == RESIDUE <==> SoundFrame(frame)
  {
    hide Update, Fcs;
    if |frame| < 4 {
      ShortNeverResidue(frame);
    } else {
      var p, w := frame[..|frame| - 4], frame[|frame| - 4..];
      assert frame == p + w;
      UpdateConcat(START, p, w);
      ResidueExactly(Update(START, p), w);
    }
  }

  /** Accepts a frame, and a frame with one more byte behind it, and nothing else. */
  method CrcCheckRelaxed(data: seq<bv8>) returns (ok: bool)
    requires |data| >= 1
    ensures ok <==> SoundFrame(data[..|data| - 1]) || SoundFrame(data)
  {
    hide Update, Next, SoundFrame, Xor8;
    var end := |data| - 1;
    var c := CrcUpdate(START, data[..end]);
    SoundExactly(data[..end]);
    SoundExactly(data);
    if c == RESIDUE {
      return true;
    }
    UpdateConcat(START, data[..end], [data[end]]);
    assert data[..end] + [data[end]] == data;
    UpdateOne(c, data[end]);
    var index := Xor8(data[end], c.b0);
    c := CrcState(Xor8(c.b1, Table0(index)), Xor8(c.b2, Table1(index)), Xor8(c.b3, Table2(index)), Table3(index));
    return c == RESIDUE;
  }

  lemma UpdateOne(c: CrcState, b: bv8)
    ensures var index := Xor8(b, c.b0);
            Update(c, [b]) ==
              CrcState(Xor8(c.b1, Table0(index)), Xor8(c.b2, Table1(index)), Xor8(c.b3, Table2(index)), Table3(index))
  {
    hide Table0, Table1, Table2, Table3, Xor8;
    var d := Next(c, b);
    assert [b][1..] == [];
    assert Update(d, []) == d;
  }
}
