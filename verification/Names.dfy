/** 8.3 file names: the padded 11-byte field of a directory entry and its printed form. */
module Names {
  import opened Bytes

  const SPACE: byte := 0x20
  const DOT: byte := 0x2E

  /** A string as the driver sees it, without its terminating zero. */
  type CString = s: seq<byte> | forall i :: 0 <= i < |s| ==> s[i] != 0

  function Spaces(n: nat): (r: seq<byte>)
    ensures |r| == n
  {
    seq(n, _ => SPACE)
  }

  /** `s` cut off or filled up with spaces to `n` bytes. */
  function Pad(s: seq<byte>, n: nat): (r: seq<byte>)
    ensures |r| == n
  {
    if |s| >= n then s[..n] else s + Spaces(n - |s|)
  }

  /** Length of the part of `s` before the first `c`. */
  function Until(s: seq<byte>, c: byte): (n: nat)
    ensures n <= |s| && (n < |s| ==> s[n] == c)
    ensures forall i :: 0 <= i < n ==> s[i] != c
  {
    if s == [] || s[0] == c then 0 else 1 + Until(s[1..], c)
  }

  function BaseLen(s: seq<byte>): (n: nat)
    ensures n <= |s| && n <= 8
  {
    var n := Until(s, DOT);
    if n < 8 then n else 8
  }

  /** What follows the base name: the text behind its dot, or, when the base name has more than eight
      characters, whatever starts at the next dot, that dot included. */
  function Extension(s: seq<byte>): seq<byte> {
    var n := Until(s, DOT);
    if n == |s| then [] else if n <= 8 then s[n + 1..] else s[n..]
  }

  function FatName(s: seq<byte>): (r: seq<byte>)
    ensures |r| == 11
  {
    if s != [] && s[0] == DOT then Pad(s, 11)
    else Pad(s[..BaseLen(s)], 8) + Pad(Extension(s), 3)
  }

  function PrintedName(field: seq<byte>): seq<byte>
    requires |field| == 11
  {
    var base := field[..Until(field[..8], SPACE)];
    if field[8] == SPACE then base
    else base + [DOT] + field[8..][..Until(field[8..], SPACE)]
  }

  // ------------------------------------------------------------------- driver

  /** Fills the 11 bytes of `dst` from the string `src`. */
  method ToFatName(dst: array<byte>, src: CString)
    requires dst.Length == 11
    modifies dst
    ensures dst[..] == FatName(src)
  {
    forall i | 0 <= i < 11 {
      dst[i] := SPACE;
    }
    if src != [] && src[0] == DOT {
      CopyWhole(dst, src);
      return;
    }
    var p := CopyBase(dst, src);
    p := SkipToExtension(src, p);
    CopyExtension(dst, src, p);
  }

  /** A name that starts with a dot is copied as it is. */
  method CopyWhole(dst: array<byte>, src: CString)
    requires dst.Length == 11 && forall k :: 0 <= k < 11 ==> dst[k] == SPACE
    modifies dst
    ensures dst[..] == Pad(src, 11)
  {
    var i := 0;
    while i != 11
      invariant 0 <= i <= 11 && i <= |src|
      invariant forall k :: 0 <= k < 11 ==> dst[k] == if k < i then src[k] else SPACE
    {
      if i == |src| {
        break;
      }
      dst[i] := src[i];
      i := i + 1;
    }
  }

  /** Copies up to three characters from `from` on behind the base name. */
  method CopyExtension(dst: array<byte>, src: CString, from: nat)
    requires dst.Length == 11 && from <= |src| && forall k :: 8 <= k < 11 ==> dst[k] == SPACE
    modifies dst
    ensures dst[..] == old(dst[..8]) + Pad(src[from..], 3)
  {
    ghost var ext := src[from..];
    var i, p := 8, from;
    while p < |src| && i != 11
      invariant 8 <= i <= 11 && p == from + i - 8 <= |src|
      invariant dst[..8] == old(dst[..8])
      invariant forall k :: 8 <= k < 11 ==> dst[k] == if k < i then ext[k - 8] else SPACE
    {
      dst[i] := src[p];
      p := p + 1;
      i := i + 1;
    }
    assert dst[8..] == Pad(ext, 3);
    assert dst[..] == dst[..8] + dst[8..];
  }

  /** Copies up to eight characters before the first dot; returns how many. */
  method CopyBase(dst: array<byte>, src: CString) returns (p: nat)
    requires dst.Length == 11 && forall k :: 0 <= k < 11 ==> dst[k] == SPACE
    modifies dst
    ensures p == BaseLen(src)
    ensures dst[..8] == Pad(src[..BaseLen(src)], 8)
    ensures forall k :: 8 <= k < 11 ==> dst[k] == SPACE
  {
    p := 0;
    while p != 8
      invariant p <= 8 && p <= Until(src, DOT)
      invariant forall k :: 0 <= k < 11 ==> dst[k] == if k < p then src[k] else SPACE
    {
      if p == |src| || src[p] == DOT {
        break;
      }
      dst[p] := src[p];
      p := p + 1;
    }
  }

  /** From the end of the base name to the start of the extension. */
  method SkipToExtension(src: CString, from: nat) returns (p: nat)
    requires from == BaseLen(src)
    ensures p <= |src| && src[p..] == Extension(src)
  {
    p := from;
    if p < |src| && src[p] == DOT {
      p := p + 1;
    } else if p < |src| {
      while p < |src| && src[p] != DOT
        invariant from <= p <= Until(src, DOT)
      {
        p := p + 1;
      }
    }
  }

  /** Writes the printed form of the 11-byte `src` and a zero to `dst`. */
  method FromFatName(dst: array<byte>, src: seq<byte>)
    requires |src| == 11 && dst.Length >= 13
    modifies dst
    ensures |PrintedName(src)| <= 12
    ensures dst[..|PrintedName(src)| + 1] == PrintedName(src) + [0]
  {
    hide Until;
    ghost var n := Until(src[..8], SPACE);
    var p := 0;
    while p != 8
      invariant p <= n && dst[..p] == src[..p]
    {
      if src[p] == SPACE {
        break;
      }
      assert src[..8][p] == src[p];
      dst[p] := src[p];
      p := p + 1;
    }
    assert p == n;
    if src[8] != SPACE {
      ghost var base, ext := src[..n], src[8..];
      dst[p] := DOT;
      p := p + 1;
      var i := 8;
      while i != 11
        invariant 8 <= i <= 11 && p == n + 1 + i - 8 && i - 8 <= Until(ext, SPACE)
        invariant dst[..p] == base + [DOT] + ext[..i - 8]
      {
        if src[i] == SPACE {
          break;
        }
        assert ext[i - 8] == src[i];
        dst[p] := src[i];
        p := p + 1;
        i := i + 1;
      }
      assert i - 8 == Until(ext, SPACE);
    }
    dst[p] := 0;
  }

  // --------------------------------------------------------------- round trips

  /** The printed form of any field: `b` characters up to the first space among eight and, unless the
      ninth byte is a space, a dot and the characters up to the first space among the last three. */
  lemma PrintedBytes(field: seq<byte>) returns (b: nat, e: nat)
    requires |field| == 11
    ensures b <= 8 && e <= 3 && (b < 8 ==> field[b] == SPACE) && (e < 3 ==> field[8 + e] == SPACE)
    ensures forall i :: 0 <= i < b ==> field[i] != SPACE
    ensures forall i :: 8 <= i < 8 + e ==> field[i] != SPACE
    ensures |PrintedName(field)| == if e == 0 then b else b + 1 + e
    ensures PrintedName(field)[..b] == field[..b]
    ensures e > 0 ==> PrintedName(field)[b] == DOT && PrintedName(field)[b + 1..] == field[8..8 + e]
  {
    b, e := Until(field[..8], SPACE), Until(field[8..], SPACE);
    hide Until;
    assert forall i :: 0 <= i < 8 ==> field[..8][i] == field[i];
    assert forall i :: 8 <= i < 11 ==> field[8..][i - 8] == field[i];
    assert field[..8][..b] == field[..b] && field[8..][..e] == field[8..8 + e];
  }

  ghost predicate Has(s: seq<byte>, c: byte) {
    exists i :: 0 <= i < |s| && s[i] == c
  }

  /** The names the 8.3 field can hold: 1 to 8 characters and an optional dot with 1 to 3 more, or up
      to 8 characters that start with a dot such as "." and "..", or nothing; never a space. */
  ghost predicate Is83(s: seq<byte>) {
    !Has(s, SPACE) &&
    if s == [] || s[0] == DOT || !Has(s, DOT) then |s| <= 8
    else Until(s, DOT) <= 8 && 1 <= |s| - Until(s, DOT) - 1 <= 3
  }

  lemma {:induction false} UntilIs(s: seq<byte>, c: byte, n: nat)
    requires n <= |s| && (n < |s| ==> s[n] == c) && forall i :: 0 <= i < n ==> s[i] != c
    ensures Until(s, c) == n
  {
    if n > 0 {
      assert s[0] != c;
      UntilIs(s[1..], c, n - 1);
    }
  }

  /** The text in a field of `n` bytes that `s` is put into: it ends at the first space. */
  function Text(s: seq<byte>, n: nat): seq<byte> {
    Pad(s, n)[..Until(Pad(s, n), SPACE)]
  }

  lemma PadUntil(s: seq<byte>, n: nat)
    ensures Text(s, n) <= s
    ensures Text(s, n) == s <==> |s| <= n && !Has(s, SPACE)
  {
    var k := Until(Pad(s, n), SPACE);
    if |s| <= n && !Has(s, SPACE) {
      UntilIs(Pad(s, n), SPACE, |s|);
    }
    if |s| < n {
      assert Pad(s, n)[|s|] == SPACE;
    }
    assert forall i :: 0 <= i < k ==> Pad(s, n)[i] == s[i];
    if Pad(s, n)[..k] == s {
      assert forall i :: 0 <= i < |s| ==> s[i] == Pad(s, n)[..k][i];
    }
  }

  ghost predicate IsField(field: seq<byte>, base: seq<byte>, ext: seq<byte>) {
    |field| == 11 && field[..8] == Pad(base, 8) && field[8..] == Pad(ext, 3)
  }

  /** The printed form of a field with the parts `base` and `ext`. */
  lemma PrintedParts(field: seq<byte>, base: seq<byte>, ext: seq<byte>)
    requires IsField(field, base, ext)
    ensures PrintedName(field) == Text(base, 8) + if ext == [] || ext[0] == SPACE then [] else [DOT] + Text(ext, 3)
  {
    assert field[8] == Pad(ext, 3)[0];
    hide Until, Pad;
    var b, e := field[..8][..Until(field[..8], SPACE)], field[8..][..Until(field[8..], SPACE)];
    assert field[8] != SPACE ==> b + [DOT] + e == b + ([DOT] + e);
    assert b + [] == b;
    PadFirst(ext);
  }

  lemma PadFirst(ext: seq<byte>)
    ensures Pad(ext, 3)[0] == SPACE <==> ext == [] || ext[0] == SPACE
  {
  }

  lemma HasDot(s: seq<byte>)
    ensures Until(s, DOT) < |s| <==> Has(s, DOT)
  {
  }

  lemma HasSplit(s: seq<byte>, n: nat, c: byte)
    requires n < |s| && s[n] != c
    ensures Has(s, c) <==> Has(s[..n], c) || Has(s[n + 1..], c)
  {
    if i :| 0 <= i < |s| && s[i] == c {
      if i < n {
        assert s[..n][i] == c;
      } else {
        assert s[n + 1..][i - n - 1] == c;
      }
    }
  }

  /** The two parts of the field of a name that does not start with a dot. */
  lemma FatNameParts(s: seq<byte>)
    requires s == [] || s[0] != DOT
    ensures IsField(FatName(s), s[..BaseLen(s)], Extension(s))
  {
    hide Until, Pad, Extension, BaseLen;
    var a, b := Pad(s[..BaseLen(s)], 8), Pad(Extension(s), 3);
    assert (a + b)[..8] == a && (a + b)[8..] == b;
  }

  lemma PadByte(s: seq<byte>, n: nat, k: nat)
    requires k < n
    ensures Pad(s, n)[k] == if k < |s| then s[k] else SPACE
  {
  }

  /** Where the extension of a name starts: behind its dot or, after a base of more than eight
      characters, at it. */
  function ExtensionStart(s: seq<byte>): nat {
    var n := Until(s, DOT);
    if n <= 8 then n + 1 else n
  }

  /** Every byte of the field: a name that starts with a dot is copied; of any other one up to eight
      characters before the first dot and up to three from the start of the extension on. */
  lemma FieldBytes(s: seq<byte>, k: nat)
    requires k < 11
    ensures FatName(s)[k] ==
      if s != [] && s[0] == DOT then (if k < |s| then s[k] else SPACE)
      else if k < 8 then (if k < Until(s, DOT) then s[k] else SPACE)
      else if Until(s, DOT) < |s| && ExtensionStart(s) + k - 8 < |s| then s[ExtensionStart(s) + k - 8]
      else SPACE
  {
    hide Until, Pad, BaseLen, Extension, ExtensionStart, IsField;
    if s != [] && s[0] == DOT {
      PadByte(s, 11, k);
    } else {
      FatNameParts(s);
      hide FatName;
      if k < 8 {
        BaseByte(s, FatName(s), k);
      } else {
        ExtensionByte(s, FatName(s), k - 8);
      }
    }
  }

  lemma BaseByte(s: seq<byte>, field: seq<byte>, k: nat)
    requires IsField(field, s[..BaseLen(s)], Extension(s)) && k < 8
    ensures field[k] == if k < Until(s, DOT) then s[k] else SPACE
  {
    hide Until, Pad, Extension;
    PadByte(s[..BaseLen(s)], 8, k);
    assert field[..8][k] == field[k];
  }

  lemma ExtensionByte(s: seq<byte>, field: seq<byte>, k: nat)
    requires IsField(field, s[..BaseLen(s)], Extension(s)) && k < 3
    ensures var j := ExtensionStart(s) + k;
            field[8 + k] == if Until(s, DOT) < |s| && j < |s| then s[j] else SPACE
  {
    hide Until, Pad, BaseLen, Extension, ExtensionStart;
    ExtensionIs(s);
    PadByte(Extension(s), 3, k);
    assert field[8..][k] == field[8 + k];
  }

  lemma ExtensionIs(s: seq<byte>)
    ensures Until(s, DOT) < |s| ==> ExtensionStart(s) <= |s| && Extension(s) == s[ExtensionStart(s)..]
    ensures Until(s, DOT) == |s| ==> Extension(s) == []
  {
    hide Until;
  }

  lemma PadWhole(s: seq<byte>, n: nat)
    ensures |s| >= n ==> Pad(s, n) == s[..n]
    ensures s == [] ==> Pad(s, n) == Spaces(n)
  {
  }

  /** Behind a base of at most eight characters an extension is cut off after three. */
  lemma ExtensionCut(s: seq<byte>)
    requires 0 < Until(s, DOT) <= 8 && Until(s, DOT) + 3 < |s|
    ensures FatName(s)[..8] == Pad(s[..Until(s, DOT)], 8)
    ensures FatName(s)[8..] == s[Until(s, DOT) + 1..Until(s, DOT) + 4]
  {
    hide Until, Pad, BaseLen, Extension, FatName;
    FirstNoDot(s);
    FatNameParts(s);
    DotSplit(s);
    var n := Until(s, DOT);
    PadWhole(s[n + 1..], 3);
    assert s[n + 1..][..3] == s[n + 1..n + 4];
  }

  /** Of a longer base eight characters remain, and the dot is the first character of the extension. */
  lemma LongBase(s: seq<byte>)
    requires Until(s, DOT) > 8
    ensures FatName(s)[..8] == s[..8]
    ensures Until(s, DOT) == |s| ==> FatName(s)[8..] == Spaces(3)
    ensures Until(s, DOT) < |s| ==>
      FatName(s)[8] == DOT && FatName(s)[9..] == Pad(s[Until(s, DOT) + 1..], 2)
  {
    hide Until, Pad, BaseLen, Extension, FatName;
    FirstNoDot(s);
    FatNameParts(s);
    LongParts(s);
    var n := Until(s, DOT);
    PadWhole(s[..8], 8);
    PadWhole([], 3);
    if n < |s| {
      DotInExtension(s[n..], FatName(s));
      assert s[n..][1..] == s[n + 1..];
    }
  }

  /** "LONGFILENAME.TXT" becomes "LONGFILE" and ".TX". */
  lemma LongBaseExample(s: seq<byte>)
    requires s == [76, 79, 78, 71, 70, 73, 76, 69, 78, 65, 77, 69, 46, 84, 88, 84]
    ensures FatName(s)[..8] == [76, 79, 78, 71, 70, 73, 76, 69] && FatName(s)[8..] == [46, 84, 88]
  {
    hide Until, FatName;
    UntilIs(s, DOT, 12);
    LongBase(s);
    TailOfEleven(FatName(s), s[13..]);
  }

  lemma TailOfEleven(field: seq<byte>, rest: seq<byte>)
    requires |field| == 11 && field[9..] == Pad(rest, 2) && |rest| >= 2
    ensures field[8..] == [field[8], rest[0], rest[1]]
  {
    assert field[9..][0] == field[9] && field[9..][1] == field[10];
  }

  lemma LongParts(s: seq<byte>)
    requires Until(s, DOT) > 8
    ensures BaseLen(s) == 8 && Extension(s) == if Until(s, DOT) == |s| then [] else s[Until(s, DOT)..]
  {
    hide Until;
  }

  lemma DotInExtension(ext: seq<byte>, field: seq<byte>)
    requires |field| == 11 && ext != [] && field[8..] == Pad(ext, 3)
    ensures field[8] == ext[0] && field[9..] == Pad(ext[1..], 2)
  {
    assert field[8..][0] == field[8] && field[8..][1..] == field[9..];
  }

  lemma FirstNoDot(s: seq<byte>)
    requires Until(s, DOT) > 0
    ensures s[0] != DOT
  {
  }

  lemma NameWithoutDot(s: CString)
    requires s == [] || s[0] != DOT
    requires !Has(s, DOT)
    ensures PrintedName(FatName(s)) == s <==> |s| <= 8 && !Has(s, SPACE)
  {
    hide Pad, Has, FatName, PrintedName, Text, IsField;
    HasDot(s);
    FatNameParts(s);
    var base := s[..BaseLen(s)];
    PrintedParts(FatName(s), base, []);
    PadUntil(base, 8);
    assert |s| <= 8 ==> base == s;
  }

  lemma NameWithDot(s: CString)
    requires s != [] && s[0] != DOT && Has(s, DOT) && Until(s, DOT) <= 8
    ensures PrintedName(FatName(s)) == s <==>
      !Has(s, SPACE) && 1 <= |s| - Until(s, DOT) - 1 <= 3
  {
    hide Until, Pad, Has, FatName, PrintedName, Text, IsField, BaseLen, Extension;
    HasDot(s);
    FatNameParts(s);
    DotSplit(s);
    var n := Until(s, DOT);
    var base, ext := s[..n], s[n + 1..];
    PrintedParts(FatName(s), base, ext);
    PadUntil(base, 8);
    PadUntil(ext, 3);
    HasSplit(s, n, SPACE);
    JoinedEqual(base, ext, Text(base, 8), Text(ext, 3));
    SpaceFirst(ext);
  }

  lemma DotSplit(s: seq<byte>)
    requires Until(s, DOT) < |s| && Until(s, DOT) <= 8
    ensures BaseLen(s) == Until(s, DOT) && Extension(s) == s[Until(s, DOT) + 1..]
    ensures s == s[..Until(s, DOT)] + [DOT] + s[Until(s, DOT) + 1..]
  {
    hide Until;
    SplitAt(s, Until(s, DOT));
  }

  lemma SplitAt(s: seq<byte>, n: nat)
    requires n < |s|
    ensures s == s[..n] + [s[n]] + s[n + 1..]
  {
  }

  lemma PadSame(s: seq<byte>, n: nat)
    ensures forall i :: 0 <= i < |s| && i < n ==> Pad(s, n)[i] == s[i]
  {
  }

  lemma SpaceFirst(s: seq<byte>)
    ensures s != [] && s[0] == SPACE ==> Has(s, SPACE)
  {
  }

  lemma JoinedEqual(base: seq<byte>, ext: seq<byte>, b: seq<byte>, e: seq<byte>)
    requires b <= base && e <= ext
    ensures b + ([DOT] + e) == base + [DOT] + ext <==> b == base && e == ext
    ensures b + [] != base + [DOT] + ext
  {
    var l, r := b + ([DOT] + e), base + [DOT] + ext;
    assert |l| == |r| ==> |b| == |base| && |e| == |ext|;
    assert b == base && e == ext ==> l == r;
  }

  lemma NameLongBase(s: CString)
    requires s != [] && s[0] != DOT && Until(s, DOT) > 8
    ensures PrintedName(FatName(s)) != s
  {
    hide Pad, Has, FatName, PrintedName, IsField;
    FatNameParts(s);
    PrintedParts(FatName(s), s[..8], Extension(s));
    PadUntil(s[..8], 8);
    assert s[8] != DOT;
    hide Text;
    var b := Text(s[..8], 8);
    assert |b| < 8 ==> s[|b|] != DOT;
  }

  /** Eight characters, the first a dot, and four more dots: the one shape outside 8.3 that survives. */
  ghost predicate IsDotTail(s: seq<byte>) {
    |s| == 12 && s[0] == DOT && s[8..] == [DOT, DOT, DOT, DOT] && !Has(s, SPACE)
  }

  lemma NameDotFirst(s: CString)
    requires s != [] && s[0] == DOT
    ensures PrintedName(FatName(s)) == s <==> (|s| <= 8 && !Has(s, SPACE)) || IsDotTail(s)
  {
    DotFirstParts(s);
    if |s| > 8 {
      DotFirstLong(s);
    } else {
      hide Pad, FatName, PrintedName, Text, IsField;
      PrintedParts(FatName(s), s, []);
      PadUntil(s, 8);
    }
  }

  lemma DotFirstParts(s: CString)
    requires s != [] && s[0] == DOT
    ensures IsField(FatName(s), s, if |s| <= 8 then [] else s[8..])
  {
  }

  lemma DotFirstLong(s: CString)
    requires |s| > 8 && s[0] == DOT
    ensures PrintedName(FatName(s)) == s <==> IsDotTail(s)
  {
    DotFirstParts(s);
    PrintedParts(FatName(s), s, s[8..]);
    hide FatName, PrintedName, IsField;
    if IsDotTail(s) {
      DotTailText(s);
    } else if PrintedName(FatName(s)) == s {
      DotTailOnly(s, Until(Pad(s, 8), SPACE), Until(Pad(s[8..], 3), SPACE));
    }
  }

  lemma DotTailText(s: seq<byte>)
    requires IsDotTail(s)
    ensures s == Text(s, 8) + ([DOT] + Text(s[8..], 3)) && s[8] != SPACE
  {
    UntilIs(Pad(s, 8), SPACE, 8);
    assert Pad(s[8..], 3) == [DOT, DOT, DOT];
    UntilIs(Pad(s[8..], 3), SPACE, 3);
    assert s == s[..8] + s[8..];
  }

  lemma DotTailOnly(s: seq<byte>, k: nat, m: nat)
    requires |s| > 8 && s[0] == DOT && k == Until(Pad(s, 8), SPACE) && m == Until(Pad(s[8..], 3), SPACE)
    requires s == Pad(s, 8)[..k] + if s[8] == SPACE then [] else [DOT] + Pad(s[8..], 3)[..m]
    ensures IsDotTail(s)
  {
    PadSame(s, 8);
    PadSame(s[8..], 3);
    var p := Pad(s[8..], 3);
    assert s[8] != SPACE;
    assert s[k] == DOT;
    assert k == 8 && |s| == 9 + m && s[8] == DOT;
    assert forall i :: 0 <= i < m ==> s[9 + i] == p[i];
    assert p[0] == s[8] && m > 0;
    assert s[8 + m] == p[m - 1];
    assert m == 3;
    assert p[1] == s[9] && p[2] == s[10];
  }

  /** Packing a name and printing it gives it back just when it is an 8.3 name, or of one odd shape. */
  lemma NameRoundTrip(s: CString)
    ensures PrintedName(FatName(s)) == s <==> Is83(s) || IsDotTail(s)
  {
    if s != [] && s[0] == DOT {
      NameDotFirst(s);
    } else if !Has(s, DOT) {
      NameWithoutDot(s);
    } else if Until(s, DOT) <= 8 {
      NameWithDot(s);
    } else {
      NameLongBase(s);
    }
  }

  /** No two 8.3 names share a directory entry. */
  lemma FatNameInjective(s: CString, t: CString)
    requires Is83(s) && Is83(t) && FatName(s) == FatName(t)
    ensures s == t
  {
    NameRoundTrip(s);
    NameRoundTrip(t);
  }

  /** A base name that fills at most its part of the field and can be told from an extension. */
  ghost predicate IsBase(base: seq<byte>) {
    1 <= |base| <= 8 && !Has(base, SPACE) && !Has(base, DOT)
  }

  ghost predicate IsExt(ext: seq<byte>) {
    |ext| <= 3 && !Has(ext, SPACE)
  }

  /** Printing a field and packing it again gives it back. */
  lemma FieldRoundTrip(field: seq<byte>, base: seq<byte>, ext: seq<byte>)
    requires IsField(field, base, ext) && IsBase(base) && IsExt(ext)
    ensures FatName(PrintedName(field)) == field
  {
    hide Pad, Has, Text, FatName;
    PrintedParts(field, base, ext);
    PadUntil(base, 8);
    PadUntil(ext, 3);
    SpaceFirst(ext);
    var s := PrintedName(field);
    JoinedParts(base, ext, s);
    FatNameParts(s);
    FieldUnique(field, FatName(s), base, ext);
  }

  lemma FieldUnique(a: seq<byte>, b: seq<byte>, base: seq<byte>, ext: seq<byte>)
    requires IsField(a, base, ext) && IsField(b, base, ext)
    ensures a == b
  {
    hide Pad;
    assert a == a[..8] + a[8..] && b == b[..8] + b[8..];
  }

  lemma JoinedParts(base: seq<byte>, ext: seq<byte>, s: seq<byte>)
    requires IsBase(base) && s == base + if ext == [] then [] else [DOT] + ext
    ensures s != [] && s[0] != DOT && s[..BaseLen(s)] == base && Extension(s) == ext
  {
    UntilIs(s, DOT, |base|);
    hide Until;
  }

  /** The entries of a directory for itself and its parent. */
  lemma DotEntries(field: seq<byte>)
    requires field == Pad([DOT], 11) || field == Pad([DOT, DOT], 11)
    ensures FatName(PrintedName(field)) == field
  {
    var s := if field == Pad([DOT], 11) then [DOT] else [DOT, DOT];
    var n: nat := |s|;
    assert field[..8] == Pad(s, 8);
    UntilIs(field[..8], SPACE, n);
    assert field[..8][..n] == s;
  }
}
