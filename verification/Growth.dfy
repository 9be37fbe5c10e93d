/** A chain growing by first-fit allocation, and what a table may look like half way through. */
module Growth {
  import opened Bytes
  import opened Chains

  /** The table after the clusters `ext` have been hung one by one behind the chain `ch`. */
  ghost function Grow(f: seq<word>, ch: seq<nat>, ext: seq<nat>): (g: seq<word>)
    requires |f| <= 0x1_0000 && InTable(f, ch) && InTable(f, ext) && |f| > 0
    ensures |g| == |f|
  {
    if ext == [] then f
    else
      var e := ext[..|ext| - 1];
      AllocFat(Grow(f, ch, e), Last(ch + e), ext[|ext| - 1])
  }

  /** Each of the clusters `ext` was the least free one when it was taken. */
  ghost predicate FirstFits(f: seq<word>, ch: seq<nat>, ext: seq<nat>)
    requires |f| <= 0x1_0000 && InTable(f, ch) && |f| > 0
  {
    InTable(f, ext) &&
    (ext == [] ||
     (var e := ext[..|ext| - 1];
      FirstFits(f, ch, e) && ext[|ext| - 1] == FirstFree(Grow(f, ch, e), 0)))
  }

  ghost predicate FreeClusters(f: seq<word>) {
    forall c :: 0 <= c < |f| && f[c] == 0 ==> IsCluster(f, c)
  }

  ghost predicate Growable(f: seq<word>, ch: seq<nat>) {
    0 < |f| <= 0x1_0000 && InTable(f, ch) && (ch == [] || IsChain(f, ch)) && FreeClusters(f)
  }

  lemma GrowAppend(f: seq<word>, ch: seq<nat>, ext: seq<nat>, n: nat)
    requires |f| <= 0x1_0000 && InTable(f, ch) && |f| > 0 && FirstFits(f, ch, ext)
    requires n < |f| && n == FirstFree(Grow(f, ch, ext), 0)
    ensures FirstFits(f, ch, ext + [n])
    ensures Grow(f, ch, ext + [n]) == AllocFat(Grow(f, ch, ext), Last(ch + ext), n)
  {
    assert (ext + [n])[..|ext|] == ext;
  }

  lemma GrowNone(f: seq<word>, ch: seq<nat>)
    requires |f| <= 0x1_0000 && InTable(f, ch) && |f| > 0
    ensures FirstFits(f, ch, []) && Grow(f, ch, []) == f
  {
  }

  lemma GrowUnfold(f: seq<word>, ch: seq<nat>, ext: seq<nat>)
    requires |f| <= 0x1_0000 && InTable(f, ch) && |f| > 0 && FirstFits(f, ch, ext) && ext != []
    ensures var e, n := ext[..|ext| - 1], ext[|ext| - 1];
            && FirstFits(f, ch, e) && n < |f| && n == FirstFree(Grow(f, ch, e), 0)
            && Grow(f, ch, ext) == AllocFat(Grow(f, ch, e), Last(ch + e), n)
  {
  }

  lemma {:induction false} GrowConcat(f: seq<word>, ch: seq<nat>, a: seq<nat>, b: seq<nat>)
    requires |f| <= 0x1_0000 && InTable(f, ch) && |f| > 0 && FirstFits(f, ch, a) && InTable(f, a)
    requires InTable(f, ch + a) && FirstFits(Grow(f, ch, a), ch + a, b) && InTable(f, b)
    ensures FirstFits(f, ch, a + b) && Grow(f, ch, a + b) == Grow(Grow(f, ch, a), ch + a, b)
  {
    hide Grow, FirstFits, AllocFat, FirstFree;
    if b == [] {
      GrowNone(Grow(f, ch, a), ch + a);
      assert a + b == a;
    } else {
      var e, n := b[..|b| - 1], b[|b| - 1];
      GrowUnfold(Grow(f, ch, a), ch + a, b);
      GrowConcat(f, ch, a, e);
      GrowAppend(f, ch, a + e, n);
      assert a + b == a + e + [n] && ch + (a + e) == ch + a + e;
    }
  }

  /** A grown chain is still a chain. */
  lemma {:induction false} GrowChain(f: seq<word>, ch: seq<nat>, ext: seq<nat>)
    requires Growable(f, ch) && FirstFits(f, ch, ext)
    ensures Growable(Grow(f, ch, ext), ch + ext)
  {
    if ext == [] {
      assert ch + ext == ch;
    } else {
      var e, n := ext[..|ext| - 1], ext[|ext| - 1];
      GrowChain(f, ch, e);
      hide IsChain;
      GrowStep(f, ch, e, n);
      assert ch + ext == ch + e + [n];
    }
  }

  lemma GrowStep(f: seq<word>, ch: seq<nat>, e: seq<nat>, n: nat)
    requires Growable(f, ch) && FirstFits(f, ch, e) && Growable(Grow(f, ch, e), ch + e)
    requires n < |f| && Grow(f, ch, e)[n] == 0
    ensures Growable(AllocFat(Grow(f, ch, e), Last(ch + e), n), ch + e + [n])
  {
    AllocExtends(Grow(f, ch, e), ch + e, n);
  }

  ghost predicate Entry(f: seq<word>, ch: seq<nat>, h: seq<word>, ext: seq<nat>, n: nat)
    requires n < |f| && |h| == |f|
  {
    && (n in ext ==> f[n] == 0 && h[n] != 0)
    && (n !in ext && (ch == [] || n != Last(ch)) ==> h[n] == f[n])
    && (ch != [] && n == Last(ch) ==> f[n] != 0 && h[n] != 0)
  }

  /** Growing takes free clusters and otherwise rewrites only the entry that ended the chain. */
  lemma {:induction false} GrowEntry(f: seq<word>, ch: seq<nat>, ext: seq<nat>, n: nat)
    requires Growable(f, ch) && FirstFits(f, ch, ext) && n < |f|
    ensures InTable(f, ch) && InTable(f, ext) && Entry(f, ch, Grow(f, ch, ext), ext, n)
  {
    assert InTable(f, ch) && InTable(f, ext);
    hide Grow, FirstFits, FirstFree;
    if ext == [] {
      GrowNone(f, ch);
      LastUsed(f, ch);
    } else {
      GrowUnfold(f, ch, ext);
      var e, m := ext[..|ext| - 1], ext[|ext| - 1];
      GrowEntry(f, ch, e, n);
      GrowEntry(f, ch, e, m);
      if e != [] {
        GrowEntry(f, ch, e, Last(e));
      }
      assert ext == e + [m];
    }
  }

  lemma LastUsed(f: seq<word>, ch: seq<nat>)
    requires Growable(f, ch)
    ensures ch != [] ==> f[Last(ch)] != 0
  {
    if ch != [] {
      ClustersUsed(f, ch);
      assert Last(ch) in ch;
    }
  }

  /** Every cluster a chain gains is one the free pool loses. */
  lemma {:induction false} GrowFree(f: seq<word>, ch: seq<nat>, ext: seq<nat>)
    requires Growable(f, ch) && FirstFits(f, ch, ext)
    ensures |Free(Grow(f, ch, ext))| == |Free(f)| - |ext|
  {
    if ext != [] {
      var e, n := ext[..|ext| - 1], ext[|ext| - 1];
      GrowFree(f, ch, e);
      GrowChain(f, ch, e);
      var h := Grow(f, ch, e);
      hide Growable, FirstFits, Grow;
      AllocFree(h, ch + e, n);
    }
  }

  lemma AllocFree(f: seq<word>, ch: seq<nat>, n: nat)
    requires Growable(f, ch) && n < |f| && f[n] == 0
    ensures Last(ch) < |f| && Free(AllocFat(f, Last(ch), n)) == Free(f) - {n} && n in Free(f)
  {
    if ch != [] {
      ClustersUsed(f, ch);
      assert Last(ch) in ch;
    }
    assert IsCluster(f, n);
  }

  // ------------------------------------------------------- growth as a relation

  /** By first-fit allocation the chain `ch` of table `f` has become the chain `to` of table `h`. */
  ghost predicate GrewTo(f: seq<word>, ch: seq<nat>, h: seq<word>, to: seq<nat>) {
    Growable(f, ch) && ch <= to && FirstFits(f, ch, to[|ch|..]) && h == Grow(f, ch, to[|ch|..])
  }

  lemma GrewToSelf(f: seq<word>, ch: seq<nat>)
    requires Growable(f, ch)
    ensures GrewTo(f, ch, f, ch)
  {
    assert ch[|ch|..] == [];
    GrowNone(f, ch);
  }

  /** Only free clusters become part of the chain, and only free entries become used. */
  lemma GrewToGrowable(f: seq<word>, ch: seq<nat>, h: seq<word>, to: seq<nat>)
    requires GrewTo(f, ch, h, to)
    ensures |h| == |f| && Growable(h, to)
    ensures Free(h) <= Free(f)
    ensures forall x :: x in to ==> x in ch || x in Free(f)
  {
    var ext := to[|ch|..];
    assert to == ch + ext;
    GrowChain(f, ch, ext);
    hide Grow, FirstFits, Growable;
    forall c: nat | c < |f|
      ensures (h[c] == 0 ==> f[c] == 0) && (c in ext ==> c in Free(f))
    {
      GrowEntry(f, ch, ext, c);
    }
    assert InTable(h, to) by {
      GrowableInTable(h, to);
    }
  }

  lemma GrowableInTable(f: seq<word>, ch: seq<nat>)
    requires Growable(f, ch)
    ensures InTable(f, ch) && 0 < |f| <= 0x1_0000
  {
  }

  lemma GrowableChain(f: seq<word>, ch: seq<nat>)
    requires Growable(f, ch)
    ensures ch != [] ==> IsChain(f, ch)
  {
  }

  /** Growth in two stretches is growth. */
  lemma GrewToTrans(f: seq<word>, ch: seq<nat>, m: seq<word>, mid: seq<nat>, h: seq<word>, to: seq<nat>)
    requires GrewTo(f, ch, m, mid) && GrewTo(m, mid, h, to)
    ensures GrewTo(f, ch, h, to)
  {
    GrewToGrowable(f, ch, m, mid);
    GrowableInTable(m, mid);
    var a, b := mid[|ch|..], to[|mid|..];
    assert mid == ch + a && to[|ch|..] == a + b;
    assert InTable(f, a) && InTable(f, b);
    hide Grow, FirstFits, Growable;
    GrowConcat(f, ch, a, b);
  }

  /** Taking the first free cluster. */
  lemma GrewToOne(f: seq<word>, ch: seq<nat>)
    requires Growable(f, ch) && FirstFree(f, 0) < |f|
    ensures Last(ch) < |f| && GrewTo(f, ch, AllocFat(f, Last(ch), FirstFree(f, 0)), ch + [FirstFree(f, 0)])
  {
    var n := FirstFree(f, 0);
    GrowNone(f, ch);
    GrowAppend(f, ch, [], n);
    assert [] + [n] == [n] && ch + [] == ch && (ch + [n])[|ch|..] == [n];
  }

  /** A chain that shares no cluster with the growing one is left as it was. */
  lemma GrewToKeeps(f: seq<word>, ch: seq<nat>, h: seq<word>, to: seq<nat>, o: seq<nat>)
    requires GrewTo(f, ch, h, to) && IsChain(f, o) && Disjoint(o, ch)
    ensures IsChain(h, o) && Disjoint(o, to)
  {
    var ext := to[|ch|..];
    assert to == ch + ext;
    assert InTable(f, ch) && InTable(f, ext);
    hide Growable, FirstFits, Grow;
    ClustersUsed(f, o);
    forall x | x in o
      ensures h[x] == f[x] && x !in ext
    {
      GrowEntry(f, ch, ext, x);
      assert ch != [] ==> Last(ch) in ch;
    }
    ChainFrame(f, h, o);
  }

  /** Every cluster a chain gains is one the free pool loses. */
  lemma GrewToFree(f: seq<word>, ch: seq<nat>, h: seq<word>, to: seq<nat>)
    requires GrewTo(f, ch, h, to)
    ensures |Free(h)| + |to| == |Free(f)| + |ch|
  {
    GrowFree(f, ch, to[|ch|..]);
  }

  // ------------------------------------------------------------ interruption

  /** What one table may read at any moment while `ch` grows in `f`: some clusters have been hung
      behind it, and at most one more is marked but not linked yet. */
  ghost predicate CrashTable(f: seq<word>, ch: seq<nat>, h: seq<word>) {
    exists m, to :: GrewTo(f, ch, m, to) && MaybeMarked(m, h)
  }

  /** `h` is `m`, or `m` with one free cluster marked as an end of chain. */
  ghost predicate MaybeMarked(m: seq<word>, h: seq<word>) {
    h == m || exists n :: 0 <= n < |m| && m[n] == 0 && h == m[n := EOC]
  }

  lemma CrashTableBack(f: seq<word>, ch: seq<nat>, m: seq<word>, mid: seq<nat>, h: seq<word>)
    requires GrewTo(f, ch, m, mid) && CrashTable(m, mid, h)
    ensures CrashTable(f, ch, h)
  {
    hide GrewTo, MaybeMarked;
    var l, to :| GrewTo(m, mid, l, to) && MaybeMarked(l, h);
    GrewToTrans(f, ch, m, mid, l, to);
  }

  /** The orphan a table may hold: a cluster in use that no chain reaches. */
  ghost predicate OnlyOrphan(f: seq<word>, h: seq<word>, ch: seq<nat>, orphan: int) {
    |h| == |f| && forall n: nat :: n < |f| && f[n] == 0 && h[n] != 0 ==> n in ch || n == orphan
  }

  /** Interrupted growth harms nothing: every other chain is intact, the growing chain is still a
      terminated chain that starts with all its old clusters, and at most one cluster is lost. */
  lemma CrashTableMeaning(f: seq<word>, ch: seq<nat>, h: seq<word>) returns (to: seq<nat>, orphan: int)
    requires CrashTable(f, ch, h)
    ensures ch <= to && (to != [] ==> IsChain(h, to))
    ensures forall o :: IsChain(f, o) && Disjoint(o, ch) ==> IsChain(h, o) && Disjoint(o, to)
    ensures OnlyOrphan(f, h, to, orphan)
  {
    var m;
    m, to :| GrewTo(f, ch, m, to) && MaybeMarked(m, h);
    assert ch <= to;
    hide GrewTo, Growable, IsChain;
    orphan := -1;
    if h != m {
      orphan :| 0 <= orphan < |m| && m[orphan] == 0 && h == m[orphan := EOC];
      MarkKeepsChains(m, orphan);
    }
    GrewToGrowable(f, ch, m, to);
    GrowableChain(m, to);
    forall o | IsChain(f, o) && Disjoint(o, ch)
      ensures IsChain(h, o) && Disjoint(o, to)
    {
      GrewToKeeps(f, ch, m, to, o);
    }
    forall n: nat | n < |f| && f[n] == 0 && h[n] != 0
      ensures n in to || n == orphan
    {
      if n != orphan {
        GrewToUsed(f, ch, m, to, n);
      }
    }
  }

  lemma GrewToUsed(f: seq<word>, ch: seq<nat>, h: seq<word>, to: seq<nat>, n: nat)
    requires GrewTo(f, ch, h, to) && n < |f| && f[n] == 0 && h[n] != 0
    ensures n in to
  {
    assert to == ch + to[|ch|..];
    GrowEntry(f, ch, to[|ch|..], n);
  }

  lemma MarkKeepsChains(f: seq<word>, n: nat)
    requires n < |f| && f[n] == 0
    ensures forall o :: IsChain(f, o) ==> IsChain(f[n := EOC], o)
  {
    forall o | IsChain(f, o)
      ensures IsChain(f[n := EOC], o)
    {
      ClustersUsed(f, o);
      ChainFrame(f, f[n := EOC], o);
    }
  }
}
