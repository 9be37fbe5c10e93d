/** What a write does to the volume: the file's chain grows, its bytes are overwritten, and every
    other file stays as it was, also when the write is cut short. */
module Writing {
  import opened Bytes
  import opened Chains
  import opened Growth
  import opened Layout
  import opened FatTable
  import opened Content

  /** A block that a write to the file with chain `ch` may change: it belongs to the file or is free. */
  ghost predicate Owned(g: FatInfo, f: seq<word>, ch: seq<nat>, a: int) {
    exists c: nat :: (c in ch || c in Free(f)) && c >= 2
      && ClusterBlock(g, c) <= a < ClusterBlock(g, c) + g.sectorsPerCluster
  }

  ghost predicate OnlyOwned(g: FatInfo, d: Disk, ch: seq<nat>, e: Disk)
    requires Fits(g, d)
  {
    && |e| == |d|
    && forall a :: 0 <= a < |d| && !(g.fat0Offset <= a < g.rootDirBlock) && !Owned(g, Fat0(g, d), ch, a) ==>
         e[a] == d[a]
  }

  ghost predicate CanGrow(g: FatInfo, d: Disk, ch: seq<nat>)
    requires Fits(g, d)
  {
    FreeUsable(g, d) && Growable(Fat0(g, d), ch) && ChainOnDisk(g, d, ch)
  }

  /** From disk `d` to disk `e` the chain `ch` has grown to `to` by first fit, in both tables, and no
      block but those of the file and of free clusters has changed. */
  ghost predicate Grew(g: FatInfo, d: Disk, ch: seq<nat>, e: Disk, to: seq<nat>)
    requires Fits(g, d)
  {
    && CanGrow(g, d, ch)
    && OnlyOwned(g, d, ch, e)
    && Mirrored(g, e)
    && GrewTo(Fat0(g, d), ch, Fat0(g, e), to)
  }

  lemma GrewNothing(g: FatInfo, d: Disk, ch: seq<nat>)
    requires Fits(g, d) && CanGrow(g, d, ch) && Mirrored(g, d)
    ensures Grew(g, d, ch, d, ch)
  {
    hide GrewTo, Fat;
    GrewToSelf(Fat0(g, d), ch);
  }

  lemma GrewCanGrow(g: FatInfo, d: Disk, ch: seq<nat>, e: Disk, to: seq<nat>)
    requires Fits(g, d) && Grew(g, d, ch, e, to)
    ensures CanGrow(g, e, to)
  {
    hide Fat, GrewTo, IsChain;
    var f, h := Fat0(g, d), Fat0(g, e);
    GrewToGrowable(f, ch, h, to);
    forall c: nat | c < |h| && h[c] == 0
      ensures IsCluster(h, c) && OnDisk(g, e, c)
    {
      assert c in Free(h);
    }
    forall i | 0 <= i < |to|
      ensures OnDisk(g, e, to[i])
    {
      assert to[i] in ch || to[i] in Free(f);
    }
  }

  lemma OwnedBack(g: FatInfo, f: seq<word>, ch: seq<nat>, h: seq<word>, to: seq<nat>, a: int)
    requires GrewTo(f, ch, h, to) && Owned(g, h, to, a)
    ensures Owned(g, f, ch, a)
  {
    hide GrewTo, ClusterBlock, Free;
    GrewToGrowable(f, ch, h, to);
  }

  lemma OnlyOwnedBack(g: FatInfo, d: Disk, ch: seq<nat>, e: Disk, mid: seq<nat>, h: Disk)
    requires Fits(g, d) && Grew(g, d, ch, e, mid) && OnlyOwned(g, e, mid, h)
    ensures OnlyOwned(g, d, ch, h)
  {
    hide GrewTo, Owned, Fat;
    forall a | 0 <= a < |d| && !(g.fat0Offset <= a < g.rootDirBlock) && !Owned(g, Fat0(g, d), ch, a)
      ensures h[a] == d[a]
    {
      if Owned(g, Fat0(g, e), mid, a) {
        OwnedBack(g, Fat0(g, d), ch, Fat0(g, e), mid, a);
      }
    }
  }

  /** Growth in two stretches is growth. */
  lemma GrewTrans(g: FatInfo, d: Disk, ch: seq<nat>, e: Disk, mid: seq<nat>, h: Disk, to: seq<nat>)
    requires Fits(g, d) && Grew(g, d, ch, e, mid) && Grew(g, e, mid, h, to)
    ensures Grew(g, d, ch, h, to)
  {
    hide GrewTo, Fat, OnlyOwned, Mirrored;
    OnlyOwnedLength(g, d, ch, e);
    OnlyOwnedLength(g, e, mid, h);
    GrewToTrans(Fat0(g, d), ch, Fat0(g, e), mid, Fat0(g, h), to);
    OnlyOwnedBack(g, d, ch, e, mid, h);
  }

  lemma OnlyOwnedLength(g: FatInfo, d: Disk, ch: seq<nat>, e: Disk)
    requires Fits(g, d) && OnlyOwned(g, d, ch, e)
    ensures |e| == |d|
  {
  }

  lemma OutsideFatsOnlyOwned(g: FatInfo, d: Disk, ch: seq<nat>, e: Disk)
    requires Fits(g, d) && SameOutsideFats(g, d, e)
    ensures OnlyOwned(g, d, ch, e)
  {
  }

  /** Taking one cluster by first fit. */
  lemma GrewOne(g: FatInfo, d: Disk, ch: seq<nat>, e: Disk)
    requires Fits(g, d) && CanGrow(g, d, ch)
    requires SameOutsideFats(g, d, e) && Mirrored(g, e) && Last(ch) < |Fat0(g, d)|
    requires FirstFree(Fat0(g, d), 0) < |Fat0(g, d)|
    requires Fat0(g, e) == AllocFat(Fat0(g, d), Last(ch), FirstFree(Fat0(g, d), 0))
    ensures Grew(g, d, ch, e, ch + [FirstFree(Fat0(g, d), 0)])
  {
    hide Fat, AllocFat, FirstFree, Mirrored, Owned, GrewTo;
    GrewToOne(Fat0(g, d), ch);
    OutsideFatsOnlyOwned(g, d, ch, e);
  }

  /** Rewriting a block of the file itself. */
  lemma GrewBlock(g: FatInfo, d: Disk, ch: seq<nat>, k: nat, b: nat, block: Block)
    requires Fits(g, d) && CanGrow(g, d, ch) && Mirrored(g, d)
    requires k < |ch| && b < g.sectorsPerCluster
    ensures 2 <= ch[k] && g.dataOffset <= ClusterBlock(g, ch[k]) + b < |d|
    ensures Grew(g, d, ch, d[ClusterBlock(g, ch[k]) + b := block], ch)
  {
    assert OnDisk(g, d, ch[k]);
    ClusterInData(g, d, ch[k], b);
    var a := ClusterBlock(g, ch[k]) + b;
    SameTables(g, d, a, block);
    assert Owned(g, Fat0(g, d), ch, a) by {
      assert ch[k] in ch;
    }
    hide Fat, GrewTo, Owned, ClusterBlock, Mirrored;
    GrewToSelf(Fat0(g, d), ch);
  }

  lemma SameTables(g: FatInfo, d: Disk, a: nat, block: Block)
    requires Fits(g, d) && g.rootDirBlock <= a < |d|
    ensures Fat0(g, d[a := block]) == Fat0(g, d) && Fat1(g, d[a := block]) == Fat1(g, d)
    ensures Mirrored(g, d) ==> Mirrored(g, d[a := block])
  {
    var e := d[a := block];
    FatFrame(g, d, e, g.fat0Offset);
    FatFrame(g, d, e, g.fat1Offset);
    assert e[g.fat0Offset..g.fat1Offset] == d[g.fat0Offset..g.fat1Offset];
    assert e[g.fat1Offset..g.rootDirBlock] == d[g.fat1Offset..g.rootDirBlock];
  }

  // ------------------------------------------------------------ other files

  /** Whatever a write to the file with chain `ch` leaves on the disk, the blocks of a file that
      shares no cluster with it are as before. */
  lemma OtherFileBlocks(g: FatInfo, d: Disk, ch: seq<nat>, e: Disk, o: seq<nat>)
    requires Fits(g, d) && OnlyOwned(g, d, ch, e)
    requires ChainOnDisk(g, d, o) && Disjoint(o, ch) && IsChain(Fat0(g, d), o)
    ensures forall i :: 0 <= i < |ChainBlocks(g, o)| ==>
      0 <= ChainBlocks(g, o)[i] < |d| && e[ChainBlocks(g, o)[i]] == d[ChainBlocks(g, o)[i]]
  {
    ClusterSize(g);
    ClustersUsed(Fat0(g, d), o);
    hide Fat, Span, ClusterBlock, ChainBlocks, IsChain, Owned;
    ChainBlocksInData(g, d, o);
    var bl := ChainBlocks(g, o);
    forall i | 0 <= i < |bl|
      ensures 0 <= bl[i] < |d| && e[bl[i]] == d[bl[i]]
    {
      var k, b := BlockIndex(g, |o|, i);
      ChainBlockAt(g, o, k, b);
      assert o[k] in o;
      NotOwned(g, Fat0(g, d), ch, o[k], b);
    }
  }

  lemma NotOwned(g: FatInfo, f: seq<word>, ch: seq<nat>, c: nat, b: nat)
    requires c !in ch && c !in Free(f) && 2 <= c && b < g.sectorsPerCluster
    ensures !Owned(g, f, ch, ClusterBlock(g, c) + b)
  {
    hide ClusterBlock, Free;
    var a := ClusterBlock(g, c) + b;
    if Owned(g, f, ch, a) {
      var x: nat :| (x in ch || x in Free(f)) && x >= 2
        && ClusterBlock(g, x) <= a < ClusterBlock(g, x) + g.sectorsPerCluster;
      ClustersApart(g, c, b, x, a - ClusterBlock(g, x));
    }
  }

  // ------------------------------------------------------------ interruption

  /** What a power cut in the middle of a write to the file with chain `ch` can leave on the disk. */
  ghost predicate CrashDisk(g: FatInfo, d: Disk, ch: seq<nat>, e: Disk)
    requires Fits(g, d)
  {
    && OnlyOwned(g, d, ch, e)
    && CrashTable(Fat0(g, d), ch, Fat0(g, e))
    && CrashTable(Fat0(g, d), ch, Fat1(g, e))
  }

  ghost predicate CrashSafe(g: FatInfo, d: Disk, ch: seq<nat>, steps: seq<Disk>)
    requires Fits(g, d)
  {
    forall i :: 0 <= i < |steps| ==> CrashDisk(g, d, ch, steps[i])
  }

  lemma CrashDiskBack(g: FatInfo, d: Disk, ch: seq<nat>, e: Disk, mid: seq<nat>, h: Disk)
    requires Fits(g, d) && Grew(g, d, ch, e, mid) && CrashDisk(g, e, mid, h)
    ensures CrashDisk(g, d, ch, h)
  {
    hide GrewTo, Fat, CrashTable, Owned, Mirrored;
    OnlyOwnedBack(g, d, ch, e, mid, h);
    CrashTableBack(Fat0(g, d), ch, Fat0(g, e), mid, Fat0(g, h));
    CrashTableBack(Fat0(g, d), ch, Fat0(g, e), mid, Fat1(g, h));
  }

  lemma CrashSafeConcat(g: FatInfo, d: Disk, ch: seq<nat>, steps: seq<Disk>, e: Disk, mid: seq<nat>, more: seq<Disk>)
    requires Fits(g, d) && CrashSafe(g, d, ch, steps)
    requires Grew(g, d, ch, e, mid) && CrashSafe(g, e, mid, more)
    ensures CrashSafe(g, d, ch, steps + more)
  {
    hide CrashDisk, Grew;
    forall i | 0 <= i < |steps + more|
      ensures CrashDisk(g, d, ch, (steps + more)[i])
    {
      if i >= |steps| {
        CrashDiskBack(g, d, ch, e, mid, more[i - |steps|]);
      }
    }
  }

  /** A finished stretch of growth is itself such a state. */
  lemma GrewCrashDisk(g: FatInfo, d: Disk, ch: seq<nat>, e: Disk, to: seq<nat>)
    requires Fits(g, d) && Grew(g, d, ch, e, to)
    ensures CrashDisk(g, d, ch, e)
  {
    hide GrewTo, Fat, Owned, Mirrored;
    MirroredViews(g, e);
  }

  /** Every block write of one allocation leaves such a state, in either table: the new cluster is
      marked as an end of chain before anything links to it. */
  lemma AllocCrashSafe(g: FatInfo, d: Disk, ch: seq<nat>, steps: seq<Disk>)
    requires Fits(g, d) && CanGrow(g, d, ch) && Mirrored(g, d) && Last(ch) < |Fat0(g, d)|
    requires Journal(g, d, steps, AllocJournal(Fat0(g, d), Last(ch)))
    ensures CrashSafe(g, d, ch, steps)
  {
    hide Fat, CrashTable, FirstFree, AllocViews, GrewTo, Owned, Growable;
    var f := Fat0(g, d);
    if FirstFree(f, 0) < |f| {
      AllocCrashViews(f, ch);
    }
    forall i | 0 <= i < |steps|
      ensures CrashDisk(g, d, ch, steps[i])
    {
      assert TablesRead(g, d, steps[i], AllocJournal(f, Last(ch))[i]);
      OutsideFatsOnlyOwned(g, d, ch, steps[i]);
    }
  }

  lemma AllocCrashViews(f: seq<word>, ch: seq<nat>)
    requires Growable(f, ch) && Last(ch) < |f| <= 0x1_0000 && FirstFree(f, 0) < |f|
    ensures forall i :: 0 <= i < |AllocViews(f, Last(ch), FirstFree(f, 0))| ==>
      && CrashTable(f, ch, AllocViews(f, Last(ch), FirstFree(f, 0))[i].0)
      && CrashTable(f, ch, AllocViews(f, Last(ch), FirstFree(f, 0))[i].1)
  {
    hide FirstFree, GrewTo;
    GrewToSelf(f, ch);
    GrewToOne(f, ch);
    var n := FirstFree(f, 0);
    var h, a := f[n := EOC], AllocFat(f, Last(ch), n);
    assert MaybeMarked(f, h);
    assert CrashTable(f, ch, f) && CrashTable(f, ch, h) && CrashTable(f, ch, a);
    LastNonZero(f, ch);
  }

  lemma LastNonZero(f: seq<word>, ch: seq<nat>)
    requires Growable(f, ch)
    ensures Last(ch) == 0 <==> ch == []
  {
  }
}
