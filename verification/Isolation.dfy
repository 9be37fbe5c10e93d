/** What happens to one open file while another one is written or truncated: nothing. */
module Isolation {
  import opened Bytes
  import opened Chains
  import opened Growth
  import opened Layout
  import opened Content
  import opened Descriptor
  import opened FileSteps
  import opened Writing

  /** The entries and blocks of a chain are the same on both disks. */
  ghost predicate SameChain(g: FatInfo, d: Disk, e: Disk, ch: seq<nat>)
    requires Fits(g, d)
  {
    && |e| == |d|
    && InTable(Fat0(g, d), ch)
    && (forall i :: 0 <= i < |ch| ==> Fat0(g, e)[ch[i]] == Fat0(g, d)[ch[i]])
    && (forall i :: 0 <= i < |ChainBlocks(g, ch)| ==>
          0 <= ChainBlocks(g, ch)[i] < |d| && e[ChainBlocks(g, ch)[i]] == d[ChainBlocks(g, ch)[i]])
  }

  lemma ChainInTable(f: seq<word>, ch: seq<nat>)
    requires ch == [] || IsChain(f, ch)
    ensures InTable(f, ch)
  {
    if ch != [] {
      forall i | 0 <= i < |ch|
        ensures ch[i] < |f|
      {
        assert IsCluster(f, ch[i]);
      }
    }
  }

  /** A descriptor whose chain is untouched is as good on the new disk, and so are its bytes. */
  lemma OpenKept(g: FatInfo, d: Disk, e: Disk, o: State)
    requires Fits(g, d) && Open(g, d, o) && SameChain(g, d, e, o.chain)
    ensures Open(g, e, o)
    ensures FileData(g, e, o) == FileData(g, d, o)
  {
    hide Fat, ClusterBlock, Span, WellFormed, ChainBlocks, Data;
    ChainKept(Fat0(g, d), Fat0(g, e), o.chain);
    OpenHolds(g, d, o);
    ChainOkBlocks(g, d, o);
    DataFrame(d, e, ChainBlocks(g, o.chain), o.size);
  }

  lemma ChainKept(f: seq<word>, h: seq<word>, ch: seq<nat>)
    requires ch == [] || IsChain(f, ch)
    requires |h| == |f| && InTable(f, ch) && forall i :: 0 <= i < |ch| ==> h[ch[i]] == f[ch[i]]
    ensures ch == [] || IsChain(h, ch)
  {
    if ch != [] {
      forall x | x in ch
        ensures f[x] == h[x]
      {
      }
      ChainFrame(f, h, ch);
    }
  }

  /** Growth of one chain leaves every disjoint chain and its blocks alone. */
  lemma GrewKeepsChain(g: FatInfo, d: Disk, ch: seq<nat>, e: Disk, to: seq<nat>, o: seq<nat>)
    requires Fits(g, d) && Grew(g, d, ch, e, to) && Disjoint(o, ch) && ChainOnDisk(g, d, o)
    requires o == [] || IsChain(Fat0(g, d), o)
    ensures SameChain(g, d, e, o) && Disjoint(o, to)
  {
    ChainInTable(Fat0(g, d), o);
    if o != [] {
      hide Fat, GrewTo, Owned, ChainBlocks, ClusterBlock, WellFormed;
      OtherFileBlocks(g, d, ch, e, o);
      GrewToSame(Fat0(g, d), ch, Fat0(g, e), to, o);
    } else {
      OnlyOwnedLength(g, d, ch, e);
    }
  }

  lemma GrewToSame(f: seq<word>, ch: seq<nat>, h: seq<word>, to: seq<nat>, o: seq<nat>)
    requires GrewTo(f, ch, h, to) && IsChain(f, o) && Disjoint(o, ch)
    ensures |h| == |f| && Disjoint(o, to) && InTable(f, o)
    ensures forall i :: 0 <= i < |o| ==> h[o[i]] == f[o[i]]
  {
    var ext := to[|ch|..];
    assert to == ch + ext;
    ChainInTable(f, o);
    hide Growable, FirstFits, Grow, IsChain;
    GrewToGrowable(f, ch, h, to);
    GrewToKeeps(f, ch, h, to, o);
    forall i | 0 <= i < |o|
      ensures h[o[i]] == f[o[i]]
    {
      GrowEntry(f, ch, ext, o[i]);
      assert o[i] in o;
      assert ch != [] ==> Last(ch) in ch;
    }
  }

  /** So does cutting. */
  lemma CutKeepsChain(g: FatInfo, d: Disk, ch: seq<nat>, keep: nat, e: Disk, o: seq<nat>)
    requires Fits(g, d) && SameOutsideFats(g, d, e) && Disjoint(o, ch) && ChainOnDisk(g, d, o)
    requires o == [] || IsChain(Fat0(g, d), o)
    requires InTable(Fat0(g, d), ch) && keep <= |ch| && Fat0(g, e) == CutFat(Fat0(g, d), ch, keep)
    ensures SameChain(g, d, e, o)
  {
    ClusterSize(g);
    ChainInTable(Fat0(g, d), o);
    ChainBlocksInData(g, d, o);
    CutElsewhere(Fat0(g, d), ch, keep);
    hide Fat, CutFat, ChainBlocks, ClusterBlock, IsChain;
    forall i | 0 <= i < |o|
      ensures Fat0(g, e)[o[i]] == Fat0(g, d)[o[i]]
    {
      assert o[i] in o;
    }
  }

  lemma CutElsewhere(f: seq<word>, ch: seq<nat>, keep: nat)
    requires InTable(f, ch) && keep <= |ch|
    ensures |CutFat(f, ch, keep)| == |f|
    ensures forall n: nat :: n < |f| && n !in ch ==> CutFat(f, ch, keep)[n] == f[n]
  {
  }
}
