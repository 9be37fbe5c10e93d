/** What lies on the volume beside the directory at hand and its files: other directories, the files in
    them, and whatever else is in use. Nothing that is done in the directory changes any of it. */
module Surroundings {
  import opened Bytes
  import opened Chains
  import opened Growth
  import opened Layout
  import opened Content
  import opened Descriptor
  import opened Writing
  import opened Truncation
  import opened Isolation
  import opened Entries
  import opened Directory
  import opened System
  import opened Folders
  import opened FolderSteps

  /** Cluster `n` is in use for something else than the directory and its files. */
  ghost predicate Beside(dir: Dir, others: set<nat>, n: nat) {
    n in others && n !in dir.ch
  }

  /** So is block `a`: it lies in such a cluster, or in the root directory when another one is at hand,
      or in front of the tables. */
  ghost predicate BlockBeside(g: FatInfo, dir: Dir, others: set<nat>, a: int) {
    || (a < g.dataOffset && !(g.fat0Offset <= a < g.rootDirBlock) && a !in dir.bl)
    || exists n: nat :: Beside(dir, others, n) && 2 <= n
         && ClusterBlock(g, n) <= a < ClusterBlock(g, n) + g.sectorsPerCluster
  }

  ghost predicate EntriesBeside(f: seq<word>, h: seq<word>, dir: Dir, others: set<nat>) {
    |h| == |f| && forall n: nat :: n < |f| && Beside(dir, others, n) ==> h[n] == f[n]
  }

  ghost predicate BlocksBeside(g: FatInfo, d: Disk, e: Disk, dir: Dir, others: set<nat>) {
    |e| == |d| && forall a :: 0 <= a < |d| && BlockBeside(g, dir, others, a) ==> e[a] == d[a]
  }

  /** All of that is on disk `e` as it is on disk `d`. */
  ghost predicate RestKept(g: FatInfo, d: Disk, e: Disk, dir: Dir, others: set<nat>) {
    && Fits(g, d) && BlocksBeside(g, d, e, dir, others)
    && EntriesBeside(Fat0(g, d), Fat0(g, e), dir, others)
  }

  /** Any other chain on the volume, of a directory or of a file in one, has the same entries and the
      same blocks. */
  lemma RestChain(g: FatInfo, d: Disk, e: Disk, dir: Dir, others: set<nat>, o: seq<nat>)
    requires RestKept(g, d, e, dir, others) && IsChain(Fat0(g, d), o) && ChainOnDisk(g, d, o)
    requires forall n :: n in o ==> Beside(dir, others, n)
    ensures SameChain(g, d, e, o) && IsChain(Fat0(g, e), o)
  {
    hide Fat, WellFormed, ClusterBlock, ChainBlocks, IsChain, Beside, BlockBeside;
    ChainInTable(Fat0(g, d), o);
    ClusterSize(g);
    ChainBlocksInData(g, d, o);
    forall i | 0 <= i < |o|
      ensures Fat0(g, e)[o[i]] == Fat0(g, d)[o[i]]
    {
      assert o[i] in o;
    }
    forall i | 0 <= i < |ChainBlocks(g, o)|
      ensures e[ChainBlocks(g, o)[i]] == d[ChainBlocks(g, o)[i]]
    {
      ChainBlockBeside(g, d, dir, others, o, i);
    }
    ChainKept(Fat0(g, d), Fat0(g, e), o);
    ChainNonEmpty(Fat0(g, d), o);
  }

  lemma ChainBlockBeside(g: FatInfo, d: Disk, dir: Dir, others: set<nat>, o: seq<nat>, i: nat)
    requires ChainOnDisk(g, d, o) && g.sectorsPerCluster > 0 && i < |ChainBlocks(g, o)|
    requires forall n :: n in o ==> Beside(dir, others, n)
    ensures BlockBeside(g, dir, others, ChainBlocks(g, o)[i])
  {
    hide ClusterBlock, ChainBlocks, Beside, Span;
    var k, b := BlockIndex(g, |o|, i);
    ChainBlockAt(g, o, k, b);
    assert o[k] in o && OnDisk(g, d, o[k]);
  }

  lemma RestSame(g: FatInfo, d: Disk, dir: Dir, others: set<nat>)
    requires Fits(g, d)
    ensures RestKept(g, d, d, dir, others)
  {
    hide BlockBeside;
  }

  lemma RestTrans(g: FatInfo, d: Disk, e: Disk, h: Disk, dir: Dir, others: set<nat>)
    requires RestKept(g, d, e, dir, others) && RestKept(g, e, h, dir, others)
    ensures RestKept(g, d, h, dir, others)
  {
    hide BlockBeside, Beside, Fat;
  }

  // ------------------------------------------------------------------ growing

  ghost predicate InUseBeside(f: seq<word>, others: set<nat>) {
    forall n: nat :: n < |f| && n in others ==> f[n] != 0
  }

  lemma SoundInUse(g: FatInfo, d: Disk, ss: seq<State>, others: set<nat>)
    requires Sound(g, d, ss, others)
    ensures Fits(g, d) && InUseBeside(Fat0(g, d), others)
  {
    hide Fat, AllOpen, Mirrored, FreeUsable, Separate;
  }

  lemma BesideNotOwned(g: FatInfo, f: seq<word>, ch: seq<nat>, dir: Dir, others: set<nat>, a: int)
    requires WellFormed(g) && BlockBeside(g, dir, others, a) && Outside(ch, others) && InUseBeside(f, others)
    ensures !(g.fat0Offset <= a < g.rootDirBlock) && !Owned(g, f, ch, a)
  {
    hide Owned, ClusterBlock, Pow2;
    if a < g.dataOffset && !(g.fat0Offset <= a < g.rootDirBlock) && a !in dir.bl {
      RootNotOwned(g, f, ch, a);
    } else {
      var n: nat :| Beside(dir, others, n) && 2 <= n
        && ClusterBlock(g, n) <= a < ClusterBlock(g, n) + g.sectorsPerCluster;
      NotOwned(g, f, ch, n, a - ClusterBlock(g, n));
      AboveRoot(g, n);
    }
  }

  lemma AboveRoot(g: FatInfo, n: nat)
    requires WellFormed(g) && 2 <= n
    ensures ClusterBlock(g, n) >= g.dataOffset >= g.rootDirBlock
  {
    hide Pow2;
    ClusterSize(g);
    assert (n - 2) * g.sectorsPerCluster >= 0;
  }

  lemma BlocksNotOwned(g: FatInfo, d: Disk, ch: seq<nat>, e: Disk, dir: Dir, others: set<nat>)
    requires Fits(g, d) && OnlyOwned(g, d, ch, e) && Outside(ch, others) && InUseBeside(Fat0(g, d), others)
    ensures BlocksBeside(g, d, e, dir, others)
  {
    hide Fat, Owned, BlockBeside, Outside, InUseBeside, WellFormed;
    forall a | 0 <= a < |d| && BlockBeside(g, dir, others, a)
      ensures e[a] == d[a]
    {
      BesideNotOwned(g, Fat0(g, d), ch, dir, others, a);
    }
  }

  lemma GrewBeside(f: seq<word>, ch: seq<nat>, h: seq<word>, to: seq<nat>, dir: Dir, others: set<nat>)
    requires GrewTo(f, ch, h, to) && Outside(ch, others) && InUseBeside(f, others)
    ensures EntriesBeside(f, h, dir, others)
  {
    GrewToGrowable(f, ch, h, to);
    hide Growable, Grow, FirstFits;
    forall n: nat | n < |f| && Beside(dir, others, n)
      ensures h[n] == f[n]
    {
      GrowEntry(f, ch, to[|ch|..], n);
      assert ch != [] ==> Last(ch) in ch;
    }
  }

  lemma RestGrew(g: FatInfo, d: Disk, ss: seq<State>, others: set<nat>, ch: seq<nat>, e: Disk, to: seq<nat>, dir: Dir)
    requires Sound(g, d, ss, others) && Outside(ch, others) && Grew(g, d, ch, e, to)
    ensures RestKept(g, d, e, dir, others)
  {
    hide Fat, OnlyOwned, GrewTo, Sound, Outside, InUseBeside, BlocksBeside, EntriesBeside, CanGrow, Mirrored;
    SoundInUse(g, d, ss, others);
    OnlyOwnedLength(g, d, ch, e);
    BlocksNotOwned(g, d, ch, e, dir, others);
    GrewBeside(Fat0(g, d), ch, Fat0(g, e), to, dir, others);
  }

  lemma CrashBeside(f: seq<word>, ch: seq<nat>, h: seq<word>, dir: Dir, others: set<nat>)
    requires CrashTable(f, ch, h) && Outside(ch, others) && InUseBeside(f, others)
    ensures EntriesBeside(f, h, dir, others)
  {
    hide GrewTo;
    var m, to :| GrewTo(f, ch, m, to) && MaybeMarked(m, h);
    GrewBeside(f, ch, m, to, dir, others);
    forall n: nat | n < |f| && Beside(dir, others, n)
      ensures h[n] == f[n]
    {
      assert m[n] == f[n] != 0;
    }
  }

  /** Also when power fails in the middle. */
  lemma RestCrash(g: FatInfo, d: Disk, ss: seq<State>, others: set<nat>, ch: seq<nat>, e: Disk, dir: Dir)
    requires Sound(g, d, ss, others) && Outside(ch, others) && CrashDisk(g, d, ch, e)
    ensures RestKept(g, d, e, dir, others)
  {
    hide Fat, OnlyOwned, CrashTable, Sound, Outside, InUseBeside, BlocksBeside, EntriesBeside;
    SoundInUse(g, d, ss, others);
    OnlyOwnedLength(g, d, ch, e);
    BlocksNotOwned(g, d, ch, e, dir, others);
    CrashBeside(Fat0(g, d), ch, Fat0(g, e), dir, others);
  }

  // ------------------------------------------------------------------ cutting

  lemma BlocksOutsideFats(g: FatInfo, d: Disk, e: Disk, dir: Dir, others: set<nat>)
    requires Fits(g, d) && SameOutsideFats(g, d, e)
    ensures BlocksBeside(g, d, e, dir, others)
  {
    hide BlockBeside, WellFormed;
    forall a | 0 <= a < |d| && BlockBeside(g, dir, others, a)
      ensures !(g.fat0Offset <= a < g.rootDirBlock)
    {
      BesideNoTable(g, dir, others, a);
    }
  }

  lemma BesideNoTable(g: FatInfo, dir: Dir, others: set<nat>, a: int)
    requires WellFormed(g) && BlockBeside(g, dir, others, a)
    ensures !(g.fat0Offset <= a < g.rootDirBlock)
  {
    BesideNotOwned(g, [], [], dir, others, a);
  }

  lemma RestCut(g: FatInfo, d: Disk, others: set<nat>, ch: seq<nat>, keep: nat, e: Disk, dir: Dir)
    requires Fits(g, d) && SameOutsideFats(g, d, e) && Outside(ch, others)
    requires InTable(Fat0(g, d), ch) && keep <= |ch| && Fat0(g, e) == CutFat(Fat0(g, d), ch, keep)
    ensures RestKept(g, d, e, dir, others)
  {
    BlocksOutsideFats(g, d, e, dir, others);
    CutElsewhere(Fat0(g, d), ch, keep);
    hide Fat, CutFat, BlocksBeside;
  }

  lemma RestCrashCut(g: FatInfo, d: Disk, others: set<nat>, ch: seq<nat>, keep: nat, e: Disk, dir: Dir)
    requires Fits(g, d) && SameOutsideFats(g, d, e) && Outside(ch, others)
    requires keep <= |ch| && CrashCut(Fat0(g, d), ch, keep, Fat0(g, e))
    ensures RestKept(g, d, e, dir, others)
  {
    BlocksOutsideFats(g, d, e, dir, others);
    hide Fat, BlocksBeside, IsChain;
  }

  // ------------------------------------------------------ storing in the directory

  lemma DirBlockNotBeside(g: FatInfo, d: Disk, dir: Dir, others: set<nat>, j: nat)
    requires Fits(g, d) && DirOk(g, d, dir, others) && j < |dir.bl|
    ensures g.rootDirBlock <= dir.bl[j] && !BlockBeside(g, dir, others, dir.bl[j])
  {
    hide Fat, ChainBlocks, RootBlocks, ClusterBlock, EntriesOf, IsChain, WellFormed;
    ClusterSize(g);
    if dir.cluster == 0 {
      RootShape(g);
      RootBeside(g, dir, others, dir.bl[j]);
    } else {
      ChainBlocksInData(g, d, dir.ch);
      AboveRoot(g, 2);
      AboveTwo(g, d, dir.ch);
      OwnBlockBeside(g, dir, others, j);
    }
  }

  lemma RootBeside(g: FatInfo, dir: Dir, others: set<nat>, a: int)
    requires WellFormed(g) && a in dir.bl && a < g.dataOffset
    ensures !BlockBeside(g, dir, others, a)
  {
    hide Pow2, ClusterBlock, Beside;
    forall n: nat | 2 <= n
      ensures ClusterBlock(g, n) > a
    {
      AboveRoot(g, n);
    }
  }

  lemma OwnBlockBeside(g: FatInfo, dir: Dir, others: set<nat>, j: nat)
    requires WellFormed(g) && g.sectorsPerCluster > 0 && dir.bl == ChainBlocks(g, dir.ch) && j < |dir.bl|
    requires forall i :: 0 <= i < |dir.ch| ==> 2 <= dir.ch[i]
    ensures !BlockBeside(g, dir, others, dir.bl[j])
  {
    hide ClusterBlock, ChainBlocks, Span, Pow2;
    var k, b := BlockIndex(g, |dir.ch|, j);
    ChainBlockAt(g, dir.ch, k, b);
    assert dir.bl[j] in dir.bl && dir.ch[k] in dir.ch;
    forall n: nat | Beside(dir, others, n) && 2 <= n
      ensures !(ClusterBlock(g, n) <= dir.bl[j] < ClusterBlock(g, n) + g.sectorsPerCluster)
    {
      if ClusterBlock(g, n) <= dir.bl[j] < ClusterBlock(g, n) + g.sectorsPerCluster {
        ClustersApart(g, dir.ch[k], b, n, dir.bl[j] - ClusterBlock(g, n));
      }
    }
  }

  lemma RestStored(g: FatInfo, d: Disk, dir: Dir, others: set<nat>, j: nat, block: Block)
    requires Fits(g, d) && DirOk(g, d, dir, others) && j < |dir.bl| && 0 <= dir.bl[j] < |d|
    ensures RestKept(g, d, d[dir.bl[j] := block], dir, others)
  {
    hide Fat, DirOk, BlockBeside, WellFormed;
    DirBlockNotBeside(g, d, dir, others, j);
    SameTables(g, d, dir.bl[j], block);
  }
}
