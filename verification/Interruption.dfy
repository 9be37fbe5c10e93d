/** Power cuts while one of several open files is written or truncated. */
module Interruption {
  import opened Bytes
  import opened Chains
  import opened Growth
  import opened Layout
  import opened Content
  import opened Descriptor
  import opened Writing
  import opened Truncation
  import opened Isolation
  import opened System

  /** On disk `e` every file but the `i`-th is what it is on disk `d`: its clusters still form its
      terminated chain, its descriptor is still consistent, its bytes are the same. */
  ghost predicate OthersIntact(g: FatInfo, d: Disk, ss: seq<State>, i: nat, e: Disk)
    requires Fits(g, d) && AllOpen(g, d, ss)
  {
    Fits(g, e) && forall j :: 0 <= j < |ss| && j != i ==>
      Open(g, e, ss[j]) && FlatOf(g, e, ss[j]) == FlatOf(g, d, ss[j])
  }

  ghost predicate StepsIntact(g: FatInfo, d: Disk, ss: seq<State>, i: nat, steps: seq<Disk>)
    requires Fits(g, d) && AllOpen(g, d, ss)
  {
    forall k :: 0 <= k < |steps| ==> OthersIntact(g, d, ss, i, steps[k])
  }

  /** Half-finished growth of one chain does not touch the entries of another. */
  lemma CrashTableSame(f: seq<word>, ch: seq<nat>, h: seq<word>, o: seq<nat>)
    requires CrashTable(f, ch, h) && IsChain(f, o) && Disjoint(o, ch)
    ensures |h| == |f| && InTable(f, o)
    ensures forall k :: 0 <= k < |o| ==> h[o[k]] == f[o[k]]
  {
    hide GrewTo, IsChain;
    var m, to :| GrewTo(f, ch, m, to) && MaybeMarked(m, h);
    GrewToSame(f, ch, m, to, o);
    ClustersUsed(f, o);
    forall k | 0 <= k < |o|
      ensures h[o[k]] == m[o[k]]
    {
      assert o[k] in o && m[o[k]] != 0;
    }
  }

  lemma CrashKeepsChain(g: FatInfo, d: Disk, ch: seq<nat>, e: Disk, o: seq<nat>)
    requires Fits(g, d) && CrashDisk(g, d, ch, e) && Disjoint(o, ch) && ChainOnDisk(g, d, o)
    requires o == [] || IsChain(Fat0(g, d), o)
    ensures SameChain(g, d, e, o)
  {
    hide Fat, CrashTable, Owned, ChainBlocks, ClusterBlock, WellFormed;
    ChainInTable(Fat0(g, d), o);
    if o != [] {
      OtherFileBlocks(g, d, ch, e, o);
      CrashTableSame(Fat0(g, d), ch, Fat0(g, e), o);
    }
  }

  /** A write that stops after any of its block writes leaves all other files intact. */
  lemma WriteInterrupted(g: FatInfo, d: Disk, ss: seq<State>, others: set<nat>, i: nat, steps: seq<Disk>)
    requires Sound(g, d, ss, others) && i < |ss| && CrashSafe(g, d, ss[i].chain, steps)
    ensures StepsIntact(g, d, ss, i, steps)
  {
    hide Fat, CrashDisk, Accounted, SameChain, Mirrored, FreeUsable, Open, FlatOf;
    forall k, j | 0 <= k < |steps| && 0 <= j < |ss| && j != i
      ensures Fits(g, steps[k]) && Open(g, steps[k], ss[j]) && FlatOf(g, steps[k], ss[j]) == FlatOf(g, d, ss[j])
    {
      OpenParts(g, d, ss[j]);
      CrashKeepsChain(g, d, ss[i].chain, steps[k], ss[j].chain);
      StillOpen(g, d, steps[k], ss[j]);
    }
    forall k | 0 <= k < |steps|
      ensures Fits(g, steps[k])
    {
      CrashDiskFits(g, d, ss[i].chain, steps[k]);
    }
  }

  lemma CrashDiskFits(g: FatInfo, d: Disk, ch: seq<nat>, e: Disk)
    requires Fits(g, d) && CrashDisk(g, d, ch, e)
    ensures Fits(g, e)
  {
  }

  lemma CrashCutKeepsChain(g: FatInfo, d: Disk, ch: seq<nat>, keep: nat, e: Disk, o: seq<nat>)
    requires Fits(g, d) && SameOutsideFats(g, d, e) && keep <= |ch| && CrashCut(Fat0(g, d), ch, keep, Fat0(g, e))
    requires Disjoint(o, ch) && ChainOnDisk(g, d, o) && (o == [] || IsChain(Fat0(g, d), o))
    ensures SameChain(g, d, e, o)
  {
    ClusterSize(g);
    ChainInTable(Fat0(g, d), o);
    ChainBlocksInData(g, d, o);
    hide Fat, ChainBlocks, ClusterBlock, IsChain;
    forall k | 0 <= k < |o|
      ensures Fat0(g, e)[o[k]] == Fat0(g, d)[o[k]]
    {
      assert o[k] in o;
    }
  }

  /** So does a truncation. */
  lemma CutInterrupted(g: FatInfo, d: Disk, ss: seq<State>, others: set<nat>, i: nat, keep: nat, steps: seq<Disk>)
    requires Sound(g, d, ss, others) && i < |ss| && keep <= |ss[i].chain| && CutSafe(g, d, ss[i].chain, keep, steps)
    ensures StepsIntact(g, d, ss, i, steps)
  {
    hide Fat, CrashCut, Accounted, SameChain, Mirrored, FreeUsable, Open, FlatOf;
    forall k, j | 0 <= k < |steps| && 0 <= j < |ss| && j != i
      ensures Open(g, steps[k], ss[j]) && FlatOf(g, steps[k], ss[j]) == FlatOf(g, d, ss[j])
    {
      OpenParts(g, d, ss[j]);
      CrashCutKeepsChain(g, d, ss[i].chain, keep, steps[k], ss[j].chain);
      StillOpen(g, d, steps[k], ss[j]);
    }
  }
}
