/** Cutting a file off at the position. */
module Truncation {
  import opened Bytes
  import opened Chains
  import opened Layout
  import opened BlockCache
  import opened FatTable
  import opened Content
  import opened Descriptor
  import opened Position
  import opened FileSteps

  /** How many clusters the first `off` bytes need: the current one counts unless the position is its start. */
  function Kept(s: State): nat {
    if s.bic == 0 && s.idx == 0 then s.at else s.at + 1
  }

  /** Like an open file, but a position at the end of any cluster will do, also behind one that is
      not the last. */
  ghost predicate Cuttable(g: FatInfo, d: Disk, s: State)
    requires Fits(g, d)
  {
    FileOk(g, d, s) && s.off <= s.size && Standing(g, Fat0(g, d), s)
  }

  lemma OpenCuttable(g: FatInfo, d: Disk, s: State)
    requires Fits(g, d) && Open(g, d, s)
    ensures Cuttable(g, d, s)
  {
    hide Fat, ClusterBlock, ChainOk;
  }

  lemma CuttableHolds(g: FatInfo, d: Disk, s: State)
    requires Fits(g, d) && Cuttable(g, d, s)
    ensures Holds(g, d, s)
  {
    hide Fat, ClusterBlock, ChainOk, Standing;
    SpanZero(g);
  }

  /** The end of the file leaves no choice. */
  lemma CuttableEnd(g: FatInfo, d: Disk, s: State)
    requires Fits(g, d) && Cuttable(g, d, s) && s.off == s.size
    ensures Open(g, d, s)
  {
    hide Fat, ClusterBlock, ChainOk, WellFormed, Span;
    if s.chain != [] && s.bic == g.sectorsPerCluster && s.at < |s.chain| - 1 {
      SpanStep(g, s.at);
      SpanMono(g, s.at + 1, |s.chain| - 1);
      assert false;
    }
    StandingAt(g, Fat0(g, d), s);
  }

  lemma StandingAt(g: FatInfo, f: seq<word>, s: State)
    requires Standing(g, f, s) && (s.chain == [] || s.bic < g.sectorsPerCluster || s.at == |s.chain| - 1)
    ensures At(g, f, s)
  {
  }

  /** `t` is `s` after everything behind the position is gone. */
  ghost predicate CutTo(g: FatInfo, s: State, t: State)
    requires s.chain != [] && s.at < |s.chain|
  {
    && t.size == s.off && t.off == s.off && t.head == s.head && t.idx == s.idx
    && t.chain == s.chain[..Kept(s)] && t.chain != []
    && t.lastLen == LastLen(g, t.chain, t.size)
    && if Kept(s) == s.at then
         t.cur == s.chain[s.at - 1] && t.at == s.at - 1 && t.bic == g.sectorsPerCluster && t.next == EOC
       else
         && t.cur == s.cur && t.at == s.at && t.bic == s.bic && t.blockAddr == s.blockAddr
         && t.next == if s.at + 1 < |s.chain| then EOC else s.next
  }

  /** The position decides how many clusters stay. */
  lemma KeptClusters(g: FatInfo, d: Disk, s: State)
    requires Fits(g, d) && Cuttable(g, d, s) && 0 < s.off < s.size
    ensures s.chain != [] && 0 < Kept(s) <= |s.chain|
    ensures SizeFits(g, s.chain[..Kept(s)], s.off)
    ensures Kept(s) == |s.chain| ==> Kept(s) == s.at + 1
    ensures s.bic == 0 ==> Inside(g, d, s)
  {
    hide Fat, ClusterBlock, Span, IsChain, WellFormed;
    ClusterSize(g);
    SpanZero(g);
    SpanStep(g, s.at);
    if s.at > 0 {
      SpanStep(g, s.at - 1);
    }
  }

  lemma CutAtPosition(g: FatInfo, d: Disk, s: State, e: Disk, t: State)
    requires Fits(g, d) && Cuttable(g, d, s) && 0 < s.off < s.size
    requires SameOutsideFats(g, d, e) && InTable(Fat0(g, d), s.chain) && Kept(s) <= |s.chain|
    requires Fat0(g, e) == CutFat(Fat0(g, d), s.chain, Kept(s)) && CutTo(g, s, t)
    ensures Open(g, e, t)
  {
    hide Fat, ClusterBlock, Span, WellFormed, CutFat, IsChain, Open;
    KeptClusters(g, d, s);
    CutChain(g, d, s, e, t);
    CutEntries(Fat0(g, d), s.chain, Kept(s));
    SpanStep(g, s.at);
    if s.at > 0 {
      SpanStep(g, s.at - 1);
    }
    CutOpen(g, e, t);
  }

  lemma CutOpen(g: FatInfo, e: Disk, t: State)
    requires Fits(g, e) && ChainOk(g, e, t) && SizeFits(g, t.chain, t.size) && t.lastLen == LastLen(g, t.chain, t.size)
    requires At(g, Fat0(g, e), t) && t.off <= t.size
    ensures Open(g, e, t)
  {
  }

  lemma CutChain(g: FatInfo, d: Disk, s: State, e: Disk, t: State)
    requires Fits(g, d) && ChainOk(g, d, s) && s.chain != [] && 0 < Kept(s) <= |s.chain|
    requires SameOutsideFats(g, d, e) && InTable(Fat0(g, d), s.chain)
    requires Fat0(g, e) == CutFat(Fat0(g, d), s.chain, Kept(s)) && t.head == s.head && t.chain == s.chain[..Kept(s)]
    ensures ChainOk(g, e, t)
  {
    CutLeavesPrefix(Fat0(g, d), s.chain, Kept(s));
    hide Fat, CutFat, WellFormed;
  }

  lemma CutEntries(f: seq<word>, ch: seq<nat>, keep: nat)
    requires IsChain(f, ch) && 0 < keep <= |ch|
    ensures InTable(f, ch) && ch[keep - 1] < |f| == |CutFat(f, ch, keep)|
    ensures CutFat(f, ch, keep)[ch[keep - 1]] == if keep < |ch| then EOC else f[ch[keep - 1]]
  {
    ChainAcyclic(f, ch);
    ClustersUsed(f, ch);
  }

  /** The bytes of `t` on disk `e` are those of `s` on disk `d` before its position. */
  ghost predicate KeepsBytes(g: FatInfo, d: Disk, s: State, e: Disk, t: State)
    requires Fits(g, d) && Fits(g, e)
  {
    Holds(g, d, s) && Holds(g, e, t) && FileData(g, e, t) == FileData(g, d, s)[..s.off]
  }

  /** What is kept are the bytes before the position. */
  lemma CutData(g: FatInfo, d: Disk, s: State, e: Disk, t: State)
    requires Fits(g, d) && Cuttable(g, d, s) && 0 < s.off < s.size && SameOutsideFats(g, d, e) && Open(g, e, t)
    requires t.chain == s.chain[..Kept(s)] && t.size == s.off && Kept(s) <= |s.chain|
    ensures Fits(g, e) && KeepsBytes(g, d, s, e, t)
  {
    hide Fat, Open, ChainOk, ChainBlocks, Span, Data, Standing, Kept;
    CuttableHolds(g, d, s);
    OpenHolds(g, e, t);
    ChainOkBlocks(g, d, s);
    ChainOkBlocks(g, e, t);
    ChainBlocksSplit(g, s.chain, Kept(s));
    var bl, more := ChainBlocks(g, t.chain), ChainBlocks(g, s.chain[Kept(s)..]);
    DataPrefix(d, bl, more, s.size, s.off);
    assert forall i :: 0 <= i < |bl| ==> bl[i] == (bl + more)[i];
    DataFrame(d, e, bl, s.off);
  }

  // ------------------------------------------------------------ interruption

  /** What a table may read while `ch` is being cut to `keep` clusters: nothing outside `ch` has
      changed, and what is to be kept is a terminated chain as soon as anything has changed at all. */
  ghost predicate CrashCut(f: seq<word>, ch: seq<nat>, keep: nat, h: seq<word>)
    requires keep <= |ch|
  {
    && |h| == |f|
    && (forall n: nat :: n < |f| && n !in ch ==> h[n] == f[n])
    && (keep > 0 ==> h == f || IsChain(h, ch[..keep]))
  }

  ghost predicate CutSafe(g: FatInfo, d: Disk, ch: seq<nat>, keep: nat, steps: seq<Disk>)
    requires Fits(g, d) && keep <= |ch|
  {
    forall i :: 0 <= i < |steps| ==>
      && SameOutsideFats(g, d, steps[i])
      && CrashCut(Fat0(g, d), ch, keep, Fat0(g, steps[i]))
      && CrashCut(Fat0(g, d), ch, keep, Fat1(g, steps[i]))
  }

  /** Cutting never touches a chain that shares no cluster with the one being cut. */
  lemma CrashCutKeeps(f: seq<word>, ch: seq<nat>, keep: nat, h: seq<word>, o: seq<nat>)
    requires keep <= |ch| && CrashCut(f, ch, keep, h) && IsChain(f, o) && Disjoint(o, ch)
    ensures IsChain(h, o)
  {
    ClustersUsed(f, o);
    ChainFrame(f, h, o);
  }

  /** `h` agrees with `f` away from the clusters `cs`. */
  ghost predicate SameElsewhere(f: seq<word>, cs: seq<nat>, h: seq<word>) {
    |h| == |f| && forall n: nat :: n < |f| && n !in cs ==> h[n] == f[n]
  }

  lemma {:induction false} FreeViewsElsewhere(f: seq<word>, cs: seq<nat>)
    requires InTable(f, cs)
    ensures forall i :: 0 <= i < |FreeViews(f, cs)| ==>
      SameElsewhere(f, cs, FreeViews(f, cs)[i].0) && SameElsewhere(f, cs, FreeViews(f, cs)[i].1)
    decreases |cs|
  {
    if cs != [] {
      var h := f[cs[0] := 0];
      assert InTable(h, cs[1..]);
      FreeViewsElsewhere(h, cs[1..]);
      var first, rest := SetViews((f, f), true, cs[0], 0), FreeViews(h, cs[1..]);
      var all: seq<FatPair> := first + rest;
      forall i | 0 <= i < |all|
        ensures SameElsewhere(f, cs, all[i].0) && SameElsewhere(f, cs, all[i].1)
      {
        if i >= 2 {
          assert all[i] == rest[i - 2];
        }
      }
    }
  }

  /** The states of both tables while `ch` is cut to `keep` clusters. */
  ghost function CutViews(f: seq<word>, ch: seq<nat>, keep: nat): seq<FatPair>
    requires keep <= |ch| && InTable(f, ch)
  {
    if keep == |ch| then []
    else if keep == 0 then FreeViews(f, ch)
    else SetViews((f, f), true, ch[keep - 1], EOC) + FreeViews(f[ch[keep - 1] := EOC], ch[keep..])
  }

  lemma ElsewhereCrashCut(f: seq<word>, ch: seq<nat>, keep: nat, h: seq<word>)
    requires IsChain(f, ch) && 0 < keep < |ch| && ch[keep - 1] < |f|
    requires SameElsewhere(f[ch[keep - 1] := EOC], ch[keep..], h)
    ensures CrashCut(f, ch, keep, h)
  {
    ChainAcyclic(f, ch);
    PrefixChain(f, ch, keep);
    var m := f[ch[keep - 1] := EOC];
    forall x | x in ch[..keep]
      ensures m[x] == h[x]
    {
    }
    ChainFrame(m, h, ch[..keep]);
  }

  lemma PrefixChain(f: seq<word>, ch: seq<nat>, keep: nat)
    requires IsChain(f, ch) && 0 < keep <= |ch|
    ensures ch[keep - 1] < |f| && IsChain(f[ch[keep - 1] := EOC], ch[..keep])
  {
    ChainAcyclic(f, ch);
    ClustersUsed(f, ch);
  }

  lemma CutViewsSafe(f: seq<word>, ch: seq<nat>, keep: nat)
    requires IsChain(f, ch) && InTable(f, ch) && keep <= |ch|
    ensures forall i :: 0 <= i < |CutViews(f, ch, keep)| ==>
      CrashCut(f, ch, keep, CutViews(f, ch, keep)[i].0) && CrashCut(f, ch, keep, CutViews(f, ch, keep)[i].1)
  {
    hide IsChain;
    if keep == 0 {
      FreeViewsElsewhere(f, ch);
    } else if keep < |ch| {
      var m := f[ch[keep - 1] := EOC];
      assert InTable(m, ch[keep..]);
      FreeViewsElsewhere(m, ch[keep..]);
      ElsewhereCrashCut(f, ch, keep, m);
      var first, rest := SetViews((f, f), true, ch[keep - 1], EOC), FreeViews(m, ch[keep..]);
      var all: seq<FatPair> := first + rest;
      forall i | 0 <= i < |all|
        ensures CrashCut(f, ch, keep, all[i].0) && CrashCut(f, ch, keep, all[i].1)
      {
        if i >= 2 {
          assert all[i] == rest[i - 2];
          ElsewhereCrashCut(f, ch, keep, rest[i - 2].0);
          ElsewhereCrashCut(f, ch, keep, rest[i - 2].1);
        }
      }
    }
  }

  lemma JournalCutSafe(g: FatInfo, d: Disk, ch: seq<nat>, keep: nat, steps: seq<Disk>)
    requires Fits(g, d) && IsChain(Fat0(g, d), ch) && InTable(Fat0(g, d), ch) && keep <= |ch|
    requires Journal(g, d, steps, CutViews(Fat0(g, d), ch, keep))
    ensures CutSafe(g, d, ch, keep, steps)
  {
    hide Fat, IsChain, CutViews, CrashCut;
    CutViewsSafe(Fat0(g, d), ch, keep);
    forall i | 0 <= i < |steps|
      ensures SameOutsideFats(g, d, steps[i])
      ensures CrashCut(Fat0(g, d), ch, keep, Fat0(g, steps[i]))
      ensures CrashCut(Fat0(g, d), ch, keep, Fat1(g, steps[i]))
    {
      assert TablesRead(g, d, steps[i], CutViews(Fat0(g, d), ch, keep)[i]);
    }
  }

  // ------------------------------------------------------------------- driver

  /** Cuts the chain behind `cur`, the `keep`-th of its clusters, and frees the rest. */
  method CutChainAt(v: Volume, cur: word, next: word, ghost ch: seq<nat>, ghost keep: nat)
    returns (ok: bool, ghost steps: seq<Disk>)
    requires v.Valid() && Mirrored(v.info, v.disk)
    requires IsChain(Fat0(v.info, v.disk), ch) && InTable(Fat0(v.info, v.disk), ch)
    requires 0 < keep < |ch| && cur == ch[keep - 1] && next == ch[keep]
    modifies v, v.cacheBlock
    ensures v.Shape() && v.history == old(v.history) + steps
    ensures CutSafe(v.info, old(v.disk), ch, keep, steps)
    ensures ok ==>
      && v.Valid() && Mirrored(v.info, v.disk)
      && SameOutsideFats(v.info, old(v.disk), v.disk)
      && Fat0(v.info, v.disk) == CutFat(Fat0(v.info, old(v.disk)), ch, keep)
      && v.lastError == old(v.lastError)
    ensures v.reliable ==> ok
  {
    hide Fat, IsChain, Journal, Mirrored, WellFormed, FreeAll, FreeViews, CutSafe;
    ghost var d := v.disk;
    ghost var f := Fat0(v.info, d);
    ghost var head, tail := SetViews((f, f), true, cur, EOC), FreeViews(f[cur := EOC], ch[keep..]);
    MirroredViews(v.info, d);
    TailChain(f, ch, keep);
    ok, steps := WriteFatEntry(v, cur, 0xFFFF);
    JournalMore(v.info, d, steps, head, tail);
    JournalCutSafe(v.info, d, ch, keep, steps);
    if !ok {
      return;
    }
    SameViewsMirrored(v.info, v.disk);
    ghost var e, more := v.disk, [];
    ok, more := FreeClusterChain(v, next, ch[keep..]);
    JournalConcat(v.info, d, steps, head, e, more, tail);
    steps := steps + more;
    JournalCutSafe(v.info, d, ch, keep, steps);
  }

  lemma TailChain(f: seq<word>, ch: seq<nat>, keep: nat)
    requires IsChain(f, ch) && 0 < keep < |ch|
    ensures ch[keep - 1] < |f| && ch[keep] < 0xFFF7
    ensures ChainAt(f[ch[keep - 1] := EOC], ch[keep], ch[keep..]) && InTable(f[ch[keep - 1] := EOC], ch[keep..])
  {
    ChainAcyclic(f, ch);
    ClustersUsed(f, ch);
  }

  /** The descriptor steps back to the end of the cluster before the current one. */
  method StepBack(v: Volume, pfd: FileDescriptor) returns (ok: bool)
    requires v.Valid() && ChainOk(v.info, v.disk, pfd.Snap()) && At(v.info, Fat0(v.info, v.disk), pfd.Snap())
    requires 0 < pfd.at < |pfd.chain|
    modifies v`cacheAddr, v`lastError, v.cacheBlock
    modifies pfd`nextCluster, pfd`curCluster, pfd`blockInCluster, pfd`at
    ensures v.Valid()
    ensures ok ==> v.lastError == old(v.lastError)
    ensures ok ==>
      && pfd.nextCluster == old(pfd.curCluster) && pfd.curCluster == pfd.chain[old(pfd.at) - 1]
      && pfd.blockInCluster == v.info.sectorsPerCluster && pfd.at == old(pfd.at) - 1
    ensures v.reliable ==> ok
  {
    hide Fat, ClusterBlock, Span, WellFormed;
    ghost var f := Fat0(v.info, v.disk);
    NextInChain(f, pfd.chain, pfd.at);
    NextInChain(f, pfd.chain, pfd.at - 1);
    ChainAcyclic(f, pfd.chain);
    var parent := FindParentCluster(v, pfd.dirEntry.clusterLo, pfd.curCluster, pfd.chain);
    if parent == 0 {
      assert pfd.chain[1..][pfd.at - 1] == pfd.curCluster;
      return false;
    }
    pfd.nextCluster := pfd.curCluster;
    pfd.curCluster := parent;
    pfd.blockInCluster := v.info.sectorsPerCluster;
    pfd.at := pfd.at - 1;
    return true;
  }

  /** The fill of the last cluster after a cut, from the position alone. */
  method FillFromOffset(v: Volume, pfd: FileDescriptor)
    requires WellFormed(v.info) && pfd.absOffset > 0
    requires LastLenOf(v.info, pfd.absOffset) == BLOCK_SIZE * v.info.sectorsPerCluster ==> pfd.blockInCluster != 0
    modifies pfd`lastClusterLen
    ensures pfd.lastClusterLen == LastLenOf(v.info, pfd.absOffset)
  {
    hide BitAnd, Pow2, WellFormed;
    ghost var cb := ClusterMask(v.info);
    MaskBelow(pfd.absOffset % 0x1_0000, v.info.logSectorsPerCluster + 9);
    var clusterMask := Pow2(v.info.logSectorsPerCluster + 9) - 1;
    pfd.lastClusterLen := BitAnd(pfd.absOffset % 0x1_0000, clusterMask);
    if pfd.lastClusterLen == 0 {
      if pfd.blockInCluster != 0 {
        pfd.lastClusterLen := clusterMask + 1;
      }
    }
  }

  /** A full last cluster is only met from inside its last block or from the cluster after it. */
  lemma FillWhenFull(g: FatInfo, d: Disk, s: State)
    requires Fits(g, d) && Cuttable(g, d, s) && 0 < s.off < s.size
    ensures Kept(s) <= |s.chain| && LastLenOf(g, s.off) == LastLen(g, s.chain[..Kept(s)], s.off)
    ensures s.bic == 0 && s.idx != 0 ==> LastLenOf(g, s.off) < BLOCK_SIZE * g.sectorsPerCluster
  {
    hide Fat, ClusterBlock, Span, IsChain, LastLenOf;
    KeptClusters(g, d, s);
    LastLenAgrees(g, s.chain[..Kept(s)], s.off);
    SpanStep(g, s.at);
  }

  method TruncateInside(v: Volume, pfd: FileDescriptor) returns (ok: bool, ghost steps: seq<Disk>)
    requires v.Valid() && Mirrored(v.info, v.disk)
    requires Cuttable(v.info, v.disk, pfd.Snap()) && 0 < pfd.absOffset < pfd.dirEntry.size
    modifies v, v.cacheBlock
    modifies pfd`lastClusterLen, pfd`blockInCluster, pfd`nextCluster, pfd`curCluster, pfd`dirEntry, pfd`chain, pfd`at
    ensures v.Shape() && v.history == old(v.history) + steps
    ensures Kept(old(pfd.Snap())) <= |old(pfd.chain)|
    ensures CutSafe(v.info, old(v.disk), old(pfd.chain), Kept(old(pfd.Snap())), steps)
    ensures pfd.dirEntry == old(pfd.dirEntry).(size := pfd.absOffset)
    ensures ok ==>
      && v.Valid() && Mirrored(v.info, v.disk) && v.lastError == old(v.lastError)
      && SameOutsideFats(v.info, old(v.disk), v.disk)
      && InTable(Fat0(v.info, old(v.disk)), old(pfd.chain))
      && Fat0(v.info, v.disk) == CutFat(Fat0(v.info, old(v.disk)), old(pfd.chain), Kept(old(pfd.Snap())))
      && pfd.chain == old(pfd.chain)[..Kept(old(pfd.Snap()))]
      && CutTo(v.info, old(pfd.Snap()), pfd.Snap())
    ensures v.reliable ==> ok
  {
    hide Fat, ClusterBlock, Span, WellFormed, IsChain, LastLenOf, CutFat, CutSafe, Open, Mirrored, LastLen, Pow2;
    ghost var d, s := v.disk, pfd.Snap();
    ghost var keep := Kept(s);
    TruncateFacts(v.info, d, s);
    steps := [];
    pfd.dirEntry := pfd.dirEntry.(size := pfd.absOffset);
    if pfd.blockInCluster == 0 && pfd.indexInBlock == 0 {
      ok := StepBack(v, pfd);
      if !ok {
        return;
      }
    }
    if pfd.nextCluster < 0xFFF8 {
      ok, steps := CutChainAt(v, pfd.curCluster, pfd.nextCluster, s.chain, keep);
      if !ok {
        return;
      }
      pfd.nextCluster := 0xFFFF;
    }
    pfd.chain := pfd.chain[..keep];
    FillFromOffset(v, pfd);
    ok := true;
  }

  /** What cutting needs to know of the position it starts from. */
  lemma TruncateFacts(g: FatInfo, d: Disk, s: State)
    requires Fits(g, d) && Cuttable(g, d, s) && 0 < s.off < s.size
    ensures s.chain != [] && 0 < Kept(s) <= |s.chain| && WellFormed(g) && s.at < |s.chain|
    ensures s.bic == 0 ==> Inside(g, d, s)
    ensures IsChain(Fat0(g, d), s.chain) && InTable(Fat0(g, d), s.chain)
    ensures Kept(s) == |s.chain| ==> CutFat(Fat0(g, d), s.chain, Kept(s)) == Fat0(g, d) && s.chain[..Kept(s)] == s.chain
    ensures if s.next < EOC_MIN then s.at + 1 < |s.chain| && s.next == s.chain[s.at + 1] else s.at + 1 == |s.chain|
    ensures s.cur == s.chain[s.at] < EOC_MIN
    ensures LastLenOf(g, s.off) == LastLen(g, s.chain[..Kept(s)], s.off)
    ensures s.bic == 0 && s.idx != 0 ==> LastLenOf(g, s.off) < BLOCK_SIZE * g.sectorsPerCluster
    ensures g.sectorsPerCluster > 0
    ensures CutSafe(g, d, s.chain, Kept(s), [])
  {
    hide Fat, ClusterBlock, Span, LastLenOf;
    KeptClusters(g, d, s);
    FillWhenFull(g, d, s);
    ClusterSize(g);
    NextInChain(Fat0(g, d), s.chain, s.at);
    ClustersUsed(Fat0(g, d), s.chain);
    assert IsCluster(Fat0(g, d), s.chain[s.at]);
  }

  /** Lines up with a position at the very beginning: every cluster goes. */
  method TruncateToNothing(v: Volume, pfd: FileDescriptor) returns (ok: bool, ghost steps: seq<Disk>)
    requires v.Valid() && Mirrored(v.info, v.disk)
    requires Cuttable(v.info, v.disk, pfd.Snap()) && 0 == pfd.absOffset < pfd.dirEntry.size
    modifies v, v.cacheBlock
    modifies pfd`nextCluster, pfd`curCluster, pfd`dirEntry, pfd`chain, pfd`at
    ensures v.Shape() && v.history == old(v.history) + steps
    ensures CutSafe(v.info, old(v.disk), old(pfd.chain), 0, steps)
    ensures pfd.dirEntry == old(pfd.dirEntry).(size := 0, clusterLo := 0)
    ensures pfd.chain == [] && pfd.curCluster == 0 && pfd.nextCluster == EOC && pfd.at == 0
    ensures ok ==>
      && v.Valid() && Mirrored(v.info, v.disk) && v.lastError == old(v.lastError)
      && SameOutsideFats(v.info, old(v.disk), v.disk)
      && InTable(Fat0(v.info, old(v.disk)), old(pfd.chain))
      && Fat0(v.info, v.disk) == CutFat(Fat0(v.info, old(v.disk)), old(pfd.chain), 0)
    ensures v.reliable ==> ok
  {
    hide Fat, ClusterBlock, Span, WellFormed, IsChain, CutSafe, Open, Mirrored, FreeViews, FreeAll;
    ghost var d, s := v.disk, pfd.Snap();
    BeginningFacts(v.info, d, s);
    pfd.dirEntry := pfd.dirEntry.(size := 0, clusterLo := 0);
    ok, steps := FreeClusterChain(v, pfd.curCluster, s.chain);
    JournalCutSafe(v.info, d, s.chain, 0, steps);
    pfd.curCluster := 0;
    pfd.nextCluster := 0xFFFF;
    pfd.chain := [];
    pfd.at := 0;
  }

  lemma BeginningFacts(g: FatInfo, d: Disk, s: State)
    requires Fits(g, d) && Cuttable(g, d, s) && 0 == s.off < s.size
    ensures s.chain != [] && s.bic == 0 && s.idx == 0 && s.cur == s.head == s.chain[0] && s.cur < EOC_MIN
    ensures IsChain(Fat0(g, d), s.chain) && InTable(Fat0(g, d), s.chain) && ChainAt(Fat0(g, d), s.cur, s.chain)
    ensures s.lastLen > 0
  {
    hide Fat, ClusterBlock, Span;
    ClusterSize(g);
    if s.at > 0 {
      SpanMono(g, 0, s.at);
    }
    ClustersUsed(Fat0(g, d), s.chain);
    assert IsCluster(Fat0(g, d), s.chain[0]);
  }

  /** How the driver recognises offset 0. */
  lemma BeginningIff(g: FatInfo, d: Disk, s: State)
    requires Fits(g, d) && Cuttable(g, d, s) && s.off < s.size
    ensures s.bic == 0 && s.idx == 0 && s.cur == s.head <==> s.off == 0
  {
    hide Fat, ClusterBlock, Span;
    if s.off == 0 {
      BeginningFacts(g, d, s);
    }
    SpanZero(g);
    if s.chain != [] {
      ChainAcyclic(Fat0(g, d), s.chain);
    }
  }

  lemma WholeFacts(g: FatInfo, d: Disk, s: State)
    requires Fits(g, d) && Cuttable(g, d, s)
    ensures s.chain[..|s.chain|] == s.chain && InTable(Fat0(g, d), s.chain)
    ensures CutFat(Fat0(g, d), s.chain, |s.chain|) == Fat0(g, d)
    ensures s.off <= s.size && s.size <= BLOCK_SIZE * Span(g, |s.chain|) && ChainOk(g, d, s)
    ensures s.off == s.size ==> KeepsBytes(g, d, s, d, s)
    ensures s.off == s.size ==> CutSafe(g, d, s.chain, KeepFor(s), [])
    ensures s.size == 0 ==> s.head == 0
    ensures 0 < s.off < s.size ==> 0 < Kept(s) <= |s.chain|
  {
    hide Fat, ClusterBlock, CrashCut, Data, ChainBlocks;
    CuttableHolds(g, d, s);
    if s.chain != [] {
      ClustersUsed(Fat0(g, d), s.chain);
      forall i | 0 <= i < |s.chain|
        ensures s.chain[i] < |Fat0(g, d)|
      {
        assert IsCluster(Fat0(g, d), s.chain[i]);
      }
    }
    if 0 < s.off < s.size {
      KeptClusters(g, d, s);
    }
  }

  lemma NothingNotOpen(g: FatInfo, d: Disk, s: State, e: Disk, t: State)
    requires Fits(g, d) && Cuttable(g, d, s) && 0 == s.off < s.size && Fits(g, e)
    requires t.chain == [] && t.lastLen == s.lastLen
    ensures !Open(g, e, t)
  {
    BeginningFacts(g, d, s);
  }

  /** The file ends at the position. Everything behind it is returned to the free pool and nothing
      else changes. The descriptor stays consistent just when the position is not 0 or the file was
      empty already: cutting to nothing leaves the old fill of the last cluster behind. */
  method TruncateFile(v: Volume, pfd: FileDescriptor) returns (ok: bool, ghost steps: seq<Disk>)
    requires v.Valid() && Mirrored(v.info, v.disk) && Cuttable(v.info, v.disk, pfd.Snap())
    modifies v, v.cacheBlock
    modifies pfd`lastClusterLen, pfd`blockInCluster, pfd`nextCluster, pfd`curCluster, pfd`dirEntry, pfd`dirEntryModified
    modifies pfd`chain, pfd`at
    ensures v.Shape() && v.history == old(v.history) + steps
    ensures KeepFor(old(pfd.Snap())) <= |old(pfd.chain)|
    ensures CutSafe(v.info, old(v.disk), old(pfd.chain), KeepFor(old(pfd.Snap())), steps)
    ensures ok ==>
      && v.Valid() && Mirrored(v.info, v.disk) && v.lastError == old(v.lastError)
      && SameOutsideFats(v.info, old(v.disk), v.disk)
      && InTable(Fat0(v.info, old(v.disk)), old(pfd.chain))
      && pfd.chain == old(pfd.chain)[..KeepFor(old(pfd.Snap()))]
      && Fat0(v.info, v.disk) == CutFat(Fat0(v.info, old(v.disk)), old(pfd.chain), KeepFor(old(pfd.Snap())))
      && (Open(v.info, v.disk, pfd.Snap()) <==> pfd.absOffset > 0 || old(pfd.dirEntry.size) == 0)
    ensures ok && pfd.absOffset > 0 ==>
      KeepsBytes(v.info, old(v.disk), old(pfd.Snap()), v.disk, pfd.Snap())
    ensures pfd.dirEntry == old(pfd.dirEntry).(size := pfd.absOffset, clusterLo := pfd.dirEntry.clusterLo)
    ensures pfd.dirEntry.clusterLo == if pfd.absOffset == 0 then 0 else old(pfd.dirEntry.clusterLo)
    ensures old(pfd.dirEntryModified) || pfd.dirEntry != old(pfd.dirEntry) ==> pfd.dirEntryModified
    ensures pfd.absOffset == 0 ==> pfd.lastClusterLen == old(pfd.lastClusterLen)
    ensures v.reliable ==> ok
  {
    hide Fat, ClusterBlock, Span, WellFormed, IsChain, LastLenOf, CutFat, CutSafe, Open, Mirrored, LastLen, Pow2, CutTo,
      Kept, KeepsBytes, Standing;
    ghost var d, s := v.disk, pfd.Snap();
    WholeFacts(v.info, d, s);
    if pfd.absOffset == pfd.dirEntry.size {
      CuttableEnd(v.info, d, s);
      return true, [];
    }
    pfd.dirEntryModified := true;
    BeginningIff(v.info, d, s);
    if pfd.blockInCluster == 0 && pfd.indexInBlock == 0 && pfd.curCluster == pfd.dirEntry.clusterLo {
      ok, steps := TruncateToNothing(v, pfd);
      if ok {
        NothingNotOpen(v.info, d, s, v.disk, pfd.Snap());
      }
    } else {
      ok, steps := TruncateInside(v, pfd);
      if ok {
        CutAtPosition(v.info, d, s, v.disk, pfd.Snap());
        CutData(v.info, d, s, v.disk, pfd.Snap());
      }
    }
  }

  /** How many clusters stay: all of them when the position is the end already. */
  function KeepFor(s: State): nat {
    if s.off == s.size then |s.chain| else if s.off == 0 then 0 else Kept(s)
  }
}
