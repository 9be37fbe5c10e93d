/** Reading a directory entry by entry. */
module Listing {
  import opened Bytes
  import opened Errors
  import opened Chains
  import opened Layout
  import opened BlockCache
  import opened Content
  import opened Descriptor
  import opened Position
  import opened FileSteps
  import opened Entries
  import opened Directory

  const LONG_FILENAME: byte := 0x0F

  /** Deleted, part of a long name, or with an attribute that the mask has too. */
  ghost predicate Skipped(raw: Raw, mask: byte) {
    raw[0] == DELETED || raw[11] == LONG_FILENAME || Meet(raw[11], mask)
  }

  ghost predicate Visible(raw: Raw, mask: byte) {
    raw[0] != 0 && !Skipped(raw, mask)
  }

  /** The mask 0x10 hides just the subdirectories. */
  lemma SubdirectoriesMasked(raw: Raw)
    ensures Meet(raw[11], 0x10) <==> (raw[11] / 16) % 2 == 1
  {
    BitAndMeets(raw[11], 0x10);
    BitAndSixteen(raw[11]);
  }

  /** The next entry the walk stops at: a visible one, or the first free one. */
  ghost function NextStop(es: seq<Raw>, q: nat, mask: byte): (p: nat)
    requires q <= |es|
    ensures q <= p <= |es| && (p < |es| ==> IsEnd(es[p]) || Visible(es[p], mask))
    ensures forall k :: q <= k < p ==> !IsEnd(es[k]) && !Visible(es[k], mask)
    decreases |es| - q
  {
    if q == |es| || IsEnd(es[q]) || Visible(es[q], mask) then q else NextStop(es, q + 1, mask)
  }

  /** The descriptor stands before entry `q` of the directory. */
  ghost predicate DirAt(g: FatInfo, d: Disk, root: bool, s: State, bl: seq<int>, q: nat)
    requires Fits(g, d)
  {
    && OnDiskBlocks(d, bl) && q <= 16 * |bl| && s.off == 32 * q
    && if root then
         bl == RootBlocks(g) && s.blockAddr == g.rootDirBlock + q / 16 && s.idx == 32 * (q % 16)
       else
         s.chain != [] && ChainOk(g, d, s) && At(g, Fat0(g, d), s) && bl == ChainBlocks(g, s.chain)
  }

  lemma DirAtEntry(g: FatInfo, d: Disk, root: bool, s: State, bl: seq<int>, q: nat)
    requires Fits(g, d) && DirAt(g, d, root, s, bl, q) && q < 16 * |bl|
    ensures s.idx == 32 * (q % 16) && s.blockAddr == bl[q / 16] < |d| && s.idx + 32 <= BLOCK_SIZE
    ensures s.off + 32 < 0x1_0000_0000
    ensures !root ==> Inside(g, d, s)
    ensures RawAt(d[s.blockAddr], s.idx / 32) == EntriesOf(d, bl)[q] == d[s.blockAddr][s.idx..s.idx + 32]
  {
    hide Fat, ClusterBlock, Span, WellFormed, IsChain, RootBlocks;
    if root {
      RootEntry(g, s, q);
    } else {
      ChainEntry(g, d, s, bl, q);
    }
    EntryAt(d, bl, q / 16, q % 16);
  }

  lemma RootEntry(g: FatInfo, s: State, q: nat)
    requires WellFormed(g) && q < 16 * |RootBlocks(g)|
    requires s.off == 32 * q && s.blockAddr == g.rootDirBlock + q / 16 && s.idx == 32 * (q % 16)
    ensures s.blockAddr == RootBlocks(g)[q / 16] && s.off + 32 < 0x1_0000_0000
  {
    hide Pow2;
    RootShape(g);
    assert (g.nDirEntries + 15) / 16 <= 4096;
  }

  lemma ChainEntry(g: FatInfo, d: Disk, s: State, bl: seq<int>, q: nat)
    requires Fits(g, d) && DirAt(g, d, false, s, bl, q) && q < 16 * |bl|
    ensures Inside(g, d, s) && s.blockAddr == bl[q / 16]
    ensures s.idx == 32 * (q % 16) && s.off + 32 < 0x1_0000_0000
  {
    hide Fat, ClusterBlock, Span, WellFormed, IsChain, ChainBlocks;
    DirInside(g, d, s, bl, q);
    OffsetSmall(g, d, s);
    var j := BlockUnder(g, d, s);
    assert 32 * q == BLOCK_SIZE * j + s.idx;
    assert j == q / 16;
  }

  lemma DirInside(g: FatInfo, d: Disk, s: State, bl: seq<int>, q: nat)
    requires Fits(g, d) && DirAt(g, d, false, s, bl, q) && q < 16 * |bl|
    ensures Inside(g, d, s)
  {
    hide Fat, ClusterBlock, Span, WellFormed, IsChain, ChainBlocks;
    SpanStep(g, s.at);
  }

  /** Where a descriptor comes to stand behind the last entry of a chain: it names that chain's last
      block again, so that a chain without a free entry is listed on with the entries of that block. */
  ghost predicate Rewound(bl: seq<int>, s: State) {
    bl != [] && s.blockAddr == bl[|bl| - 1] && s.idx == 0
  }

  lemma ChainDone(g: FatInfo, d: Disk, s: State, t: State, bl: seq<int>, q: nat)
    requires Fits(g, d) && DirAt(g, d, false, s, bl, q) && q + 1 == 16 * |bl| && DirAt(g, d, false, t, bl, q + 1)
    requires t.bic == g.sectorsPerCluster ==> t.blockAddr == s.blockAddr
    ensures Rewound(bl, t)
  {
    hide Fat, ClusterBlock, Span, WellFormed, IsChain, ChainBlocks;
    ChainEntry(g, d, s, bl, q);
    DirEnd(g, d, t, bl);
  }

  lemma DirEnd(g: FatInfo, d: Disk, t: State, bl: seq<int>)
    requires Fits(g, d) && bl != [] && DirAt(g, d, false, t, bl, 16 * |bl|)
    ensures t.bic == g.sectorsPerCluster && t.idx == 0
  {
    hide Fat, ClusterBlock, WellFormed, IsChain, ChainBlocks, Span;
    SpanMono(g, t.at, |t.chain|);
    assert BLOCK_SIZE * (Span(g, t.at) + t.bic) + t.idx == BLOCK_SIZE * Span(g, |t.chain|);
  }

  /** Copies the entry under the position and moves behind it. */
  method StepEntry(v: Volume, pfd: FileDescriptor, ghost bl: seq<int>, ghost q: nat) returns (ok: bool, raw: Raw)
    requires v.Valid() && DirAt(v.info, v.disk, pfd.isRoot, pfd.Snap(), bl, q) && q < 16 * |bl|
    modifies v`cacheAddr, v`lastError, v.cacheBlock
    modifies pfd`indexInBlock, pfd`absOffset, pfd`blockInCluster, pfd`blockAddr, pfd`curCluster, pfd`nextCluster, pfd`at
    ensures v.Valid()
    ensures ok ==>
      && v.lastError == old(v.lastError) && raw == EntriesOf(v.disk, bl)[q]
      && DirAt(v.info, v.disk, pfd.isRoot, pfd.Snap(), bl, q + 1)
      && (q + 1 == 16 * |bl| && !pfd.isRoot ==> Rewound(bl, pfd.Snap()))
    ensures v.reliable ==> ok
  {
    hide Fat, ClusterBlock, Span, WellFormed, IsChain, ChainBlocks, RootBlocks, At, ChainOk, RawAt;
    DirAtEntry(v.info, v.disk, pfd.isRoot, pfd.Snap(), bl, q);
    raw := seq(ENTRY_LEN, _ => 0);
    ok := v.Cache(pfd.blockAddr);
    if !ok {
      return;
    }
    raw := v.cacheBlock[pfd.indexInBlock..pfd.indexInBlock + ENTRY_LEN];
    ghost var s := pfd.Snap();
    ok := SeekAdvance(v, pfd, ENTRY_LEN);
    if ok {
      DirNext(v.info, v.disk, pfd.isRoot, s, pfd.Snap(), bl, q);
      if q + 1 == 16 * |bl| && !pfd.isRoot {
        ChainDone(v.info, v.disk, s, pfd.Snap(), bl, q);
      }
    }
  }

  lemma DirNext(g: FatInfo, d: Disk, root: bool, s: State, t: State, bl: seq<int>, q: nat)
    requires Fits(g, d) && DirAt(g, d, root, s, bl, q) && q < 16 * |bl| && t.off == s.off + 32
    requires !root ==> At(g, Fat0(g, d), t) && SameFile(s, t)
    requires root ==> if s.idx + 32 == BLOCK_SIZE then t.idx == 0 && t.blockAddr == s.blockAddr + 1
                      else t.idx == s.idx + 32 && t.blockAddr == s.blockAddr
    ensures DirAt(g, d, root, t, bl, q + 1)
  {
    hide Fat, ClusterBlock, Span, WellFormed, IsChain, ChainBlocks, RootBlocks, At;
    NextEntry(q);
  }

  /** A descriptor put at the first entry of the root directory. */
  method InitRootDir(v: Volume, pfd: FileDescriptor)
    requires v.Valid()
    modifies pfd`isRoot, pfd`blockAddr, pfd`blockInCluster, pfd`indexInBlock, pfd`absOffset, pfd`dirEntryModified
    ensures pfd.isRoot && !pfd.dirEntryModified
    ensures OnDiskBlocks(v.disk, RootBlocks(v.info)) && DirAt(v.info, v.disk, true, pfd.Snap(), RootBlocks(v.info), 0)
  {
    RootOnDisk(v.info, v.disk);
    hide RootBlocks;
    pfd.isRoot := true;
    pfd.blockAddr := v.info.rootDirBlock;
    pfd.blockInCluster := 0;
    pfd.indexInBlock := 0;
    pfd.absOffset := 0;
    pfd.dirEntryModified := false;
  }

  lemma NextEntry(q: nat)
    ensures if q % 16 == 15 then (q + 1) / 16 == q / 16 + 1 && (q + 1) % 16 == 0
            else (q + 1) / 16 == q / 16 && (q + 1) % 16 == q % 16 + 1
  {
  }

  lemma DirAtBlocks(g: FatInfo, d: Disk, root: bool, s: State, bl: seq<int>, q: nat)
    requires Fits(g, d) && DirAt(g, d, root, s, bl, q)
    ensures OnDiskBlocks(d, bl)
  {
  }

  /** The next visible entry of an open directory; false at its first free entry. */
  method GetNextDirEntry(v: Volume, pfd: FileDescriptor, attrSkipMask: byte, ghost bl: seq<int>, ghost q: nat)
    returns (ok: bool, raw: Raw)
    requires v.Valid() && DirAt(v.info, v.disk, pfd.isRoot, pfd.Snap(), bl, q)
    requires NextStop(EntriesOf(v.disk, bl), q, attrSkipMask) < 16 * |bl|
    modifies v`cacheAddr, v`lastError, v.cacheBlock
    modifies pfd`indexInBlock, pfd`absOffset, pfd`blockInCluster, pfd`blockAddr, pfd`curCluster, pfd`nextCluster, pfd`at
    ensures v.Valid()
    ensures var es := EntriesOf(v.disk, bl); var p := NextStop(es, q, attrSkipMask);
            && (ok ==>
                 raw == es[p] && raw[0] != 0 && !Skipped(raw, attrSkipMask)
                 && (forall k :: q <= k < p ==> es[k][0] != 0 && Skipped(es[k], attrSkipMask))
                 && DirAt(v.info, v.disk, pfd.isRoot, pfd.Snap(), bl, p + 1))
            && (v.reliable ==> (ok <==> !IsEnd(es[p])) && v.lastError == 0)
  {
    hide DirAt, Fat, EntriesOf, BitAnd, WellFormed, OnDiskBlocks, Meet;
    DirAtBlocks(v.info, v.disk, pfd.isRoot, pfd.Snap(), bl, q);
    v.lastError := FAT_ERROR_OK;
    ghost var es, p, k := EntriesOf(v.disk, bl), NextStop(EntriesOf(v.disk, bl), q, attrSkipMask), q;
    while true
      invariant v.Valid() && v.disk == old(v.disk) && v.lastError == 0
      invariant DirAt(v.info, v.disk, pfd.isRoot, pfd.Snap(), bl, k)
      invariant k <= p < 16 * |bl| && NextStop(es, k, attrSkipMask) == p
      decreases p - k
    {
      ok, raw := StepEntry(v, pfd, bl, k);
      if !ok {
        return;
      }
      k := k + 1;
      BitAndMeets(raw[11], attrSkipMask);
      if raw[0] == 0 {
        return false, raw;
      }
      if raw[0] == 0xE5 {
        continue;
      }
      if raw[11] == 0x0F {
        continue;
      }
      if BitAnd(raw[11], attrSkipMask) != 0 {
        continue;
      }
      return true, raw;
    }
  }

  // ----------------------------------------------------------- whole listings

  /** The indices of all visible entries from `q` to the first free entry. */
  ghost function ListedFrom(es: seq<Raw>, q: nat, mask: byte): (r: seq<nat>)
    requires q <= |es|
    ensures forall i :: 0 <= i < |r| ==> r[i] < |es|
    decreases |es| - q
  {
    var p := NextStop(es, q, mask);
    if p == |es| || IsEnd(es[p]) then [] else [p] + ListedFrom(es, p + 1, mask)
  }

  ghost function RawsAt(es: seq<Raw>, ix: seq<nat>): (r: seq<Raw>)
    requires forall i :: 0 <= i < |ix| ==> ix[i] < |es|
  {
    seq(|ix|, i requires 0 <= i < |ix| => es[ix[i]])
  }

  ghost function ListedRaws(es: seq<Raw>, q: nat, mask: byte): seq<Raw>
    requires q <= |es|
  {
    RawsAt(es, ListedFrom(es, q, mask))
  }

  ghost predicate Increasing(ix: seq<nat>) {
    forall i, j :: 0 <= i < j < |ix| ==> ix[i] < ix[j]
  }

  /** A listing has every visible entry in use exactly once, in order. */
  lemma {:induction false} ListedMeans(es: seq<Raw>, q: nat, mask: byte)
    requires q <= |es| && NoEnd(es, 0, q)
    ensures Increasing(ListedFrom(es, q, mask))
    ensures forall p :: p in ListedFrom(es, q, mask) <==> q <= p && InUse(es, p) && Visible(es[p], mask)
    decreases |es| - q
  {
    hide Visible, BitAnd, Named, NextStop, ListedFrom, Increasing, IsEnd;
    ListedUnfold(es, q, mask);
    var p := NextStop(es, q, mask);
    if p < |es| && !IsEnd(es[p]) {
      assert NoEnd(es, 0, p + 1);
      ListedMeans(es, p + 1, mask);
      var rest := ListedFrom(es, p + 1, mask);
      ListedOneMore(es, q, p, rest, mask);
    } else {
      ListedNone(es, q, p, mask);
    }
  }

  lemma ListedUnfold(es: seq<Raw>, q: nat, mask: byte)
    requires q <= |es|
    ensures var p := NextStop(es, q, mask);
            ListedFrom(es, q, mask) == if p == |es| || IsEnd(es[p]) then [] else [p] + ListedFrom(es, p + 1, mask)
    ensures Increasing([])
  {
  }

  lemma ListedOneMore(es: seq<Raw>, q: nat, p: nat, rest: seq<nat>, mask: byte)
    requires q <= p < |es| && NoEnd(es, 0, p + 1) && Visible(es[p], mask)
    requires forall k :: q <= k < p ==> !Visible(es[k], mask)
    requires Increasing(rest) && forall k :: k in rest <==> p + 1 <= k && InUse(es, k) && Visible(es[k], mask)
    ensures Increasing([p] + rest)
    ensures forall k :: k in [p] + rest <==> q <= k && InUse(es, k) && Visible(es[k], mask)
  {
    hide Visible;
    assert forall i :: 0 <= i < |rest| ==> rest[i] in rest;
  }

  lemma ListedNone(es: seq<Raw>, q: nat, p: nat, mask: byte)
    requires q <= p <= |es| && (p < |es| ==> IsEnd(es[p]))
    requires forall k :: q <= k < p ==> !Visible(es[k], mask)
    ensures forall k :: !(q <= k && InUse(es, k) && Visible(es[k], mask))
  {
    hide Visible;
  }

  lemma RawsUnfold(es: seq<Raw>, q: nat, mask: byte)
    requires q <= |es|
    ensures var p := NextStop(es, q, mask);
            ListedRaws(es, q, mask) == if p == |es| || IsEnd(es[p]) then [] else [es[p]] + ListedRaws(es, p + 1, mask)
  {
    hide NextStop, IsEnd, Visible;
    ListedUnfold(es, q, mask);
  }

  /** Asking for the next entry until there is none gives exactly the listing. */
  method ListAll(v: Volume, pfd: FileDescriptor, mask: byte, ghost bl: seq<int>, ghost q: nat) returns (raws: seq<Raw>)
    requires v.Valid() && v.reliable && OnDiskBlocks(v.disk, bl) && q <= 16 * |bl|
    requires DirAt(v.info, v.disk, pfd.isRoot, pfd.Snap(), bl, q) && Terminated(EntriesOf(v.disk, bl), q)
    modifies v`cacheAddr, v`lastError, v.cacheBlock
    modifies pfd`indexInBlock, pfd`absOffset, pfd`blockInCluster, pfd`blockAddr, pfd`curCluster, pfd`nextCluster, pfd`at
    ensures v.Valid() && raws == ListedRaws(EntriesOf(v.disk, bl), q, mask)
    decreases 16 * |bl| - q
  {
    hide DirAt, Fat, EntriesOf, BitAnd, WellFormed, OnDiskBlocks, NextStop, ListedRaws, IsEnd, Visible, Terminated;
    ghost var es := EntriesOf(v.disk, bl);
    ghost var p := NextStop(es, q, mask);
    RawsUnfold(es, q, mask);
    TerminatedNext(es, q, mask);
    var ok, raw := GetNextDirEntry(v, pfd, mask, bl, q);
    if !ok {
      return [];
    }
    var rest := ListAll(v, pfd, mask, bl, p + 1);
    return [raw] + rest;
  }

  /** There is a free entry ahead. */
  ghost predicate Terminated(es: seq<Raw>, q: nat) {
    exists t :: q <= t < |es| && IsEnd(es[t])
  }

  lemma TerminatedNext(es: seq<Raw>, q: nat, mask: byte)
    requires q <= |es| && Terminated(es, q)
    ensures var p := NextStop(es, q, mask);
            p < |es| && (!IsEnd(es[p]) ==> Terminated(es, p + 1) && NextStop(es, p + 1, mask) < |es|)
  {
    hide IsEnd, Visible;
    var t :| q <= t < |es| && IsEnd(es[t]);
    var p := NextStop(es, q, mask);
    assert p <= t;
    if !IsEnd(es[p]) {
      assert p + 1 <= t;
      assert NextStop(es, p + 1, mask) <= t;
    }
  }

  /** What the two ways through a directory have in common: a name is found at a listed entry, and
      every listed entry is found by its name. */
  lemma WalkersAgree(es: seq<Raw>, name: seq<byte>, q: nat)
    requires UniqueNames(es) && q < |es|
    ensures Search(es, 0, name, 0, -1) == Found(q) && Visible(es[q], 0) ==>
      q in ListedFrom(es, 0, 0) && es[q][..11] == name
    ensures q in ListedFrom(es, 0, 0) ==> Search(es, 0, es[q][..11], 0, -1) == Found(q)
  {
    ListedMeans(es, 0, 0);
    SearchMeans(es, name, 0);
    if q in ListedFrom(es, 0, 0) {
      SearchMeans(es, es[q][..11], 0);
      assert Matches(es, q, es[q][..11]);
    }
  }
}
