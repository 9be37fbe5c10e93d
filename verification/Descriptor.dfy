/** Open files: the descriptor record, the position it keeps, and what makes it consistent. */
module Descriptor {
  import opened Bytes
  import opened Chains
  import opened Layout
  import opened Content

  const ENTRY_LEN: int := 32

  /** A 32-byte directory entry; `other` holds the fields the driver only carries along. */
  datatype DirEntry = DirEntry(filename: seq<byte>, attrs: byte, other: seq<byte>, clusterLo: word, size: dword)

  class FileDescriptor {
    var isFree: bool
    var isStale: bool
    var lastClusterLen: word
    var blockAddr: dword
    var blockInCluster: byte
    var indexInBlock: word
    var nextCluster: word
    var curCluster: word
    var dirEntry: DirEntry
    var dirEntryBlockAddr: dword
    var dirEntryIndexInBlock: word
    var isRoot: bool
    var dirEntryModified: bool
    var absOffset: dword

    /** The clusters of the file, and the place of the current one among them. */
    ghost var chain: seq<nat>
    ghost var at: nat

    /** A descriptor that is not in use. */
    constructor ()
      ensures isFree && !isStale
    {
      isFree, isStale := true, false;
      lastClusterLen, blockAddr, blockInCluster, indexInBlock := 0, 0, 0, 0;
      nextCluster, curCluster := 0, 0;
      dirEntry := DirEntry([], 0, [], 0, 0);
      dirEntryBlockAddr, dirEntryIndexInBlock := 0, 0;
      isRoot, dirEntryModified, absOffset := false, false, 0;
      chain, at := [], 0;
    }

    ghost function Snap(): State
      reads this
    {
      State(lastClusterLen, blockAddr, blockInCluster, indexInBlock, nextCluster, curCluster,
            dirEntry.clusterLo, dirEntry.size, absOffset, chain, at)
    }
  }

  /** What a descriptor knows about its file and its position in it. */
  datatype State = State(
    lastLen: word,
    blockAddr: dword,
    bic: byte,
    idx: word,
    next: word,
    cur: word,
    head: word,
    size: dword,
    off: dword,
    chain: seq<nat>,
    at: nat)

  /** The chain has exactly the clusters the size asks for. */
  ghost predicate SizeFits(g: FatInfo, ch: seq<nat>, size: nat) {
    if ch == [] then size == 0
    else BLOCK_SIZE * Span(g, |ch| - 1) < size <= BLOCK_SIZE * Span(g, |ch|)
  }

  /** Bytes of the file in its last cluster. */
  function LastLen(g: FatInfo, ch: seq<nat>, size: nat): int {
    if ch == [] then 0 else size - BLOCK_SIZE * Span(g, |ch| - 1)
  }

  ghost predicate ChainOk(g: FatInfo, d: Disk, s: State)
    requires Fits(g, d)
  {
    ChainFrom(Fat0(g, d), s.head, s.chain) && ChainOnDisk(g, d, s.chain)
  }

  ghost predicate FileOk(g: FatInfo, d: Disk, s: State)
    requires Fits(g, d)
  {
    && ChainOk(g, d, s)
    && SizeFits(g, s.chain, s.size)
    && s.lastLen == LastLen(g, s.chain, s.size)
  }

  /** The current cluster is one of the file's, whatever the rest of the position says. */
  ghost predicate OnChain(f: seq<word>, s: State) {
    if s.chain == [] then s.at == 0 && s.cur == 0 && s.next == EOC
    else s.at < |s.chain| && s.cur == s.chain[s.at] && s.cur < |f| && s.next == f[s.cur]
  }

  /** The position fields agree with the absolute offset: inside a cluster, at its end, or at the
      start of a file that has no cluster. */
  ghost predicate Standing(g: FatInfo, f: seq<word>, s: State) {
    && OnChain(f, s) && s.idx < BLOCK_SIZE && s.bic <= g.sectorsPerCluster
    && if s.chain == [] then s.bic == s.idx == s.off == 0
       else
         && s.off == BLOCK_SIZE * (Span(g, s.at) + s.bic) + s.idx
         && if s.bic == g.sectorsPerCluster then s.idx == 0 else s.blockAddr == ClusterBlock(g, s.cur) + s.bic
  }

  /** Where reading and writing keep the position: at the end of a cluster only when it is the last. */
  ghost predicate At(g: FatInfo, f: seq<word>, s: State) {
    Standing(g, f, s) && (s.chain != [] && s.bic == g.sectorsPerCluster ==> s.at == |s.chain| - 1)
  }

  ghost predicate Open(g: FatInfo, d: Disk, s: State)
    requires Fits(g, d)
  {
    FileOk(g, d, s) && At(g, Fat0(g, d), s) && s.off <= s.size
  }

  /** Ready to take a byte: like Open, but the last cluster may still be unused and there is room. */
  ghost predicate Grown(g: FatInfo, d: Disk, s: State)
    requires Fits(g, d)
  {
    && ChainOk(g, d, s) && At(g, Fat0(g, d), s)
    && s.chain != [] && s.bic < g.sectorsPerCluster
    && BLOCK_SIZE * Span(g, |s.chain| - 1) <= s.size <= BLOCK_SIZE * Span(g, |s.chain|)
    && (s.size == BLOCK_SIZE * Span(g, |s.chain| - 1) ==> s.off == s.size)
    && s.lastLen == LastLen(g, s.chain, s.size)
    && s.off <= s.size
  }

  lemma OpenParts(g: FatInfo, d: Disk, s: State)
    requires Fits(g, d) && Open(g, d, s)
    ensures ChainOk(g, d, s) && At(g, Fat0(g, d), s)
    ensures s.chain != [] ==> IsChain(Fat0(g, d), s.chain)
  {
  }

  lemma ChainOkBlocks(g: FatInfo, d: Disk, s: State)
    requires Fits(g, d) && ChainOk(g, d, s)
    ensures g.sectorsPerCluster > 0
    ensures InData(g, d, ChainBlocks(g, s.chain)) && Distinct(ChainBlocks(g, s.chain))
    ensures forall i :: 0 <= i < |ChainBlocks(g, s.chain)| ==> 0 <= ChainBlocks(g, s.chain)[i] < |d|
  {
    hide Fat, Span, ClusterBlock, ChainBlocks;
    ClusterSize(g);
    ChainBlocksInData(g, d, s.chain);
    if s.chain != [] {
      ChainAcyclic(Fat0(g, d), s.chain);
    }
    ChainBlocksDistinct(g, s.chain);
  }

  /** The bytes of the file. */
  ghost function FileData(g: FatInfo, d: Disk, s: State): (r: seq<byte>)
    requires Fits(g, d) && ChainOk(g, d, s) && s.size <= BLOCK_SIZE * Span(g, |s.chain|)
    ensures |r| == s.size
  {
    ChainOkBlocks(g, d, s);
    Data(d, ChainBlocks(g, s.chain), s.size)
  }
}
