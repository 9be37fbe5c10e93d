/** The steps of reading and writing as relations between states of the disk and of a descriptor. */
module FileSteps {
  import opened Bytes
  import opened Chains
  import opened Growth
  import opened Layout
  import opened Content
  import opened Descriptor
  import opened Position
  import opened Writing

  ghost predicate Holds(g: FatInfo, d: Disk, s: State)
    requires Fits(g, d)
  {
    ChainOk(g, d, s) && s.off <= s.size <= BLOCK_SIZE * Span(g, |s.chain|)
  }

  /** Writing `bytes` at the position of `s` leads from disk `d` and descriptor `s` to `e` and `t`. */
  ghost predicate Reached(g: FatInfo, d: Disk, s: State, e: Disk, t: State, bytes: seq<byte>)
    requires Fits(g, d)
  {
    && Grew(g, d, s.chain, e, t.chain)
    && Holds(g, d, s) && Holds(g, e, t)
    && t.off == s.off + |bytes|
    && FileData(g, e, t) == Overwrite(FileData(g, d, s), s.off, bytes)
  }

  lemma ReachedTrans(g: FatInfo, d: Disk, s: State, e: Disk, t: State, h: Disk, u: State, a: seq<byte>, b: seq<byte>)
    requires Fits(g, d) && Reached(g, d, s, e, t, a) && Reached(g, e, t, h, u, b)
    ensures Reached(g, d, s, h, u, a + b)
  {
    hide Grew, ChainOk, Overwrite, WellFormed, Fat, ChainBlocks, Data, Span;
    GrewTrans(g, d, s.chain, e, t.chain, h, u.chain);
    OverwriteTwice(FileData(g, d, s), s.off, a, b);
  }

  lemma OpenHolds(g: FatInfo, d: Disk, s: State)
    requires Fits(g, d) && (Open(g, d, s) || Grown(g, d, s))
    ensures Holds(g, d, s)
  {
  }

  lemma ReachedNothing(g: FatInfo, d: Disk, s: State)
    requires Fits(g, d) && Mirrored(g, d) && Open(g, d, s) && CanGrow(g, d, s.chain)
    ensures Reached(g, d, s, d, s, [])
  {
    GrewNothing(g, d, s.chain);
    OpenHolds(g, d, s);
    hide Grew, ChainOk, Open;
    OverwriteNothing(FileData(g, d, s), s.off);
  }

  // ----------------------------------------------------- taking a new cluster

  function WithCluster(g: FatInfo, s: State, n: word): State {
    s.(chain := s.chain + [n], at := |s.chain|, cur := n, next := EOC, bic := 0, blockAddr := BlockOf(g, n, 0),
       lastLen := 0, head := if s.chain == [] then n else s.head)
  }

  /** The position is behind the last cluster, or there is none: a byte can only go into a new cluster. */
  ghost predicate AtFullEnd(g: FatInfo, s: State) {
    s.chain == [] || s.bic == g.sectorsPerCluster
  }

  lemma FullEnd(g: FatInfo, d: Disk, s: State)
    requires Fits(g, d) && Open(g, d, s) && AtFullEnd(g, s)
    ensures s.idx == 0 && s.off == s.size == BLOCK_SIZE * Span(g, |s.chain|)
    ensures Last(s.chain) == s.cur && s.next >= EOC_MIN
  {
    hide Fat, ClusterBlock;
    if s.chain != [] {
      SpanStep(g, s.at);
      NextInChain(Fat0(g, d), s.chain, s.at);
    }
  }

  lemma NewClusterGrown(g: FatInfo, d: Disk, s: State, e: Disk)
    requires Fits(g, d) && Open(g, d, s) && AtFullEnd(g, s) && CanGrow(g, d, s.chain)
    requires FirstFree(Fat0(g, d), 0) < |Fat0(g, d)|
    requires Grew(g, d, s.chain, e, s.chain + [FirstFree(Fat0(g, d), 0)])
    requires Fat0(g, e)[FirstFree(Fat0(g, d), 0)] == EOC
    ensures FirstFree(Fat0(g, d), 0) < 0xFFF7 && Grown(g, e, WithCluster(g, s, FirstFree(Fat0(g, d), 0)))
  {
    FullEnd(g, d, s);
    ClusterSize(g);
    var n := FirstFree(Fat0(g, d), 0);
    GrewCanGrow(g, d, s.chain, e, s.chain + [n]);
    var t := WithCluster(g, s, n);
    assert OnDisk(g, e, t.chain[|s.chain|]);
    BlockOfCluster(g, e, n, 0);
    hide Fat, FirstFree, GrewTo, BlockOf, ClusterBlock, FreeUsable;
    assert s.chain != [] ==> t.chain[0] == s.chain[0];
    assert ChainOk(g, e, t);
    SpanStep(g, |s.chain|);
  }

  lemma TablesKeepData(g: FatInfo, d: Disk, s: State, e: Disk)
    requires Fits(g, d) && ChainOk(g, d, s) && SameOutsideFats(g, d, e)
    ensures forall i :: 0 <= i < |ChainBlocks(g, s.chain)| ==>
      0 <= ChainBlocks(g, s.chain)[i] < |d| && e[ChainBlocks(g, s.chain)[i]] == d[ChainBlocks(g, s.chain)[i]]
  {
    ChainOkBlocks(g, d, s);
    hide ChainBlocks, ChainOk;
  }

  lemma NewClusterReached(g: FatInfo, d: Disk, s: State, e: Disk)
    requires Fits(g, d) && Open(g, d, s) && AtFullEnd(g, s) && CanGrow(g, d, s.chain) && SameOutsideFats(g, d, e)
    requires FirstFree(Fat0(g, d), 0) < |Fat0(g, d)|
    requires Grew(g, d, s.chain, e, s.chain + [FirstFree(Fat0(g, d), 0)])
    requires Fat0(g, e)[FirstFree(Fat0(g, d), 0)] == EOC
    ensures FirstFree(Fat0(g, d), 0) < 0xFFF7
    ensures Reached(g, d, s, e, WithCluster(g, s, FirstFree(Fat0(g, d), 0)), [])
  {
    var n := FirstFree(Fat0(g, d), 0);
    NewClusterGrown(g, d, s, e);
    var t := WithCluster(g, s, n);
    OpenHolds(g, e, t);
    OpenHolds(g, d, s);
    FullEnd(g, d, s);
    TablesKeepData(g, d, s, e);
    ChainOkBlocks(g, e, t);
    hide Fat, Grew, Open, Grown, BlockOf, FirstFree, ChainOk, ClusterBlock, CanGrow, Span;
    ChainBlocksAppend(g, s.chain, n);
    hide ChainBlocks;
    var bl, more := ChainBlocks(g, s.chain), ClusterBlocks(g, n);
    DataFrame(d, e, bl, s.size);
    DataPrefix(e, bl, more, s.size, s.size);
    OverwriteNothing(FileData(g, d, s), s.off);
  }

  // ------------------------------------------------------------------- chunks

  /** The block under the position, as a place in the file's block list. */
  lemma BlockUnder(g: FatInfo, d: Disk, s: State) returns (j: nat)
    requires Fits(g, d) && Inside(g, d, s)
    ensures j < |ChainBlocks(g, s.chain)| && ChainBlocks(g, s.chain)[j] == s.blockAddr < |d|
    ensures s.off == BLOCK_SIZE * j + s.idx
    ensures j == Span(g, s.at) + s.bic
    ensures |d[s.blockAddr]| == BLOCK_SIZE
  {
    hide Fat, ClusterBlock, Span, ChainBlocks;
    j := Span(g, s.at) + s.bic;
    ChainBlockAt(g, s.chain, s.at, s.bic);
    ClusterInData(g, d, s.cur, s.bic);
  }

  /** Offsets stay far below 32 bits: a chain has at most 65536 clusters of at most 64 blocks. */
  lemma OffsetSmall(g: FatInfo, d: Disk, s: State)
    requires Fits(g, d) && Inside(g, d, s)
    ensures s.off + BLOCK_SIZE - s.idx <= 0x8000_0000 && s.bic < 64
  {
    ChainShort(Fat0(g, d), s.chain);
    ClusterSize(g);
    SpanMono(g, s.at, |s.chain|);
    hide Fat, ClusterBlock, IsChain;
    MulLe(|s.chain|, 0x1_0000, g.sectorsPerCluster, 64);
  }

  lemma MulLe(a: nat, b: nat, c: nat, d: nat)
    requires a <= b && c <= d
    ensures a * c <= b * d
  {
    assert b * d == a * c + (b - a) * c + b * (d - c);
    assert (b - a) * c >= 0 && b * (d - c) >= 0;
  }

  lemma ChunkRead(g: FatInfo, d: Disk, s: State, n: nat)
    requires Fits(g, d) && Inside(g, d, s) && Open(g, d, s)
    requires s.idx + n <= BLOCK_SIZE && s.off + n <= s.size
    ensures s.blockAddr < |d| && d[s.blockAddr][s.idx..s.idx + n] == FileData(g, d, s)[s.off..s.off + n]
  {
    hide Fat, Inside, Open, ChainOk, Span, ChainBlocks, WellFormed, Data;
    OpenParts(g, d, s);
    var j := BlockUnder(g, d, s);
    OpenHolds(g, d, s);
    ChainOkBlocks(g, d, s);
    DataRead(d, ChainBlocks(g, s.chain), s.size, j, s.idx, n);
  }

  function Max(a: nat, b: nat): nat {
    if a < b then b else a
  }

  /** The descriptor after the size has been raised for `n` bytes at the position. */
  ghost predicate Sized(g: FatInfo, s: State, n: nat, u: State) {
    && u == s.(size := u.size, lastLen := u.lastLen)
    && u.size == Max(s.size, s.off + n)
    && u.lastLen == LastLen(g, s.chain, u.size)
  }

  lemma ChunkFits(g: FatInfo, d: Disk, s: State, n: nat, u: State)
    requires Fits(g, d) && Grown(g, d, s) && 0 < n && s.idx + n <= BLOCK_SIZE && Sized(g, s, n, u)
    ensures Inside(g, d, u) && FileOk(g, d, u) && u.off + n <= u.size
  {
    hide Fat, ClusterBlock, Span, IsChain;
    SpanStep(g, s.at);
    SpanStep(g, |s.chain| - 1);
    if s.at < |s.chain| - 1 {
      SpanMono(g, s.at, |s.chain| - 1);
    }
    SpanMono(g, s.at, |s.chain|);
  }

  lemma ChunkWritten(g: FatInfo, d: Disk, s: State, bytes: seq<byte>, u: State, e: Disk)
    requires Fits(g, d) && Mirrored(g, d) && CanGrow(g, d, s.chain) && Grown(g, d, s)
    requires bytes != [] && s.idx + |bytes| <= BLOCK_SIZE && Sized(g, s, |bytes|, u)
    requires s.blockAddr < |d| && e == d[s.blockAddr := Splice(d[s.blockAddr], s.idx, bytes)]
    ensures Grew(g, d, s.chain, e, s.chain)
    ensures Inside(g, e, u) && FileOk(g, e, u) && u.off + |bytes| <= u.size
    ensures FileData(g, e, u) == Overwrite(FileData(g, d, s), s.off, bytes)
  {
    hide Grew, Mirrored, CanGrow, ClusterBlock, ChainBlocks, Span, IsChain, Splice, Fat;
    ChunkFits(g, d, s, |bytes|, u);
    var j := BlockUnder(g, d, s);
    GrewBlock(g, d, s.chain, s.at, s.bic, Splice(d[s.blockAddr], s.idx, bytes));
    SameTables(g, d, s.blockAddr, Splice(d[s.blockAddr], s.idx, bytes));
    ChainOkBlocks(g, d, s);
    DataWrite(d, ChainBlocks(g, s.chain), s.size, j, s.idx, bytes, u.size);
  }

  /** The outcome of a successful allocation behind the file's chain. */
  lemma NewCluster(g: FatInfo, d: Disk, s: State, e: Disk, n: nat)
    requires Fits(g, d) && Open(g, d, s) && AtFullEnd(g, s) && CanGrow(g, d, s.chain)
    requires SameOutsideFats(g, d, e) && Mirrored(g, e)
    requires n == FirstFree(Fat0(g, d), 0) < |Fat0(g, d)| && Last(s.chain) < |Fat0(g, d)|
    requires Fat0(g, e) == AllocFat(Fat0(g, d), Last(s.chain), n)
    ensures n < 0xFFF7
    ensures Grown(g, e, WithCluster(g, s, n))
    ensures Reached(g, d, s, e, WithCluster(g, s, n), [])
  {
    hide Grew, Open, Grown, Reached, FirstFree, Mirrored, CanGrow;
    GrewOne(g, d, s.chain, e);
    AllocEnds(g, d, s.chain, n);
    NewClusterGrown(g, d, s, e);
    NewClusterReached(g, d, s, e);
  }

  lemma AllocEnds(g: FatInfo, d: Disk, ch: seq<nat>, n: nat)
    requires Fits(g, d) && CanGrow(g, d, ch) && n == FirstFree(Fat0(g, d), 0) < |Fat0(g, d)|
    ensures Last(ch) < |Fat0(g, d)| && n < 0x1_0000 && AllocFat(Fat0(g, d), Last(ch), n)[n] == EOC
  {
    LastUsed(Fat0(g, d), ch);
  }

  /** A chunk written and the position moved behind it. */
  lemma ChunkReached(g: FatInfo, d: Disk, s: State, bytes: seq<byte>, u: State, e: Disk, t: State)
    requires Fits(g, d) && Mirrored(g, d) && CanGrow(g, d, s.chain) && Grown(g, d, s)
    requires bytes != [] && s.idx + |bytes| <= BLOCK_SIZE && Sized(g, s, |bytes|, u)
    requires s.blockAddr < |d| && e == d[s.blockAddr := Splice(d[s.blockAddr], s.idx, bytes)]
    requires At(g, Fat0(g, e), t) && SameFile(u, t) && t.off == u.off + |bytes|
    ensures Reached(g, d, s, e, t, bytes) && Open(g, e, t)
  {
    hide Fat, Grew, Mirrored, CanGrow, At, ChainFrom, ChainOnDisk, Span, WellFormed, Overwrite, ClusterBlock, Grown,
      Splice;
    ChunkWritten(g, d, s, bytes, u, e);
    OpenHolds(g, d, s);
  }
}
