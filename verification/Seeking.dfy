/** Moving the position of an open file to an arbitrary offset. */
module Seeking {
  import opened Bytes
  import opened Chains
  import opened Layout
  import opened BlockCache
  import opened FatTable
  import opened Content
  import opened Descriptor
  import opened Position
  import opened FileSteps
  import opened FileIO

  /** Equal positions; the block address means nothing behind the last block or without a cluster. */
  ghost predicate SamePosition(g: FatInfo, s: State, t: State) {
    SameFile(s, t) && s == t.(blockAddr := s.blockAddr) && (AtFullEnd(g, s) || s.blockAddr == t.blockAddr)
  }

  /** A consistent position is determined by its offset: however two descriptors of a file came
      there, they agree. */
  lemma PositionUnique(g: FatInfo, d: Disk, s: State, t: State)
    requires Fits(g, d) && Open(g, d, s) && Open(g, d, t) && SameFile(s, t) && s.off == t.off
    ensures SamePosition(g, s, t)
  {
    hide Fat, Span, ClusterBlock, WellFormed, FileOk;
    if s.chain != [] {
      if s.at < t.at {
        SpanMono(g, s.at, t.at);
      } else if t.at < s.at {
        SpanMono(g, t.at, s.at);
      }
    }
  }

  /** One cluster further along the chain. */
  method FollowChain(v: Volume, pfd: FileDescriptor) returns (ok: bool)
    requires v.Valid() && ChainOk(v.info, v.disk, pfd.Snap()) && OnChain(Fat0(v.info, v.disk), pfd.Snap())
    requires pfd.nextCluster < 0xFFF8
    modifies v`cacheAddr, v`lastError, v.cacheBlock
    modifies pfd`nextCluster, pfd`curCluster, pfd`at
    ensures v.Valid()
    ensures ok ==> v.lastError == old(v.lastError)
    ensures ok ==> pfd.at == old(pfd.at) + 1 && OnChain(Fat0(v.info, v.disk), pfd.Snap())
    ensures v.reliable ==> ok
  {
    hide Fat, WellFormed;
    NextInChain(Fat0(v.info, v.disk), pfd.chain, pfd.at);
    NextInChain(Fat0(v.info, v.disk), pfd.chain, pfd.at + 1);
    pfd.curCluster := pfd.nextCluster;
    pfd.at := pfd.at + 1;
    var nextCluster := ReadFatEntry(v, pfd.nextCluster);
    pfd.nextCluster := nextCluster;
    return nextCluster != 0;
  }

  /** To the end of the file, from anywhere on its chain. */
  method SeekEnd(v: Volume, pfd: FileDescriptor) returns (ok: bool)
    requires v.Valid() && FileOk(v.info, v.disk, pfd.Snap()) && OnChain(Fat0(v.info, v.disk), pfd.Snap())
    modifies v`cacheAddr, v`lastError, v.cacheBlock
    modifies pfd`indexInBlock, pfd`absOffset, pfd`blockInCluster, pfd`blockAddr, pfd`curCluster, pfd`nextCluster, pfd`at
    ensures v.Valid()
    ensures ok ==> v.lastError == old(v.lastError)
    ensures ok ==>
      Open(v.info, v.disk, pfd.Snap()) && SameFile(old(pfd.Snap()), pfd.Snap()) && pfd.absOffset == pfd.dirEntry.size
    ensures v.reliable ==> ok
  {
    hide Fat, WellFormed, Span, BlockOf, SizeFits, IsChain;
    ghost var f := Fat0(v.info, v.disk);
    while pfd.nextCluster < 0xFFF8
      invariant v.Valid() && v.lastError == old(v.lastError)
      invariant OnChain(f, pfd.Snap())
      decreases |pfd.chain| - pfd.at
    {
      ok := FollowChain(v, pfd);
      if !ok {
        return;
      }
    }
    EndFields(v.info, v.disk, pfd.Snap());
    pfd.absOffset := pfd.dirEntry.size;
    pfd.blockInCluster := pfd.lastClusterLen / BLOCK_SIZE;
    pfd.indexInBlock := pfd.lastClusterLen % BLOCK_SIZE;
    pfd.blockAddr := BlockOf(v.info, pfd.curCluster, pfd.blockInCluster);
    ok := true;
  }

  lemma EndFields(g: FatInfo, d: Disk, s: State)
    requires Fits(g, d) && FileOk(g, d, s) && OnChain(Fat0(g, d), s) && s.next >= EOC_MIN
    ensures s.lastLen <= BLOCK_SIZE * g.sectorsPerCluster && s.lastLen / BLOCK_SIZE <= 64
    ensures Open(g, d, s.(off := s.size, bic := s.lastLen / BLOCK_SIZE, idx := s.lastLen % BLOCK_SIZE,
                          blockAddr := BlockOf(g, s.cur, s.lastLen / BLOCK_SIZE)))
  {
    hide Fat, Span, BlockOf, ClusterBlock, WellFormed, IsChain;
    ClusterSize(g);
    SpanZero(g);
    if s.chain != [] {
      NextInChain(Fat0(g, d), s.chain, s.at);
      SpanStep(g, |s.chain| - 1);
      if s.lastLen / BLOCK_SIZE < g.sectorsPerCluster {
        BlockOfCluster(g, d, s.cur, s.lastLen / BLOCK_SIZE);
      }
    }
  }

  /** Offsets at which seeking ends in the position that reading up to there would have reached: all
      but the cluster boundaries in the middle of the file. */
  ghost predicate Seekable(g: FatInfo, size: nat, offset: nat)
    requires g.sectorsPerCluster > 0
  {
    offset == 0 || offset >= size || offset % (BLOCK_SIZE * g.sectorsPerCluster) != 0
  }

  /** Behind the last block of a cluster that is not the last one. */
  ghost predicate PastCluster(g: FatInfo, s: State) {
    && s.at + 1 < |s.chain| && s.bic == g.sectorsPerCluster && s.idx == 0 && s.cur == s.chain[s.at]
    && s.blockAddr == BlockOf(g, s.cur, s.bic) && s.off == BLOCK_SIZE * Span(g, s.at + 1)
  }

  /** `p` is at the offset of `s`, but stands behind the cluster before it. */
  ghost predicate Drifted(g: FatInfo, p: State, s: State) {
    && PastCluster(g, p) && p.next == p.chain[p.at + 1]
    && SameFile(p, s) && s.off == p.off && s.at == p.at + 1 && s.bic == 0 && s.idx == 0
  }

  /** The position that the seek should have ended in. */
  lemma Undrifted(g: FatInfo, d: Disk, p: State) returns (s: State)
    requires Fits(g, d) && FileOk(g, d, p) && OnChain(Fat0(g, d), p) && PastCluster(g, p) && p.off <= p.size
    ensures Open(g, d, s) && Drifted(g, p, s)
  {
    hide Fat, WellFormed, BlockOf, Span, SizeFits, IsChain;
    var f := Fat0(g, d);
    NextInChain(f, p.chain, p.at);
    NextInChain(f, p.chain, p.at + 1);
    ClusterSize(g);
    BlockOfCluster(g, d, p.chain[p.at + 1], 0);
    s := p.(at := p.at + 1, cur := p.next, next := f[p.next], bic := 0, blockAddr := BlockOf(g, p.next, 0));
  }

  lemma DriftedOnChain(g: FatInfo, d: Disk, p: State, s: State)
    requires Fits(g, d) && Open(g, d, s) && (p == s || Drifted(g, p, s))
    ensures FileOk(g, d, p) && OnChain(Fat0(g, d), p)
  {
    hide Fat, WellFormed, BlockOf, Span, ClusterBlock, OnDisk;
    if p != s {
      NextInChain(Fat0(g, d), p.chain, p.at);
    }
  }

  /** Reading or writing on from there uses the block that follows the cluster on the card. That is
      the file's next block just when the next cluster of the chain is the next one on the card. */
  lemma PastClusterBlock(g: FatInfo, d: Disk, s: State)
    requires Fits(g, d) && ChainOk(g, d, s) && PastCluster(g, s)
    ensures s.cur < 0xFFF7 && s.blockAddr == ClusterBlock(g, s.cur + 1)
    ensures s.blockAddr == ClusterBlock(g, s.chain[s.at + 1]) <==> s.chain[s.at + 1] == s.chain[s.at] + 1
  {
    hide Fat, WellFormed;
    ClusterSize(g);
    NextInChain(Fat0(g, d), s.chain, s.at);
    assert OnDisk(g, d, s.chain[s.at]) && IsCluster(Fat0(g, d), s.chain[s.at]);
    EndOfCluster(g, d, s.cur);
    ClusterBlockInjective(g, s.cur + 1, s.chain[s.at + 1]);
  }

  /** Where the file ends plays no part in it: a read takes that block whole, and no write raises the
      size. */
  lemma PastClusterExtent(g: FatInfo, d: Disk, s: State, len: word)
    requires Fits(g, d) && ChainOk(g, d, s) && PastCluster(g, s) && OnChain(Fat0(g, d), s)
    ensures ReadExtent(s, len) == Min(len, BLOCK_SIZE)
    ensures WriteExtent(s, len) == (Min(len, BLOCK_SIZE), 0)
  {
    hide Fat, WellFormed, ChainOnDisk;
    NextInChain(Fat0(g, d), s.chain, s.at);
  }

  /** A file of 517 bytes in the clusters 2 and `c`, of 512 bytes each: seeking to 512 and reading 100
      delivers 100 bytes where 5 are left, out of cluster 3, whichever `c` is; writing 100 bytes there
      leaves the size at 517. */
  lemma PastClusterExample(g: FatInfo, d: Disk, s: State, c: nat)
    requires Fits(g, d) && FileOk(g, d, s) && OnChain(Fat0(g, d), s) && PastCluster(g, s)
    requires g.sectorsPerCluster == 1 && s.chain == [2, c] && s.size == 517 && s.off == 512
    ensures !Seekable(g, s.size, s.off) && s.blockAddr == ClusterBlock(g, 3)
    ensures ReadExtent(s, 100) == 100 && s.size - s.off == 5
    ensures WriteExtent(s, 100) == (100, 0)
  {
    hide Fat, WellFormed, ClusterBlock, ChainOk;
    PastClusterExtent(g, d, s, 100);
    PastClusterBlock(g, d, s);
  }

  lemma EndOfCluster(g: FatInfo, d: Disk, c: word)
    requires Fits(g, d) && OnDisk(g, d, c) && g.sectorsPerCluster > 0
    ensures BlockOf(g, c, g.sectorsPerCluster) == ClusterBlock(g, c + 1)
  {
    hide Pow2, ClusterBlock;
    ClusterInData(g, d, c, 0);
    NextClusterBlock(g, c);
    BlockInRange(g, c, g.sectorsPerCluster);
  }

  lemma NextClusterBlock(g: FatInfo, c: nat)
    ensures ClusterBlock(g, c) + g.sectorsPerCluster == ClusterBlock(g, c + 1)
  {
    assert (c - 1) * g.sectorsPerCluster == (c - 2) * g.sectorsPerCluster + g.sectorsPerCluster;
  }

  /** Addresses of 32 bits do not wrap. */
  lemma BlockInRange(g: FatInfo, c: word, b: nat)
    requires WellFormed(g) && 0 <= ClusterBlock(g, c) + b < 0x1_0000_0000
    ensures BlockOf(g, c, b) == ClusterBlock(g, c) + b
  {
    hide Pow2;
  }

  lemma ClusterBlockInjective(g: FatInfo, c: nat, e: nat)
    requires g.sectorsPerCluster > 0
    ensures ClusterBlock(g, c) == ClusterBlock(g, e) <==> c == e
  {
    assert ClusterBlock(g, c) - ClusterBlock(g, e) == (c - e) * g.sectorsPerCluster;
    hide ClusterBlock;
    if c > e {
      MulAtLeast(c - e, g.sectorsPerCluster);
    } else if e > c {
      MulAtLeast(e - c, g.sectorsPerCluster);
    }
  }

  /** While seeking: `rest` bytes of `offset` lie at or behind the current cluster. */
  ghost predicate SeekState(g: FatInfo, ch: seq<nat>, at: nat, offset: nat, rest: nat) {
    && offset == BLOCK_SIZE * Span(g, at) + rest
    && (at > 0 ==> rest > 0)
    && (ch == [] ==> offset == 0)
    && offset <= BLOCK_SIZE * Span(g, |ch|)
  }

  lemma SeekStart(g: FatInfo, d: Disk, s: State, offset: nat)
    requires Fits(g, d) && FileOk(g, d, s) && offset <= s.size && s.at == 0
    ensures SeekState(g, s.chain, s.at, offset, offset)
  {
    SpanZero(g);
    hide Fat, WellFormed, IsChain, OnDisk, Span;
  }

  lemma SeekNext(g: FatInfo, d: Disk, s: State, offset: nat, rest: nat)
    requires Fits(g, d) && ChainOk(g, d, s) && OnChain(Fat0(g, d), s) && SeekState(g, s.chain, s.at, offset, rest)
    requires rest > BLOCK_SIZE * g.sectorsPerCluster
    ensures s.chain != [] && s.at + 1 < |s.chain| && s.next < EOC_MIN
    ensures SeekState(g, s.chain, s.at + 1, offset, rest - BLOCK_SIZE * g.sectorsPerCluster)
  {
    hide Fat, WellFormed, Span;
    SpanStep(g, s.at);
    if s.at + 1 == |s.chain| {
      assert false;
    }
    NextInChain(Fat0(g, d), s.chain, s.at);
  }

  /** The position fields that the last step computes from what is left of the offset. */
  lemma SeekFields(g: FatInfo, d: Disk, s: State, offset: dword, rest: dword)
    requires Fits(g, d) && FileOk(g, d, s) && OnChain(Fat0(g, d), s) && offset <= s.size
    requires SeekState(g, s.chain, s.at, offset, rest) && rest <= BLOCK_SIZE * g.sectorsPerCluster
    ensures g.sectorsPerCluster > 0 && rest / BLOCK_SIZE <= 64
    ensures var t := s.(off := offset, bic := rest / BLOCK_SIZE, idx := rest % BLOCK_SIZE,
                        blockAddr := BlockOf(g, s.cur, rest / BLOCK_SIZE));
            Open(g, d, t) <==> Seekable(g, s.size, offset)
    ensures !Seekable(g, s.size, offset) ==>
      rest == BLOCK_SIZE * g.sectorsPerCluster && s.at + 1 < |s.chain| && offset == BLOCK_SIZE * Span(g, s.at + 1)
  {
    hide Fat, Span, BlockOf, ClusterBlock, WellFormed, IsChain, LastLen;
    ClusterSize(g);
    SpanZero(g);
    if s.chain != [] {
      RestIsBoundary(g, s, offset, rest);
      SpanStep(g, s.at);
      if s.at + 1 < |s.chain| {
        SpanMono(g, s.at, |s.chain| - 1);
      }
      if rest / BLOCK_SIZE < g.sectorsPerCluster {
        BlockOfCluster(g, d, s.cur, rest / BLOCK_SIZE);
      }
    }
  }

  lemma RestIsBoundary(g: FatInfo, s: State, offset: nat, rest: nat)
    requires g.sectorsPerCluster > 0 && SeekState(g, s.chain, s.at, offset, rest)
    requires rest <= BLOCK_SIZE * g.sectorsPerCluster
    ensures offset % (BLOCK_SIZE * g.sectorsPerCluster) == 0 <==> rest == 0 || rest == BLOCK_SIZE * g.sectorsPerCluster
  {
    var cb := BLOCK_SIZE * g.sectorsPerCluster;
    SpanBytes(g, cb, s.at);
    hide Span;
    if rest == cb {
      MulAdd(s.at, 1, cb);
      ModUnique(offset, s.at + 1, cb, 0);
    } else {
      ModUnique(offset, s.at, cb, rest);
    }
  }

  /** To offset `offset`, or to the end of the file when it lies behind it. The descriptor comes out
      consistent just when the offset is not a cluster boundary in the middle of the file. */
  method SeekTo(v: Volume, pfd: FileDescriptor, offset: dword) returns (ok: bool)
    requires v.Valid() && FileOk(v.info, v.disk, pfd.Snap()) && OnChain(Fat0(v.info, v.disk), pfd.Snap())
    modifies v`cacheAddr, v`lastError, v.cacheBlock
    modifies pfd`indexInBlock, pfd`absOffset, pfd`blockInCluster, pfd`blockAddr, pfd`curCluster, pfd`nextCluster, pfd`at
    ensures v.Valid()
    ensures ok ==> v.lastError == old(v.lastError)
    ensures ok ==>
      && SameFile(old(pfd.Snap()), pfd.Snap())
      && OnChain(Fat0(v.info, v.disk), pfd.Snap())
      && pfd.absOffset == (if pfd.dirEntry.size < offset then pfd.dirEntry.size else offset)
      && v.info.sectorsPerCluster > 0
      && (Open(v.info, v.disk, pfd.Snap()) <==> Seekable(v.info, pfd.dirEntry.size, offset))
      && (!Seekable(v.info, pfd.dirEntry.size, offset) ==> PastCluster(v.info, pfd.Snap()))
    ensures v.reliable ==> ok
  {
    hide Fat, WellFormed, Span, BlockOf, SizeFits, IsChain, Open, At, SeekState, Seekable, ChainOnDisk, LastLen;
    ClusterSize(v.info);
    if pfd.dirEntry.size < offset {
      ok := SeekEnd(v, pfd);
      if ok {
        OpenOnChain(v.info, v.disk, pfd.Snap(), offset);
      }
      return;
    }
    ok := SeekBegin(v, pfd);
    if !ok {
      return;
    }
    BeginOnChain(v.info, v.disk, pfd.Snap());
    SeekStart(v.info, v.disk, pfd.Snap(), offset);
    ok := SeekAlong(v, pfd, offset);
  }

  lemma OpenOnChain(g: FatInfo, d: Disk, s: State, offset: nat)
    requires Fits(g, d) && Open(g, d, s) && s.size < offset
    ensures OnChain(Fat0(g, d), s) && g.sectorsPerCluster > 0 && Seekable(g, s.size, offset)
  {
    ClusterSize(g);
  }

  lemma BeginOnChain(g: FatInfo, d: Disk, s: State)
    requires Fits(g, d) && ChainOk(g, d, s) && At(g, Fat0(g, d), s) && s.off == 0
    ensures OnChain(Fat0(g, d), s) && s.at == 0
  {
    ClusterSize(g);
    SpanZero(g);
    if s.at > 0 {
      SpanMono(g, 0, s.at);
    }
  }

  /** From the first cluster to the one that `offset` lies in, and to the place inside it. */
  method SeekAlong(v: Volume, pfd: FileDescriptor, offset: dword) returns (ok: bool)
    requires v.Valid() && FileOk(v.info, v.disk, pfd.Snap()) && OnChain(Fat0(v.info, v.disk), pfd.Snap())
    requires offset <= pfd.dirEntry.size && SeekState(v.info, pfd.chain, pfd.at, offset, offset)
    modifies v`cacheAddr, v`lastError, v.cacheBlock
    modifies pfd`indexInBlock, pfd`absOffset, pfd`blockInCluster, pfd`blockAddr, pfd`curCluster, pfd`nextCluster, pfd`at
    ensures v.Valid()
    ensures ok ==> v.lastError == old(v.lastError)
    ensures ok ==>
      && SameFile(old(pfd.Snap()), pfd.Snap())
      && OnChain(Fat0(v.info, v.disk), pfd.Snap())
      && pfd.absOffset == offset
      && v.info.sectorsPerCluster > 0
      && (Open(v.info, v.disk, pfd.Snap()) <==> Seekable(v.info, pfd.dirEntry.size, offset))
      && (!Seekable(v.info, pfd.dirEntry.size, offset) ==> PastCluster(v.info, pfd.Snap()))
    ensures v.reliable ==> ok
  {
    hide Fat, WellFormed, Span, BlockOf, SizeFits, IsChain, Open, At, SeekState, Seekable, ChainOnDisk, LastLen;
    ghost var f := Fat0(v.info, v.disk);
    ClusterSize(v.info);
    pfd.absOffset := offset;
    var rest := offset;
    var bytesPerCluster := v.info.sectorsPerCluster * BLOCK_SIZE;
    while rest > bytesPerCluster
      invariant v.Valid() && v.lastError == old(v.lastError)
      invariant 0 <= rest && pfd.absOffset == offset
      invariant OnChain(f, pfd.Snap()) && SeekState(v.info, pfd.chain, pfd.at, offset, rest)
    {
      SeekNext(v.info, v.disk, pfd.Snap(), offset, rest);
      ok := FollowChain(v, pfd);
      if !ok {
        return;
      }
      rest := rest - bytesPerCluster;
    }
    SeekFields(v.info, v.disk, pfd.Snap(), offset, rest);
    pfd.blockInCluster := rest / BLOCK_SIZE;
    pfd.indexInBlock := rest % BLOCK_SIZE;
    pfd.blockAddr := BlockOf(v.info, pfd.curCluster, pfd.blockInCluster);
    ok := true;
  }
}
