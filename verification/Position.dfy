/** Moving the position of an open file: one step forward, and back to the beginning. */
module Position {
  import opened Bytes
  import opened Chains
  import opened Layout
  import opened BlockCache
  import opened FatTable
  import opened Content
  import opened Descriptor

  /** Only the position differs. */
  ghost predicate SameFile(s: State, t: State) {
    t.lastLen == s.lastLen && t.head == s.head && t.size == s.size && t.chain == s.chain
  }

  ghost predicate Inside(g: FatInfo, d: Disk, s: State)
    requires Fits(g, d)
  {
    ChainOk(g, d, s) && At(g, Fat0(g, d), s) && s.chain != [] && s.bic < g.sectorsPerCluster
  }

  lemma NextInChain(f: seq<word>, ch: seq<nat>, k: nat)
    requires IsChain(f, ch) && k < |ch|
    ensures ch[k] < |f|
    ensures if k < |ch| - 1 then f[ch[k]] == ch[k + 1] < 0xFFF7 && 2 <= ch[k + 1] < |f| else f[ch[k]] >= EOC_MIN
  {
    assert IsCluster(f, ch[k]);
    assert k < |ch| - 1 ==> IsCluster(f, ch[k + 1]);
  }

  function WithinBlock(s: State, n: word): State
    requires s.idx + n < 0x1_0000 && s.off + n < 0x1_0000_0000
  {
    s.(idx := s.idx + n, off := s.off + n)
  }

  function NextBlock(s: State, n: word): State
    requires s.bic < 255 && s.off + n < 0x1_0000_0000 && s.blockAddr < 0xFFFF_FFFF
  {
    s.(idx := 0, bic := s.bic + 1, blockAddr := s.blockAddr + 1, off := s.off + n)
  }

  lemma AdvanceInCluster(g: FatInfo, d: Disk, s: State, n: word)
    requires Fits(g, d) && Inside(g, d, s) && s.idx + n <= BLOCK_SIZE && s.off + n < 0x1_0000_0000
    ensures s.bic < 64 && s.idx + n < 0x1_0000 && s.blockAddr < |d|
    ensures s.idx + n < BLOCK_SIZE ==> At(g, Fat0(g, d), WithinBlock(s, n))
    ensures s.idx + n == BLOCK_SIZE && s.bic + 1 < g.sectorsPerCluster ==> At(g, Fat0(g, d), NextBlock(s, n))
  {
    hide Span, Fat, ClusterBlock;
    ClusterSize(g);
    ClusterInData(g, d, s.cur, s.bic);
  }

  /** Block address arithmetic of the driver: 32-bit, wrapping for the meaningless cluster 0. */
  function BlockOf(g: FatInfo, cluster: word, b: nat): dword {
    (g.dataOffset + (cluster - 2) * Pow2(g.logSectorsPerCluster) + b) % 0x1_0000_0000
  }

  lemma BlockOfCluster(g: FatInfo, d: Disk, c: word, b: nat)
    requires Fits(g, d) && OnDisk(g, d, c) && b < g.sectorsPerCluster
    ensures BlockOf(g, c, b) == ClusterBlock(g, c) + b
  {
    ClusterInData(g, d, c, b);
  }

  /** After the last block of a cluster: the start of the next one, or the end of a full last one. */
  lemma AdvanceCluster(g: FatInfo, d: Disk, s: State, n: word)
    requires Fits(g, d) && Inside(g, d, s) && s.idx + n == BLOCK_SIZE && s.bic + 1 == g.sectorsPerCluster
    requires s.off + n < 0x1_0000_0000
    ensures s.next >= EOC_MIN ==> At(g, Fat0(g, d), s.(idx := 0, bic := s.bic + 1, off := s.off + n))
    ensures s.next < EOC_MIN ==>
      && 2 <= s.next < |Fat0(g, d)| && Fat0(g, d)[s.next] != 0
      && BlockOf(g, s.next, 0) == ClusterBlock(g, s.next)
      && At(g, Fat0(g, d), s.(idx := 0, bic := 0, off := s.off + n, cur := s.next, next := Fat0(g, d)[s.next],
                              blockAddr := ClusterBlock(g, s.next), at := s.at + 1))
  {
    hide Span, Fat, ClusterBlock;
    var f := Fat0(g, d);
    ClusterSize(g);
    SpanStep(g, s.at);
    NextInChain(f, s.chain, s.at);
    if s.next < EOC_MIN {
      NextInChain(f, s.chain, s.at + 1);
      BlockOfCluster(g, d, s.next, 0);
    }
  }

  method EnterNextCluster(v: Volume, pfd: FileDescriptor) returns (ok: bool)
    requires v.Valid() && pfd.nextCluster < 256 * v.info.sectorsPerFat
    modifies v`cacheAddr, v`lastError, v.cacheBlock
    modifies pfd`blockInCluster, pfd`blockAddr, pfd`curCluster, pfd`nextCluster, pfd`at
    ensures v.Valid()
    ensures ok ==> v.lastError == old(v.lastError)
    ensures ok ==> pfd.Snap() == old(pfd.Snap()).(
      bic := 0,
      blockAddr := BlockOf(v.info, old(pfd.nextCluster), 0),
      cur := old(pfd.nextCluster),
      next := Fat0(v.info, v.disk)[old(pfd.nextCluster)],
      at := old(pfd.at) + 1)
    ensures v.reliable && Fat0(v.info, v.disk)[old(pfd.nextCluster)] != 0 ==> ok
  {
    hide Fat, BlockOf;
    pfd.blockAddr := BlockOf(v.info, pfd.nextCluster, 0);
    pfd.curCluster := pfd.nextCluster;
    pfd.nextCluster := ReadFatEntry(v, pfd.curCluster);
    pfd.at := pfd.at + 1;
    if pfd.nextCluster == 0 {
      return false;
    }
    pfd.blockInCluster := 0;
    return true;
  }

  method SeekAdvance(v: Volume, pfd: FileDescriptor, advance: word) returns (ok: bool)
    requires v.Valid() && pfd.indexInBlock + advance <= BLOCK_SIZE && pfd.absOffset + advance < 0x1_0000_0000
    requires pfd.isRoot ==> pfd.blockAddr < 0xFFFF_FFFF
    requires !pfd.isRoot ==> Inside(v.info, v.disk, pfd.Snap())
    modifies v`cacheAddr, v`lastError, v.cacheBlock
    modifies pfd`indexInBlock, pfd`absOffset, pfd`blockInCluster, pfd`blockAddr, pfd`curCluster, pfd`nextCluster, pfd`at
    ensures v.Valid()
    ensures ok ==> v.lastError == old(v.lastError)
    ensures pfd.absOffset == old(pfd.absOffset) + advance
    ensures ok && !pfd.isRoot ==>
      At(v.info, Fat0(v.info, v.disk), pfd.Snap()) && SameFile(old(pfd.Snap()), pfd.Snap())
    ensures pfd.isRoot ==> ok
    ensures ok && !pfd.isRoot && pfd.blockInCluster == v.info.sectorsPerCluster ==> pfd.blockAddr == old(pfd.blockAddr)
    ensures pfd.isRoot ==>
      if old(pfd.indexInBlock) + advance == BLOCK_SIZE
      then pfd.indexInBlock == 0 && pfd.blockAddr == old(pfd.blockAddr) + 1
      else pfd.indexInBlock == old(pfd.indexInBlock) + advance && pfd.blockAddr == old(pfd.blockAddr)
    ensures v.reliable ==> ok
  {
    hide Fat, ClusterBlock, At, ChainOk, BlockOf, Pow2;
    if !pfd.isRoot {
      AdvanceInCluster(v.info, v.disk, pfd.Snap(), advance);
      if pfd.indexInBlock + advance == BLOCK_SIZE && pfd.blockInCluster + 1 == v.info.sectorsPerCluster {
        AdvanceCluster(v.info, v.disk, pfd.Snap(), advance);
      }
    }
    pfd.indexInBlock := pfd.indexInBlock + advance;
    pfd.absOffset := pfd.absOffset + advance;
    if pfd.indexInBlock == BLOCK_SIZE {
      pfd.blockInCluster := (pfd.blockInCluster + 1) % 256;
      pfd.indexInBlock := 0;
      if pfd.blockInCluster == v.info.sectorsPerCluster {
        if pfd.isRoot {
          pfd.blockAddr := pfd.blockAddr + 1;
        } else if pfd.nextCluster < 0xFFF8 {
          ok := EnterNextCluster(v, pfd);
          return;
        }
      } else {
        pfd.blockAddr := pfd.blockAddr + 1;
      }
    }
    return true;
  }

  lemma AtBeginning(g: FatInfo, d: Disk, s: State)
    requires Fits(g, d) && ChainOk(g, d, s)
    ensures s.head != 0 ==> s.head < |Fat0(g, d)| && Fat0(g, d)[s.head] != 0
    ensures At(g, Fat0(g, d), s.(
      blockAddr := BlockOf(g, s.head, 0), bic := 0, idx := 0, cur := s.head,
      next := if s.head == 0 then EOC else Fat0(g, d)[s.head], off := 0, at := 0))
  {
    hide Fat, ClusterBlock, BlockOf;
    ClusterSize(g);
    if s.chain != [] {
      NextInChain(Fat0(g, d), s.chain, 0);
      BlockOfCluster(g, d, s.head, 0);
    }
  }

  /** Back to the first byte. */
  method SeekBegin(v: Volume, pfd: FileDescriptor) returns (ok: bool)
    requires v.Valid() && ChainOk(v.info, v.disk, pfd.Snap())
    modifies v`cacheAddr, v`lastError, v.cacheBlock
    modifies pfd`indexInBlock, pfd`absOffset, pfd`blockInCluster, pfd`blockAddr, pfd`curCluster, pfd`nextCluster, pfd`at
    ensures v.Valid() && pfd.absOffset == 0
    ensures ok ==> v.lastError == old(v.lastError)
    ensures ok ==> At(v.info, Fat0(v.info, v.disk), pfd.Snap()) && SameFile(old(pfd.Snap()), pfd.Snap())
    ensures v.reliable ==> ok
  {
    hide Fat, BlockOf, At, ChainOk;
    AtBeginning(v.info, v.disk, pfd.Snap());
    pfd.blockAddr := BlockOf(v.info, pfd.dirEntry.clusterLo, 0);
    pfd.blockInCluster := 0;
    pfd.indexInBlock := 0;
    pfd.curCluster := pfd.dirEntry.clusterLo;
    pfd.at := 0;
    if pfd.curCluster != 0 {
      pfd.nextCluster := ReadFatEntry(v, pfd.dirEntry.clusterLo);
    } else {
      pfd.nextCluster := 0xFFFF;
    }
    pfd.absOffset := 0;
    return pfd.nextCluster != 0;
  }

  /** The fill of the last cluster, computed from the size alone. */
  function LastLenOf(g: FatInfo, size: dword): int {
    if size == 0 then 0
    else
      var clusterMask := Pow2(g.logSectorsPerCluster + 9) - 1;
      var rest := BitAnd(size % 0x1_0000, clusterMask);
      if rest == 0 then clusterMask + 1 else rest
  }

  lemma LastLenAgrees(g: FatInfo, ch: seq<nat>, size: dword)
    requires WellFormed(g) && SizeFits(g, ch, size)
    ensures LastLenOf(g, size) == LastLen(g, ch, size)
  {
    if ch != [] {
      var cb := ClusterMask(g);
      var n := |ch| - 1;
      SpanBytes(g, cb, n);
      SpanStep(g, n);
      BitAndMask(size % 0x1_0000, g.logSectorsPerCluster + 9);
      hide BitAnd, Pow2, Span;
      LastRest(size, n, cb);
    }
  }

  lemma SpanBytes(g: FatInfo, cb: nat, n: nat)
    requires cb == BLOCK_SIZE * g.sectorsPerCluster
    ensures BLOCK_SIZE * Span(g, n) == n * cb
  {
  }

  /** The rest modulo the cluster size, 0 standing for a full cluster. */
  lemma LastRest(size: nat, n: nat, cb: nat)
    requires 0 < cb && 0x1_0000 == cb * (0x1_0000 / cb) && n * cb < size <= n * cb + cb
    ensures var rest := (size % 0x1_0000) % cb; (if rest == 0 then cb else rest) == size - n * cb
  {
    ModModulus(size, cb, 0x1_0000, 0x1_0000 / cb);
    if size == n * cb + cb {
      MulAdd(n, 1, cb);
      ModUnique(size, n + 1, cb, 0);
    } else {
      ModUnique(size, n, cb, size - n * cb);
    }
  }

  lemma ClusterMask(g: FatInfo) returns (cb: nat)
    requires WellFormed(g)
    ensures cb == Pow2(g.logSectorsPerCluster + 9) == BLOCK_SIZE * g.sectorsPerCluster
    ensures 0 < cb <= 0x8000 && 0x1_0000 == cb * (0x1_0000 / cb)
  {
    hide Pow2;
    cb := BLOCK_SIZE * g.sectorsPerCluster;
    SectorsPerCluster(g);
    NineDoubles(g.logSectorsPerCluster);
    hide WellFormed;
    SectorsDivide(g.sectorsPerCluster);
  }

  lemma SectorsDivide(n: nat)
    requires n in {1, 2, 4, 8, 16, 32, 64}
    ensures 0x1_0000 == BLOCK_SIZE * n * (0x1_0000 / (BLOCK_SIZE * n))
  {
    if n == 1 || n == 2 || n == 4 {
    } else if n == 8 || n == 16 {
    } else {
      assert n == 32 || n == 64;
    }
  }

  lemma NineDoubles(l: nat)
    ensures Pow2(l + 9) == BLOCK_SIZE * Pow2(l)
  {
    assert Pow2(l + 3) == 2 * Pow2(l + 2) == 4 * Pow2(l + 1) == 8 * Pow2(l);
    assert Pow2(l + 6) == 2 * Pow2(l + 5) == 4 * Pow2(l + 4) == 8 * Pow2(l + 3);
    assert Pow2(l + 9) == 2 * Pow2(l + 8) == 4 * Pow2(l + 7) == 8 * Pow2(l + 6);
  }

  lemma MaskBelow(x: nat, k: nat)
    ensures BitAnd(x, Pow2(k) - 1) < Pow2(k)
  {
    BitAndMask(x, k);
    hide BitAnd, Pow2;
  }

  lemma MulSwap(q: nat, m: nat, k: nat)
    ensures q * (m * k) == (q * k) * m
  {
  }

  lemma MulAdd(a: nat, b: nat, m: nat)
    ensures (a + b) * m == a * m + b * m
  {
  }

  lemma ModModulus(x: nat, m: nat, n: nat, k: nat)
    requires m > 0 && n > 0 && n == m * k
    ensures (x % n) % m == x % m
  {
    var q, r := x / n, x % n;
    var t, u := r / m, r % m;
    assert x == q * n + r && r == t * m + u;
    MulSwap(q, m, k);
    MulAdd(q * k, t, m);
    ModUnique(x, q * k + t, m, u);
  }

  method InitFd(v: Volume, pfd: FileDescriptor, ghost ch: seq<nat>) returns (ok: bool)
    requires v.Valid() && ChainFrom(Fat0(v.info, v.disk), pfd.dirEntry.clusterLo, ch) && ChainOnDisk(v.info, v.disk, ch)
    modifies v`cacheAddr, v`lastError, v.cacheBlock
    modifies pfd`lastClusterLen, pfd`blockAddr, pfd`blockInCluster, pfd`indexInBlock, pfd`nextCluster, pfd`curCluster
    modifies pfd`isRoot, pfd`dirEntryModified, pfd`absOffset, pfd`chain, pfd`at
    ensures v.Valid()
    ensures ok ==> v.lastError == old(v.lastError)
    ensures !pfd.isRoot && !pfd.dirEntryModified
    ensures ok ==> pfd.absOffset == 0 && pfd.chain == ch
    ensures ok ==> ChainOk(v.info, v.disk, pfd.Snap()) && At(v.info, Fat0(v.info, v.disk), pfd.Snap())
    ensures ok && SizeFits(v.info, ch, pfd.dirEntry.size) ==> Open(v.info, v.disk, pfd.Snap())
    ensures v.reliable ==> ok
  {
    hide Fat, LastLen, LastLenOf, SizeFits, ChainFrom, ChainOnDisk, At;
    pfd.isRoot := false;
    pfd.chain := ch;
    ghost var cb := ClusterMask(v.info);
    if SizeFits(v.info, ch, pfd.dirEntry.size) {
      LastLenAgrees(v.info, ch, pfd.dirEntry.size);
    }
    LastLenCode(v, pfd);
    pfd.dirEntryModified := false;
    ok := SeekBegin(v, pfd);
  }

  method LastLenCode(v: Volume, pfd: FileDescriptor)
    requires WellFormed(v.info)
    modifies pfd`lastClusterLen
    ensures pfd.lastClusterLen == LastLenOf(v.info, pfd.dirEntry.size)
  {
    hide BitAnd, Pow2, WellFormed;
    if pfd.dirEntry.size == 0 {
      pfd.lastClusterLen := 0;
    } else {
      ghost var cb := ClusterMask(v.info);
      var clusterMask := Pow2(v.info.logSectorsPerCluster + 9) - 1;
      MaskBelow(pfd.dirEntry.size % 0x1_0000, v.info.logSectorsPerCluster + 9);
      pfd.lastClusterLen := BitAnd(pfd.dirEntry.size % 0x1_0000, clusterMask);
      if pfd.lastClusterLen == 0 {
        pfd.lastClusterLen := clusterMask + 1;
      }
    }
  }
}
