/** Reading and writing open files. */
module FileIO {
  import opened Bytes
  import opened Errors
  import opened Chains
  import opened Layout
  import opened BlockCache
  import opened FatTable
  import opened Content
  import opened Descriptor
  import opened Position
  import opened Writing
  import opened FileSteps

  /** Of the directory entry a write changes the first cluster and the size only, and a changed entry
      is marked as one to be written out. */
  ghost predicate Edited(wasModified: bool, e: DirEntry, isModified: bool, f: DirEntry) {
    f == e.(clusterLo := f.clusterLo, size := f.size) && (wasModified || f != e ==> isModified)
  }

  lemma EditedNot(m: bool, e: DirEntry)
    ensures Edited(m, e, m, e)
  {
  }

  lemma EditedTwice(m: bool, e: DirEntry, m': bool, e': DirEntry, m'': bool, e'': DirEntry)
    requires Edited(m, e, m', e') && Edited(m', e', m'', e'')
    ensures Edited(m, e, m'', e'')
  {
  }

  /** The fields of the descriptor after a cluster has been allocated for it. */
  method AdoptCluster(v: Volume, pfd: FileDescriptor, n: word)
    requires pfd.chain == [] ==> pfd.lastClusterLen == 0 && pfd.blockInCluster == 0
    requires pfd.chain == [] <==> pfd.curCluster == 0
    modifies pfd`lastClusterLen, pfd`blockAddr, pfd`blockInCluster, pfd`nextCluster, pfd`curCluster
    modifies pfd`dirEntry, pfd`dirEntryModified, pfd`chain, pfd`at
    ensures pfd.Snap() == WithCluster(v.info, old(pfd.Snap()), n)
    ensures Edited(old(pfd.dirEntryModified), old(pfd.dirEntry), pfd.dirEntryModified, pfd.dirEntry)
  {
    hide BlockOf, Pow2;
    pfd.at := |pfd.chain|;
    pfd.chain := pfd.chain + [n];
    if pfd.curCluster == 0 {
      pfd.dirEntryModified := true;
      pfd.dirEntry := pfd.dirEntry.(clusterLo := n);
    } else {
      pfd.lastClusterLen := 0;
      pfd.blockInCluster := 0;
    }
    pfd.curCluster := n;
    pfd.nextCluster := 0xFFFF;
    pfd.blockAddr := BlockOf(v.info, n, 0);
  }

  /** When the position is behind the last cluster, or the file has none, takes a new cluster. */
  method GrowForWrite(v: Volume, pfd: FileDescriptor) returns (ok: bool, ghost steps: seq<Disk>)
    requires v.Valid() && Mirrored(v.info, v.disk)
    requires Open(v.info, v.disk, pfd.Snap()) && CanGrow(v.info, v.disk, pfd.chain)
    modifies v, v.cacheBlock
    modifies pfd`lastClusterLen, pfd`blockAddr, pfd`blockInCluster, pfd`indexInBlock, pfd`nextCluster, pfd`curCluster
    modifies pfd`dirEntry, pfd`dirEntryModified, pfd`absOffset, pfd`chain, pfd`at
    ensures v.Shape() && v.history == old(v.history) + steps
    ensures CrashSafe(v.info, old(v.disk), old(pfd.chain), steps)
    ensures Edited(old(pfd.dirEntryModified), old(pfd.dirEntry), pfd.dirEntryModified, pfd.dirEntry)
    ensures ok ==>
      && v.Valid() && v.lastError == old(v.lastError)
      && Grown(v.info, v.disk, pfd.Snap())
      && Reached(v.info, old(v.disk), old(pfd.Snap()), v.disk, pfd.Snap(), [])
    ensures !ok && v.reliable ==>
      && v.Valid() && v.lastError == old(v.lastError)
      && v.disk == old(v.disk) && steps == [] && pfd.Snap() == old(pfd.Snap())
      && Free(Fat0(v.info, v.disk)) == {} && AtFullEnd(v.info, pfd.Snap())
  {
    hide Mirrored, Fat, CanGrow, Open, Grown, Reached, CrashSafe, FirstFree, Journal, AllocJournal, WithCluster, Pow2,
      BlockOf;
    ghost var d, s := v.disk, pfd.Snap();
    steps := [];
    if pfd.curCluster == 0 || (pfd.nextCluster >= 0xFFF8 && pfd.blockInCluster == v.info.sectorsPerCluster) {
      NeedsCluster(v.info, d, s);
      var newCluster;
      newCluster, steps := AllocCluster(v, pfd.curCluster);
      AllocCrashSafe(v.info, d, s.chain, steps);
      if newCluster == 0xFFFF {
        OutOfClusters(v.info, d, s.chain);
        return false, steps;
      }
      NewCluster(v.info, d, s, v.disk, newCluster);
      AdoptCluster(v, pfd, newCluster);
    } else {
      CrashSafeNone(v.info, d, s.chain);
      RoomLeft(v.info, d, s);
      ReachedNothing(v.info, d, s);
    }
    ok := true;
  }

  lemma NeedsCluster(g: FatInfo, d: Disk, s: State)
    requires Fits(g, d) && Open(g, d, s)
    requires s.cur == 0 || (s.next >= EOC_MIN && s.bic == g.sectorsPerCluster)
    ensures AtFullEnd(g, s) && s.cur == Last(s.chain) < |Fat0(g, d)|
    ensures s.chain == [] ==> s.lastLen == 0 && s.bic == 0
    ensures s.cur == 0 <==> s.chain == []
  {
    hide Fat, ClusterBlock, Span;
    if s.chain != [] {
      assert IsCluster(Fat0(g, d), s.chain[s.at]);
    }
    FullEnd(g, d, s);
  }

  lemma RoomLeft(g: FatInfo, d: Disk, s: State)
    requires Fits(g, d) && Open(g, d, s)
    requires s.cur != 0 && !(s.next >= EOC_MIN && s.bic == g.sectorsPerCluster)
    ensures Grown(g, d, s)
  {
    hide Fat, ClusterBlock, Span;
    NextInChain(Fat0(g, d), s.chain, s.at);
  }

  lemma OutOfClusters(g: FatInfo, d: Disk, ch: seq<nat>)
    requires Fits(g, d) && CanGrow(g, d, ch)
    ensures FirstFree(Fat0(g, d), 0) == 0xFFFF ==> FirstFree(Fat0(g, d), 0) == |Fat0(g, d)|
    ensures FirstFree(Fat0(g, d), 0) == |Fat0(g, d)| ==> Free(Fat0(g, d)) == {}
  {
  }

  lemma CrashSafeNone(g: FatInfo, d: Disk, ch: seq<nat>)
    requires Fits(g, d)
    ensures CrashSafe(g, d, ch, [])
  {
  }

  /** Bytes left in the file from the position on, as the last cluster's fill tells. */
  lemma LeftInFile(g: FatInfo, d: Disk, s: State)
    requires Fits(g, d) && Holds(g, d, s) && At(g, Fat0(g, d), s)
    requires s.lastLen == LastLen(g, s.chain, s.size)
    ensures s.next >= EOC_MIN ==> s.lastLen - BLOCK_SIZE * s.bic == s.size - s.off + s.idx
    requires s.chain != [] && s.size == BLOCK_SIZE * Span(g, |s.chain| - 1) ==> s.off == s.size
    requires s.chain != [] ==> s.size >= BLOCK_SIZE * Span(g, |s.chain| - 1)
    ensures s.next < EOC_MIN ==> BLOCK_SIZE - s.idx < s.size - s.off
  {
    assert Span(g, 0) == 0;
    hide Fat, ClusterBlock, Span;
    if s.chain != [] {
      NextInChain(Fat0(g, d), s.chain, s.at);
      if s.at < |s.chain| - 1 {
        SpanMono(g, s.at, |s.chain| - 1);
      }
    }
  }

  lemma OpenRemainder(g: FatInfo, d: Disk, s: State)
    requires Fits(g, d) && Open(g, d, s)
    ensures s.off <= s.size && s.idx < BLOCK_SIZE
    ensures s.next >= EOC_MIN ==> s.lastLen - BLOCK_SIZE * s.bic == s.size - s.off + s.idx
    ensures s.next < EOC_MIN ==> BLOCK_SIZE - s.idx <= s.size - s.off
    ensures s.off < s.size ==> Inside(g, d, s)
  {
    hide Fat, Span, ClusterBlock, IsChain, OnDisk, ChainOnDisk, WellFormed;
    OpenHolds(g, d, s);
    LeftInFile(g, d, s);
    if AtFullEnd(g, s) {
      FullEnd(g, d, s);
    }
  }

  /** 16-bit and 32-bit wrap-around. */
  function Wrap16(x: int): (r: word)
    ensures 0 <= x < 0x1_0000 ==> r == x
    ensures -0x1_0000 <= x < 0 ==> r == x + 0x1_0000
    ensures 0x1_0000 <= x < 0x2_0000 ==> r == x - 0x1_0000
  {
    x % 0x1_0000
  }

  function Wrap32(x: int): (r: dword)
    ensures 0 <= x < 0x1_0000_0000 ==> r == x
  {
    x % 0x1_0000_0000
  }

  /** The chunk that a write of `len` bytes starts with, and by how much it raises the recorded size,
      as the driver computes them from the fields of a descriptor, in 16-bit arithmetic. */
  function WriteExtent(s: State, len: word): (word, word)
    requires s.idx < BLOCK_SIZE
  {
    var remainder := Wrap16(s.lastLen - BLOCK_SIZE * s.bic);
    var left := Wrap16(remainder - s.idx);
    var inBlock := BLOCK_SIZE - s.idx;
    if s.next < EOC_MIN || remainder > BLOCK_SIZE then (if len > inBlock then inBlock else len, 0)
    else if len <= left then (len, 0)
    else
      var n := if Wrap16(len + s.idx) > BLOCK_SIZE then inBlock else len;
      (n, Wrap16(s.idx + n - remainder))
  }

  /** The chunk that a read of `len` bytes starts with, as the driver computes it. */
  function ReadExtent(s: State, len: word): word
    requires s.idx < BLOCK_SIZE
  {
    var remainder := Wrap16(s.lastLen - BLOCK_SIZE * s.bic);
    var room := if s.next < EOC_MIN || remainder > BLOCK_SIZE then BLOCK_SIZE - s.idx else Wrap16(remainder - s.idx);
    if room > len then len else room
  }

  method ReadChunk(pfd: FileDescriptor, len: word) returns (chunkLen: word)
    requires pfd.indexInBlock < BLOCK_SIZE
    ensures chunkLen == ReadExtent(pfd.Snap(), len)
  {
    hide Wrap16;
    chunkLen := BLOCK_SIZE - pfd.indexInBlock;
    if pfd.nextCluster >= 0xFFF8 {
      var remainder := Wrap16(pfd.lastClusterLen - BLOCK_SIZE * pfd.blockInCluster);
      if remainder <= BLOCK_SIZE {
        chunkLen := Wrap16(remainder - pfd.indexInBlock);
      }
    }
    if chunkLen > len {
      chunkLen := len;
    }
  }

  /** On a consistent descriptor that is the part that lies in the current block and in the file. */
  lemma ExtentOpen(g: FatInfo, d: Disk, s: State, len: word)
    requires Fits(g, d) && Open(g, d, s)
    ensures s.idx < BLOCK_SIZE
    ensures ReadExtent(s, len) == Min(len, Min(BLOCK_SIZE - s.idx, s.size - s.off))
    ensures ReadExtent(s, len) > 0 ==> Inside(g, d, s)
  {
    OpenRemainder(g, d, s);
    FillOpen(g, d, s);
    hide Open, Inside, Fat, Wrap16;
  }

  lemma FillOpen(g: FatInfo, d: Disk, s: State)
    requires Fits(g, d) && Open(g, d, s)
    ensures s.lastLen <= 0x8000
  {
    hide Fat, Span, ChainOk, At;
    LastLenSmall(g, s.chain, s.size);
  }

  lemma LastLenSmall(g: FatInfo, ch: seq<nat>, size: nat)
    requires WellFormed(g) && (ch != [] ==> size <= BLOCK_SIZE * Span(g, |ch|))
    ensures LastLen(g, ch, size) <= 0x8000
  {
    ClusterSize(g);
    hide Span, WellFormed;
    if ch != [] {
      SpanStep(g, |ch| - 1);
    }
  }

  /** A file cut to nothing keeps the fill of its former last cluster. Only if that fill were 0 would
      the first chunk written to it afterwards be recorded in the size in full, and would a read find
      the file empty. */
  lemma StaleFill(s: State, len: word)
    requires s.bic == 0 && s.idx == 0 && s.next >= EOC_MIN && 0 < len
    ensures WriteExtent(s, len).1 == WriteExtent(s, len).0 <==> s.lastLen == 0
    ensures ReadExtent(s, len) == 0 <==> s.lastLen == 0
  {
  }

  /** A file of five bytes has been cut to nothing: three bytes written to it leave its size at 0, and
      a read delivers five bytes of it. */
  lemma StaleFillExample(s: State)
    requires s.bic == 0 && s.idx == 0 && s.next == EOC && s.lastLen == 5
    ensures WriteExtent(s, 3) == (3, 0) && ReadExtent(s, 100) == 5
  {
  }

  /** Computes that chunk and raises the recorded size and the fill of the last cluster. */
  method WriteChunk(pfd: FileDescriptor, len: word) returns (chunkLen: word)
    requires pfd.indexInBlock < BLOCK_SIZE && 0 < len
    modifies pfd`lastClusterLen, pfd`dirEntry, pfd`dirEntryModified
    ensures chunkLen == WriteExtent(old(pfd.Snap()), len).0
    ensures pfd.Snap() == Raised(old(pfd.Snap()), WriteExtent(old(pfd.Snap()), len).1)
    ensures Edited(old(pfd.dirEntryModified), old(pfd.dirEntry), pfd.dirEntryModified, pfd.dirEntry)
  {
    hide Wrap16, Wrap32;
    chunkLen := BLOCK_SIZE - pfd.indexInBlock;
    if pfd.nextCluster >= 0xFFF8 {
      var remainder := Wrap16(pfd.lastClusterLen - BLOCK_SIZE * pfd.blockInCluster);
      if remainder <= BLOCK_SIZE {
        chunkLen := Wrap16(remainder - pfd.indexInBlock);
        if len > chunkLen {
          chunkLen := len;
          if Wrap16(chunkLen + pfd.indexInBlock) > BLOCK_SIZE {
            chunkLen := BLOCK_SIZE - pfd.indexInBlock;
          }
          var deltaSize := Wrap16(pfd.indexInBlock + chunkLen - remainder);
          pfd.lastClusterLen := Wrap16(pfd.lastClusterLen + deltaSize);
          pfd.dirEntry := pfd.dirEntry.(size := Wrap32(pfd.dirEntry.size + deltaSize));
          pfd.dirEntryModified := true;
        }
      }
    }
    if chunkLen > len {
      chunkLen := len;
    }
  }

  function Raised(s: State, delta: word): State {
    s.(lastLen := Wrap16(s.lastLen + delta), size := Wrap32(s.size + delta))
  }

  /** On a consistent descriptor the chunk is what fits the block just when the 16-bit sums stay in
      range, and then the size grows by what lies behind its old end. */
  lemma ExtentGrown(g: FatInfo, d: Disk, s: State, len: word)
    requires Fits(g, d) && Grown(g, d, s) && 0 < len
    ensures WriteExtent(s, len).0 == Min(len, BLOCK_SIZE - s.idx) <==> InRange16(s.size, s.off, len)
    ensures InRange16(s.size, s.off, len) ==>
      WriteExtent(s, len).0 > 0 && Sized(g, s, WriteExtent(s, len).0, Raised(s, WriteExtent(s, len).1))
  {
    hide Fat, ClusterBlock, Span, IsChain, OnDisk, WellFormed, ChainOnDisk, Wrap16, Wrap32;
    OpenHolds(g, d, s);
    LeftInFile(g, d, s);
    OffsetSmall(g, d, s);
    FillSmall(g, d, s);
    IndexIs(g, d, s);
  }

  lemma IndexIs(g: FatInfo, d: Disk, s: State)
    requires Fits(g, d) && At(g, Fat0(g, d), s)
    ensures s.off % BLOCK_SIZE == s.idx
  {
    hide Fat, ClusterBlock, Span, WellFormed;
    if s.chain != [] {
      ModBlock(Span(g, s.at) + s.bic, s.idx);
    }
  }

  lemma ModBlock(k: nat, i: nat)
    requires i < BLOCK_SIZE
    ensures (BLOCK_SIZE * k + i) % BLOCK_SIZE == i
  {
  }

  lemma FillSmall(g: FatInfo, d: Disk, s: State)
    requires Fits(g, d) && Grown(g, d, s)
    ensures s.lastLen <= 0x8000
  {
    hide Fat, Span, ChainOk, At;
    LastLenSmall(g, s.chain, s.size);
  }

  method CopyBytes(dst: array<byte>, to: nat, src: array<byte>, from: nat, n: nat)
    requires dst != src && to + n <= dst.Length && from + n <= src.Length
    modifies dst
    ensures dst[..] == Splice(old(dst[..]), to, src[from..from + n])
  {
    forall i | 0 <= i < n {
      dst[to + i] := src[from + i];
    }
  }

  /** Puts bytes into the current block and writes it out. */
  method StoreChunk(v: Volume, pfd: FileDescriptor, data: array<byte>, from: nat, n: nat)
    returns (ok: bool, ghost steps: seq<Disk>)
    requires v.Valid() && pfd.blockAddr < |v.disk|
    requires data != v.cacheBlock && from + n <= data.Length && pfd.indexInBlock + n <= BLOCK_SIZE
    modifies v, v.cacheBlock
    ensures v.Shape() && v.history == old(v.history) + steps
    ensures if ok then steps == [v.disk] else steps == [] && v.disk == old(v.disk)
    ensures ok ==>
      && v.Valid() && v.lastError == old(v.lastError)
      && v.disk == old(v.disk)[pfd.blockAddr := Splice(old(v.disk)[pfd.blockAddr], pfd.indexInBlock,
                                                       data[from..from + n])]
    ensures v.reliable ==> ok
  {
    hide Splice, WellFormed;
    steps := [];
    ok := v.Cache(pfd.blockAddr);
    if !ok {
      return;
    }
    CopyBytes(v.cacheBlock, pfd.indexInBlock, data, from, n);
    ok := v.FlushCache();
    if ok {
      steps := [v.disk];
    }
  }

  /** Writes the bytes that fit the current block and moves behind them; 0 when the card failed. */
  method PutChunk(v: Volume, pfd: FileDescriptor, data: array<byte>, from: nat, len: word)
    returns (n: word, ghost steps: seq<Disk>)
    requires v.Valid() && Mirrored(v.info, v.disk)
    requires Grown(v.info, v.disk, pfd.Snap()) && CanGrow(v.info, v.disk, pfd.chain) && !pfd.isRoot
    requires data != v.cacheBlock && from + len <= data.Length && 0 < len
    requires InRange16(pfd.dirEntry.size, pfd.absOffset, len)
    modifies v, v.cacheBlock
    modifies pfd`lastClusterLen, pfd`blockAddr, pfd`blockInCluster, pfd`indexInBlock, pfd`nextCluster, pfd`curCluster
    modifies pfd`dirEntry, pfd`dirEntryModified, pfd`absOffset, pfd`chain, pfd`at
    ensures v.Shape() && v.history == old(v.history) + steps
    ensures CrashSafe(v.info, old(v.disk), old(pfd.chain), steps)
    ensures Edited(old(pfd.dirEntryModified), old(pfd.dirEntry), pfd.dirEntryModified, pfd.dirEntry)
    ensures n > 0 ==>
      && n <= len && v.Valid() && v.lastError == old(v.lastError)
      && Open(v.info, v.disk, pfd.Snap())
      && Reached(v.info, old(v.disk), old(pfd.Snap()), v.disk, pfd.Snap(), data[from..from + n])
      && (n == len || pfd.absOffset % BLOCK_SIZE == 0)
    ensures v.reliable ==> n > 0
  {
    hide Mirrored, Fat, CanGrow, Open, Grown, Reached, CrashSafe, Inside, At, Splice, Grew, FileOk, Sized, SameFile,
      WellFormed, ChainOk, WriteExtent;
    ghost var d, s := v.disk, pfd.Snap();
    ExtentGrown(v.info, d, s, len);
    ChunkEnd(v.info, d, s, len);
    n := WriteChunk(pfd, len);
    ghost var u, bytes := pfd.Snap(), data[from..from + n];
    ChunkStart(v.info, d, s, n, u);
    var ok;
    ok, steps := StoreChunk(v, pfd, data, from, n);
    if !ok {
      CrashSafeNone(v.info, d, s.chain);
      return 0, steps;
    }
    ChunkWritten(v.info, d, s, bytes, u, v.disk);
    GrewCrashSafe(v.info, d, s.chain, v.disk);
    OffsetSmall(v.info, v.disk, u);
    ok := SeekAdvance(v, pfd, n);
    if !ok {
      return 0, steps;
    }
    ChunkReached(v.info, d, s, bytes, u, v.disk, pfd.Snap());
  }

  /** A chunk ends where the request or the block does. */
  lemma ChunkEnd(g: FatInfo, d: Disk, s: State, len: word)
    requires Fits(g, d) && Grown(g, d, s)
    ensures s.idx < BLOCK_SIZE
    ensures var n := Min(len, BLOCK_SIZE - s.idx); n == len || (s.off + n) % BLOCK_SIZE == 0
  {
    hide ChainOk, WellFormed, Fat, ClusterBlock, Span;
    IndexIs(g, d, s);
    hide At, Grown;
    BlockEnd(s.off);
  }

  lemma BlockEnd(x: nat)
    ensures (x + (BLOCK_SIZE - x % BLOCK_SIZE)) % BLOCK_SIZE == 0
  {
  }

  lemma ChunkStart(g: FatInfo, d: Disk, s: State, n: nat, u: State)
    requires Fits(g, d) && Grown(g, d, s) && 0 < n && s.idx + n <= BLOCK_SIZE && Sized(g, s, n, u)
    ensures u.blockAddr == s.blockAddr < |d| && u.idx == s.idx && u.off == s.off && u.chain == s.chain
  {
    ChunkFits(g, d, s, n, u);
    var j := BlockUnder(g, d, u);
  }

  lemma GrewCrashSafe(g: FatInfo, d: Disk, ch: seq<nat>, e: Disk)
    requires Fits(g, d) && Grew(g, d, ch, e, ch)
    ensures CrashSafe(g, d, ch, [e])
  {
    GrewCrashDisk(g, d, ch, e, ch);
  }

  /** One round of the write loop. Returns 0 when the loop has to stop. */
  method WriteStep(v: Volume, pfd: FileDescriptor, data: array<byte>, from: nat, len: word)
    returns (n: word, ghost steps: seq<Disk>)
    requires v.Valid() && Mirrored(v.info, v.disk)
    requires Open(v.info, v.disk, pfd.Snap()) && CanGrow(v.info, v.disk, pfd.chain) && !pfd.isRoot
    requires data != v.cacheBlock && from + len <= data.Length && 0 < len
    requires InRange16(pfd.dirEntry.size, pfd.absOffset, len)
    modifies v, v.cacheBlock
    modifies pfd`lastClusterLen, pfd`blockAddr, pfd`blockInCluster, pfd`indexInBlock, pfd`nextCluster, pfd`curCluster
    modifies pfd`dirEntry, pfd`dirEntryModified, pfd`absOffset, pfd`chain, pfd`at
    ensures v.Shape() && v.history == old(v.history) + steps
    ensures CrashSafe(v.info, old(v.disk), old(pfd.chain), steps)
    ensures Edited(old(pfd.dirEntryModified), old(pfd.dirEntry), pfd.dirEntryModified, pfd.dirEntry)
    ensures n > 0 ==>
      && n <= len && v.Valid() && v.lastError == old(v.lastError)
      && Open(v.info, v.disk, pfd.Snap())
      && Reached(v.info, old(v.disk), old(pfd.Snap()), v.disk, pfd.Snap(), data[from..from + n])
      && (n == len || pfd.absOffset % BLOCK_SIZE == 0)
    ensures n == 0 && v.reliable ==>
      && v.Valid() && v.lastError == old(v.lastError)
      && v.disk == old(v.disk) && steps == [] && pfd.Snap() == old(pfd.Snap())
      && Free(Fat0(v.info, v.disk)) == {} && AtFullEnd(v.info, pfd.Snap())
  {
    hide Mirrored, Fat, CanGrow, Open, Grown, Reached, CrashSafe, Grew;
    ghost var d, s := v.disk, pfd.Snap();
    var ok;
    ok, steps := GrowForWrite(v, pfd);
    if !ok {
      return 0, steps;
    }
    ghost var d1, s1 := v.disk, pfd.Snap();
    ReachedParts(v.info, d, s, d1, s1, []);
    ReachedSame(v.info, d, s, d1, s1);
    ghost var more;
    n, more := PutChunk(v, pfd, data, from, len);
    CrashSafeConcat(v.info, d, s.chain, steps, d1, s1.chain, more);
    steps := steps + more;
    if n > 0 {
      ReachedTrans(v.info, d, s, d1, s1, v.disk, pfd.Snap(), [], data[from..from + n]);
      assert [] + data[from..from + n] == data[from..from + n];
    }
  }

  lemma ReachedSame(g: FatInfo, d: Disk, s: State, e: Disk, t: State)
    requires Fits(g, d) && Reached(g, d, s, e, t, [])
    ensures t.off == s.off && t.size == s.size
  {
    hide Grew, ChainOk, Span;
  }

  lemma ReachedParts(g: FatInfo, d: Disk, s: State, e: Disk, t: State, bytes: seq<byte>)
    requires Fits(g, d) && Reached(g, d, s, e, t, bytes)
    ensures Fits(g, e) && Mirrored(g, e) && CanGrow(g, e, t.chain) && Grew(g, d, s.chain, e, t.chain)
  {
    GrewCanGrow(g, d, s.chain, e, t.chain);
  }

  /** Writes `len` bytes at the position. The file becomes the old bytes overwritten with as many of
      them as were taken; fewer than `len` are taken only when the volume has no free cluster left.
      Every single block write on the way leaves a disk on which all other files are intact. */
  method WriteFile(v: Volume, pfd: FileDescriptor, data: array<byte>, len: word)
    returns (result: word, ghost steps: seq<Disk>)
    requires v.Valid() && Mirrored(v.info, v.disk)
    requires Open(v.info, v.disk, pfd.Snap()) && CanGrow(v.info, v.disk, pfd.chain) && !pfd.isRoot
    requires data != v.cacheBlock && len <= data.Length && InRange16(pfd.dirEntry.size, pfd.absOffset, len)
    modifies v, v.cacheBlock
    modifies pfd`lastClusterLen, pfd`blockAddr, pfd`blockInCluster, pfd`indexInBlock, pfd`nextCluster, pfd`curCluster
    modifies pfd`dirEntry, pfd`dirEntryModified, pfd`absOffset, pfd`chain, pfd`at
    ensures result <= len && v.Shape() && v.history == old(v.history) + steps
    ensures CrashSafe(v.info, old(v.disk), old(pfd.chain), steps)
    ensures Edited(old(pfd.dirEntryModified), old(pfd.dirEntry), pfd.dirEntryModified, pfd.dirEntry)
    ensures v.reliable ==>
      && v.Valid() && v.lastError == old(v.lastError)
      && Open(v.info, v.disk, pfd.Snap())
      && Reached(v.info, old(v.disk), old(pfd.Snap()), v.disk, pfd.Snap(), data[..result])
      && (result < len ==> Free(Fat0(v.info, v.disk)) == {} && AtFullEnd(v.info, pfd.Snap()))
  {
    hide Mirrored, Fat, CanGrow, Open, Grown, Reached, CrashSafe, Grew, WellFormed, AtFullEnd, Free, Edited;
    ghost var d, s := v.disk, pfd.Snap();
    result, steps := 0, [];
    CrashSafeNone(v.info, d, s.chain);
    EditedNot(pfd.dirEntryModified, pfd.dirEntry);
    ReachedNothing(v.info, d, s);
    ReachedParts(v.info, d, s, d, s, []);
    assert data[..0] == [];
    while result < len
      invariant 0 <= result <= len && v.history == old(v.history) + steps
      invariant v.Valid() && Mirrored(v.info, v.disk) && CanGrow(v.info, v.disk, pfd.chain)
      invariant v.lastError == old(v.lastError)
      invariant Open(v.info, v.disk, pfd.Snap()) && InRange16(pfd.dirEntry.size, pfd.absOffset, len - result)
      invariant Grew(v.info, d, s.chain, v.disk, pfd.chain)
      invariant Reached(v.info, d, s, v.disk, pfd.Snap(), data[..result])
      invariant CrashSafe(v.info, d, s.chain, steps)
      invariant Edited(old(pfd.dirEntryModified), old(pfd.dirEntry), pfd.dirEntryModified, pfd.dirEntry)
      decreases len - result
    {
      ghost var d1, s1, m1, e1 := v.disk, pfd.Snap(), pfd.dirEntryModified, pfd.dirEntry;
      var chunkLen;
      ghost var more;
      chunkLen, more := WriteStep(v, pfd, data, result, len - result);
      CrashSafeConcat(v.info, d, s.chain, steps, d1, s1.chain, more);
      steps := steps + more;
      EditedTwice(old(pfd.dirEntryModified), old(pfd.dirEntry), m1, e1, pfd.dirEntryModified, pfd.dirEntry);
      if chunkLen == 0 {
        return;
      }
      ReachedTrans(v.info, d, s, d1, s1, v.disk, pfd.Snap(), data[..result], data[result..result + chunkLen]);
      assert data[..result] + data[result..result + chunkLen] == data[..result + chunkLen];
      result := result + chunkLen;
      ReachedParts(v.info, d, s, v.disk, pfd.Snap(), data[..result]);
    }
  }

  /** Bytes `p`..`p + n` of `content` copied to offset `from` of the buffer `a` give `b`. */
  ghost predicate Copied(content: seq<byte>, p: nat, n: nat, a: seq<byte>, b: seq<byte>, from: nat) {
    p + n <= |content| && from + n <= |a| && b == Splice(a, from, content[p..p + n])
  }

  lemma CopiedConcat(content: seq<byte>, p: nat, n: nat, m: nat, a: seq<byte>, b: seq<byte>, c: seq<byte>)
    requires Copied(content, p, n, a, b, 0) && Copied(content, p + n, m, b, c, n)
    ensures Copied(content, p, n + m, a, c, 0)
  {
  }

  /** Reading `n` bytes at the position of `s` to offset `from` of a buffer turns `a` into `b` and
      moves the position to that of `t`. */
  ghost predicate ReadTo(g: FatInfo, d: Disk, s: State, t: State, a: seq<byte>, b: seq<byte>, from: nat, n: nat)
    requires Fits(g, d)
  {
    && Open(g, d, s) && Open(g, d, t) && SameFile(s, t)
    && t.off == s.off + n
    && Copied(FileData(g, d, s), s.off, n, a, b, from)
  }

  lemma ReadToConcat(g: FatInfo, d: Disk, s: State, t: State, u: State, a: seq<byte>, b: seq<byte>, c: seq<byte>,
                     n: nat, m: nat)
    requires Fits(g, d) && ReadTo(g, d, s, t, a, b, 0, n) && ReadTo(g, d, t, u, b, c, n, m)
    ensures ReadTo(g, d, s, u, a, c, 0, n + m)
  {
    hide Copied, Open, FileData, ChainOk, Span, WellFormed;
    OpenSize(g, d, t);
    OpenHolds(g, d, s);
    ReadAdvanced(g, d, s, t);
    CopiedConcat(FileData(g, d, s), s.off, n, m, a, b, c);
  }

  lemma ReadToNothing(g: FatInfo, d: Disk, s: State, a: seq<byte>)
    requires Fits(g, d) && Open(g, d, s)
    ensures ReadTo(g, d, s, s, a, a, 0, 0)
  {
    OpenHolds(g, d, s);
    hide Open, ChainOk, Data, ChainBlocks, Span;
  }

  /** One round of the read loop: copies the rest of the current block, or of the file, to `data`.
      Returns 0 when the loop has to stop. */
  method ReadStep(v: Volume, pfd: FileDescriptor, data: array<byte>, from: nat, len: word) returns (n: word)
    requires v.Valid() && Open(v.info, v.disk, pfd.Snap()) && !pfd.isRoot
    requires data != v.cacheBlock && from + len <= data.Length && 0 < len
    modifies v`cacheAddr, v`lastError, v.cacheBlock, data
    modifies pfd`indexInBlock, pfd`absOffset, pfd`blockInCluster, pfd`blockAddr, pfd`curCluster, pfd`nextCluster, pfd`at
    ensures v.Valid() && n <= len
    ensures n > 0 ==>
      && v.lastError == old(v.lastError)
      && ReadTo(v.info, v.disk, old(pfd.Snap()), pfd.Snap(), old(data[..]), data[..], from, n)
    ensures n == 0 && v.reliable ==>
      && pfd.Snap() == old(pfd.Snap()) && data[..] == old(data[..])
      && pfd.absOffset == pfd.dirEntry.size && v.lastError == FAT_EOF
  {
    hide Fat, Open, Inside, At, FileOk, Splice, ReadExtent, WellFormed, FileData, ChainOk;
    ghost var d, s := v.disk, pfd.Snap();
    OpenSize(v.info, d, s);
    ExtentOpen(v.info, d, s, len);
    n := ReadChunk(pfd, len);
    if n == 0 {
      if pfd.absOffset == pfd.dirEntry.size {
        v.lastError := FAT_EOF;
      }
      return;
    }
    ChunkRead(v.info, d, s, n);
    OffsetSmall(v.info, d, s);
    var ok := v.Cache(pfd.blockAddr);
    if !ok {
      return 0;
    }
    CopyBytes(data, from, v.cacheBlock, pfd.indexInBlock, n);
    ok := SeekAdvance(v, pfd, n);
    if !ok {
      return 0;
    }
    ReadAdvanced(v.info, d, s, pfd.Snap());
  }

  lemma OpenSize(g: FatInfo, d: Disk, s: State)
    requires Fits(g, d) && Open(g, d, s)
    ensures s.off <= s.size && s.idx < BLOCK_SIZE
  {
  }

  lemma ReadAdvanced(g: FatInfo, d: Disk, s: State, t: State)
    requires Fits(g, d) && Open(g, d, s) && (At(g, Fat0(g, d), t) || Open(g, d, t)) && SameFile(s, t) && t.off <= t.size
    ensures Open(g, d, t) && FileData(g, d, t) == FileData(g, d, s)
  {
  }

  /** Reads up to `len` bytes at the position: exactly the bytes of the file from there on, up to its
      end, and FAT_EOF is raised just when the end cut the read short. The volume is not changed. */
  method ReadFile(v: Volume, pfd: FileDescriptor, data: array<byte>, len: word) returns (result: word)
    requires v.Valid() && Open(v.info, v.disk, pfd.Snap()) && !pfd.isRoot
    requires data != v.cacheBlock && len <= data.Length
    modifies v`cacheAddr, v`lastError, v.cacheBlock, data
    modifies pfd`indexInBlock, pfd`absOffset, pfd`blockInCluster, pfd`blockAddr, pfd`curCluster, pfd`nextCluster, pfd`at
    ensures v.Valid() && result <= len
    ensures v.reliable ==>
      && result == Min(len, pfd.dirEntry.size - old(pfd.absOffset))
      && ReadTo(v.info, v.disk, old(pfd.Snap()), pfd.Snap(), old(data[..]), data[..], 0, result)
      && v.lastError == (if result < len then FAT_EOF else old(v.lastError))
  {
    hide Fat, Open, ReadTo;
    ghost var d, s, a := v.disk, pfd.Snap(), data[..];
    result := 0;
    ReadToNothing(v.info, d, s, a);
    OpenSize(v.info, d, s);
    while result < len
      invariant 0 <= result <= len
      invariant v.Valid() && v.lastError == old(v.lastError)
      invariant Open(v.info, d, pfd.Snap()) && s.off + result == pfd.absOffset <= pfd.dirEntry.size
      invariant ReadTo(v.info, d, s, pfd.Snap(), a, data[..], 0, result)
      decreases len - result
    {
      ghost var t, b := pfd.Snap(), data[..];
      var chunkLen := ReadStep(v, pfd, data, result, len - result);
      if chunkLen == 0 {
        return;
      }
      ReadToConcat(v.info, d, s, t, pfd.Snap(), a, b, data[..], result, chunkLen);
      ReadToEnd(v.info, d, s, pfd.Snap(), a, data[..], result + chunkLen);
      result := result + chunkLen;
    }
  }

  lemma ReadToEnd(g: FatInfo, d: Disk, s: State, t: State, a: seq<byte>, b: seq<byte>, n: nat)
    requires Fits(g, d) && ReadTo(g, d, s, t, a, b, 0, n)
    ensures Open(g, d, t) && s.off + n == t.off <= t.size
  {
  }
}
