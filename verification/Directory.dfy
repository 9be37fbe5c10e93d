/** Finding and creating directory entries by name. */
module Directory {
  import opened Bytes
  import opened Errors
  import opened Chains
  import opened Layout
  import opened BlockCache
  import opened FatTable
  import opened Content
  import opened Descriptor
  import opened Position
  import opened Names
  import opened Entries

  /** A new entry: the name and nothing but zeroes. */
  function NewRaw(name: seq<byte>): Raw
    requires |name| == 11
  {
    name + seq(21, _ => 0)
  }

  /** The first deleted entry met, remembered for an insertion. */
  datatype Slot = NoSlot | SlotIn(addr: dword, index: nat)

  /** `slot` is entry `s` of the directory. */
  ghost predicate SlotAt(bl: seq<int>, slot: Slot, s: int) {
    match slot
    case NoSlot => s == -1
    case SlotIn(addr, index) => 0 <= s < 16 * |bl| && addr == bl[s / 16] && index == s % 16
  }

  /** Looks at the cached block, entry by entry, up to one that decides the search. */
  method ScanBlock(v: Volume, name: seq<byte>, mode: byte, slot: Slot, ghost bl: seq<int>, ghost j: nat, ghost s: int)
    returns (i: nat, slot': Slot, ghost s': int)
    requires v.Valid() && OnDiskBlocks(v.disk, bl) && j < |bl| && v.cacheAddr == bl[j]
    requires SlotAt(bl, slot, s) && s < 16 * j
    ensures i <= 16 && SlotAt(bl, slot', s') && s' < 16 * j + i
    ensures Search(EntriesOf(v.disk, bl), 16 * j, name, mode, s) ==
      Search(EntriesOf(v.disk, bl), 16 * j + i, name, mode, s')
    ensures NoEnd(EntriesOf(v.disk, bl), 16 * j, 16 * j + i)
    ensures i < 16 ==> IsEnd(EntriesOf(v.disk, bl)[16 * j + i]) || Named(EntriesOf(v.disk, bl)[16 * j + i], name)
  {
    hide WellFormed, Search, EntriesOf, RawAt, Creates, Exclusive;
    ghost var es := EntriesOf(v.disk, bl);
    i, slot', s' := 0, slot, s;
    while i != 16
      invariant i <= 16 && SlotAt(bl, slot', s') && s' < 16 * j + i
      invariant Search(es, 16 * j, name, mode, s) == Search(es, 16 * j + i, name, mode, s')
      invariant NoEnd(es, 16 * j, 16 * j + i)
    {
      EntryAt(v.disk, bl, j, i);
      var entry := RawAt(v.cacheBlock[..], i);
      if entry[0] == 0 {
        return;
      } else if entry[0] != 0xE5 {
        if entry[..11] == name {
          return;
        }
        SearchStep(es, 16 * j + i, name, mode, s');
      } else {
        SearchStep(es, 16 * j + i, name, mode, s');
        if slot'.NoSlot? {
          slot', s' := SlotIn(v.cacheAddr, i), 16 * j + i;
        }
      }
      i := i + 1;
    }
  }

  /** The descriptor fields describe entry `q`, which reads `raw`. */
  ghost predicate Located(bl: seq<int>, q: nat, raw: Raw, entry: DirEntry, addr: int, index: int) {
    q < 16 * |bl| && entry == Decode(raw) && addr == bl[q / 16] && index == 32 * (q % 16)
  }

  /** Disk `e` is disk `d` with `raw` stored as entry `q` of the directory. */
  ghost predicate Stored(d: Disk, bl: seq<int>, q: nat, raw: Raw, e: Disk)
    requires OnDiskBlocks(d, bl)
  {
    q < 16 * |bl| && e == d[bl[q / 16] := Splice(d[bl[q / 16]], 32 * (q % 16), raw)]
  }

  /** The card holds an entry with that name there, and zeroes behind the name: no attribute, no
      cluster, no byte. */
  ghost predicate BlankOnCard(d: Disk, addr: int, index: int, name: seq<byte>) {
    && 0 <= addr < |d| && 0 <= index && index + ENTRY_LEN <= BLOCK_SIZE
    && d[addr][index..index + 11] == name
    && forall i :: index + 11 <= i < index + ENTRY_LEN ==> d[addr][i] == 0
  }

  lemma StoredBlank(d: Disk, bl: seq<int>, q: nat, name: seq<byte>, e: Disk)
    requires OnDiskBlocks(d, bl) && |name| == 11 && Stored(d, bl, q, NewRaw(name), e)
    ensures BlankOnCard(e, bl[q / 16], 32 * (q % 16), name)
  {
    var index := 32 * (q % 16);
    NewRawBlank(name);
    var b := e[bl[q / 16]];
    hide NewRaw;
    assert b[index..index + 11] == NewRaw(name)[..11];
  }

  lemma NewRawBlank(name: seq<byte>)
    requires |name| == 11
    ensures NewRaw(name)[..11] == name && forall i :: 11 <= i < ENTRY_LEN ==> NewRaw(name)[i] == 0
  {
  }

  /** Makes an entry with the given name in the remembered slot, else in entry `i` of the cached block. */
  method PlaceEntry(v: Volume, i: nat, name: seq<byte>, slot: Slot, ghost bl: seq<int>, ghost j: nat, ghost s: int)
    returns (ok: bool, addr: dword, index: nat, ghost steps: seq<Disk>)
    requires v.Valid() && OnDiskBlocks(v.disk, bl) && j < |bl| && v.cacheAddr == bl[j]
    requires SlotAt(bl, slot, s) && i < 16 && |name| == 11
    modifies v, v.cacheBlock
    ensures v.Shape() && v.history == old(v.history) + steps && index < 16
    ensures if ok then steps == [v.disk] else steps == [] && v.disk == old(v.disk)
    ensures ok ==>
      && v.Valid() && v.lastError == old(v.lastError)
      && (var q := if s >= 0 then s else 16 * j + i;
          addr == bl[q / 16] && index == q % 16 && Stored(old(v.disk), bl, q, NewRaw(name), v.disk))
      && BlankOnCard(v.disk, addr, 32 * index, name)
    ensures v.reliable ==> ok
  {
    hide WellFormed, Splice, NewRaw, BlankOnCard;
    ok, addr, index, steps := true, v.cacheAddr, i, [];
    if slot.SlotIn? {
      if v.cacheAddr != slot.addr {
        addr := slot.addr;
        ok := v.Cache(addr);
        if !ok {
          index := 0;
          return;
        }
      }
      index := slot.index;
    }
    v.StoreBytes(32 * index, NewRaw(name));
    ok := v.FlushCache();
    if ok {
      steps := [v.disk];
      StoredBlank(old(v.disk), bl, if s >= 0 then s else 16 * j + i, name, v.disk);
    }
  }

  /** The error code for an unsuccessful search. */
  function ErrorOf(o: Outcome): byte
    requires !o.Found? && !o.Created?
  {
    match o
    case Exists => FAT_ERROR_FILE_EXISTS
    case NotFound => FAT_ERROR_NOT_FOUND
    case DirFull => FAT_ERROR_DIR_FULL
  }

  ghost predicate HasEnd(es: seq<Raw>) {
    exists q :: 0 <= q < |es| && IsEnd(es[q])
  }

  /** The error code in the end: a search of the root directory that meets neither the name nor a free
      entry goes on to the end of the card. */
  ghost function FailureOf(root: bool, es: seq<Raw>, o: Outcome): byte
    requires !o.Found? && !o.Created?
  {
    if root && !o.Exists? && !HasEnd(es) then FAT_ERROR_FS_BROKEN else ErrorOf(o)
  }

  /** How the outcome of a search shows in the disk `e` and in the descriptor fields. */
  ghost predicate Resulted(d: Disk, bl: seq<int>, name: seq<byte>, o: Outcome, e: Disk, entry: DirEntry, addr: int,
                           index: int)
    requires OnDiskBlocks(d, bl) && |name| == 11
  {
    match o
    case Found(q) => e == d && Located(bl, q, if q < 16 * |bl| then EntriesOf(d, bl)[q] else NewRaw(name), entry, addr,
                                       index)
    case Created(q) => Stored(d, bl, q, NewRaw(name), e) && Located(bl, q, NewRaw(name), entry, addr, index)
    case _ => e == d
  }

  /** Blocks have been looked at and nothing else has happened. */
  twostate predicate Untouched(v: Volume, pfd: FileDescriptor)
    reads v, v.cacheBlock, pfd
  {
    && v.Valid() && v.disk == old(v.disk) && v.history == old(v.history) && v.lastError == old(v.lastError)
    && pfd.dirEntry == old(pfd.dirEntry) && pfd.dirEntryBlockAddr == old(pfd.dirEntryBlockAddr)
    && pfd.dirEntryIndexInBlock == old(pfd.dirEntryIndexInBlock)
  }

  /** The contract shared by the methods below: on success the outcome was a hit or an insertion and
      the descriptor says which entry; without card errors success and error code are decided by it. */
  twostate predicate SearchDone(v: Volume, pfd: FileDescriptor, root: bool, bl: seq<int>, name: seq<byte>, o: Outcome,
                                ok: bool, steps: seq<Disk>)
    requires old(v.Shape()) && OnDiskBlocks(old(v.disk), bl) && |name| == 11
    reads v, v.cacheBlock, pfd
  {
    && v.Shape() && v.history == old(v.history) + steps
    && (ok ==>
         && v.Valid() && v.lastError == old(v.lastError)
         && (o.Found? || o.Created?)
         && (if o.Created? then steps == [v.disk] else steps == [])
         && Resulted(old(v.disk), bl, name, o, v.disk, pfd.dirEntry, pfd.dirEntryBlockAddr, pfd.dirEntryIndexInBlock))
    && (!ok ==>
         && v.disk == old(v.disk) && steps == []
         && pfd.dirEntry == old(pfd.dirEntry) && pfd.dirEntryBlockAddr == old(pfd.dirEntryBlockAddr)
         && pfd.dirEntryIndexInBlock == old(pfd.dirEntryIndexInBlock))
    && (v.reliable ==> v.Valid() && (ok <==> o.Found? || o.Created?))
    && (v.reliable && !ok ==> v.lastError == FailureOf(root, EntriesOf(old(v.disk), bl), o))
  }

  /** On the card lies what the descriptor now says of the entry. */
  lemma ResultOnCard(d: Disk, bl: seq<int>, name: seq<byte>, o: Outcome, e: Disk, entry: DirEntry, addr: int,
                     index: int)
    requires OnDiskBlocks(d, bl) && |name| == 11 && Resulted(d, bl, name, o, e, entry, addr, index)
    requires o.Found? || o.Created?
    ensures OnCard(e, addr, index, entry) && (o.Found? ==> e == d)
  {
    hide Decode, RawAt, NewRaw, Splice, OnCard;
    var q := o.at;
    var raw := if o.Found? then EntriesOf(d, bl)[q] else NewRaw(name);
    EntryAt(d, bl, q / 16, q % 16);
    RawAtSplice(d[bl[q / 16]], q % 16, raw, q % 16);
    RawBytes(e, addr, q % 16);
  }

  lemma ResultBlank(d: Disk, bl: seq<int>, name: seq<byte>, q: nat, e: Disk, entry: DirEntry, addr: int, index: int)
    requires OnDiskBlocks(d, bl) && |name| == 11 && Resulted(d, bl, name, Created(q), e, entry, addr, index)
    ensures BlankOnCard(e, addr, index, name)
  {
    hide NewRaw, Decode;
    StoredBlank(d, bl, q, name, e);
  }

  lemma ResultFound(d: Disk, bl: seq<int>, name: seq<byte>, j: nat, i: nat, raw: Raw)
    requires OnDiskBlocks(d, bl) && |name| == 11 && j < |bl| && i < 16 && raw == RawAt(d[bl[j]], i)
    ensures Resulted(d, bl, name, Found(16 * j + i), d, Decode(raw), bl[j], 32 * i)
  {
    hide EntriesOf, RawAt, Decode;
    EntryAt(d, bl, j, i);
  }

  lemma ResultCreated(d: Disk, bl: seq<int>, name: seq<byte>, q: nat, e: Disk)
    requires OnDiskBlocks(d, bl) && |name| == 11 && Stored(d, bl, q, NewRaw(name), e)
    ensures q < 16 * |bl| && Resulted(d, bl, name, Created(q), e, Decode(NewRaw(name)), bl[q / 16], 32 * (q % 16))
  {
    hide EntriesOf, RawAt, Decode, Splice;
  }

  lemma FailureAt(root: bool, es: seq<Raw>, q: nat)
    requires q < |es|
    ensures FailureOf(root, es, Exists) == FAT_ERROR_FILE_EXISTS
    ensures IsEnd(es[q]) ==> FailureOf(root, es, NotFound) == FAT_ERROR_NOT_FOUND
  {
  }

  /** Entry `i` of the cached block ends the search. */
  method Decide(v: Volume, pfd: FileDescriptor, i: nat, name: seq<byte>, mode: byte, slot: Slot,
                ghost root: bool, ghost bl: seq<int>, ghost j: nat, ghost s: int)
                  returns (ok: bool, ghost steps: seq<Disk>)
    requires v.Valid() && OnDiskBlocks(v.disk, bl) && j < |bl| && v.cacheAddr == bl[j] && |name| == 11
    requires SlotAt(bl, slot, s) && s < 16 * j + i && i < 16
    requires IsEnd(EntriesOf(v.disk, bl)[16 * j + i]) || Named(EntriesOf(v.disk, bl)[16 * j + i], name)
    modifies v, v.cacheBlock, pfd`dirEntry, pfd`dirEntryBlockAddr, pfd`dirEntryIndexInBlock
    ensures SearchDone(v, pfd, root, bl, name, Search(EntriesOf(old(v.disk), bl), 16 * j + i, name, mode, s), ok, steps)
  {
    hide WellFormed, Splice, Creates, Exclusive, Search, EntriesOf, RawAt, Decode, NewRaw, Resulted, Stored, FailureOf,
      SlotAt;
    ghost var d := v.disk;
    ok, steps := true, [];
    SearchEnds(EntriesOf(d, bl), 16 * j + i, name, mode, s);
    EntryAt(d, bl, j, i);
    FailureAt(root, EntriesOf(d, bl), 16 * j + i);
    var entry := RawAt(v.cacheBlock[..], i);
    var addr, index := v.cacheAddr, i;
    if entry[0] == 0 {
      if !Creates(mode) {
        v.lastError := FAT_ERROR_NOT_FOUND;
        return false, [];
      }
      ok, addr, index, steps := PlaceEntry(v, i, name, slot, bl, j, s);
      if !ok {
        return;
      }
      ResultCreated(d, bl, name, if s >= 0 then s else 16 * j + i, v.disk);
      entry := NewRaw(name);
    } else if Exclusive(mode) {
      v.lastError := FAT_ERROR_FILE_EXISTS;
      return false, [];
    } else {
      ResultFound(d, bl, name, j, i, entry);
    }
    pfd.dirEntry := Decode(entry);
    pfd.dirEntryIndexInBlock := 32 * index;
    pfd.dirEntryBlockAddr := addr;
  }

  /** Searches one block, block `j` of the directory or, in the root directory, the one behind the end
      of the card. When the search ends in it, `done` says so and `ok` is the driver's result. */
  method VisitBlock(v: Volume, pfd: FileDescriptor, blockAddr: dword, name: seq<byte>, mode: byte, slot: Slot,
                    ghost root: bool, ghost bl: seq<int>, ghost j: nat, ghost s: int)
    returns (done: bool, ok: bool, slot': Slot, ghost s': int, ghost steps: seq<Disk>)
    requires v.Valid() && OnDiskBlocks(v.disk, bl) && j <= |bl| && |name| == 11
    requires if j < |bl| then blockAddr == bl[j] else root && blockAddr == |v.disk| && !HasEnd(EntriesOf(v.disk, bl))
    requires SlotAt(bl, slot, s) && s < 16 * j
    modifies v, v.cacheBlock, pfd`dirEntry, pfd`dirEntryBlockAddr, pfd`dirEntryIndexInBlock
    ensures done ==>
      SearchDone(v, pfd, root, bl, name, Search(EntriesOf(old(v.disk), bl), 16 * j, name, mode, s), ok, steps)
    ensures !done ==>
      && Untouched(v, pfd) && j < |bl|
      && SlotAt(bl, slot', s') && s' < 16 * j + 16
      && NoEnd(EntriesOf(v.disk, bl), 16 * j, 16 * j + 16)
      && Search(EntriesOf(v.disk, bl), 16 * j, name, mode, s) ==
           Search(EntriesOf(v.disk, bl), 16 * j + 16, name, mode, s')
  {
    hide WellFormed, BitAnd, Search, EntriesOf, Resulted, HasEnd;
    done, ok, slot', s', steps := true, false, slot, s, [];
    if j == |bl| {
      SearchExhausted(EntriesOf(v.disk, bl), name, mode, s);
    }
    ok := v.Cache(blockAddr);
    if !ok {
      return;
    }
    var i;
    i, slot', s' := ScanBlock(v, name, mode, slot, bl, j, s);
    if i == 16 {
      done := false;
      return;
    }
    ok, steps := Decide(v, pfd, i, name, mode, slot', root, bl, j, s');
  }

  /** The blocks of the root directory. */
  ghost function RootBlocks(g: FatInfo): (bl: seq<int>)
    requires WellFormed(g)
  {
    seq(g.dataOffset - g.rootDirBlock, i => g.rootDirBlock + i)
  }

  lemma RootOnDisk(g: FatInfo, d: Disk)
    requires Fits(g, d)
    ensures OnDiskBlocks(d, RootBlocks(g)) && Distinct(RootBlocks(g))
  {
  }

  /** What the root directory is to a search: the blocks from its first one on, as far as there is a
      free entry in them or else to the end of the card. */
  ghost predicate FromRoot(g: FatInfo, d: Disk, bl: seq<int>) {
    && g.rootDirBlock + |bl| <= |d|
    && (forall i :: 0 <= i < |bl| ==> bl[i] == g.rootDirBlock + i)
    && (g.rootDirBlock + |bl| == |d| || (OnDiskBlocks(d, bl) && HasEnd(EntriesOf(d, bl))))
  }

  /** Searches the root directory, which ends at its terminating entry and nowhere else. */
  method FindInRoot(v: Volume, pfd: FileDescriptor, name: seq<byte>, mode: byte, ghost bl: seq<int>)
    returns (ok: bool, ghost steps: seq<Disk>)
    requires v.Valid() && |name| == 11 && FromRoot(v.info, v.disk, bl)
    modifies v, v.cacheBlock, pfd`dirEntry, pfd`dirEntryBlockAddr, pfd`dirEntryIndexInBlock
    ensures OnDiskBlocks(old(v.disk), bl)
    ensures SearchDone(v, pfd, true, bl, name, Search(EntriesOf(old(v.disk), bl), 0, name, mode, -1), ok, steps)
  {
    hide WellFormed, Search, EntriesOf, Resulted, SlotAt, HasEnd, FromRoot;
    ghost var g, d := v.info, v.disk;
    RootStart(g, d, bl);
    ghost var es := EntriesOf(d, bl);
    var slot, blockAddr := NoSlot, v.info.rootDirBlock;
    ghost var j, s := 0, -1;
    ClusterSize(v.info);
    NoSlotYet(bl);
    while true
      invariant Untouched(v, pfd)
      invariant j <= |bl| && blockAddr == g.rootDirBlock + j && SlotAt(bl, slot, s) && s < 16 * j
      invariant Search(es, 0, name, mode, -1) == Search(es, 16 * j, name, mode, s) && NoEnd(es, 0, 16 * j)
      decreases |bl| - j
    {
      ghost var j0 := j;
      for b := 0 to v.info.sectorsPerCluster
        invariant Untouched(v, pfd)
        invariant j == j0 + b <= |bl| && blockAddr == g.rootDirBlock + j && SlotAt(bl, slot, s) && s < 16 * j
        invariant Search(es, 0, name, mode, -1) == Search(es, 16 * j, name, mode, s) && NoEnd(es, 0, 16 * j)
      {
        RootAhead(g, d, bl, j);
        var done;
        done, ok, slot, s, steps := VisitBlock(v, pfd, blockAddr, name, mode, slot, true, bl, j, s);
        if done {
          return;
        }
        blockAddr := blockAddr + 1;
        j := j + 1;
      }
    }
  }

  lemma RootStart(g: FatInfo, d: Disk, bl: seq<int>)
    requires FromRoot(g, d, bl)
    ensures OnDiskBlocks(d, bl)
  {
    hide EntriesOf;
  }

  /** There is a block to look at, or the end of the card has come. */
  lemma RootAhead(g: FatInfo, d: Disk, bl: seq<int>, j: nat)
    requires Fits(g, d) && FromRoot(g, d, bl) && j <= |bl| && OnDiskBlocks(d, bl) && NoEnd(EntriesOf(d, bl), 0, 16 * j)
    ensures g.rootDirBlock + j + 1 < 0x1_0000_0000
    ensures if j < |bl| then bl[j] == g.rootDirBlock + j else !HasEnd(EntriesOf(d, bl)) && g.rootDirBlock + j == |d|
  {
    hide EntriesOf, WellFormed, IsEnd;
  }

  /** A root directory without a free entry is never reported full. When the first cluster of the data
      area starts with a zero byte, a new entry goes into that cluster, whosever it is. */
  lemma RootRunsOn(g: FatInfo, d: Disk, bl: seq<int>, name: seq<byte>, mode: byte)
    requires Fits(g, d) && g.dataOffset < |d| && bl == RootBlocks(g) + [g.dataOffset as int] && OnDiskBlocks(d, bl)
    requires var es, n := EntriesOf(d, bl), 16 * |RootBlocks(g)|;
             && (forall q :: 0 <= q < n ==> !IsEnd(es[q]) && !IsDeleted(es[q]) && !Named(es[q], name))
             && IsEnd(es[n])
    requires Creates(mode)
    ensures FromRoot(g, d, bl) && bl[|RootBlocks(g)|] == ClusterBlock(g, 2)
    ensures Search(EntriesOf(d, bl), 0, name, mode, -1) == Created(16 * |RootBlocks(g)|)
  {
    RootShape(g);
    hide RootBlocks, EntriesOf, IsEnd, IsDeleted, Named, BitAnd, WellFormed, Search;
    var es, n := EntriesOf(d, bl), 16 * |RootBlocks(g)|;
    assert FirstEnd(es, n);
    SearchMeans(es, name, mode);
    MeansUnique(es, name, mode, Search(es, 0, name, mode, -1), Created(n));
  }

  lemma RootNeverFull(es: seq<Raw>, name: seq<byte>, mode: byte)
    ensures var o := Search(es, 0, name, mode, -1);
            !o.Found? && !o.Created? ==> FailureOf(true, es, o) != FAT_ERROR_DIR_FULL
  {
    hide Search, BitAnd;
    SearchMeans(es, name, mode);
    var o := Search(es, 0, name, mode, -1);
    if o == DirFull && HasEnd(es) {
      var t := FirstEndOf(es);
      assert false;
    }
  }

  lemma FirstEndOf(es: seq<Raw>) returns (t: int)
    requires HasEnd(es)
    ensures FirstEnd(es, t)
  {
    hide IsEnd;
    t := 0;
    while !IsEnd(es[t])
      invariant 0 <= t < |es| && forall k :: 0 <= k < t ==> !IsEnd(es[k])
      decreases |es| - t
    {
      t := t + 1;
    }
  }

  lemma NoSlotYet(bl: seq<int>)
    ensures SlotAt(bl, NoSlot, -1)
  {
  }

  lemma RootShape(g: FatInfo)
    requires WellFormed(g)
    ensures |RootBlocks(g)| == g.dataOffset - g.rootDirBlock
    ensures forall i :: 0 <= i < |RootBlocks(g)| ==> RootBlocks(g)[i] == g.rootDirBlock + i
  {
  }

  /** Searches a directory that is a chain of clusters; its end is the end of the chain as well. */
  method FindInChain(v: Volume, pfd: FileDescriptor, name: seq<byte>, mode: byte, first: word, ghost ch: seq<nat>)
    returns (ok: bool, ghost steps: seq<Disk>)
    requires v.Valid() && |name| == 11
    requires IsChain(Fat0(v.info, v.disk), ch) && ch[0] == first && ChainOnDisk(v.info, v.disk, ch)
    requires OnDiskBlocks(v.disk, ChainBlocks(v.info, ch))
    modifies v, v.cacheBlock, pfd`dirEntry, pfd`dirEntryBlockAddr, pfd`dirEntryIndexInBlock
    ensures SearchDone(v, pfd, false, ChainBlocks(v.info, ch), name,
                       Search(EntriesOf(old(v.disk), ChainBlocks(v.info, ch)), 0, name, mode, -1), ok, steps)
  {
    hide WellFormed, Search, EntriesOf, Resulted, SlotAt, ChainBlocks, Span, Fat, ClusterBlock, BlockOf, IsChain;
    ghost var bl, d, f := ChainBlocks(v.info, ch), v.disk, Fat0(v.info, v.disk);
    ghost var es := EntriesOf(d, bl);
    var slot, cluster := NoSlot, first;
    ghost var k, s := 0, -1;
    SpanZero(v.info);
    NoSlotYet(bl);
    ChainStart(f, ch);
    while cluster < 0xFFF8
      invariant Untouched(v, pfd)
      invariant k <= |ch| && if k < |ch| then cluster == ch[k] < 0xFFF7 else cluster >= 0xFFF8
      invariant SlotAt(bl, slot, s) && s < 16 * Span(v.info, k) <= |es|
      invariant Search(es, 0, name, mode, -1) == Search(es, 16 * Span(v.info, k), name, mode, s)
      decreases |ch| - k
    {
      NextInChain(f, ch, k);
      SpanMono(v.info, k, |ch|);
      BlockOfChain(v.info, d, ch, k);
      var blockAddr := BlockOf(v.info, cluster, 0);
      cluster := ReadFatEntry(v, cluster);
      if cluster == 0 {
        return false, [];
      }
      for b := 0 to v.info.sectorsPerCluster
        invariant Untouched(v, pfd)
        invariant blockAddr == ClusterBlock(v.info, ch[k]) + b
        invariant SlotAt(bl, slot, s) && s < 16 * (Span(v.info, k) + b) <= |es|
        invariant Search(es, 0, name, mode, -1) == Search(es, 16 * (Span(v.info, k) + b), name, mode, s)
      {
        ChainBlockAt(v.info, ch, k, b);
        var done;
        done, ok, slot, s, steps := VisitBlock(v, pfd, blockAddr, name, mode, slot, false, bl, Span(v.info, k) + b, s);
        if done {
          return;
        }
        blockAddr := blockAddr + 1;
      }
      SpanStep(v.info, k);
      k := k + 1;
    }
    SearchExhausted(es, name, mode, s);
    v.lastError := if Creates(mode) then FAT_ERROR_DIR_FULL else FAT_ERROR_NOT_FOUND;
    return false, [];
  }

  lemma SearchExhausted(es: seq<Raw>, name: seq<byte>, mode: byte, s: int)
    requires s < |es|
    ensures Search(es, |es|, name, mode, s) == if Creates(mode) then DirFull else NotFound
  {
  }

  lemma ChainStart(f: seq<word>, ch: seq<nat>)
    requires IsChain(f, ch)
    ensures ch != [] && ch[0] < 0xFFF7
  {
    assert IsCluster(f, ch[0]);
  }

  lemma BlockOfChain(g: FatInfo, d: Disk, ch: seq<nat>, k: nat)
    requires Fits(g, d) && ChainOnDisk(g, d, ch) && k < |ch| && ch[k] < 0x1_0000
    ensures BlockOf(g, ch[k], 0) == ClusterBlock(g, ch[k])
    ensures ClusterBlock(g, ch[k]) + g.sectorsPerCluster <= |d|
  {
    ClusterSize(g);
    assert OnDisk(g, d, ch[k]);
    BlockOfCluster(g, d, ch[k], 0);
  }

  /** The blocks and the chain of the directory whose first cluster is given, 0 being the root. */
  ghost predicate DirectoryAt(g: FatInfo, d: Disk, cluster: int, ch: seq<nat>, bl: seq<int>)
    requires Fits(g, d)
  {
    if cluster == 0 then
      ch == [] && bl == RootBlocks(g) && OnDiskBlocks(d, bl) && HasEnd(EntriesOf(d, bl))
    else
      && IsChain(Fat0(g, d), ch) && ch[0] == cluster && ChainOnDisk(g, d, ch)
      && bl == ChainBlocks(g, ch) && OnDiskBlocks(d, bl)
  }

  /** What can be searched: any chain, and the root directory even when it has no free entry. */
  ghost predicate Searchable(g: FatInfo, d: Disk, cluster: int, ch: seq<nat>, bl: seq<int>)
    requires Fits(g, d)
  {
    if cluster == 0 then ch == [] && FromRoot(g, d, bl) else DirectoryAt(g, d, cluster, ch, bl)
  }

  lemma DirectorySearchable(g: FatInfo, d: Disk, cluster: int, ch: seq<nat>, bl: seq<int>)
    requires Fits(g, d) && DirectoryAt(g, d, cluster, ch, bl)
    ensures Searchable(g, d, cluster, ch, bl) && OnDiskBlocks(d, bl)
    ensures forall o: Outcome :: !o.Found? && !o.Created? ==> FailureOf(cluster == 0, EntriesOf(d, bl), o) == ErrorOf(o)
  {
    hide EntriesOf, Fat, ChainBlocks, IsChain, WellFormed;
    if cluster == 0 {
      RootShape(g);
      RootEnds(g);
    }
  }

  lemma RootEnds(g: FatInfo)
    requires WellFormed(g)
    ensures g.rootDirBlock <= g.dataOffset
  {
    hide Pow2;
  }

  datatype Option<T> = None | Some(value: T)

  /** Finds the file `name` in a directory, or makes an entry for it. No directory means the root. */
  method FindFile(v: Volume, dir: Option<DirEntry>, name: CString, pfd: FileDescriptor, mode: byte,
                  ghost ch: seq<nat>, ghost bl: seq<int>) returns (ok: bool, ghost steps: seq<Disk>)
    requires v.Valid() && Searchable(v.info, v.disk, ClusterOf(dir), ch, bl)
    modifies v, v.cacheBlock, pfd`dirEntry, pfd`dirEntryBlockAddr, pfd`dirEntryIndexInBlock
    ensures OnDiskBlocks(old(v.disk), bl)
    ensures SearchDone(v, pfd, ClusterOf(dir) == 0, bl, FatName(name),
                       Search(EntriesOf(old(v.disk), bl), 0, FatName(name), mode, -1), ok, steps)
    ensures if steps == [] then v.disk == old(v.disk) else steps == [v.disk]
    ensures ok ==> OnCard(v.disk, pfd.dirEntryBlockAddr, pfd.dirEntryIndexInBlock, pfd.dirEntry)
    ensures ok && steps != [] ==>
      BlankOnCard(v.disk, pfd.dirEntryBlockAddr, pfd.dirEntryIndexInBlock, FatName(name))
  {
    hide WellFormed, Search, EntriesOf, ChainBlocks, Fat, IsChain, FatName, RootBlocks, BitAnd, Resulted, FromRoot,
      HasEnd, OnCard, BlankOnCard;
    var isRoot := dir.None? || dir.value.clusterLo == 0;
    var buffer := new byte[11];
    ToFatName(buffer, name);
    var fatName := buffer[..];
    if isRoot {
      ok, steps := FindInRoot(v, pfd, fatName, mode, bl);
    } else {
      ok, steps := FindInChain(v, pfd, fatName, mode, dir.value.clusterLo, ch);
    }
    if ok {
      ghost var o := Search(EntriesOf(old(v.disk), bl), 0, fatName, mode, -1);
      ResultOnCard(old(v.disk), bl, fatName, o, v.disk, pfd.dirEntry, pfd.dirEntryBlockAddr, pfd.dirEntryIndexInBlock);
      if o.Created? {
        ResultBlank(old(v.disk), bl, fatName, o.at, v.disk, pfd.dirEntry, pfd.dirEntryBlockAddr,
                    pfd.dirEntryIndexInBlock);
      }
    }
  }

  /** The first cluster of a directory, 0 for the root. */
  function ClusterOf(dir: Option<DirEntry>): word {
    if dir.None? then 0 else dir.value.clusterLo
  }
}
