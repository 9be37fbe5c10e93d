/** Reading, writing, allocating and freeing entries of the two allocation tables. */
module FatTable {
  import opened Bytes
  import opened Errors
  import opened Chains
  import opened Layout
  import opened BlockCache

  /** One entry of one of the two tables set. */
  ghost function SetView(p: FatPair, first: bool, n: nat, value: word): FatPair
    requires n < |p.0| && n < |p.1|
  {
    if first then (p.0[n := value], p.1) else (p.0, p.1[n := value])
  }

  ghost predicate TablesRead(g: FatInfo, d: Disk, e: Disk, p: FatPair)
    requires Fits(g, d)
  {
    SameOutsideFats(g, d, e) && FatViews(g, e) == p
  }

  /** The disk states `steps` touch nothing but the tables, and the tables read as `views` in turn;
      fewer steps than views means the card gave up in between. */
  ghost predicate Journal(g: FatInfo, d: Disk, steps: seq<Disk>, views: seq<FatPair>)
    requires Fits(g, d)
  {
    && |steps| <= |views|
    && forall i :: 0 <= i < |steps| ==> TablesRead(g, d, steps[i], views[i])
  }

  lemma JournalEmpty(g: FatInfo, d: Disk, views: seq<FatPair>)
    requires Fits(g, d)
    ensures Journal(g, d, [], views)
  {
  }

  lemma JournalMore(g: FatInfo, d: Disk, steps: seq<Disk>, views: seq<FatPair>, more: seq<FatPair>)
    requires Fits(g, d) && Journal(g, d, steps, views)
    ensures Journal(g, d, steps, views + more)
  {
  }

  /** A complete journal continued by another one, which may break off. */
  lemma JournalConcat(g: FatInfo, d: Disk, s: seq<Disk>, views: seq<FatPair>, e: Disk, t: seq<Disk>, more: seq<FatPair>)
    requires Fits(g, d) && Journal(g, d, s, views)
    requires t != [] ==> |s| == |views| && SameOutsideFats(g, d, e) && Journal(g, e, t, more)
    ensures Journal(g, d, s + t, views + more)
  {
    forall i | 0 <= i < |s + t|
      ensures TablesRead(g, d, (s + t)[i], (views + more)[i])
    {
      if i < |s| {
        assert TablesRead(g, d, s[i], views[i]);
      } else {
        assert TablesRead(g, e, t[i - |s|], more[i - |s|]);
      }
    }
  }

  /** The states of the tables while entry `index` is set to `value` in one and then in the other. */
  ghost function SetViews(p: FatPair, first: bool, index: nat, value: word): seq<FatPair>
    requires index < |p.0| == |p.1|
  {
    [SetView(p, first, index, value), SetView(SetView(p, first, index, value), !first, index, value)]
  }

  /** Returns 0 on error. */
  method ReadFatEntry(v: Volume, index: word) returns (entry: word)
    requires v.Valid() && index < 256 * v.info.sectorsPerFat
    modifies v`cacheAddr, v`lastError, v.cacheBlock
    ensures v.Valid()
    ensures entry != 0 ==> entry == Fat0(v.info, v.disk)[index] && v.lastError == old(v.lastError)
    ensures v.reliable ==> entry == Fat0(v.info, v.disk)[index] && v.lastError == old(v.lastError)
    ensures v.reliable ==>
      entry % 256 == v.disk[v.info.fat0Offset + index / 256][2 * (index % 256)]
      && entry / 256 == v.disk[v.info.fat0Offset + index / 256][2 * (index % 256) + 1]
  {
    GetWordBytes(v.disk[v.info.fat0Offset + index / 256], index % 256);
    var entryOffset := index % 256;
    var sectorIndex := index / 256;
    var ok := v.Cache(v.info.fat0Offset + sectorIndex);
    if !ok {
      return 0;
    }
    FatAt(v.info, v.disk, v.info.fat0Offset, sectorIndex, entryOffset);
    return GetWord(v.cacheBlock[..], entryOffset);
  }

  function TableBase(g: FatInfo, first: bool): dword {
    if first then g.fat0Offset else g.fat1Offset
  }

  lemma TableInDisk(g: FatInfo, d: Disk, sector: nat)
    requires Fits(g, d) && sector < g.sectorsPerFat
    ensures TableBase(g, true) + sector < TableBase(g, false) && g.sectorsPerFat <= 256
    ensures TableBase(g, false) + sector < g.rootDirBlock <= |d| < 0x1_0000_0000
  {
  }

  lemma StoredTables(g: FatInfo, d: Disk, first: bool, sector: nat, i: nat, value: word)
    requires Fits(g, d) && sector < g.sectorsPerFat && i < 256
    ensures var a := TableBase(g, first) + sector;
            TablesRead(g, d, d[a := PutWord(d[a], i, value)], SetView(FatViews(g, d), first, 256 * sector + i, value))
  {
    var a := TableBase(g, first) + sector;
    var e := d[a := PutWord(d[a], i, value)];
    FatStore(g, d, TableBase(g, first), sector, i, value);
    FatFrame(g, d, e, TableBase(g, !first));
  }

  /** The cached block goes to the sector of a table that differs from it only in word `i`. */
  method FlushTable(v: Volume, first: bool, sector: nat, i: nat, value: word) returns (ok: bool, ghost steps: seq<Disk>)
    requires v.Shape() && sector < v.info.sectorsPerFat && i < 256
    requires v.cacheAddr == TableBase(v.info, first) + sector
    requires v.cacheBlock[..] == PutWord(v.disk[TableBase(v.info, first) + sector], i, value)
    modifies v`disk, v`history, v`lastError
    ensures v.Shape() && v.history == old(v.history) + steps
    ensures if ok then steps == [v.disk] else steps == [] && v.disk == old(v.disk)
    ensures ok ==>
      && v.Valid()
      && v.disk == old(v.disk)[TableBase(v.info, first) + sector := v.cacheBlock[..]]
      && TablesRead(v.info, old(v.disk), v.disk, SetView(FatViews(v.info, old(v.disk)), first, 256 * sector + i, value))
      && v.lastError == old(v.lastError)
    ensures v.reliable ==> ok
  {
    ok := v.FlushCache();
    steps := if ok then [v.disk] else [];
    StoredTables(v.info, old(v.disk), first, sector, i, value);
  }

  method WriteFatEntry(v: Volume, index: word, value: word) returns (ok: bool, ghost steps: seq<Disk>)
    requires v.Valid() && index < 256 * v.info.sectorsPerFat
    modifies v, v.cacheBlock
    ensures v.Shape() && v.history == old(v.history) + steps
    ensures Journal(v.info, old(v.disk), steps, SetViews(FatViews(v.info, old(v.disk)), true, index, value))
    ensures ok ==>
      && v.Valid()
      && |steps| == 2
      && TablesRead(v.info, old(v.disk), v.disk, SetViews(FatViews(v.info, old(v.disk)), true, index, value)[1])
      && v.lastError == old(v.lastError)
    ensures ok ==>
      && EntryInBytes(v.disk, v.info.fat0Offset, index, value)
      && EntryInBytes(v.disk, v.info.fat1Offset, index, value)
    ensures v.reliable ==> ok
  {
    hide FatViews, Mirrored, PutWord, WellFormed, EntryInBytes;
    TablesFit(v.info, v.disk, index);
    steps := [];
    ghost var step;
    var entryOffset := index % 256;
    var sectorIndex := index / 256;
    TableInDisk(v.info, v.disk, sectorIndex);
    ok := v.Cache(v.info.fat0Offset + sectorIndex);
    if !ok {
      return;
    }
    v.StoreWord(entryOffset, value);
    ok, step := FlushTable(v, true, sectorIndex, entryOffset, value);
    steps := step;
    if !ok {
      return;
    }
    ok := v.Cache(v.info.fat1Offset + sectorIndex);
    if !ok {
      return;
    }
    v.StoreWord(entryOffset, value);
    ok, step := FlushTable(v, false, sectorIndex, entryOffset, value);
    steps := steps + step;
    if ok {
      ViewsInBytes(v.info, v.disk, FatViews(v.info, old(v.disk)), index, value);
    }
  }

  lemma TablesFit(g: FatInfo, d: Disk, index: word)
    requires Fits(g, d) && index < 256 * g.sectorsPerFat
    ensures g.fat0Offset + index / 256 < |d| && g.fat1Offset + index / 256 < |d|
  {
  }

  /** An entry that has been set in both tables, as bytes of the card. */
  lemma ViewsInBytes(g: FatInfo, e: Disk, p: FatPair, n: nat, w: word)
    requires Fits(g, e) && n < 256 * g.sectorsPerFat && n < |p.0| == |p.1|
    requires FatViews(g, e) == SetViews(p, true, n, w)[1]
    ensures g.fat0Offset + n / 256 < |e| && g.fat1Offset + n / 256 < |e|
    ensures EntryInBytes(e, g.fat0Offset, n, w) && EntryInBytes(e, g.fat1Offset, n, w)
  {
    hide EntryInBytes, Fat;
    TablesFit(g, e, n);
    FatInBytes(g, e, g.fat0Offset, n, w);
    FatInBytes(g, e, g.fat1Offset, n, w);
  }

  /** Two clusters of a card, from the bytes of their entries. */
  lemma ChainInBytes(g: FatInfo, d: Disk)
    requires Fits(g, d)
    requires d[g.fat0Offset][4..8] == [0x03, 0x00, 0xFF, 0xFF]
    ensures IsChain(Fat0(g, d), [2, 3])
  {
    var b := d[g.fat0Offset];
    assert b[4..8][0] == b[4] && b[4..8][1] == b[5] && b[4..8][2] == b[6] && b[4..8][3] == b[7];
    FatInBytes(g, d, g.fat0Offset, 2, 3);
    FatInBytes(g, d, g.fat0Offset, 3, 0xFFFF);
    hide Fat, WellFormed;
  }

  /** Changes one word of the cached sector of one table, writes it, re-tags the cached block to the
      same sector of the other table and writes it there too. */
  method StoreMirrored(v: Volume, first: bool, sector: nat, i: nat, value: word)
    returns (ok: bool, ghost steps: seq<Disk>)
    requires v.Valid() && Mirrored(v.info, v.disk) && sector < v.info.sectorsPerFat && i < 256
    requires v.cacheAddr == TableBase(v.info, first) + sector
    modifies v, v.cacheBlock
    ensures v.Shape() && v.history == old(v.history) + steps
    ensures Journal(v.info, old(v.disk), steps, SetViews(FatViews(v.info, old(v.disk)), first, 256 * sector + i, value))
    ensures ok ==>
      && v.Valid() && Mirrored(v.info, v.disk)
      && |steps| == 2
      && TablesRead(v.info, old(v.disk), v.disk,
                    SetViews(FatViews(v.info, old(v.disk)), first, 256 * sector + i, value)[1])
      && v.lastError == old(v.lastError)
    ensures v.reliable ==> ok
  {
    hide FatViews, Mirrored, PutWord, WellFormed;
    TableInDisk(v.info, v.disk, sector);
    steps := [];
    ghost var step;
    MirroredAt(v.info, v.disk, sector);
    MirroredViews(v.info, v.disk);
    v.StoreWord(i, value);
    ok, step := FlushTable(v, first, sector, i, value);
    steps := step;
    if !ok {
      return;
    }
    v.cacheAddr := TableBase(v.info, !first) + sector;
    ok, step := FlushTable(v, !first, sector, i, value);
    steps := steps + step;
    if ok {
      SameViewsMirrored(v.info, v.disk);
    }
  }

  /** The states of both tables while cluster `n` is taken and hung below `last`: the new cluster is
      marked as the end of a chain in both tables before either table links to it. */
  ghost function AllocViews(f: seq<word>, last: nat, n: nat): seq<FatPair>
    requires n < |f| && n < 0x1_0000 && last < |f|
  {
    var g := f[n := EOC];
    SetViews((f, f), true, n, EOC) + (if last == 0 then [] else SetViews((g, g), false, last, n))
  }

  ghost function AllocJournal(f: seq<word>, last: nat): seq<FatPair>
    requires last < |f| <= 0x1_0000
  {
    var n := FirstFree(f, 0);
    if n == |f| then [] else AllocViews(f, last, n)
  }

  /** The cached sector of the first table has a free entry at `i`: mark it, then link it. */
  method TakeCluster(v: Volume, last: word, sector: nat, i: nat) returns (ok: bool, ghost steps: seq<Disk>)
    requires v.Valid() && Mirrored(v.info, v.disk)
    requires last < 256 * v.info.sectorsPerFat
    requires sector < v.info.sectorsPerFat && i < 256 && v.cacheAddr == v.info.fat0Offset + sector
    modifies v, v.cacheBlock
    ensures v.Shape() && v.history == old(v.history) + steps
    ensures Journal(v.info, old(v.disk), steps, AllocViews(Fat0(v.info, old(v.disk)), last, 256 * sector + i))
    ensures ok ==>
      && v.Valid() && Mirrored(v.info, v.disk)
      && SameOutsideFats(v.info, old(v.disk), v.disk)
      && Fat0(v.info, v.disk) == AllocFat(Fat0(v.info, old(v.disk)), last, 256 * sector + i)
      && v.lastError == old(v.lastError)
    ensures v.reliable ==> ok
  {
    hide Mirrored, Journal, Fat, WellFormed;
    var n := 256 * sector + i;
    TableInDisk(v.info, v.disk, sector);
    TableInDisk(v.info, v.disk, last / 256);
    ghost var f := Fat0(v.info, v.disk);
    ghost var link := if last == 0 then [] else SetViews((f[n := EOC], f[n := EOC]), false, last, n);
    MirroredViews(v.info, v.disk);
    ok, steps := StoreMirrored(v, true, sector, i, EOC);
    JournalMore(v.info, old(v.disk), steps, SetViews((f, f), true, n, EOC), link);
    if !ok || last == 0 {
      return;
    }
    ghost var marked := v.disk;
    ok := v.Cache(v.info.fat1Offset + last / 256);
    if !ok {
      return;
    }
    ghost var more;
    ok, more := StoreMirrored(v, false, last / 256, last % 256, n);
    JournalConcat(v.info, old(v.disk), steps, SetViews((f, f), true, n, EOC), marked, more, link);
    steps := steps + more;
  }

  /** The first zero word of the cached sector of the first table, 256 when there is none. */
  method FindFreeInSector(v: Volume, sector: nat) returns (i: nat)
    requires v.Valid() && sector < v.info.sectorsPerFat && v.cacheAddr == v.info.fat0Offset + sector
    requires NoneFreeBefore(Fat0(v.info, v.disk), 256 * sector)
    ensures i <= 256 && NoneFreeBefore(Fat0(v.info, v.disk), 256 * sector + i)
    ensures i < 256 ==> Fat0(v.info, v.disk)[256 * sector + i] == 0
  {
    ghost var f := Fat0(v.info, v.disk);
    i := 0;
    while i != 256
      invariant i <= 256 && NoneFreeBefore(f, 256 * sector + i)
    {
      FatAt(v.info, v.disk, v.info.fat0Offset, sector, i);
      if GetWord(v.cacheBlock[..], i) == 0 {
        return;
      }
      i := i + 1;
    }
  }

  /** First fit over the first table. Returns 0xffff when no cluster is free, and on error. */
  method AllocCluster(v: Volume, last: word) returns (result: word, ghost steps: seq<Disk>)
    requires v.Valid() && Mirrored(v.info, v.disk)
    requires last < 256 * v.info.sectorsPerFat
    modifies v, v.cacheBlock
    ensures v.Shape() && v.history == old(v.history) + steps
    ensures Journal(v.info, old(v.disk), steps, AllocJournal(Fat0(v.info, old(v.disk)), last))
    ensures result != 0xFFFF ==>
      && v.Valid() && Mirrored(v.info, v.disk)
      && SameOutsideFats(v.info, old(v.disk), v.disk)
      && FirstFree(Fat0(v.info, old(v.disk)), 0) == result < |Fat0(v.info, old(v.disk))|
      && Fat0(v.info, v.disk) == AllocFat(Fat0(v.info, old(v.disk)), last, result)
      && v.lastError == old(v.lastError)
    ensures v.reliable && result == 0xFFFF ==>
      var n := FirstFree(Fat0(v.info, old(v.disk)), 0);
      n == 0xFFFF || (n == |Fat0(v.info, old(v.disk))| && v.Valid() && steps == [] && v.lastError == old(v.lastError))
  {
    hide Mirrored, Fat, FirstFree, AllocFat, AllocViews, Journal;
    result := 0;
    steps := [];
    JournalEmpty(v.info, v.disk, AllocJournal(Fat0(v.info, v.disk), last));
    var blockAddr := v.info.fat0Offset;
    for fatSector := 0 to v.info.sectorsPerFat
      invariant v.Valid() && v.disk == old(v.disk) && v.history == old(v.history) && v.lastError == old(v.lastError)
      invariant blockAddr == v.info.fat0Offset + fatSector
      invariant fatSector < 256 ==> result == 256 * fatSector
      invariant NoneFreeBefore(Fat0(v.info, v.disk), 256 * fatSector)
    {
      var ok := v.Cache(blockAddr);
      if !ok {
        return 0xFFFF, [];
      }
      var i := FindFreeInSector(v, fatSector);
      if i < 256 {
        FirstFreeIs(Fat0(v.info, v.disk), 256 * fatSector + i);
        ok, steps := TakeCluster(v, last, fatSector, i);
        return if ok then result + i else 0xFFFF, steps;
      }
      blockAddr := blockAddr + 1;
      result := (result + 256) % 0x1_0000;
    }
    FirstFreeIs(Fat0(v.info, v.disk), 256 * v.info.sectorsPerFat);
    return 0xFFFF, [];
  }

  /** The states of both tables while the chain `cs` is freed from its head on. */
  ghost function FreeViews(f: seq<word>, cs: seq<nat>): seq<FatPair>
    requires InTable(f, cs)
    decreases |cs|
  {
    if cs == [] then []
    else SetViews((f, f), true, cs[0], 0) + FreeViews(f[cs[0] := 0], cs[1..])
  }

  ghost predicate ChainAt(f: seq<word>, from: int, cs: seq<nat>) {
    if cs == [] then from >= EOC_MIN else IsChain(f, cs) && from == cs[0]
  }

  lemma FreeStep(f: seq<word>, cs: seq<nat>)
    requires IsChain(f, cs)
    ensures InTable(f, cs) && InTable(f, cs[1..])
    ensures cs != [] && f[cs[0]] != 0 && ChainAt(f[cs[0] := 0], f[cs[0]], cs[1..])
    ensures FreeAll(f, cs) == FreeAll(f[cs[0] := 0], cs[1..])
    ensures FreeViews(f, cs) == SetViews((f, f), true, cs[0], 0) + FreeViews(f[cs[0] := 0], cs[1..])
  {
    FreeHead(f, cs);
  }

  /** Half way through freeing `cs` in disk `d0`: the table states seen so far are `done`, what is
      left to free is the chain `rest`, and the two add up to freeing `cs`. */
  ghost predicate Freeing(g: FatInfo, d0: Disk, cs: seq<nat>, d: Disk, steps: seq<Disk>, done: seq<FatPair>,
                          rest: seq<nat>)
    requires Fits(g, d0) && Fits(g, d)
  {
    var f0, f := Fat0(g, d0), Fat0(g, d);
    && SameOutsideFats(g, d0, d) && Mirrored(g, d)
    && InTable(f0, cs) && InTable(f, rest)
    && FreeAll(f, rest) == FreeAll(f0, cs)
    && done + FreeViews(f, rest) == FreeViews(f0, cs)
    && Journal(g, d0, steps, done) && |steps| == |done|
  }

  lemma FreeingStart(g: FatInfo, d: Disk, cs: seq<nat>)
    requires Fits(g, d) && Mirrored(g, d) && InTable(Fat0(g, d), cs)
    ensures Freeing(g, d, cs, d, [], [], cs)
  {
    hide Fat, FreeAll, FreeViews, Mirrored;
    assert [] + FreeViews(Fat0(g, d), cs) == FreeViews(Fat0(g, d), cs);
  }

  lemma FreeingNext(g: FatInfo, d0: Disk, cs: seq<nat>, d: Disk, steps: seq<Disk>, done: seq<FatPair>, rest: seq<nat>,
                    more: seq<Disk>, e: Disk)
    requires Fits(g, d0) && Fits(g, d) && Freeing(g, d0, cs, d, steps, done, rest) && IsChain(Fat0(g, d), rest)
    requires rest != [] && rest[0] < |FatViews(g, d).0|
    requires Journal(g, d, more, SetViews(FatViews(g, d), true, rest[0], 0))
    ensures InTable(Fat0(g, d0), cs)
    ensures Journal(g, d0, steps + more, FreeViews(Fat0(g, d0), cs))
    ensures |more| == 2 && TablesRead(g, d, e, SetViews(FatViews(g, d), true, rest[0], 0)[1]) ==>
      && Fat0(g, e) == Fat0(g, d)[rest[0] := 0]
      && Freeing(g, d0, cs, e, steps + more, done + SetViews(FatViews(g, d), true, rest[0], 0), rest[1..])
  {
    hide Fat, FreeAll, FreeViews, Journal, IsChain, Mirrored;
    var f, views := Fat0(g, d), SetViews(FatViews(g, d), true, rest[0], 0);
    MirroredViews(g, d);
    FreeStep(f, rest);
    var after := FreeViews(f[rest[0] := 0], rest[1..]);
    assert done + (views + after) == (done + views) + after;
    JournalConcat(g, d0, steps, done, d, more, views);
    JournalMore(g, d0, steps + more, done + views, after);
    if |more| == 2 && TablesRead(g, d, e, views[1]) {
      SameViewsMirrored(g, e);
    }
  }

  lemma FreeingStop(g: FatInfo, d0: Disk, cs: seq<nat>, d: Disk, steps: seq<Disk>, done: seq<FatPair>, rest: seq<nat>)
    requires Fits(g, d0) && Fits(g, d) && Freeing(g, d0, cs, d, steps, done, rest)
    ensures Mirrored(g, d) && SameOutsideFats(g, d0, d)
    ensures Journal(g, d0, steps, FreeViews(Fat0(g, d0), cs))
    ensures rest == [] ==> Fat0(g, d) == FreeAll(Fat0(g, d0), cs)
  {
    hide Fat, Journal, Mirrored;
    JournalMore(g, d0, steps, done, FreeViews(Fat0(g, d), rest));
  }

  method FreeClusterChain(v: Volume, head: word, ghost cs: seq<nat>) returns (ok: bool, ghost steps: seq<Disk>)
    requires v.Valid() && Mirrored(v.info, v.disk)
    requires ChainAt(Fat0(v.info, v.disk), head, cs) && InTable(Fat0(v.info, v.disk), cs)
    modifies v, v.cacheBlock
    ensures v.Shape() && v.history == old(v.history) + steps
    ensures Journal(v.info, old(v.disk), steps, FreeViews(Fat0(v.info, old(v.disk)), cs))
    ensures ok ==>
      && v.Valid() && Mirrored(v.info, v.disk)
      && SameOutsideFats(v.info, old(v.disk), v.disk)
      && Fat0(v.info, v.disk) == FreeAll(Fat0(v.info, old(v.disk)), cs)
      && v.lastError == old(v.lastError)
    ensures v.reliable ==> ok
  {
    hide Fat, FreeViews, FreeAll, Journal, Freeing, IsChain;
    var from := head;
    ghost var rest, done := cs, [];
    steps := [];
    FreeingStart(v.info, v.disk, cs);
    while from < 0xFFF8
      invariant v.Valid() && v.history == old(v.history) + steps && v.lastError == old(v.lastError)
      invariant Freeing(v.info, old(v.disk), cs, v.disk, steps, done, rest)
      invariant ChainAt(Fat0(v.info, v.disk), from, rest)
      decreases |rest|
    {
      FreeStep(Fat0(v.info, v.disk), rest);
      FreeingStop(v.info, old(v.disk), cs, v.disk, steps, done, rest);
      ghost var before, views := v.disk, SetViews(FatViews(v.info, v.disk), true, from, 0);
      var next := ReadFatEntry(v, from);
      if next == 0 {
        return false, steps;
      }
      ghost var more;
      ok, more := WriteFatEntry(v, from, 0);
      FreeingNext(v.info, old(v.disk), cs, before, steps, done, rest, more, v.disk);
      steps, done, rest := steps + more, done + views, rest[1..];
      if !ok {
        return;
      }
      from := next;
    }
    ChainEnds(Fat0(v.info, v.disk), from, rest);
    FreeingStop(v.info, old(v.disk), cs, v.disk, steps, done, rest);
    ok := true;
  }

  lemma ChainEnds(f: seq<word>, from: int, cs: seq<nat>)
    requires ChainAt(f, from, cs)
    ensures cs == [] <==> from >= EOC_MIN
  {
  }

  /** The cluster of the chain from `head` whose entry names `cur`. Returns 0 on error. */
  method FindParentCluster(v: Volume, head: word, cur: word, ghost ch: seq<nat>) returns (parent: word)
    requires v.Valid()
    requires IsChain(Fat0(v.info, v.disk), ch) && ch[0] == head && cur < 0xFFF8
    modifies v`cacheAddr, v`lastError, v.cacheBlock
    ensures v.Valid()
    ensures parent != 0 ==>
      v.lastError == old(v.lastError) && exists k :: 0 < k < |ch| && ch[k] == cur && ch[k - 1] == parent
    ensures v.reliable && parent == 0 ==> cur !in ch[1..] && v.lastError == FAT_ERROR_FS_BROKEN
  {
    hide Fat;
    var at := head;
    ghost var f, i := Fat0(v.info, v.disk), 0;
    while at < 0xFFF8
      invariant v.Valid() && v.disk == old(v.disk) && v.lastError == old(v.lastError)
      invariant i <= |ch| && (i == |ch| ==> at >= 0xFFF8) && (i < |ch| ==> at == ch[i])
      invariant forall j :: 1 <= j <= i && j < |ch| ==> ch[j] != cur
      decreases |ch| - i
    {
      assert i < |ch| - 1 ==> f[ch[i]] == ch[i + 1];
      var next := ReadFatEntry(v, at);
      if next == 0 {
        ClustersUsed(f, ch);
        return 0;
      } else if next == cur {
        assert ch[i + 1] == cur;
        return at;
      }
      at := next;
      i := i + 1;
    }
    v.lastError := FAT_ERROR_FS_BROKEN;
    return 0;
  }
}
