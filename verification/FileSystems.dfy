/** The calls that programs make: handles, files of a directory, and the volume behind them. */
module FileSystems {
  import opened Bytes
  import opened Errors
  import opened Chains
  import opened Layout
  import opened BlockCache
  import opened Content
  import opened Descriptor
  import opened Position
  import opened FileSteps
  import opened FileIO
  import opened Writing
  import opened Truncation
  import opened Seeking
  import opened Names
  import opened Entries
  import opened Directory
  import opened FlatFiles
  import opened NamedFiles
  import opened Refinement
  import opened Folders
  import opened FolderSteps
  import opened FolderCommands
  import opened FolderRequests
  import opened PowerCuts

  const FAT_BAD_DESC: byte := 0xFF

  function HandleIf(ok: bool, fd: byte): byte {
    if ok then fd else FAT_BAD_DESC
  }

  ghost function View(p: FileDescriptor): Desc
    reads p
  {
    Desc(p.isFree, p.isStale, p.isRoot, p.Snap(), p.dirEntry, p.dirEntryBlockAddr, p.dirEntryIndexInBlock,
         p.dirEntryModified)
  }

  lemma BackOnCard(d: Disk, p: Desc)
    requires p.modified && p.addr < |d| && p.index + ENTRY_LEN <= BLOCK_SIZE && IsEntry(p.entry)
    ensures OnCard(d[p.addr := Splice(d[p.addr], p.index, Encode(p.entry))], p.addr, p.index, p.entry)
  {
    SplicedBytes(d[p.addr], p.index, p.entry);
    hide Encode, Splice, EntryBytes;
  }

  /** Frees a descriptor, after writing its directory entry back when that has changed. A descriptor
      from before the last mount is freed all the same, but its entry is lost. */
  method CloseDescriptor(v: Volume, pfd: FileDescriptor) returns (result: bool, ghost steps: seq<Disk>)
    requires v.Valid()
    requires pfd.dirEntryModified ==>
      pfd.dirEntryBlockAddr < |v.disk| && pfd.dirEntryIndexInBlock + ENTRY_LEN <= BLOCK_SIZE && IsEntry(pfd.dirEntry)
    modifies v, v.cacheBlock, pfd`isFree, pfd`isStale
    ensures pfd.isFree && !pfd.isStale
    ensures v.Shape() && v.history == old(v.history) + steps && |steps| <= 1
    ensures result <==> !(pfd.dirEntryModified && old(pfd.isStale))
    ensures !result ==> v.lastError == FAT_ERROR_STALE_DESCRIPTOR
    ensures !result || !pfd.dirEntryModified ==> steps == []
    ensures if steps == [] then v.disk == old(v.disk) else steps == [v.disk]
    ensures steps != [] ==> WrittenBack(old(v.disk), old(View(pfd)), v.disk)
    ensures v.reliable ==> v.Valid() && (result ==> WrittenBack(old(v.disk), old(View(pfd)), v.disk))
    ensures steps != [] || (v.reliable && result && pfd.dirEntryModified) ==>
      OnCard(v.disk, pfd.dirEntryBlockAddr, pfd.dirEntryIndexInBlock, pfd.dirEntry)
  {
    hide WellFormed, Encode, Splice, OnCard;
    result, steps := true, [];
    if pfd.dirEntryModified {
      BackOnCard(v.disk, View(pfd));
    }
    if pfd.dirEntryModified {
      if pfd.isStale {
        v.lastError := FAT_ERROR_STALE_DESCRIPTOR;
        result := false;
      } else {
        var ok := v.Cache(pfd.dirEntryBlockAddr);
        v.StoreBytes(pfd.dirEntryIndexInBlock, Encode(pfd.dirEntry));
        ghost var cached := ok;
        ok := v.FlushCache();
        if ok && cached {
          steps := [v.disk];
        }
      }
    }
    pfd.isFree := true;
    pfd.isStale := false;
  }

  class FileSystem {
    const vol: Volume
    const descs: seq<FileDescriptor>
    /** The directory that is looked at, and what it holds. */
    ghost const dir: Dir
    ghost var cat: Catalog

    /** Every descriptor is free. */
    constructor (vol: Volume, ghost dir: Dir, ghost cat: Catalog)
      requires vol.Valid() && vol.reliable && AtRest(vol.info, vol.disk, dir, cat)
      ensures Valid() && this.vol == vol && this.dir == dir && this.cat == cat
    {
      hide AtRest, CatalogOk, Volume.Coherent, Volume.Shape;
      var ds: seq<FileDescriptor> := [];
      while |ds| < MAX_FILE_DESC
        invariant |ds| <= MAX_FILE_DESC
        invariant forall k :: 0 <= k < |ds| ==> fresh(ds[k]) && ds[k].isFree && !ds[k].isStale
        invariant forall k, m :: 0 <= k < m < |ds| ==> ds[k] != ds[m]
      {
        var pfd := new FileDescriptor();
        ds := ds + [pfd];
      }
      this.vol, this.dir, this.cat, descs := vol, dir, cat, ds;
      new;
      AtRestOk(vol.info, vol.disk, dir, cat, Views());
    }

    ghost predicate Apart() {
      |descs| == MAX_FILE_DESC && forall k, m :: 0 <= k < m < |descs| ==> descs[k] != descs[m]
    }

    ghost function Views(): (ps: seq<Desc>)
      reads descs
      ensures |ps| == |descs|
    {
      seq(|descs|, k requires 0 <= k < |descs| reads descs => View(descs[k]))
    }

    /** The invariant, for a card that does not fail. */
    ghost predicate Valid()
      reads this, vol, vol.cacheBlock, descs
    {
      Apart() && vol.Valid() && vol.reliable && CatalogOk(vol.info, vol.disk, dir, cat, Views())
    }

    ghost function Cb(): nat {
      ClusterBytes(vol.info)
    }

    /** What programs see. */
    ghost function Seen(): (f: Folder)
      reads this, vol, vol.cacheBlock, descs
      requires Valid()
      ensures Cb() > 0 && Wellformed(f)
    {
      SeenWellformed(vol.info, vol.disk, dir, cat, Views());
      FolderOf(vol.info, vol.disk, dir, cat)
    }

    // ---------------------------------------------------------------- handles

    /** The descriptor of a handle that is open and not from before the last mount. */
    method GetDesc(fd: byte) returns (ok: bool)
      requires Apart() && fd < MAX_FILE_DESC
      modifies vol`lastError
      ensures old(vol.Valid()) ==> vol.Valid()
      ensures ok <==> !descs[fd].isFree && !descs[fd].isStale
      ensures vol.lastError ==
        if descs[fd].isFree then FAT_ERROR_BAD_DESCRIPTOR
        else if descs[fd].isStale then FAT_ERROR_STALE_DESCRIPTOR
        else old(vol.lastError)
    {
      var pfd := descs[fd];
      if pfd.isFree {
        vol.lastError := FAT_ERROR_BAD_DESCRIPTOR;
      } else if pfd.isStale {
        vol.lastError := FAT_ERROR_STALE_DESCRIPTOR;
      } else {
        return true;
      }
      return false;
    }

    /** Takes the first free descriptor. */
    method GetFreeFd() returns (fd: byte)
      requires Apart()
      modifies vol`lastError, descs
      ensures old(vol.Valid()) ==> vol.Valid()
      ensures fd == FAT_BAD_DESC ==>
        && vol.lastError == FAT_ERROR_TOO_MANY_OPEN_FILES
        && (forall k :: 0 <= k < |descs| ==> !descs[k].isFree)
        && unchanged(descs)
      ensures fd != FAT_BAD_DESC ==>
        && fd < MAX_FILE_DESC && old(descs[fd].isFree) && (forall k :: 0 <= k < fd ==> !descs[k].isFree)
        && vol.lastError == old(vol.lastError)
        && View(descs[fd]) == old(View(descs[fd])).(free := false)
        && (forall k :: 0 <= k < |descs| && k != fd ==> unchanged(descs[k]))
    {
      fd := 0;
      while fd != MAX_FILE_DESC && !descs[fd].isFree
        invariant fd <= MAX_FILE_DESC
        invariant forall k :: 0 <= k < fd ==> !descs[k].isFree
      {
        fd := fd + 1;
      }
      if fd == MAX_FILE_DESC {
        vol.lastError := FAT_ERROR_TOO_MANY_OPEN_FILES;
        return FAT_BAD_DESC;
      }
      descs[fd].isFree := false;
    }

    // --------------------------------------------------------------- requests

    ghost predicate Asks(r: Request)
      reads this, vol, vol.cacheBlock, descs
    {
      Valid() && Asked(vol.info, vol.disk, dir, cat, Views(), r)
    }

    /** The call has made the promised step, with the promised answer. */
    twostate predicate Serves(r: Request, a: Answer)
      reads this, vol, vol.cacheBlock, descs
    {
      Valid() && Served(vol.info, old(vol.disk), dir, old(cat), old(Views()), r, vol.disk, cat, Views(), a)
    }

    /** Nothing has been written to the card. */
    twostate predicate NoWrite()
      reads vol
    {
      vol.disk == old(vol.disk) && vol.history == old(vol.history)
    }

    /** At most one block has been written to the card. */
    twostate predicate OneWrite()
      reads vol
    {
      NoWrite() || vol.history == old(vol.history) + [vol.disk]
    }

    twostate lemma ViewsChanged(fd: nat)
      requires Apart() && fd < |descs| && forall k :: 0 <= k < |descs| && k != fd ==>
        View(descs[k]) == old(View(descs[k]))
      ensures Views() == old(Views())[fd := View(descs[fd])]
    {
    }

    /** What is known of a handle that is open. */
    lemma IsOpen(fd: byte, m: Command)
      requires Asks(On(fd, m)) && fd < MAX_FILE_DESC && !descs[fd].isFree
      ensures fd < |cat.handles| && cat.handles[fd].OnFile? && cat.handles[fd].file < |cat.files|
      ensures var s := cat.files[cat.handles[fd].file];
              && Fits(vol.info, vol.disk) && Mirrored(vol.info, vol.disk) && Open(vol.info, vol.disk, s)
              && CanGrow(vol.info, vol.disk, s.chain)
              && (descs[fd].Snap() == s || Drifted(vol.info, descs[fd].Snap(), s))
              && (m.Read? || m.Write? ==> descs[fd].Snap() == s)
              && (m.Write? ==> InRange16(s.size, s.off, |m.bytes|))
      ensures !descs[fd].isRoot
    {
      hide CatalogOk, Asked, Volume.Coherent, Volume.Shape, Fat, Open, Mirrored, CanGrow, Drifted;
      AskedOk(vol.info, vol.disk, dir, cat, Views(), On(fd, m));
      HandleUnused(vol.info, vol.disk, dir, cat, Views(), fd);
      HandleFacts(vol.info, vol.disk, dir, cat, Views(), fd, cat.handles[fd].file);
      AllowedFacts(vol.info, vol.disk, dir, cat, Views(), fd, m);
      HeldFacts(vol.info, vol.disk, dir, cat, Views(), fd, m);
    }

    lemma ReadTail(g: FatInfo, d: Disk, s: State, t: State, a: seq<byte>, b: seq<byte>, n: nat)
      requires Fits(g, d) && ReadTo(g, d, s, t, a, b, 0, n)
      ensures |b| == |a| && n <= |a| && b[n..] == a[n..]
    {
      hide Open, FileData;
    }

    method FatRead(fd: byte, dst: array<byte>, len: word) returns (result: word)
      requires Asks(On(fd, Read(len))) && fd < MAX_FILE_DESC && dst != vol.cacheBlock && len <= dst.Length
      modifies vol, vol.cacheBlock, descs[fd], dst, `cat
      ensures result <= len && NoWrite() && dst[result..] == old(dst[..])[result..]
      ensures !old(descs[fd].isFree) ==> vol.lastError == if result < len then FAT_EOF else old(vol.lastError)
      ensures Serves(On(fd, Read(len)),
                     if old(descs[fd].isFree) then Failed(vol.lastError) else Did(Data(dst[..result])))
    {
      hide CatalogOk, Asked, Served, Volume.Coherent, Volume.Shape, Fat, Open, Mirrored, CanGrow, ReadTo;
      ghost var g, d, c, ps := vol.info, vol.disk, cat, Views();
      var ok := GetDesc(fd);
      if !ok {
        UnusedServes(g, d, dir, c, ps, fd, Read(len));
        assert Views() == ps;
        return 0;
      }
      IsOpen(fd, Read(len));
      ghost var i := c.handles[fd].file;
      result := ReadFile(vol, descs[fd], dst, len);
      ViewsChanged(fd);
      ReadTail(g, d, c.files[i], descs[fd].Snap(), old(dst[..]), dst[..], result);
      ReadServes(g, d, dir, c, ps, fd, i, descs[fd].Snap(), View(descs[fd]), old(dst[..]), dst[..], len, result);
      cat := Moved(c, i, descs[fd].Snap(), descs[fd].Snap());
    }

    method FatWrite(fd: byte, src: array<byte>, len: word) returns (result: word, ghost steps: seq<Disk>)
      requires fd < MAX_FILE_DESC && src != vol.cacheBlock && len <= src.Length && Asks(On(fd, Write(src[..len])))
      modifies vol, vol.cacheBlock, descs[fd], `cat
      ensures result <= len
      ensures Serves(On(fd, Write(src[..len])),
                     if old(descs[fd].isFree) then Failed(vol.lastError) else Did(Count(result)))
      ensures vol.history == old(vol.history) + steps
      ensures !old(descs[fd].isFree) ==>
        AllSurvive(vol.info, old(vol.disk), dir, old(cat), FileOn(cat, fd), steps)
    {
      hide CatalogOk, Asked, Served, Volume.Coherent, Volume.Shape, Fat, Open, Mirrored, CanGrow, Reached, CrashSafe,
        AtFullEnd, Free, AllSurvive;
      ghost var g, d, c, ps, bytes := vol.info, vol.disk, cat, Views(), src[..len];
      var ok := GetDesc(fd);
      if !ok {
        UnusedServes(g, d, dir, c, ps, fd, Write(bytes));
        assert Views() == ps;
        return 0, [];
      }
      IsOpen(fd, Write(bytes));
      ghost var i := c.handles[fd].file;
      result, steps := WriteFile(vol, descs[fd], src, len);
      WriteSurvives(g, d, dir, c, ps, i, steps);
      ViewsChanged(fd);
      assert bytes[..result] == src[..result];
      ReachedParts(g, d, c.files[i], vol.disk, descs[fd].Snap(), bytes[..result]);
      WriteServes(g, d, dir, c, ps, fd, i, vol.disk, descs[fd].Snap(), View(descs[fd]), bytes, result);
      cat := Moved(c, i, descs[fd].Snap(), descs[fd].Snap());
    }

    method FatTruncate(fd: byte) returns (ok: bool, ghost steps: seq<Disk>)
      requires Asks(On(fd, Truncate)) && fd < MAX_FILE_DESC
      modifies vol, vol.cacheBlock, descs[fd], `cat
      ensures ok <==> !old(descs[fd].isFree)
      ensures Serves(On(fd, Truncate), if ok then Did(Done) else Failed(vol.lastError))
      ensures vol.history == old(vol.history) + steps
      ensures ok ==> AllSurvive(vol.info, old(vol.disk), dir, old(cat), FileOn(cat, fd), steps)
    {
      hide CatalogOk, Asked, Served, Volume.Coherent, Volume.Shape, Fat, Open, Mirrored, CanGrow, CutSafe, CutFat,
        KeepFor, InTable, KeepsBytes, SameOutsideFats, AllSurvive, Cuttable, Drifted, WellFormed, FolderOf;
      ghost var g, d, c, ps := vol.info, vol.disk, cat, Views();
      steps := [];
      ok := GetDesc(fd);
      if !ok {
        UnusedServes(g, d, dir, c, ps, fd, Truncate);
        assert Views() == ps;
        return;
      }
      IsOpen(fd, Truncate);
      ghost var i, p := c.handles[fd].file, descs[fd].Snap();
      DriftedCut(g, d, p, c.files[i]);
      ok, steps := TruncateFile(vol, descs[fd]);
      TruncateSurvives(g, d, dir, c, ps, i, KeepFor(c.files[i]), steps);
      ViewsChanged(fd);
      cat := TruncateDone(g, d, dir, c, ps, fd, i, p, vol.disk, descs[fd].Snap(), View(descs[fd]));
    }

    method FatSeekEnd(fd: byte) returns (ok: bool)
      requires Asks(On(fd, Command.SeekEnd)) && fd < MAX_FILE_DESC
      modifies vol, vol.cacheBlock, descs[fd], `cat
      ensures (ok <==> !old(descs[fd].isFree)) && NoWrite()
      ensures Serves(On(fd, Command.SeekEnd), if ok then Did(Done) else Failed(vol.lastError))
    {
      hide CatalogOk, Asked, Served, Volume.Coherent, Volume.Shape, Fat, Open, Mirrored, CanGrow, FileOk, OnChain;
      ghost var g, d, c, ps := vol.info, vol.disk, cat, Views();
      ok := GetDesc(fd);
      if !ok {
        UnusedServes(g, d, dir, c, ps, fd, Command.SeekEnd);
        assert Views() == ps;
        return;
      }
      IsOpen(fd, Command.SeekEnd);
      ghost var i := c.handles[fd].file;
      DriftedOnChain(g, d, descs[fd].Snap(), c.files[i]);
      ok := Seeking.SeekEnd(vol, descs[fd]);
      ghost var t := descs[fd].Snap();
      ViewsChanged(fd);
      SeekServes(g, d, dir, c, ps, fd, i, t, t, View(descs[fd]), Command.SeekEnd);
      cat := Moved(c, i, t, t);
    }

    method FatSeek(fd: byte, offset: dword) returns (ok: bool)
      requires Asks(On(fd, Seek(offset))) && fd < MAX_FILE_DESC
      modifies vol, vol.cacheBlock, descs[fd], `cat
      ensures (ok <==> !old(descs[fd].isFree)) && NoWrite()
      ensures Serves(On(fd, Seek(offset)), if ok then Did(Done) else Failed(vol.lastError))
    {
      hide CatalogOk, Asked, Served, Volume.Coherent, Volume.Shape, Fat, Open, Mirrored, CanGrow, FileOk, OnChain,
        Seekable, PastCluster, Drifted;
      ghost var g, d, c, ps := vol.info, vol.disk, cat, Views();
      ok := GetDesc(fd);
      if !ok {
        UnusedServes(g, d, dir, c, ps, fd, Seek(offset));
        assert Views() == ps;
        return;
      }
      IsOpen(fd, Seek(offset));
      ghost var i, p := c.handles[fd].file, descs[fd].Snap();
      DriftedOnChain(g, d, p, c.files[i]);
      ok := SeekTo(vol, descs[fd], offset);
      ViewsChanged(fd);
      cat := SeekDone(g, d, dir, c, ps, fd, i, p, descs[fd].Snap(), offset, View(descs[fd]));
    }

    method FatClose(fd: byte) returns (result: bool)
      requires Asks(Close(fd)) && fd < MAX_FILE_DESC
      modifies vol, vol.cacheBlock, descs[fd], `cat
      ensures result && Serves(Close(fd), Closed) && OneWrite()
      ensures OnCard(vol.disk, old(descs[fd].dirEntryBlockAddr), old(descs[fd].dirEntryIndexInBlock),
                     old(descs[fd].dirEntry))
    {
      hide CatalogOk, Asked, Served, Volume.Coherent, Volume.Shape, WrittenBack, IsEntry, OnCard;
      ghost var g, d, c, ps, steps := vol.info, vol.disk, cat, Views(), [];
      AskedOk(g, d, dir, c, ps, Close(fd));
      HandleUnused(g, d, dir, c, ps, fd);
      EntryPlace(g, d, dir, c, ps, fd);
      if !ps[fd].modified {
        EntryOnCard(g, d, dir, c, ps, fd);
      }
      result, steps := CloseDescriptor(vol, descs[fd]);
      ViewsChanged(fd);
      CloseServes(g, d, dir, c, ps, fd, vol.disk);
      cat := Shut(c, fd, c.handles[fd].file);
    }

    /** Opens the file whose entry a descriptor has just been given; the descriptor is freed again
        when the card fails. */
    method OpenEntry(fd: byte, ghost ch: seq<nat>) returns (ok: bool)
      requires Apart() && fd < MAX_FILE_DESC && vol.Valid()
      requires ChainFrom(Fat0(vol.info, vol.disk), descs[fd].dirEntry.clusterLo, ch)
      requires ChainOnDisk(vol.info, vol.disk, ch)
      requires SizeFits(vol.info, ch, descs[fd].dirEntry.size)
      modifies vol, vol.cacheBlock, descs[fd]
      ensures vol.Valid() && vol.disk == old(vol.disk) && vol.history == old(vol.history)
      ensures ok ==>
        && vol.lastError == old(vol.lastError)
        && Fits(vol.info, vol.disk) && Open(vol.info, vol.disk, descs[fd].Snap())
        && descs[fd].absOffset == 0 && descs[fd].chain == ch
        && View(descs[fd]) == old(View(descs[fd])).(s := descs[fd].Snap(), root := false, modified := false)
      ensures !ok ==> descs[fd].isFree
      ensures vol.reliable ==> ok
    {
      hide Fat, Open, SizeFits, ChainFrom, ChainOnDisk, At, ChainOk;
      ok := InitFd(vol, descs[fd], ch);
      if !ok {
        descs[fd].isFree := true;
      }
    }

    method FatOpenFile(parent: Option<DirEntry>, name: CString, mode: byte) returns (fd: byte)
      requires Asks(OpenFile(name, mode)) && ClusterOf(parent) == dir.cluster
      modifies vol, vol.cacheBlock, descs, `cat
      ensures Serves(OpenFile(name, mode), if fd == FAT_BAD_DESC then Failed(vol.lastError) else Opened(fd))
      ensures OneWrite() && forall k :: 0 <= k < |descs| && !old(descs[k].isFree) ==> unchanged(descs[k])
    {
      hide CatalogOk, Asked, Served, Volume.Coherent, Volume.Shape, FatName, BitAnd;
      ghost var g, d, c, ps := vol.info, vol.disk, cat, Views();
      fd := GetFreeFd();
      if fd == FAT_BAD_DESC {
        FullServes(g, d, dir, c, ps, name, mode);
        assert Views() == ps;
        return;
      }
      ViewsChanged(fd);
      var ok := OpenNamed(fd, parent, name, mode, ps);
      ServedOk(g, d, dir, c, ps, OpenFile(name, mode), vol.disk, cat, Views(),
               if ok then Opened(fd) else Failed(vol.lastError));
      return HandleIf(ok, fd);
    }

    /** Opens by name on descriptor `fd`, which has just been taken; `ps` are the descriptors before. */
    method OpenNamed(fd: byte, parent: Option<DirEntry>, name: CString, mode: byte, ghost ps: seq<Desc>)
      returns (ok: bool)
      requires Apart() && fd < MAX_FILE_DESC == |ps| && vol.Valid() && vol.reliable && ClusterOf(parent) == dir.cluster
      requires Asked(vol.info, vol.disk, dir, cat, ps, OpenFile(name, mode))
      requires ps[fd].free && (forall k :: 0 <= k < fd ==> !ps[k].free)
      requires View(descs[fd]) == ps[fd].(free := false) && Views() == ps[fd := View(descs[fd])]
      modifies vol, vol.cacheBlock, descs[fd], `cat
      ensures vol.Valid()
      ensures Served(vol.info, old(vol.disk), dir, old(cat), ps, OpenFile(name, mode), vol.disk, cat, Views(),
                     if ok then Opened(fd) else Failed(vol.lastError))
      ensures OneWrite()
    {
      hide CatalogOk, Asked, Served, Volume.Coherent, Volume.Shape, FatName, Search, EntriesOf, Resulted, Halfway,
        DirectoryAt, BitAnd, Searchable, FailureOf;
      ghost var g, d, c := vol.info, vol.disk, cat;
      ghost var o := ToHalfway(g, d, dir, c, ps, fd, name, mode);
      DirectorySearchable(g, d, dir.cluster, dir.ch, dir.bl);
      ghost var steps;
      ok, steps := FindFile(vol, parent, name, descs[fd], mode, dir.ch, dir.bl);
      ViewsChanged(fd);
      if ok {
        ok := OpenSought(fd, d, c, ps, name, mode, o);
      } else {
        descs[fd].isFree := true;
        HalfwayFails(g, d, dir, c, ps, fd, name, mode, o);
        assert View(descs[fd]) == ps[fd];
        ViewsChanged(fd);
        assert Views() == ps;
      }
    }

    /** The second half of opening by name: `o` is what the search for the name came to on disk `d`. */
    method OpenSought(fd: byte, ghost d: Disk, ghost c: Catalog, ghost ps: seq<Desc>, ghost name: CString,
                      ghost mode: byte, ghost o: Outcome)
      returns (ok: bool)
      requires Apart() && fd < MAX_FILE_DESC == |ps| && vol.Valid() && vol.reliable
      requires Halfway(vol.info, d, dir, c, ps, fd, name, mode, o)
      requires Views() == ps[fd := View(descs[fd])] && !descs[fd].isFree && !descs[fd].isStale
      requires (o.Found? || o.Created?) && Resulted(d, dir.bl, FatName(name), o, vol.disk, descs[fd].dirEntry,
                                                    descs[fd].dirEntryBlockAddr, descs[fd].dirEntryIndexInBlock)
      modifies vol, vol.cacheBlock, descs[fd], `cat
      ensures ok && vol.Valid() && NoWrite()
      ensures Served(vol.info, d, dir, c, ps, OpenFile(name, mode), vol.disk, cat, Views(), Opened(fd))
    {
      hide CatalogOk, Served, Volume.Coherent, Volume.Shape, FatName, EntriesOf, Resulted, Halfway, Fat, Open,
        SizeFits, ChainFrom, ChainOnDisk, ChainToOpen;
      ghost var g := vol.info;
      ghost var ch := HalfwayReady(g, d, dir, c, ps, fd, name, mode, o, vol.disk, descs[fd].dirEntry,
                                   descs[fd].dirEntryBlockAddr, descs[fd].dirEntryIndexInBlock);
      ok := OpenEntry(fd, ch);
      ViewsChanged(fd);
      assert Views() == ps[fd := View(descs[fd])];
      cat := HalfwayServes(g, d, dir, c, ps, fd, name, mode, o, vol.disk, descs[fd].Snap(), View(descs[fd]));
    }
  }
}
