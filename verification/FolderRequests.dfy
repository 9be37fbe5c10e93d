/** Opening a file as a step of what a program sees. */
module FolderRequests {
  import opened Bytes
  import opened Errors
  import opened Chains
  import opened Layout
  import opened Content
  import opened Descriptor
  import opened Names
  import opened Entries
  import opened Directory
  import opened NamedFiles
  import opened System
  import opened Refinement
  import opened Folders
  import opened FolderSteps
  import opened FolderOpening
  import opened FolderCreation
  import opened FolderCommands
  import opened Surroundings

  ghost function FileOf(g: FatInfo, d: Disk, dir: Dir, c: Catalog, name: CString): nat
    requires OnDiskBlocks(d, dir.bl) && EntriesOk(EntriesOf(d, dir.bl), c.place)
  {
    IndexOf(NamesOf(EntriesOf(d, dir.bl), c.place), FatName(name))
  }

  /** What the search for a name comes to, in terms of the files of the directory. */
  ghost predicate Sought(root: bool, es: seq<Raw>, c: Catalog, i: nat, field: seq<byte>, mode: byte, o: Outcome) {
    if i < |c.place| then
      && OnFile(i) !in c.handles
      && o == if Exclusive(mode) then Exists else Found(c.place[i])
    else if !Creates(mode) then o == NotFound
    else if |Ends(es)| == 0 then o == DirFull
    else o.Created? && o.at < |es| && Fresh(es, o.at, field) && (root ==> RoomFor(es))
  }

  lemma SoughtFound(root: bool, es: seq<Raw>, c: Catalog, i: nat, field: seq<byte>, mode: byte, o: Outcome)
    requires Sought(root, es, c, i, field, mode, o) && o.Found?
    ensures i < |c.place| && OnFile(i) !in c.handles && !Exclusive(mode) && o == Found(c.place[i])
  {
  }

  lemma SoughtCreated(root: bool, es: seq<Raw>, c: Catalog, i: nat, field: seq<byte>, mode: byte, o: Outcome)
    requires Sought(root, es, c, i, field, mode, o) && o.Created?
    ensures i >= |c.place| && Creates(mode) && o.at < |es| && Fresh(es, o.at, field) && (root ==> RoomFor(es))
    ensures |Ends(es)| > 0
  {
  }

  lemma Seeks(g: FatInfo, d: Disk, dir: Dir, c: Catalog, ps: seq<Desc>, name: CString, mode: byte)
    requires Asked(g, d, dir, c, ps, OpenFile(name, mode))
    ensures Fits(g, d) && DirectoryAt(g, d, dir.cluster, dir.ch, dir.bl) && OnDiskBlocks(d, dir.bl)
    ensures var es := EntriesOf(d, dir.bl);
            Sought(dir.cluster == 0, es, c, FileOf(g, d, dir, c, name), FatName(name), mode,
                   Search(es, 0, FatName(name), mode, -1))
    ensures |c.place| == |c.files|
  {
    hide Sound, EntriesOf, Abstract, Holes, Ends, Reserved, NamesOf, ClosedOk, HandlesOk, EntriesOk, Wellformed,
      FatName, Search, BitAnd, InsertionPoint, NoMatch, DirectoryAt;
    var es := EntriesOf(d, dir.bl);
    SoundParts(g, d, c.files, c.others);
    ListedEntries(es, dir.bl, c, ps);
    Lookup(es, c.place, FatName(name), mode);
    EndsNonEmpty(es);
    FatNameStarts(name);
  }

  /** No handle is left. */
  lemma FullServes(g: FatInfo, d: Disk, dir: Dir, c: Catalog, ps: seq<Desc>, name: CString, mode: byte)
    requires Asked(g, d, dir, c, ps, OpenFile(name, mode)) && forall k :: 0 <= k < |ps| ==> !ps[k].free
    ensures Served(g, d, dir, c, ps, OpenFile(name, mode), d, c, ps, Failed(FAT_ERROR_TOO_MANY_OPEN_FILES))
  {
    hide RestKept, Sound, DirOk, EntriesOf, Abstract, Holes, Ends, Reserved, NamesOf, Listed, Wellformed, FatName,
      Creates, Exclusive;
    forall k | 0 <= k < |ps|
      ensures |ps| == |c.handles| == MAX_FILE_DESC && c.handles[k] != Unused
    {
      HandleUnused(g, d, dir, c, ps, k);
    }
    HandleCount(g, d, dir, c, ps);
    SoundParts(g, d, c.files, c.others);
    RestSame(g, d, dir, c.others);
  }

  /** The first free descriptor is the first free handle. */
  lemma FirstHandle(g: FatInfo, d: Disk, dir: Dir, c: Catalog, ps: seq<Desc>, fd: nat)
    requires CatalogOk(g, d, dir, c, ps) && fd < |ps| && ps[fd].free && forall k :: 0 <= k < fd ==> !ps[k].free
    ensures fd < |c.handles| && IndexOf(c.handles, Unused) == fd && c.handles[fd] == Unused && !ps[fd].stale
  {
    hide Sound, DirOk, EntriesOf, Listed;
    forall k | 0 <= k <= fd
      ensures |ps| == |c.handles| == MAX_FILE_DESC && (c.handles[k] == Unused <==> k == fd)
    {
      HandleUnused(g, d, dir, c, ps, k);
    }
    HandleUnused(g, d, dir, c, ps, fd);
  }

  /** The search fails: nothing happens but the error. */
  lemma FailServes(g: FatInfo, d: Disk, dir: Dir, c: Catalog, ps: seq<Desc>, fd: nat, name: CString, mode: byte,
                   o: Outcome)
    requires Asked(g, d, dir, c, ps, OpenFile(name, mode)) && fd < MAX_FILE_DESC && IndexOf(c.handles, Unused) == fd
    requires !o.Found? && !o.Created?
    requires Sought(dir.cluster == 0, EntriesOf(d, dir.bl), c, FileOf(g, d, dir, c, name), FatName(name), mode, o)
    ensures Served(g, d, dir, c, ps, OpenFile(name, mode), d, c, ps, Failed(ErrorOf(o)))
  {
    hide RestKept, Sound, DirOk, EntriesOf, Abstract, Holes, Ends, Reserved, Listed, Wellformed, FatName, BitAnd, Fresh,
      RoomFor;
    SoundParts(g, d, c.files, c.others);
    RestSame(g, d, dir, c.others);
  }

  /** A file that is found is opened. */
  lemma FoundServes(g: FatInfo, d: Disk, dir: Dir, c: Catalog, ps: seq<Desc>, fd: byte, name: CString, mode: byte,
                    i: nat, t: State, p: Desc)
    requires Asked(g, d, dir, c, ps, OpenFile(name, mode)) && fd < |ps| == |c.handles| == MAX_FILE_DESC
    requires IndexOf(c.handles, Unused) == fd
    requires i == FileOf(g, d, dir, c, name) < |c.files| && OnFile(i) !in c.handles && !Exclusive(mode)
    requires OpenedOn(EntriesOf(d, dir.bl), dir.bl, c, i, t, p) && Open(g, d, t) && t.off == 0
    ensures Served(g, d, dir, c, ps, OpenFile(name, mode), d,
                   c.(files := c.files[i := t], handles := c.handles[fd := OnFile(i)]), ps[fd := p], Opened(fd))
  {
    hide RestKept, Sound, DirOk, EntriesOf, Abstract, Holes, Ends, Reserved, Listed, Wellformed, FatName, BitAnd,
      OpenedOn, Open;
    ListedEntries(EntriesOf(d, dir.bl), dir.bl, c, ps);
    OpenKeeps(g, d, dir, c, ps, fd, i, t, p);
    SoundParts(g, d, c.files, c.others);
    RestSame(g, d, dir, c.others);
  }

  lemma RestCreated(g: FatInfo, d: Disk, dir: Dir, ss: seq<State>, others: set<nat>, q: nat, raw: Raw, e: Disk)
    requires Sound(g, d, ss, others) && DirOk(g, d, dir, others) && OnDiskBlocks(d, dir.bl)
    requires Stored(d, dir.bl, q, raw, e)
    ensures RestKept(g, d, e, dir, others)
  {
    hide Sound, DirOk, RestKept, Splice;
    SoundParts(g, d, ss, others);
    RestStored(g, d, dir, others, q / 16, Splice(d[dir.bl[q / 16]], 32 * (q % 16), raw));
  }

  /** A file that has been made is opened. */
  lemma CreatedServes(g: FatInfo, d: Disk, dir: Dir, c: Catalog, ps: seq<Desc>, fd: byte, name: CString, mode: byte,
                      q: nat, t: State, p: Desc, e: Disk)
    requires Asked(g, d, dir, c, ps, OpenFile(name, mode)) && fd < |ps| == |c.handles| == MAX_FILE_DESC
    requires IndexOf(c.handles, Unused) == fd && c.handles[fd] == Unused
    requires FileOf(g, d, dir, c, name) == |c.files| == |c.place| && Creates(mode)
    requires Fresh(EntriesOf(d, dir.bl), q, FatName(name)) && (dir.cluster == 0 ==> RoomFor(EntriesOf(d, dir.bl)))
    requires |Ends(EntriesOf(d, dir.bl))| > 0
    requires Stored(d, dir.bl, q, NewRaw(FatName(name)), e)
    requires Fits(g, e) && Open(g, e, t) && CreatedOn(dir.bl, q, FatName(name), t, p)
    ensures Served(g, d, dir, c, ps, OpenFile(name, mode), e, Added(c, fd, t, q), ps[fd := p], Opened(fd))
  {
    hide RestKept, Sound, DirOk, EntriesOf, Abstract, Holes, Ends, Reserved, Listed, Wellformed, FatName, BitAnd, Open,
      Fresh, RoomFor, CreatedOn, Stored;
    CreateKeeps(g, d, dir, c, ps, fd, q, FatName(name), t, p, e);
    RestCreated(g, d, dir, c.files, c.others, q, NewRaw(FatName(name)), e);
  }

  // ----------------------------------------- between finding a file and opening it

  /** The entry that was found leads to the file. */
  lemma FoundReady(g: FatInfo, d: Disk, dir: Dir, c: Catalog, ps: seq<Desc>, i: nat, field: seq<byte>, e: Disk,
                   entry: DirEntry, addr: int, index: int)
    requires CatalogOk(g, d, dir, c, ps) && i < |c.files| == |c.place| && OnFile(i) !in c.handles && |field| == 11
    requires Resulted(d, dir.bl, field, Found(c.place[i]), e, entry, addr, index)
    ensures e == d && Fits(g, d)
    ensures c.place[i] < |EntriesOf(d, dir.bl)| && entry == Decode(EntriesOf(d, dir.bl)[c.place[i]])
    ensures addr == dir.bl[c.place[i] / 16] && index == 32 * (c.place[i] % 16)
    ensures entry.clusterLo == c.files[i].head && entry.size == c.files[i].size
    ensures ChainFrom(Fat0(g, d), entry.clusterLo, c.files[i].chain) && ChainOnDisk(g, d, c.files[i].chain)
    ensures SizeFits(g, c.files[i].chain, entry.size) && Open(g, d, c.files[i])
  {
    hide DirOk, EntriesOf, HandlesOk, EntriesOk, Decode, Fat, Sound;
    ListedEntries(EntriesOf(d, dir.bl), dir.bl, c, ps);
    PlacesApart(EntriesOf(d, dir.bl), c.place);
    SoundParts(g, d, c.files, c.others);
    assert Describes(Decode(EntriesOf(d, dir.bl)[c.place[i]]), c.files[i]);
  }

  lemma FoundOpened(g: FatInfo, d: Disk, dir: Dir, c: Catalog, i: nat, t: State, p: Desc)
    requires OnDiskBlocks(d, dir.bl) && Fits(g, d) && i < |c.files| == |c.place|
    requires EntriesOk(EntriesOf(d, dir.bl), c.place)
    requires Open(g, d, c.files[i]) && Open(g, d, t) && t.chain == c.files[i].chain
    requires t.head == c.files[i].head && t.size == c.files[i].size
    requires c.place[i] < |EntriesOf(d, dir.bl)|
    requires p == Desc(false, false, false, t, Decode(EntriesOf(d, dir.bl)[c.place[i]]), p.addr, p.index, false)
    requires p.addr == dir.bl[c.place[i] / 16] && p.index == 32 * (c.place[i] % 16)
    ensures OpenedOn(EntriesOf(d, dir.bl), dir.bl, c, i, t, p)
  {
    hide EntriesOf, EntriesOk, Decode, Fat, ChainOk, At, SizeFits, LastLen;
  }

  /** The entry that was made describes a file without bytes. */
  lemma CreatedReady(g: FatInfo, d: Disk, bl: seq<int>, q: nat, field: seq<byte>, e: Disk, entry: DirEntry, addr: int,
                     index: int)
    requires Fits(g, d) && OnDiskBlocks(d, bl) && |field| == 11
    requires Resulted(d, bl, field, Created(q), e, entry, addr, index)
    ensures Fits(g, e) && Stored(d, bl, q, NewRaw(field), e) && q < 16 * |bl|
    ensures entry == Decode(NewRaw(field)) && entry.clusterLo == 0 && entry.size == 0
    ensures addr == bl[q / 16] && index == 32 * (q % 16)
    ensures ChainFrom(Fat0(g, e), entry.clusterLo, []) && ChainOnDisk(g, e, []) && SizeFits(g, [], entry.size)
  {
    hide Fat, Splice;
  }

  /** A free handle has been picked and the name has been sought, with outcome `o`. */
  ghost predicate Halfway(g: FatInfo, d: Disk, dir: Dir, c: Catalog, ps: seq<Desc>, fd: byte, name: CString, mode: byte,
                          o: Outcome) {
    && Asked(g, d, dir, c, ps, OpenFile(name, mode))
    && fd < |ps| == |c.handles| == MAX_FILE_DESC && IndexOf(c.handles, Unused) == fd && c.handles[fd] == Unused
    && Fits(g, d) && OnDiskBlocks(d, dir.bl) && EntriesOk(EntriesOf(d, dir.bl), c.place) && |c.place| == |c.files|
    && o == Search(EntriesOf(d, dir.bl), 0, FatName(name), mode, -1)
    && Sought(dir.cluster == 0, EntriesOf(d, dir.bl), c, FileOf(g, d, dir, c, name), FatName(name), mode, o)
  }

  lemma ToHalfway(g: FatInfo, d: Disk, dir: Dir, c: Catalog, ps: seq<Desc>, fd: byte, name: CString, mode: byte)
    returns (o: Outcome)
    requires Asked(g, d, dir, c, ps, OpenFile(name, mode))
    requires fd < |ps| && ps[fd].free && forall k :: 0 <= k < fd ==> !ps[k].free
    ensures Fits(g, d) && DirectoryAt(g, d, dir.cluster, dir.ch, dir.bl) && OnDiskBlocks(d, dir.bl)
    ensures o == Search(EntriesOf(d, dir.bl), 0, FatName(name), mode, -1)
    ensures Halfway(g, d, dir, c, ps, fd, name, mode, o) && !ps[fd].stale
  {
    hide Asked, EntriesOf, Sought, Search, FatName, BitAnd, DirectoryAt, Sound, DirOk, EntriesOk, ClosedOk, HandlesOk;
    AskedOk(g, d, dir, c, ps, OpenFile(name, mode));
    Seeks(g, d, dir, c, ps, name, mode);
    FirstHandle(g, d, dir, c, ps, fd);
    HandleCount(g, d, dir, c, ps);
    ListedEntries(EntriesOf(d, dir.bl), dir.bl, c, ps);
    o := Search(EntriesOf(d, dir.bl), 0, FatName(name), mode, -1);
  }

  lemma HalfwayFails(g: FatInfo, d: Disk, dir: Dir, c: Catalog, ps: seq<Desc>, fd: byte, name: CString, mode: byte,
                     o: Outcome)
    requires Halfway(g, d, dir, c, ps, fd, name, mode, o) && !o.Found? && !o.Created?
    ensures Served(g, d, dir, c, ps, OpenFile(name, mode), d, c, ps, Failed(ErrorOf(o)))
  {
    hide Asked, EntriesOf, Sought, Search, FatName, BitAnd, EntriesOk, Served;
    FailServes(g, d, dir, c, ps, fd, name, mode, o);
  }

  /** The clusters that the descriptor will be opened on. */
  ghost function ChainToOpen(g: FatInfo, d: Disk, dir: Dir, c: Catalog, name: CString, o: Outcome): seq<nat>
    requires OnDiskBlocks(d, dir.bl) && EntriesOk(EntriesOf(d, dir.bl), c.place)
  {
    var i := FileOf(g, d, dir, c, name);
    if o.Found? && i < |c.files| then c.files[i].chain else []
  }

  lemma HalfwayReady(g: FatInfo, d: Disk, dir: Dir, c: Catalog, ps: seq<Desc>, fd: byte, name: CString, mode: byte,
                     o: Outcome, e: Disk, entry: DirEntry, addr: int, index: int) returns (ch: seq<nat>)
    requires Halfway(g, d, dir, c, ps, fd, name, mode, o) && (o.Found? || o.Created?)
    requires Resulted(d, dir.bl, FatName(name), o, e, entry, addr, index)
    ensures Fits(g, e) && ChainFrom(Fat0(g, e), entry.clusterLo, ch) && ChainOnDisk(g, e, ch)
    ensures SizeFits(g, ch, entry.size)
    ensures ch == ChainToOpen(g, d, dir, c, name, o)
  {
    hide Asked, EntriesOf, Sought, Search, FatName, BitAnd, EntriesOk, Resulted, Fat, ChainFrom, ChainOnDisk, SizeFits,
      CatalogOk, FileOf, Open, Fresh, RoomFor;
    var i, field := FileOf(g, d, dir, c, name), FatName(name);
    AskedOk(g, d, dir, c, ps, OpenFile(name, mode));
    if o.Found? {
      SoughtFound(dir.cluster == 0, EntriesOf(d, dir.bl), c, i, field, mode, o);
      FoundReady(g, d, dir, c, ps, i, field, e, entry, addr, index);
    } else {
      CreatedReady(g, d, dir.bl, o.at, field, e, entry, addr, index);
    }
    ch := ChainToOpen(g, d, dir, c, name, o);
  }

  /** The descriptor has been opened at the beginning of what was found or made. */
  ghost predicate OpenedFresh(t: State, p: Desc) {
    && p == Desc(false, false, false, t, p.entry, p.addr, p.index, false)
    && t.off == 0 && t.head == p.entry.clusterLo && t.size == p.entry.size
  }

  lemma HalfwayServes(g: FatInfo, d: Disk, dir: Dir, c: Catalog, ps: seq<Desc>, fd: byte, name: CString, mode: byte,
                      o: Outcome, e: Disk, t: State, p: Desc) returns (c': Catalog)
    requires Halfway(g, d, dir, c, ps, fd, name, mode, o) && (o.Found? || o.Created?)
    requires Resulted(d, dir.bl, FatName(name), o, e, p.entry, p.addr, p.index)
    requires Fits(g, e) && Open(g, e, t) && t.chain == ChainToOpen(g, d, dir, c, name, o) && OpenedFresh(t, p)
    ensures Served(g, d, dir, c, ps, OpenFile(name, mode), e, c', ps[fd := p], Opened(fd))
  {
    hide Asked, EntriesOf, Sought, Search, FatName, BitAnd, EntriesOk, Resulted, Fat, CatalogOk, Served,
      FileOf, Open, Fresh, RoomFor, Stored, Decode;
    var i, field := FileOf(g, d, dir, c, name), FatName(name);
    AskedOk(g, d, dir, c, ps, OpenFile(name, mode));
    if o.Found? {
      SoughtFound(dir.cluster == 0, EntriesOf(d, dir.bl), c, i, field, mode, o);
      FoundReady(g, d, dir, c, ps, i, field, e, p.entry, p.addr, p.index);
      FoundOpened(g, d, dir, c, i, t, p);
      FoundServes(g, d, dir, c, ps, fd, name, mode, i, t, p);
      c' := c.(files := c.files[i := t], handles := c.handles[fd := OnFile(i)]);
    } else {
      SoughtCreated(dir.cluster == 0, EntriesOf(d, dir.bl), c, i, field, mode, o);
      CreatedReady(g, d, dir.bl, o.at, field, e, p.entry, p.addr, p.index);
      FileOfCount(g, d, dir, c, name);
      CreatedServes(g, d, dir, c, ps, fd, name, mode, o.at, t, p, e);
      c' := Added(c, fd, t, o.at);
    }
  }

  lemma FileOfCount(g: FatInfo, d: Disk, dir: Dir, c: Catalog, name: CString)
    requires OnDiskBlocks(d, dir.bl) && EntriesOk(EntriesOf(d, dir.bl), c.place)
    ensures FileOf(g, d, dir, c, name) <= |c.place|
  {
    hide EntriesOf, EntriesOk;
  }
}
