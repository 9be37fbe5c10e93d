/** The commands on an open file as steps of what a program sees. */
module FolderCommands {
  import opened Bytes
  import opened Errors
  import opened Chains
  import opened Layout
  import opened Content
  import opened Descriptor
  import opened Position
  import opened FileSteps
  import opened FileIO
  import opened Writing
  import opened Truncation
  import opened Seeking
  import opened Entries
  import opened FlatFiles
  import opened NamedFiles
  import opened System
  import opened Refinement
  import opened Folders
  import opened FolderSteps
  import opened Surroundings

  lemma ClusterBytesPositive(g: FatInfo)
    requires WellFormed(g)
    ensures ClusterBytes(g) > 0
  {
    ClusterSize(g);
  }

  lemma SeenWellformed(g: FatInfo, d: Disk, dir: Dir, c: Catalog, ps: seq<Desc>)
    requires CatalogOk(g, d, dir, c, ps)
    ensures ClusterBytes(g) > 0 && Wellformed(FolderOf(g, d, dir, c))
  {
    hide Sound, DirOk, EntriesOf, Abstract, Holes, Ends, Reserved, ClosedOk, EntriesOk, OpenOn;
    var es := EntriesOf(d, dir.bl);
    SoundParts(g, d, c.files, c.others);
    forall i | 0 <= i < |c.files|
      ensures Abstract(g, d, c.files).files[i].pos <= |Abstract(g, d, c.files).files[i].content|
    {
      FlatIs(g, d, c.files, i);
    }
    forall k | 0 <= k < |ps| && c.handles[k].OnFile?
      ensures c.handles[k].file < |c.files|
    {
      assert DescOk(es, dir.bl, c, c.handles[k], ps[k]);
      OpenOnFile(es, dir.bl, c, c.handles[k].file, ps[k]);
    }
    ClusterBytesPositive(g);
  }

  /** What the driver relies on when a handle is open on a file. */
  lemma HandleFacts(g: FatInfo, d: Disk, dir: Dir, c: Catalog, ps: seq<Desc>, k: nat, i: nat)
    requires CatalogOk(g, d, dir, c, ps) && k < |ps| && c.handles[k] == OnFile(i)
    ensures i < |c.files| && Fits(g, d) && Mirrored(g, d) && CanGrow(g, d, c.files[i].chain)
    ensures Open(g, d, c.files[i]) && ps[k].s == Held(c, i) && (i in c.astray ==> Astray(g, ps[k].s, c.files[i]))
    ensures !ps[k].free && !ps[k].stale && !ps[k].root
  {
    hide Sound, DirOk, EntriesOf, ClosedOk, EntriesOk, Open, CanGrow, Encode, Astray;
    var es := EntriesOf(d, dir.bl);
    assert DescOk(es, dir.bl, c, c.handles[k], ps[k]);
    SoundParts(g, d, c.files, c.others);
    OpenCanGrow(g, d, c.files[i]);
  }

  lemma HandleUnused(g: FatInfo, d: Disk, dir: Dir, c: Catalog, ps: seq<Desc>, k: nat)
    requires CatalogOk(g, d, dir, c, ps) && k < |ps|
    ensures |ps| == |c.handles| == MAX_FILE_DESC
    ensures c.handles[k].Unused? <==> ps[k].free
    ensures !c.handles[k].Elsewhere? ==> !ps[k].stale
  {
    hide Sound, DirOk, EntriesOf, ClosedOk, EntriesOk, Encode, Describes;
    assert DescOk(EntriesOf(d, dir.bl), dir.bl, c, c.handles[k], ps[k]);
  }

  lemma FileSeparate(g: FatInfo, d: Disk, ss: seq<State>, others: set<nat>, i: nat)
    requires Sound(g, d, ss, others) && i < |ss|
    ensures Outside(ss[i].chain, others)
  {
    hide Fat, AllOpen, Accounted, Mirrored, FreeUsable;
  }

  /** The request is one whose outcome is promised. */
  ghost predicate Asked(g: FatInfo, d: Disk, dir: Dir, c: Catalog, ps: seq<Desc>, r: Request) {
    && CatalogOk(g, d, dir, c, ps)
    && ClusterBytes(g) > 0 && Wellformed(FolderOf(g, d, dir, c))
    && Promised(ClusterBytes(g), FolderOf(g, d, dir, c), r)
  }

  /** The request has been served: the invariant holds again, what a program sees has made the promised
      step with the promised answer, and nothing else on the volume has changed. */
  ghost predicate Served(g: FatInfo, d: Disk, dir: Dir, c: Catalog, ps: seq<Desc>, r: Request,
                         e: Disk, c': Catalog, ps': seq<Desc>, a: Answer)
  {
    && Asked(g, d, dir, c, ps, r)
    && CatalogOk(g, e, dir, c', ps')
    && (FolderOf(g, e, dir, c'), a) == Step(ClusterBytes(g), FolderOf(g, d, dir, c), r)
    && c'.others == c.others && RestKept(g, d, e, dir, c.others)
  }

  lemma AskedOk(g: FatInfo, d: Disk, dir: Dir, c: Catalog, ps: seq<Desc>, r: Request)
    requires Asked(g, d, dir, c, ps, r)
    ensures CatalogOk(g, d, dir, c, ps)
    ensures r.On? && r.fd < |c.handles| ==> !c.handles[r.fd].Elsewhere?
    ensures r.Close? && r.fd < |c.handles| ==> c.handles[r.fd].OnFile?
  {
  }

  lemma ServedOk(g: FatInfo, d: Disk, dir: Dir, c: Catalog, ps: seq<Desc>, r: Request, e: Disk, c': Catalog,
                 ps': seq<Desc>, a: Answer)
    requires Served(g, d, dir, c, ps, r, e, c', ps', a)
    ensures CatalogOk(g, e, dir, c', ps')
  {
  }

  lemma ReadServes(g: FatInfo, d: Disk, dir: Dir, c: Catalog, ps: seq<Desc>, fd: byte, i: nat, t: State, q: Desc,
                   a: seq<byte>, b: seq<byte>, len: word, n: nat)
    requires Asked(g, d, dir, c, ps, On(fd, Read(len))) && fd < |ps| && c.handles[fd] == OnFile(i) && i < |c.files|
    requires ReadTo(g, d, c.files[i], t, a, b, 0, n) && n == Min(len, c.files[i].size - c.files[i].off)
    requires Worked(ps[fd], t, q)
    ensures n <= |b|
    ensures Served(g, d, dir, c, ps, On(fd, Read(len)), d, Moved(c, i, t, t), ps[fd := q], Did(Data(b[..n])))
    ensures CatalogOk(g, d, dir, Moved(c, i, t, t), ps[fd := q])
  {
    hide RestKept, Sound, DirOk, EntriesOf, Abstract, Holes, Ends, Reserved, NamesOf, Listed, Worked, ReadTo,
      Wellformed;
    ReadRefines(g, d, c.files, c.others, i, t, a, b, len, n);
    CommandKeeps(g, d, dir, c, ps, fd, i, d, t, t, q);
    SoundParts(g, d, c.files, c.others);
    RestSame(g, d, dir, c.others);
  }

  lemma WriteServes(g: FatInfo, d: Disk, dir: Dir, c: Catalog, ps: seq<Desc>, fd: byte, i: nat, e: Disk, t: State,
                    q: Desc, bytes: seq<byte>, r: nat)
    requires Asked(g, d, dir, c, ps, On(fd, Write(bytes))) && fd < |ps| && c.handles[fd] == OnFile(i) && i < |c.files|
    requires r <= |bytes| && Reached(g, d, c.files[i], e, t, bytes[..r]) && Fits(g, e) && Open(g, e, t)
    requires r < |bytes| ==> Free(Fat0(g, e)) == {} && AtFullEnd(g, t)
    requires Worked(ps[fd], t, q)
    ensures Served(g, d, dir, c, ps, On(fd, Write(bytes)), e, Moved(c, i, t, t), ps[fd := q], Did(Count(r)))
    ensures CatalogOk(g, e, dir, Moved(c, i, t, t), ps[fd := q])
  {
    hide RestKept, Sound, DirOk, EntriesOf, Abstract, Holes, Ends, Reserved, NamesOf, Listed, Worked, Wellformed, Fat,
      Grew, Open, FileData, Outside, Reached, AtFullEnd, WellFormed, Free, Apply, ClusterBytes;
    SoundParts(g, d, c.files, c.others);
    ReachedParts(g, d, c.files[i], e, t, bytes[..r]);
    WriteRefines(g, d, c.files, c.others, i, e, t, bytes, r);
    FileSeparate(g, d, c.files, c.others, i);
    GrewKeepsDir(g, d, c.files[i].chain, e, t.chain, dir, c.others);
    CommandKeeps(g, d, dir, c, ps, fd, i, e, t, t, q);
    RestGrew(g, d, c.files, c.others, c.files[i].chain, e, t.chain, dir);
  }

  /** The place that a seek from `p` leads to: `u` is what the descriptor holds, `t` what it should. */
  lemma SeekOutcome(g: FatInfo, d: Disk, s: State, p: State, u: State, offset: nat) returns (t: State)
    requires Fits(g, d) && Open(g, d, s) && (p == s || Drifted(g, p, s)) && SameFile(p, u) && u.off <= u.size
    requires OnChain(Fat0(g, d), u) && g.sectorsPerCluster > 0 && (Open(g, d, u) <==> Seekable(g, u.size, offset))
    requires !Seekable(g, u.size, offset) ==> PastCluster(g, u)
    ensures Open(g, d, t) && SameFile(s, t) && t.off == u.off
    ensures (u == t <==> Seekable(g, s.size, offset)) && (u == t || Drifted(g, u, t))
  {
    hide Fat, WellFormed, ClusterBlock, Span, BlockOf, ChainOk, PastCluster, SizeFits;
    t := u;
    DriftedOnChain(g, d, p, s);
    if !Seekable(g, u.size, offset) {
      SameFileOk(g, d, p, u);
      t := Undrifted(g, d, u);
    }
  }

  lemma SameFileOk(g: FatInfo, d: Disk, p: State, u: State)
    requires Fits(g, d) && FileOk(g, d, p) && SameFile(p, u)
    ensures FileOk(g, d, u)
  {
  }

  lemma SeekServes(g: FatInfo, d: Disk, dir: Dir, c: Catalog, ps: seq<Desc>, fd: byte, i: nat, t: State, u: State,
                   q: Desc, m: Command)
    requires Asked(g, d, dir, c, ps, On(fd, m)) && fd < |ps| && c.handles[fd] == OnFile(i) && i < |c.files|
    requires (m.Seek? || m.SeekEnd?) && Open(g, d, t) && SameFile(c.files[i], t)
    requires t.off == if m.Seek? then Min(m.offset, c.files[i].size) else c.files[i].size
    requires g.sectorsPerCluster > 0 && (u == t <==> m.Seek? ==> Seekable(g, c.files[i].size, m.offset))
    requires (u == t || Drifted(g, u, t)) && Worked(ps[fd], u, q)
    ensures Served(g, d, dir, c, ps, On(fd, m), d, Moved(c, i, t, u), ps[fd := q], Did(Done))
    ensures CatalogOk(g, d, dir, Moved(c, i, t, u), ps[fd := q])
  {
    hide RestKept, Sound, DirOk, EntriesOf, Abstract, Holes, Ends, Reserved, NamesOf, Listed, Worked, Wellformed, Open,
      Drifted, AstrayOk;
    SeekRefines(g, d, c.files, c.others, i, t, m);
    CommandKeeps(g, d, dir, c, ps, fd, i, d, t, u, q);
    ListedEntries(EntriesOf(d, dir.bl), dir.bl, c, ps);
    StraysIs(g, d, dir, c, i, m);
    SoundParts(g, d, c.files, c.others);
    RestSame(g, d, dir, c.others);
  }

  lemma SeekDone(g: FatInfo, d: Disk, dir: Dir, c: Catalog, ps: seq<Desc>, fd: byte, i: nat, p: State, u: State,
                 offset: dword, q: Desc) returns (c': Catalog)
    requires Asked(g, d, dir, c, ps, On(fd, Seek(offset))) && fd < |ps| && c.handles[fd] == OnFile(i) && i < |c.files|
    requires Fits(g, d) && Open(g, d, c.files[i]) && (p == c.files[i] || Drifted(g, p, c.files[i]))
    requires SameFile(p, u) && u.off == (if u.size < offset then u.size else offset)
    requires OnChain(Fat0(g, d), u) && g.sectorsPerCluster > 0 && (Open(g, d, u) <==> Seekable(g, u.size, offset))
    requires !Seekable(g, u.size, offset) ==> PastCluster(g, u)
    requires Worked(ps[fd], u, q)
    ensures Served(g, d, dir, c, ps, On(fd, Seek(offset)), d, c', ps[fd := q], Did(Done))
    ensures CatalogOk(g, d, dir, c', ps[fd := q])
  {
    hide Asked, Served, CatalogOk, Worked, Fat, Open, OnChain, Seekable, PastCluster, WellFormed;
    var t := SeekOutcome(g, d, c.files[i], p, u, offset);
    SeekServes(g, d, dir, c, ps, fd, i, t, u, q, Seek(offset));
    c' := Moved(c, i, t, u);
  }

  /** What a cut at the position of `p` leads to: `u` is what the descriptor holds, `t` what it should. */
  lemma CutOutcome(g: FatInfo, d: Disk, p: State, e: Disk, u: State) returns (t: State)
    requires Fits(g, d) && Cuttable(g, d, p) && Fits(g, e) && KeepFor(p) <= |p.chain|
    requires u.chain == p.chain[..KeepFor(p)]
    requires u.size == u.off == p.off && (p.off == 0 ==> u.head == 0 && u.lastLen == p.lastLen)
    requires Open(g, e, u) <==> p.off > 0 || p.size == 0
    requires p.off > 0 ==> KeepsBytes(g, d, p, e, u)
    ensures Open(g, e, t) && t.chain == u.chain && t.size == t.off == p.off && KeepsBytes(g, d, p, e, t)
    ensures (u == t <==> p.off > 0 || p.size == 0) && (u == t || Spent(u, t))
  {
    hide Fat, WellFormed, ClusterBlock, ChainOk, Standing, FileData, Open;
    CuttableHolds(g, d, p);
    t := u;
    if p.off == 0 < p.size {
      BeginningFacts(g, d, p);
      t := State(0, u.blockAddr, 0, 0, EOC, 0, 0, 0, 0, [], 0);
      NothingIsOpen(g, e, t);
    }
    OpenHolds(g, e, t);
    if p.off == 0 {
      EmptyData(g, e, t);
    }
  }

  lemma NothingIsOpen(g: FatInfo, d: Disk, t: State)
    requires Fits(g, d) && t == State(0, t.blockAddr, 0, 0, EOC, 0, 0, 0, 0, [], 0)
    ensures Open(g, d, t)
  {
    ClusterSize(g);
  }

  lemma EmptyData(g: FatInfo, d: Disk, t: State)
    requires Fits(g, d) && Holds(g, d, t) && t.size == 0
    ensures FileData(g, d, t) == []
  {
  }

  /** Behind the cluster before it the same is cut off as at the position itself. */
  lemma DriftedCut(g: FatInfo, d: Disk, p: State, s: State)
    requires Fits(g, d) && Open(g, d, s) && (p == s || Drifted(g, p, s))
    ensures Cuttable(g, d, p) && KeepFor(p) == KeepFor(s) && p.chain == s.chain && p.off == s.off && p.size == s.size
    ensures Holds(g, d, p) && Holds(g, d, s) && FileData(g, d, p) == FileData(g, d, s)
  {
    hide Fat, WellFormed, ClusterBlock, Span, BlockOf, IsChain, SizeFits, LastLen;
    DriftedOnChain(g, d, p, s);
    OpenCuttable(g, d, s);
    ClusterSize(g);
    if p != s {
      SpanStep(g, p.at);
    }
    CuttableHolds(g, d, p);
    CuttableHolds(g, d, s);
  }

  lemma TruncateServes(g: FatInfo, d: Disk, dir: Dir, c: Catalog, ps: seq<Desc>, fd: byte, i: nat, e: Disk, t: State,
                       u: State, q: Desc)
    requires Asked(g, d, dir, c, ps, On(fd, Truncate)) && fd < |ps| && c.handles[fd] == OnFile(i) && i < |c.files|
    requires SameOutsideFats(g, d, e) && Mirrored(g, e) && KeepFor(c.files[i]) <= |c.files[i].chain|
    requires t.chain == c.files[i].chain[..KeepFor(c.files[i])]
    requires InTable(Fat0(g, d), c.files[i].chain)
    requires Fat0(g, e) == CutFat(Fat0(g, d), c.files[i].chain, KeepFor(c.files[i]))
    requires Open(g, e, t) && t.size == t.off == c.files[i].off <= c.files[i].size
    requires Fits(g, d) && KeepsBytes(g, d, c.files[i], e, t)
    requires (u == t <==> c.files[i].off > 0 || c.files[i].size == 0) && (u == t || Spent(u, t)) && Worked(ps[fd], u, q)
    ensures Served(g, d, dir, c, ps, On(fd, Truncate), e, Moved(c, i, t, u), ps[fd := q], Did(Done))
    ensures CatalogOk(g, e, dir, Moved(c, i, t, u), ps[fd := q])
  {
    hide RestKept, Sound, DirOk, EntriesOf, Abstract, Holes, Ends, Reserved, NamesOf, Listed, Worked, Wellformed, Fat,
      Open, FileData, CutFat, KeepFor, Mirrored, Outside, WellFormed, Apply, ClusterBytes, InTable, SameOutsideFats,
      Spent, AstrayOk;
    SoundParts(g, d, c.files, c.others);
    CutRefines(g, d, c.files, c.others, i, e, t);
    FileSeparate(g, d, c.files, c.others, i);
    CutKeepsDir(g, d, c.files[i].chain, KeepFor(c.files[i]), e, dir, c.others);
    CommandKeeps(g, d, dir, c, ps, fd, i, e, t, u, q);
    ListedEntries(EntriesOf(d, dir.bl), dir.bl, c, ps);
    StraysIs(g, d, dir, c, i, Truncate);
    RestCut(g, d, c.others, c.files[i].chain, KeepFor(c.files[i]), e, dir);
  }

  lemma TruncateDone(g: FatInfo, d: Disk, dir: Dir, c: Catalog, ps: seq<Desc>, fd: byte, i: nat, p: State, e: Disk,
                     u: State, q: Desc) returns (c': Catalog)
    requires Asked(g, d, dir, c, ps, On(fd, Truncate)) && fd < |ps| && c.handles[fd] == OnFile(i) && i < |c.files|
    requires Fits(g, d) && Open(g, d, c.files[i]) && (p == c.files[i] || Drifted(g, p, c.files[i]))
    requires SameOutsideFats(g, d, e) && Mirrored(g, e) && KeepFor(p) <= |p.chain| && InTable(Fat0(g, d), p.chain)
    requires u.chain == p.chain[..KeepFor(p)] && Fat0(g, e) == CutFat(Fat0(g, d), p.chain, KeepFor(p))
    requires u.size == u.off == p.off && (p.off == 0 ==> u.head == 0 && u.lastLen == p.lastLen)
    requires Open(g, e, u) <==> p.off > 0 || p.size == 0
    requires p.off > 0 ==> KeepsBytes(g, d, p, e, u)
    requires Worked(ps[fd], u, q)
    ensures c'.handles == c.handles && Served(g, d, dir, c, ps, On(fd, Truncate), e, c', ps[fd := q], Did(Done))
    ensures CatalogOk(g, e, dir, c', ps[fd := q])
  {
    hide Asked, Served, Worked, Fat, Open, CutFat, KeepFor, Mirrored, WellFormed, InTable, KeepsBytes, Spent, Drifted,
      Cuttable;
    DriftedCut(g, d, p, c.files[i]);
    var t := CutOutcome(g, d, p, e, u);
    DriftedKeeps(g, d, p, c.files[i], e, t);
    CuttableOff(g, d, p);
    TruncateServes(g, d, dir, c, ps, fd, i, e, t, u, q);
    c' := Moved(c, i, t, u);
  }

  lemma CuttableOff(g: FatInfo, d: Disk, s: State)
    requires Fits(g, d) && Cuttable(g, d, s)
    ensures s.off <= s.size
  {
  }

  lemma DriftedKeeps(g: FatInfo, d: Disk, p: State, s: State, e: Disk, t: State)
    requires Fits(g, d) && Fits(g, e) && KeepsBytes(g, d, p, e, t)
    requires Holds(g, d, s) && FileData(g, d, p) == FileData(g, d, s) && p.off == s.off
    ensures KeepsBytes(g, d, s, e, t)
  {
  }

  /** Which commands lead a descriptor astray, in terms of the file's record. */
  lemma StraysIs(g: FatInfo, d: Disk, dir: Dir, c: Catalog, i: nat, m: Command)
    requires Sound(g, d, c.files, c.others) && OnDiskBlocks(d, dir.bl) && EntriesOk(EntriesOf(d, dir.bl), c.place)
    requires i < |c.files|
    ensures g.sectorsPerCluster > 0 && ClusterBytes(g) > 0
    ensures Strays(ClusterBytes(g), FolderOf(g, d, dir, c).store.files[i], m) <==>
      match m
      case Seek(o) => !Seekable(g, c.files[i].size, o)
      case Truncate => c.files[i].off == 0 < c.files[i].size
      case _ => false
  {
    hide Sound, EntriesOf, EntriesOk, Holes, Ends, Reserved, NamesOf, Abstract, FileData, Open, Fat;
    SoundParts(g, d, c.files, c.others);
    ClusterSize(g);
    FlatIs(g, d, c.files, i);
  }

  /** Using a handle that is not open is an error and does nothing. */
  lemma UnusedServes(g: FatInfo, d: Disk, dir: Dir, c: Catalog, ps: seq<Desc>, fd: byte, m: Command)
    requires Asked(g, d, dir, c, ps, On(fd, m)) && fd < |ps| && (ps[fd].free || ps[fd].stale)
    ensures ps[fd].free
    ensures Served(g, d, dir, c, ps, On(fd, m), d, c, ps, Failed(FAT_ERROR_BAD_DESCRIPTOR))
  {
    hide RestKept, Sound, DirOk, EntriesOf, Abstract, Holes, Ends, Reserved, NamesOf, Listed, Wellformed;
    HandleUnused(g, d, dir, c, ps, fd);
    SoundParts(g, d, c.files, c.others);
    RestSame(g, d, dir, c.others);
  }

  lemma RestClosed(g: FatInfo, d: Disk, dir: Dir, c: Catalog, ps: seq<Desc>, k: nat, e: Disk)
    requires CatalogOk(g, d, dir, c, ps) && k < |ps| == |c.handles| && c.handles[k].OnFile? && WrittenBack(d, ps[k], e)
    ensures RestKept(g, d, e, dir, c.others)
  {
    hide Sound, DirOk, EntriesOf, ClosedOk, EntriesOk, Encode, RestKept, Splice, AstrayOk;
    var es := EntriesOf(d, dir.bl);
    SoundParts(g, d, c.files, c.others);
    RestSame(g, d, dir, c.others);
    assert DescOk(es, dir.bl, c, c.handles[k], ps[k]);
    PlacesApart(es, c.place);
    if ps[k].modified {
      RestStored(g, d, dir, c.others, c.place[c.handles[k].file] / 16,
                 Splice(d[ps[k].addr], ps[k].index, Encode(ps[k].entry)));
    }
  }

  lemma CloseServes(g: FatInfo, d: Disk, dir: Dir, c: Catalog, ps: seq<Desc>, fd: byte, e: Disk)
    requires Asked(g, d, dir, c, ps, Close(fd)) && fd < |ps| == |c.handles| && WrittenBack(d, ps[fd], e)
    requires c.handles[fd].OnFile?
    ensures Served(g, d, dir, c, ps, Close(fd), e, Shut(c, fd, c.handles[fd].file),
                   ps[fd := ps[fd].(free := true, stale := false)], Closed)
    ensures CatalogOk(g, e, dir, Shut(c, fd, c.handles[fd].file), ps[fd := ps[fd].(free := true, stale := false)])
  {
    hide RestKept, Sound, DirOk, EntriesOf, Abstract, Holes, Ends, Reserved, NamesOf, Listed, Wellformed, WrittenBack;
    CloseKeeps(g, d, dir, c, ps, fd, c.handles[fd].file, e);
    RestClosed(g, d, dir, c, ps, fd, e);
  }

  // ------------------------------------------------ what being promised comes to

  lemma AllowedFacts(g: FatInfo, d: Disk, dir: Dir, c: Catalog, ps: seq<Desc>, fd: byte, m: Command)
    requires Asked(g, d, dir, c, ps, On(fd, m)) && fd < |c.handles| && c.handles[fd].OnFile?
    ensures c.handles[fd].file < |c.files|
    ensures var s := c.files[c.handles[fd].file];
            && (m.Write? ==> InRange16(s.size, s.off, |m.bytes|))
            && (c.handles[fd].file in c.astray ==> s.size > 0 && (m.Seek? || m.SeekEnd? || m.Truncate?))
  {
    hide Sound, DirOk, EntriesOf, Holes, Ends, Reserved, NamesOf, Listed, Abstract, ClusterBytes, AstrayOk, FileData;
    ListedEntries(EntriesOf(d, dir.bl), dir.bl, c, ps);
    SoundParts(g, d, c.files, c.others);
    FlatIs(g, d, c.files, c.handles[fd].file);
  }

  /** The descriptor that a command finds: the one it should find, or one that has drifted and is now
      to be moved or cut. */
  lemma HeldFacts(g: FatInfo, d: Disk, dir: Dir, c: Catalog, ps: seq<Desc>, fd: byte, m: Command)
    requires Asked(g, d, dir, c, ps, On(fd, m)) && fd < |ps| == |c.handles| && c.handles[fd].OnFile?
    ensures c.handles[fd].file < |c.files|
    ensures var i := c.handles[fd].file;
            ps[fd].s == c.files[i] || (Drifted(g, ps[fd].s, c.files[i]) && (m.Seek? || m.SeekEnd? || m.Truncate?))
  {
    hide Asked, CatalogOk, Drifted;
    AskedOk(g, d, dir, c, ps, On(fd, m));
    AllowedFacts(g, d, dir, c, ps, fd, m);
    HandleFacts(g, d, dir, c, ps, fd, c.handles[fd].file);
  }

  lemma HandleCount(g: FatInfo, d: Disk, dir: Dir, c: Catalog, ps: seq<Desc>)
    requires CatalogOk(g, d, dir, c, ps)
    ensures |ps| == |c.handles| == MAX_FILE_DESC
  {
    hide Sound, DirOk, EntriesOf, EntriesOk, DescOk, ClosedOk;
  }

  /** Unless it is marked as modified, the entry of an open file is on the card as its descriptor has it. */
  lemma EntryOnCard(g: FatInfo, d: Disk, dir: Dir, c: Catalog, ps: seq<Desc>, k: nat)
    requires CatalogOk(g, d, dir, c, ps) && k < |ps| == |c.handles| && c.handles[k].OnFile? && !ps[k].modified
    ensures OnCard(d, ps[k].addr, ps[k].index, ps[k].entry)
  {
    hide Sound, DirOk, EntriesOf, ClosedOk, EntriesOk, Encode, Decode, RawAt, OnCard, AstrayOk;
    var es := EntriesOf(d, dir.bl);
    assert DescOk(es, dir.bl, c, c.handles[k], ps[k]);
    PlacesApart(es, c.place);
    var q := c.place[c.handles[k].file];
    EntryAt(d, dir.bl, q / 16, q % 16);
    RawBytes(d, ps[k].addr, q % 16);
    DecodeEncode(ps[k].entry);
  }

  lemma EntryPlace(g: FatInfo, d: Disk, dir: Dir, c: Catalog, ps: seq<Desc>, k: nat)
    requires CatalogOk(g, d, dir, c, ps) && k < |ps| == |c.handles| && c.handles[k].OnFile?
    ensures ps[k].addr < |d| && ps[k].index + ENTRY_LEN <= BLOCK_SIZE && IsEntry(ps[k].entry)
  {
    hide Sound, DirOk, EntriesOf, ClosedOk, EntriesOk, Encode;
    var es := EntriesOf(d, dir.bl);
    assert DescOk(es, dir.bl, c, c.handles[k], ps[k]);
    PlacesApart(es, c.place);
  }
}
