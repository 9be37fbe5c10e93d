/** Whole runs of a program against the driver. */
module Sessions {
  import opened Bytes
  import opened Layout
  import opened Names
  import opened BlockCache
  import opened Descriptor
  import opened Directory
  import opened FlatFiles
  import opened NamedFiles
  import opened Folders
  import opened FolderCommands
  import opened Surroundings
  import opened FileSystems

  /** One command on a handle. */
  method Act(fs: FileSystem, fd: byte, c: Command) returns (a: Answer)
    requires fs.Asks(On(fd, c)) && fd < MAX_FILE_DESC
    modifies fs, fs.vol, fs.vol.cacheBlock, fs.descs
    ensures fs.Serves(On(fd, c), a)
  {
    hide Asked, Served, CatalogOk;
    var free := fs.descs[fd].isFree;
    match c {
      case Read(len) =>
        var dst := new byte[len];
        var result := fs.FatRead(fd, dst, len);
        a := if free then Failed(fs.vol.lastError) else Did(Data(dst[..result]));
      case Write(bytes) =>
        WriteSize(fs.vol.info, fs.vol.disk, fs.dir, fs.cat, fs.Views(), fd, bytes);
        var src := new byte[|bytes|](i requires 0 <= i < |bytes| => bytes[i]);
        assert src[..|bytes|] == bytes;
        var result, _ := fs.FatWrite(fd, src, |bytes|);
        a := if free then Failed(fs.vol.lastError) else Did(Count(result));
      case Seek(offset) =>
        var ok := fs.FatSeek(fd, offset);
        a := if ok then Did(Done) else Failed(fs.vol.lastError);
      case SeekEnd =>
        var ok := fs.FatSeekEnd(fd);
        a := if ok then Did(Done) else Failed(fs.vol.lastError);
      case Truncate =>
        var ok, _ := fs.FatTruncate(fd);
        a := if ok then Did(Done) else Failed(fs.vol.lastError);
    }
  }

  lemma WriteSize(g: FatInfo, d: Disk, dir: Dir, c: Catalog, ps: seq<Desc>, fd: byte, bytes: seq<byte>)
    requires Asked(g, d, dir, c, ps, On(fd, Write(bytes)))
    ensures |bytes| < 0x1_0000
  {
  }

  /** One call. */
  method Call(fs: FileSystem, parent: Option<DirEntry>, r: Request) returns (a: Answer)
    requires fs.Asks(r) && (r.OpenFile? || r.fd < MAX_FILE_DESC)
    requires ClusterOf(parent) == fs.dir.cluster
    modifies fs, fs.vol, fs.vol.cacheBlock, fs.descs
    ensures fs.Serves(r, a)
  {
    hide Asked, Served, CatalogOk;
    match r {
      case OpenFile(name, mode) =>
        var fd := fs.FatOpenFile(parent, name, mode);
        a := if fd == FAT_BAD_DESC then Failed(fs.vol.lastError) else Opened(fd);
      case Close(fd) =>
        var ok := fs.FatClose(fd);
        a := Closed;
      case On(fd, c) =>
        a := Act(fs, fd, c);
    }
  }

  lemma RestAtStart(fs: FileSystem)
    requires fs.Valid()
    ensures RestKept(fs.vol.info, fs.vol.disk, fs.vol.disk, fs.dir, fs.cat.others)
  {
    hide RestKept;
    RestSame(fs.vol.info, fs.vol.disk, fs.dir, fs.cat.others);
  }

  /** Any run of promised calls gives the answers that named byte strings would give, leaves what named
      byte strings would leave, and changes nothing else on the volume. */
  method Run(fs: FileSystem, parent: Option<DirEntry>, rs: seq<Request>) returns (answers: seq<Answer>)
    requires fs.Valid() && AllPromised(fs.Cb(), fs.Seen(), rs)
    requires ClusterOf(parent) == fs.dir.cluster
    modifies fs, fs.vol, fs.vol.cacheBlock, fs.descs
    ensures fs.Valid() && (fs.Seen(), answers) == Serve(fs.Cb(), old(fs.Seen()), rs)
    ensures fs.cat.others == old(fs.cat.others)
    ensures RestKept(fs.vol.info, old(fs.vol.disk), fs.vol.disk, fs.dir, fs.cat.others)
    decreases |rs|
  {
    hide RestKept;
    ghost var g, d, others := fs.vol.info, fs.vol.disk, fs.cat.others;
    if rs == [] {
      RestAtStart(fs);
      return [];
    }
    var a := Call(fs, parent, rs[0]);
    ghost var e := fs.vol.disk;
    var rest := Run(fs, parent, rs[1..]);
    RestTrans(g, d, e, fs.vol.disk, fs.dir, others);
    return [a] + rest;
  }

  /** A call as a step of what a program sees. */
  method CallSeen(fs: FileSystem, parent: Option<DirEntry>, r: Request) returns (a: Answer)
    requires fs.Valid() && Promised(fs.Cb(), fs.Seen(), r) && (r.OpenFile? || r.fd < MAX_FILE_DESC)
    requires ClusterOf(parent) == fs.dir.cluster
    modifies fs, fs.vol, fs.vol.cacheBlock, fs.descs
    ensures fs.Valid() && (fs.Seen(), a) == Step(fs.Cb(), old(fs.Seen()), r)
  {
    hide Step, Promised, RestKept, Volume.Coherent, Volume.Shape;
    a := Call(fs, parent, r);
  }

  /** Persistence: what a file holds is read again after closing it and opening it by its name. */
  method Reopen(fs: FileSystem, parent: Option<DirEntry>, fd: byte, name: CString, len: word) returns (bytes: seq<byte>)
    requires fs.Valid() && ClusterOf(parent) == fs.dir.cluster && OpenAs(fs.Seen(), fd, name)
    modifies fs, fs.vol, fs.vol.cacheBlock, fs.descs
    ensures fs.Valid() && bytes == Beginning(old(fs.Seen()), fd, len)
  {
    hide OpenAs, Step, Promised, Wellformed, CatalogOk, Beginning, FolderOf, Volume.Coherent, Volume.Shape;
    ghost var n := ReopenPlan(fs.Cb(), fs.Seen(), fd, name, len);
    OpenAsHandle(fs.Seen(), fd, name);
    var shut := CallSeen(fs, parent, Close(fd));
    var again := CallSeen(fs, parent, OpenFile(name, 0));
    var read := CallSeen(fs, parent, On(again.fd, Read(len)));
    bytes := read.reply.bytes;
  }

  lemma OpenAsHandle(f: Folder, fd: byte, name: CString)
    requires Wellformed(f) && OpenAs(f, fd, name)
    ensures fd < MAX_FILE_DESC
  {
  }
}
