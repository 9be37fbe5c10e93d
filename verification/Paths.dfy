/** Walking a path from the root directory. */
module Paths {
  import opened Bytes
  import opened Errors
  import opened Chains
  import opened Layout
  import opened BlockCache
  import opened Content
  import opened Descriptor
  import opened Position
  import opened Names
  import opened Entries
  import opened Directory
  import opened NamedFiles
  import opened Folders
  import opened Listing
  import opened FileSystems

  const SLASH: byte := 0x2F
  const ATTR_DIRECTORY: byte := 16

  // ------------------------------------------------------------------ meaning

  /** The non-empty parts of a path between its slashes. */
  function Split(s: CString): (r: seq<CString>)
    ensures forall i :: 0 <= i < |r| ==> r[i] != []
    decreases |s|
  {
    if s == [] then []
    else if s[0] == SLASH then Split(s[1..])
    else [s[..Until(s, SLASH)]] + Split(s[Until(s, SLASH)..])
  }

  /** The path with these parts, each behind a slash. */
  ghost function PathOf(parts: seq<CString>): CString {
    if parts == [] then [] else [SLASH] + parts[0] + PathOf(parts[1..])
  }

  /** Splitting a path undoes joining its parts. */
  lemma {:induction false} SplitPathOf(parts: seq<CString>)
    requires forall i :: 0 <= i < |parts| ==> parts[i] != [] && SLASH !in parts[i]
    ensures Split(PathOf(parts)) == parts
  {
    if parts != [] {
      SplitPathOf(parts[1..]);
      PathStarts(parts[1..]);
      SplitPart(parts[0], PathOf(parts[1..]));
      assert PathOf(parts)[1..] == parts[0] + PathOf(parts[1..]);
    }
  }

  lemma PathStarts(parts: seq<CString>)
    ensures PathOf(parts) == [] || PathOf(parts)[0] == SLASH
  {
  }

  lemma SplitPart(part: CString, rest: CString)
    requires part != [] && SLASH !in part && (rest == [] || rest[0] == SLASH)
    ensures Split(part + rest) == [part] + Split(rest)
  {
    var s := part + rest;
    assert forall i :: 0 <= i < |part| ==> s[i] == part[i] && part[i] in part;
    UntilIs(s, SLASH, |part|);
    assert s[..|part|] == part && s[|part|..] == rest;
    hide Until;
  }

  ghost predicate EndsInSlash(s: seq<byte>) {
    s != [] && s[|s| - 1] == SLASH
  }

  /** Only a last part that no slash follows may be created. */
  ghost function LastMode(s: seq<byte>, mode: byte): byte {
    if EndsInSlash(s) then 0 else mode
  }

  /** Where a walk ends: in directory `cluster`, with the outcome `o` of looking the last part up. */
  datatype Resolution = Resolution(cluster: word, name: CString, o: Outcome)

  /** The directories that a walk may pass through. */
  ghost predicate TreeOk(g: FatInfo, d: Disk, dirs: map<word, Dir>)
    requires Fits(g, d)
  {
    OnDiskTree(d, dirs) && forall c :: c in dirs ==> DirectoryAt(g, d, c, dirs[c].ch, dirs[c].bl)
  }

  ghost predicate OnDiskTree(d: Disk, dirs: map<word, Dir>) {
    forall c :: c in dirs ==> OnDiskBlocks(d, dirs[c].bl)
  }

  ghost function LookUp(d: Disk, dir: Dir, name: CString, mode: byte): Outcome
    requires OnDiskBlocks(d, dir.bl)
  {
    Search(EntriesOf(d, dir.bl), 0, FatName(name), mode, -1)
  }

  /** The directory that the entry found stands for. */
  ghost function Below(d: Disk, dir: Dir, o: Outcome): word
    requires OnDiskBlocks(d, dir.bl)
  {
    if o.Found? && o.at < 16 * |dir.bl| then Decode(EntriesOf(d, dir.bl)[o.at]).clusterLo else 0
  }

  /** Every part but the last names a directory. */
  ghost predicate Walkable(d: Disk, dirs: map<word, Dir>, cluster: word, parts: seq<CString>)
    requires OnDiskTree(d, dirs)
    decreases |parts|
  {
    cluster in dirs &&
    (|parts| > 1 ==>
       var o := LookUp(d, dirs[cluster], parts[0], 0);
       o.Found? ==> Walkable(d, dirs, Below(d, dirs[cluster], o), parts[1..]))
  }

  /** Looking the parts up one after the other, each in the directory that the one before it names. */
  ghost function Resolve(d: Disk, dirs: map<word, Dir>, cluster: word, parts: seq<CString>, mode: byte): (r: Resolution)
    requires OnDiskTree(d, dirs)
    requires parts != [] && Walkable(d, dirs, cluster, parts)
    ensures r.cluster in dirs
    decreases |parts|
  {
    var o := LookUp(d, dirs[cluster], parts[0], if |parts| == 1 then mode else 0);
    if |parts| > 1 && o.Found? then Resolve(d, dirs, Below(d, dirs[cluster], o), parts[1..], mode)
    else Resolution(cluster, parts[0], o)
  }

  lemma {:induction false} SplitSlashes(s: CString)
    ensures Split(s) == [] && s != [] ==> EndsInSlash(s)
    decreases |s|
  {
    if s != [] && s[0] == SLASH && |s| > 1 {
      SplitSlashes(s[1..]);
    }
  }

  // ------------------------------------------------------------------- driver

  /** Copies the part that starts at `from` to `dst`, with a zero behind it. */
  method CopyFirstEntry(dst: array<byte>, path: CString, from: nat) returns (p: nat)
    requires from <= |path| && dst.Length >= 1 && Until(path[from..], SLASH) < dst.Length
    modifies dst
    ensures p == from + Until(path[from..], SLASH)
    ensures dst[..p - from] == path[from..p] && dst[p - from] == 0
  {
    ghost var n := Until(path[from..], SLASH);
    p := from;
    while p < |path| && path[p] != SLASH
      invariant from <= p <= from + n <= |path|
      invariant dst[..p - from] == path[from..p]
    {
      assert path[from..][p - from] == path[p];
      dst[p - from] := path[p];
      p := p + 1;
    }
    assert p < |path| ==> path[from..][p - from] == path[p];
    dst[p - from] := 0;
  }

  /** The walk has reached directory `cluster` with `parts` still to go, or it is over. */
  ghost predicate Walking(d: Disk, dirs: map<word, Dir>, all: seq<CString>, mode: byte, cluster: word,
                          parts: seq<CString>) {
    && OnDiskTree(d, dirs)
    && all != [] && Walkable(d, dirs, 0, all)
    && parts != [] && Walkable(d, dirs, cluster, parts)
    && Resolve(d, dirs, cluster, parts, mode) == Resolve(d, dirs, 0, all, mode)
  }

  /** One part further. */
  lemma WalkOn(d: Disk, dirs: map<word, Dir>, all: seq<CString>, mode: byte, cluster: word, parts: seq<CString>)
    requires Walking(d, dirs, all, mode, cluster, parts)
    ensures cluster in dirs && OnDiskBlocks(d, dirs[cluster].bl)
    ensures var o := LookUp(d, dirs[cluster], parts[0], if |parts| == 1 then mode else 0);
            if |parts| > 1 && o.Found? then Walking(d, dirs, all, mode, Below(d, dirs[cluster], o), parts[1..])
            else Resolve(d, dirs, 0, all, mode) == Resolution(cluster, parts[0], o)
  {
    hide LookUp, Below;
  }

  /** The parts from position `p` on. */
  ghost function Parts(path: CString, p: nat): seq<CString>
    requires p <= |path|
  {
    Split(path[p..])
  }

  /** The mode for the part `s[..n]` of the path that is left. */
  lemma PartMode(path: CString, p: nat, mode: byte)
    requires p < |path| && path[p] != SLASH
    ensures var n := Until(path[p..], SLASH); var s := path[p..];
            && n > 0 && Parts(path, p) == [s[..n]] + Parts(path, p + n)
            && (if p + n == |path| then mode else 0) == (if |Parts(path, p)| == 1 then LastMode(path, mode) else 0)
            && (p + n == |path| ==> |Parts(path, p)| == 1)
  {
    var s := path[p..];
    var n := Until(s, SLASH);
    assert s[0] == path[p];
    assert s[n..] == path[p + n..];
    SplitSlashes(s[n..]);
    if p + n == |path| {
      assert s[n - 1] == path[|path| - 1];
    } else {
      assert s[n..][|s| - n - 1] == path[|path| - 1];
    }
  }

  lemma SkipSlash(path: CString, p: nat)
    requires p < |path| && path[p] == SLASH
    ensures Parts(path, p) == Parts(path, p + 1)
  {
    assert path[p..][0] == path[p] && path[p..][1..] == path[p + 1..];
  }

  /** The disk and the descriptor show the end of a successful walk. */
  ghost predicate Arrived(d: Disk, dirs: map<word, Dir>, all: seq<CString>, mode: byte, e: Disk, entry: DirEntry,
                          addr: int, index: int) {
    OnDiskTree(d, dirs) && all != [] && Walkable(d, dirs, 0, all) &&
    var r := Resolve(d, dirs, 0, all, mode);
    (r.o.Found? || r.o.Created?) && Resulted(d, dirs[r.cluster].bl, FatName(r.name), r.o, e, entry, addr, index)
  }

  /** The walk fails, and with this error. */
  ghost predicate Stuck(d: Disk, dirs: map<word, Dir>, all: seq<CString>, mode: byte, error: byte) {
    OnDiskTree(d, dirs) && all != [] && Walkable(d, dirs, 0, all) &&
    var o := Resolve(d, dirs, 0, all, mode).o;
    !o.Found? && !o.Created? && error == ErrorOf(o)
  }

  lemma WalkingParts(g: FatInfo, d: Disk, dirs: map<word, Dir>, all: seq<CString>, mode: byte, cluster: word,
                     parts: seq<CString>)
    requires Fits(g, d) && TreeOk(g, d, dirs) && Walking(d, dirs, all, mode, cluster, parts)
    ensures all != [] && Walkable(d, dirs, 0, all)
    ensures cluster in dirs && DirectoryAt(g, d, cluster, dirs[cluster].ch, dirs[cluster].bl)
  {
  }

  lemma NothingCreated(es: seq<Raw>, q: nat, name: seq<byte>, slot: int)
    requires q <= |es| && slot < |es|
    ensures !Search(es, q, name, 0, slot).Created?
    decreases |es| - q
  {
    assert !Creates(0);
  }

  /** What looking up one part means for the walk. */
  lemma PartDone(d: Disk, dirs: map<word, Dir>, all: seq<CString>, mode: byte, cluster: word, parts: seq<CString>,
                 curMode: byte, e: Disk, entry: DirEntry, addr: int, index: int)
    requires Walking(d, dirs, all, mode, cluster, parts) && curMode == (if |parts| == 1 then mode else 0)
    requires cluster in dirs && OnDiskBlocks(d, dirs[cluster].bl) && all != [] && Walkable(d, dirs, 0, all)
    ensures var o := LookUp(d, dirs[cluster], parts[0], curMode);
            && (|parts| > 1 && o.Found? && Resulted(d, dirs[cluster].bl, FatName(parts[0]), o, e, entry, addr,
                                                    index) ==>
                  e == d && Walking(d, dirs, all, mode, entry.clusterLo, parts[1..]))
            && (|parts| == 1 && (o.Found? || o.Created?)
                && Resulted(d, dirs[cluster].bl, FatName(parts[0]), o, e, entry, addr, index) ==>
                  Arrived(d, dirs, all, mode, e, entry, addr, index))
            && (!o.Found? && !o.Created? ==> Stuck(d, dirs, all, mode, ErrorOf(o)))
            && (|parts| > 1 ==> !o.Created?)
  {
    hide Search, FatName, EntriesOf, Walkable, Resolve, Decode, BitAnd;
    WalkOn(d, dirs, all, mode, cluster, parts);
    if |parts| > 1 {
      NothingCreated(EntriesOf(d, dirs[cluster].bl), 0, FatName(parts[0]), -1);
    }
  }

  /** Looks the next part of the path up in the directory that the descriptor's own entry names, and
      puts what it finds there. */
  method WalkPart(v: Volume, pfd: FileDescriptor, path: CString, p: nat, mode: byte, filename: array<byte>,
                  ghost dirs: map<word, Dir>, ghost all: seq<CString>)
    returns (p': nat, ok: bool, ghost steps: seq<Disk>)
    requires v.Valid() && TreeOk(v.info, v.disk, dirs) && filename != v.cacheBlock && filename.Length == 13
    requires p < |path| && path[p] != SLASH && Until(path[p..], SLASH) <= 12
    requires Walking(v.disk, dirs, all, LastMode(path, mode), pfd.dirEntry.clusterLo, Parts(path, p))
    modifies v, v.cacheBlock, filename, pfd`dirEntry, pfd`dirEntryBlockAddr, pfd`dirEntryIndexInBlock
    ensures p < p' <= |path| && v.Shape() && v.history == old(v.history) + steps
    ensures ok ==> v.Valid() && v.lastError == old(v.lastError) && |steps| <= 1
    ensures ok ==> if Parts(path, p') == [] then
        Arrived(old(v.disk), dirs, all, LastMode(path, mode), v.disk, pfd.dirEntry, pfd.dirEntryBlockAddr,
                pfd.dirEntryIndexInBlock)
      else
        && v.disk == old(v.disk) && steps == []
        && Walking(v.disk, dirs, all, LastMode(path, mode), pfd.dirEntry.clusterLo, Parts(path, p'))
    ensures !ok ==> v.disk == old(v.disk) && steps == []
    ensures v.reliable && !ok ==> v.Valid() && Stuck(v.disk, dirs, all, LastMode(path, mode), v.lastError)
  {
    hide Search, FatName, EntriesOf, Walkable, Resolve, Decode, BitAnd, Walking, Parts, DirectoryAt, Arrived, Stuck,
      LastMode, Resulted, Until, WellFormed, OnDiskTree;
    ghost var d, parts, cluster := v.disk, Parts(path, p), pfd.dirEntry.clusterLo;
    WalkingParts(v.info, d, dirs, all, LastMode(path, mode), cluster, parts);
    PartMode(path, p, mode);
    p' := CopyFirstEntry(filename, path, p);
    var curMode := if p' == |path| then mode else 0;
    var name := filename[..p' - p];
    assert name == path[p..p'] == parts[0] && parts[1..] == Parts(path, p');
    DirectorySearchable(v.info, v.disk, cluster, dirs[cluster].ch, dirs[cluster].bl);
    ok, steps := FindFile(v, Some(pfd.dirEntry), name, pfd, curMode, dirs[cluster].ch, dirs[cluster].bl);
    PartDone(d, dirs, all, LastMode(path, mode), cluster, parts, curMode, v.disk, pfd.dirEntry, pfd.dirEntryBlockAddr,
             pfd.dirEntryIndexInBlock);
  }

  /** Every part fits the driver's buffer for a name. */
  ghost predicate ShortParts(path: CString) {
    forall p :: 0 <= p < |path| && path[p] != SLASH ==> Until(path[p..], SLASH) <= 12
  }

  lemma PathStart(path: CString)
    ensures Parts(path, 0) == Split(path)
    ensures Parts(path, |path|) == []
  {
    assert path[0..] == path && path[|path|..] == [];
  }

  lemma WalkStart(d: Disk, dirs: map<word, Dir>, all: seq<CString>, mode: byte)
    requires OnDiskTree(d, dirs) && all != [] && Walkable(d, dirs, 0, all)
    ensures Walking(d, dirs, all, mode, 0, all)
  {
  }

  /** Follows the path from the root directory, with the descriptor's own entry as the directory to
      look in and as the place for what is found: the result is that of looking the parts up one after
      the other, and only the last one may be created. */
  method Walk(v: Volume, pfd: FileDescriptor, path: CString, mode: byte, ghost dirs: map<word, Dir>)
    returns (ok: bool, ghost steps: seq<Disk>)
    requires v.Valid() && TreeOk(v.info, v.disk, dirs) && ShortParts(path) && pfd.dirEntry.clusterLo == 0
    requires Split(path) != [] ==> Walkable(v.disk, dirs, 0, Split(path))
    modifies v, v.cacheBlock, pfd`dirEntry, pfd`dirEntryBlockAddr, pfd`dirEntryIndexInBlock
    ensures v.Shape() && v.history == old(v.history) + steps
    ensures ok ==> v.Valid() && v.lastError == old(v.lastError) && |steps| <= 1
    ensures ok ==> if Split(path) == [] then v.disk == old(v.disk) && pfd.dirEntry == old(pfd.dirEntry) else
      Arrived(old(v.disk), dirs, Split(path), LastMode(path, mode), v.disk, pfd.dirEntry, pfd.dirEntryBlockAddr,
              pfd.dirEntryIndexInBlock)
    ensures !ok ==> v.disk == old(v.disk) && steps == []
    ensures v.reliable && !ok ==> v.Valid() && Stuck(v.disk, dirs, Split(path), LastMode(path, mode), v.lastError)
  {
    hide Walkable, Walking, Parts, Split, Arrived, Stuck, LastMode, Until, TreeOk, OnDiskTree, ShortParts, WellFormed,
      Resolve;
    var filename := new byte[13];
    ghost var d, all, m := v.disk, Split(path), LastMode(path, mode);
    steps := [];
    PathStart(path);
    TreeOnDisk(v.info, d, dirs);
    if all != [] {
      WalkStart(d, dirs, all, m);
    }
    var p := 0;
    while p != |path|
      invariant p <= |path| && |steps| <= 1 && v.history == old(v.history) + steps
      invariant v.Valid() && v.lastError == old(v.lastError)
      invariant all == [] ==> v.disk == d && pfd.dirEntry == old(pfd.dirEntry) && Parts(path, p) == []
      invariant Parts(path, p) != [] ==>
        v.disk == d && steps == [] && Walking(d, dirs, all, m, pfd.dirEntry.clusterLo, Parts(path, p))
      invariant all != [] && Parts(path, p) == [] ==>
        Arrived(d, dirs, all, m, v.disk, pfd.dirEntry, pfd.dirEntryBlockAddr, pfd.dirEntryIndexInBlock)
      decreases |path| - p
    {
      if path[p] == SLASH {
        SkipSlash(path, p);
        p := p + 1;
      } else {
        PartHere(path, p);
        p, ok, steps := WalkPart(v, pfd, path, p, mode, filename, dirs, all);
        if !ok {
          return;
        }
      }
    }
    ok := true;
  }

  lemma TreeOnDisk(g: FatInfo, d: Disk, dirs: map<word, Dir>)
    requires Fits(g, d) && TreeOk(g, d, dirs)
    ensures OnDiskTree(d, dirs)
  {
  }

  lemma PartHere(path: CString, p: nat)
    requires p < |path| && path[p] != SLASH && ShortParts(path)
    ensures Parts(path, p) != [] && Until(path[p..], SLASH) <= 12
  {
    hide Split;
    PartMode(path, p, 0);
  }

  /** The path can be walked from the root directory. */
  ghost predicate PathOk(g: FatInfo, d: Disk, dirs: map<word, Dir>, path: CString) {
    && Fits(g, d) && TreeOk(g, d, dirs) && ShortParts(path)
    && (Split(path) != [] ==> Walkable(d, dirs, 0, Split(path)))
  }

  /** What a handle shows after a successful walk: the root directory itself, or what was looked up. */
  ghost predicate Reaches(d: Disk, dirs: map<word, Dir>, path: CString, mode: byte, e: Disk, entry: DirEntry, addr: int,
                          index: int) {
    if Split(path) == [] then e == d && entry.clusterLo == 0 && entry.attrs == ATTR_DIRECTORY
    else Arrived(d, dirs, Split(path), LastMode(path, mode), e, entry, addr, index)
  }

  /** Why there is no handle on the path: it is relative, or no handle is left, or a part of it fails. */
  ghost predicate NoPath(d: Disk, dirs: map<word, Dir>, path: CString, mode: byte, noHandle: bool, error: byte) {
    if path == [] || path[0] != SLASH then error == FAT_ERROR_RELATIVE_PATH
    else if noHandle then error == FAT_ERROR_TOO_MANY_OPEN_FILES
    else Stuck(d, dirs, Split(path), LastMode(path, mode), error)
  }

  /** Takes a handle and walks an absolute path with it. On failure the handle is free again and the
      disk is unchanged. */
  method FindPath(fs: FileSystem, path: CString, mode: byte, ghost dirs: map<word, Dir>)
    returns (fd: byte, ghost steps: seq<Disk>)
    requires fs.Apart() && fs.vol.Valid() && PathOk(fs.vol.info, fs.vol.disk, dirs, path)
    modifies fs.vol, fs.vol.cacheBlock, fs.descs
    ensures fs.vol.Shape() && fs.vol.history == old(fs.vol.history) + steps && |steps| <= 1
    ensures forall k :: 0 <= k < |fs.descs| && !old(fs.descs[k].isFree) ==> unchanged(fs.descs[k])
    ensures fd != FAT_BAD_DESC ==>
      && fd < MAX_FILE_DESC && fs.vol.Valid() && path != [] && path[0] == SLASH
      && old(fs.descs[fd].isFree) && !fs.descs[fd].isFree && fs.descs[fd].isStale == old(fs.descs[fd].isStale)
      && (forall k :: 0 <= k < |fs.descs| && k != fd ==> unchanged(fs.descs[k]))
      && Reaches(old(fs.vol.disk), dirs, path, mode, fs.vol.disk, fs.descs[fd].dirEntry,
                 fs.descs[fd].dirEntryBlockAddr, fs.descs[fd].dirEntryIndexInBlock)
    ensures fd == FAT_BAD_DESC ==>
      && fs.vol.disk == old(fs.vol.disk) && steps == []
      && (forall k :: 0 <= k < |fs.descs| ==> fs.descs[k].isFree == old(fs.descs[k].isFree))
    ensures fd == FAT_BAD_DESC && fs.vol.reliable ==>
      NoPath(old(fs.vol.disk), dirs, path, mode, forall k :: 0 <= k < |fs.descs| ==> !old(fs.descs[k].isFree),
             fs.vol.lastError)
  {
    hide TreeOk, ShortParts, Split, Walkable, Arrived, Stuck, LastMode, WellFormed;
    steps := [];
    if path == [] || path[0] != SLASH {
      fs.vol.lastError := FAT_ERROR_RELATIVE_PATH;
      return FAT_BAD_DESC, steps;
    }
    fd := fs.GetFreeFd();
    if fd == FAT_BAD_DESC {
      return;
    }
    var pfd := fs.descs[fd];
    pfd.dirEntry := pfd.dirEntry.(clusterLo := 0, attrs := ATTR_DIRECTORY);
    var ok;
    ok, steps := Walk(fs.vol, pfd, path, mode, dirs);
    if !ok {
      pfd.isFree := true;
      fd := FAT_BAD_DESC;
    }
  }

  /** The chain that the entry at the end of the path starts. */
  ghost predicate LeadsTo(g: FatInfo, d: Disk, dirs: map<word, Dir>, path: CString, mode: byte, ch: seq<nat>) {
    PathOk(g, d, dirs, path) &&
    (Split(path) != [] ==>
       var r := Resolve(d, dirs, 0, Split(path), LastMode(path, mode));
       r.o.Found? ==> ChainFrom(Fat0(g, d), Below(d, dirs[r.cluster], r.o), ch) && ChainOnDisk(g, d, ch))
  }

  lemma LeadsToOk(g: FatInfo, d: Disk, dirs: map<word, Dir>, path: CString, mode: byte, ch: seq<nat>)
    requires LeadsTo(g, d, dirs, path, mode, ch)
    ensures PathOk(g, d, dirs, path)
  {
  }

  /** The entry at the end of the walk has its chain, and a new one has none. */
  lemma ReachesChain(g: FatInfo, d: Disk, dirs: map<word, Dir>, path: CString, mode: byte, ch: seq<nat>, e: Disk,
                     entry: DirEntry, addr: int, index: int) returns (to: seq<nat>)
    requires LeadsTo(g, d, dirs, path, mode, ch) && Reaches(d, dirs, path, mode, e, entry, addr, index)
    ensures Fits(g, e) && ChainFrom(Fat0(g, e), entry.clusterLo, to) && ChainOnDisk(g, e, to)
    ensures to == ch || to == []
  {
    hide TreeOk, ShortParts, Split, Walkable, LastMode, Fat, ChainFrom, EntriesOf, Resolve, IsChain, Decode, FatName,
      NewRaw;
    if Split(path) == [] {
      to := [];
      NoChain(g, e, entry.clusterLo);
    } else {
      var r := Resolve(d, dirs, 0, Split(path), LastMode(path, mode));
      var bl := dirs[r.cluster].bl;
      if r.o.Found? {
        to := ch;
      } else {
        to := [];
        CreatedCluster(d, bl, r.o.at, FatName(r.name), e, entry, addr, index);
        NoChain(g, e, entry.clusterLo);
      }
    }
  }

  lemma CreatedCluster(d: Disk, bl: seq<int>, q: nat, field: seq<byte>, e: Disk, entry: DirEntry, addr: int, index: int)
    requires OnDiskBlocks(d, bl) && |field| == 11 && Resulted(d, bl, field, Created(q), e, entry, addr, index)
    ensures entry.clusterLo == 0 && |e| == |d|
  {
    hide Splice;
  }

  lemma NoChain(g: FatInfo, e: Disk, cluster: int)
    requires Fits(g, e) && cluster == 0
    ensures ChainFrom(Fat0(g, e), cluster, []) && ChainOnDisk(g, e, [])
  {
  }

  /** A descriptor at the beginning of a directory or of a file. */
  ghost predicate Started(g: FatInfo, d: Disk, root: bool, s: State) {
    Fits(g, d) &&
    if root then OnDiskBlocks(d, RootBlocks(g)) && DirAt(g, d, true, s, RootBlocks(g), 0)
    else ChainOk(g, d, s) && At(g, Fat0(g, d), s) && s.off == 0 && (SizeFits(g, s.chain, s.size) ==> Open(g, d, s))
  }

  /** An entry that stands for the root directory, as that of the parent of a directory in it does. */
  ghost predicate NamesRoot(e: DirEntry) {
    e.clusterLo == 0 && (e.attrs / 16) % 2 == 1
  }

  /** The path leads to the root directory: it has no parts, or the entry found for the last one has
      the directory bit and cluster 0. */
  ghost predicate LeadsToRoot(d: Disk, dirs: map<word, Dir>, path: CString, mode: byte)
    requires OnDiskTree(d, dirs) && (Split(path) != [] ==> Walkable(d, dirs, 0, Split(path)))
  {
    Split(path) == [] ||
    (var r := Resolve(d, dirs, 0, Split(path), LastMode(path, mode));
     r.o.Found? && r.o.at < 16 * |dirs[r.cluster].bl| &&
     var raw := EntriesOf(d, dirs[r.cluster].bl)[r.o.at];
     (raw[11] / 16) % 2 == 1 && raw[26] == 0 && raw[27] == 0)
  }

  lemma ReachesRoot(g: FatInfo, d: Disk, dirs: map<word, Dir>, path: CString, mode: byte, e: Disk, entry: DirEntry,
                    addr: int, index: int)
    requires PathOk(g, d, dirs, path) && Reaches(d, dirs, path, mode, e, entry, addr, index)
    ensures OnDiskTree(d, dirs) && (Split(path) != [] ==> Walkable(d, dirs, 0, Split(path)))
    ensures NamesRoot(entry) <==> LeadsToRoot(d, dirs, path, mode)
  {
    hide ShortParts, Split, Walkable, LastMode, EntriesOf, Resolve, FatName, NewRaw, Decode, Splice, WellFormed, Stored;
    TreeOnDisk(g, d, dirs);
    if Split(path) != [] {
      var r := Resolve(d, dirs, 0, Split(path), LastMode(path, mode));
      var bl := dirs[r.cluster].bl;
      if r.o.Found? {
        EntryNamesRoot(EntriesOf(d, bl)[r.o.at]);
      } else {
        NewNamesNothing(FatName(r.name));
      }
    }
  }

  lemma EntryNamesRoot(raw: Raw)
    ensures NamesRoot(Decode(raw)) <==> (raw[11] / 16) % 2 == 1 && raw[26] == 0 && raw[27] == 0
  {
    hide Decode;
    DecodedBytes(raw);
  }

  lemma NewNamesNothing(name: seq<byte>)
    requires |name| == 11
    ensures !NamesRoot(Decode(NewRaw(name)))
  {
    NewRawBlank(name);
    EntryNamesRoot(NewRaw(name));
    hide Decode, NewRaw;
  }

  /** Opens what an absolute path leads to. */
  method FatOpenPath(fs: FileSystem, path: CString, mode: byte, ghost dirs: map<word, Dir>, ghost ch: seq<nat>)
    returns (fd: byte, ghost steps: seq<Disk>)
    requires fs.Apart() && fs.vol.Valid() && LeadsTo(fs.vol.info, fs.vol.disk, dirs, path, mode, ch)
    modifies fs.vol, fs.vol.cacheBlock, fs.descs
    ensures fs.vol.Shape() && fs.vol.history == old(fs.vol.history) + steps && |steps| <= 1
    ensures forall k :: 0 <= k < |fs.descs| && !old(fs.descs[k].isFree) ==> unchanged(fs.descs[k])
    ensures fd != FAT_BAD_DESC ==>
      && fd < MAX_FILE_DESC && old(fs.descs[fd].isFree) && !fs.descs[fd].isFree
      && Reaches(old(fs.vol.disk), dirs, path, mode, fs.vol.disk, fs.descs[fd].dirEntry,
                 fs.descs[fd].dirEntryBlockAddr, fs.descs[fd].dirEntryIndexInBlock)
      && Started(fs.vol.info, fs.vol.disk, fs.descs[fd].isRoot, fs.descs[fd].Snap())
      && (fs.descs[fd].isRoot <==> NamesRoot(fs.descs[fd].dirEntry))
      && (fs.descs[fd].isRoot <==> LeadsToRoot(old(fs.vol.disk), dirs, path, mode))
    ensures fd == FAT_BAD_DESC ==> forall k :: 0 <= k < |fs.descs| ==> fs.descs[k].isFree == old(fs.descs[k].isFree)
    ensures fd == FAT_BAD_DESC && fs.vol.reliable ==>
      && fs.vol.disk == old(fs.vol.disk)
      && NoPath(old(fs.vol.disk), dirs, path, mode, forall k :: 0 <= k < |fs.descs| ==> !old(fs.descs[k].isFree),
                fs.vol.lastError)
  {
    hide Reaches, Fat, ChainFrom, ChainOnDisk, LeadsTo, PathOk, WellFormed, RootBlocks, DirAt, Open, At, ChainOk,
      SizeFits, BitAnd, Stuck, Split, LastMode, LeadsToRoot, Walkable, OnDiskTree, NoPath;
    ghost var g, d := fs.vol.info, fs.vol.disk;
    LeadsToOk(g, d, dirs, path, mode, ch);
    fd, steps := FindPath(fs, path, mode, dirs);
    if fd == FAT_BAD_DESC {
      return;
    }
    var pfd := fs.descs[fd];
    ReachesRoot(g, d, dirs, path, mode, fs.vol.disk, pfd.dirEntry, pfd.dirEntryBlockAddr, pfd.dirEntryIndexInBlock);
    BitAndSixteen(pfd.dirEntry.attrs);
    if BitAnd(pfd.dirEntry.attrs, ATTR_DIRECTORY) != 0 && pfd.dirEntry.clusterLo == 0 {
      InitRootDir(fs.vol, pfd);
    } else {
      ghost var to := ReachesChain(g, d, dirs, path, mode, ch, fs.vol.disk, pfd.dirEntry, pfd.dirEntryBlockAddr,
                                   pfd.dirEntryIndexInBlock);
      var ok := InitFd(fs.vol, pfd, to);
      if !ok {
        pfd.isFree := true;
        fd := FAT_BAD_DESC;
      }
    }
  }
}
