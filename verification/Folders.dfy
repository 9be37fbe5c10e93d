/** One directory on the disk, the descriptors, and the files that both describe. */
module Folders {
  import opened Bytes
  import opened Chains
  import opened Growth
  import opened Layout
  import opened Content
  import opened Descriptor
  import opened Writing
  import opened Seeking
  import opened Isolation
  import opened Entries
  import opened Directory
  import opened NamedFiles
  import opened System

  /** A directory: its first cluster, 0 for the root, its chain and its blocks. */
  datatype Dir = Dir(cluster: word, ch: seq<nat>, bl: seq<int>)

  /** A descriptor as a value. */
  datatype Desc = Desc(
    free: bool,
    stale: bool,
    root: bool,
    s: State,
    entry: DirEntry,
    addr: dword,
    index: word,
    modified: bool)

  /** All files of the directory, open or not, with the entries they have in it, what each descriptor
      is used for, and the clusters of everything else. A file in `astray` has a descriptor that does
      not stand where it should. */
  datatype Catalog = Catalog(
    files: seq<State>,
    place: seq<nat>,
    handles: seq<Handle>,
    others: set<nat>,
    astray: map<nat, State>)

  /** What the descriptor of file `i` holds. */
  function Held(c: Catalog, i: nat): State
    requires i < |c.files|
  {
    if i in c.astray then c.astray[i] else c.files[i]
  }

  /** The file that handle `fd` is open on. */
  function FileOn(c: Catalog, fd: nat): nat {
    if fd < |c.handles| && c.handles[fd].OnFile? then c.handles[fd].file else 0
  }

  /** A descriptor that still has the fill of a last cluster which the file, now empty, has lost. */
  ghost predicate Spent(p: State, s: State) {
    p.chain == [] && p.head == s.head == 0 && p.size == s.size == 0 && p.off == 0 && p.lastLen != 0
  }

  /** The two ways of going astray. */
  ghost predicate Astray(g: FatInfo, p: State, s: State) {
    Spent(p, s) || Drifted(g, p, s)
  }

  ghost predicate AstrayOk(g: FatInfo, c: Catalog) {
    forall i :: i in c.astray ==> i < |c.files| && OnFile(i) in c.handles && Astray(g, c.astray[i], c.files[i])
  }

  ghost predicate DirOk(g: FatInfo, d: Disk, dir: Dir, others: set<nat>)
    requires Fits(g, d)
  {
    DirectoryAt(g, d, dir.cluster, dir.ch, dir.bl) && forall n :: n in dir.ch ==> n in others
  }

  ghost predicate Live(es: seq<Raw>, q: int) {
    InUse(es, q) && !IsDeleted(es[q])
  }

  function NameAt(es: seq<Raw>, q: nat): seq<byte>
    requires q < |es|
  {
    es[q][..11]
  }

  /** Every file has an entry in use and is the only one with its name. */
  ghost predicate EntriesOk(es: seq<Raw>, place: seq<nat>) {
    && (forall i :: 0 <= i < |place| ==> Live(es, place[i]))
    && (forall i, j :: 0 <= i < j < |place| ==> place[i] != place[j])
    && (forall i, q :: 0 <= i < |place| && Matches(es, q, NameAt(es, place[i])) ==> q == place[i])
    && EndsClean(es)
  }

  /** The entry records this chain and this size. */
  ghost predicate Describes(e: DirEntry, s: State) {
    IsEntry(e) && e.clusterLo == s.head && e.size == s.size
  }

  ghost predicate ClosedOk(es: seq<Raw>, c: Catalog)
    requires |c.place| == |c.files| && EntriesOk(es, c.place)
  {
    forall i :: 0 <= i < |c.files| && OnFile(i) !in c.handles ==> Describes(Decode(es[c.place[i]]), c.files[i])
  }

  /** A descriptor that is open on file `i` agrees with it and knows where its entry lies; unless the
      entry is marked as modified, it is on the disk as the descriptor has it. */
  ghost predicate OpenOn(es: seq<Raw>, bl: seq<int>, c: Catalog, i: nat, p: Desc)
    requires |c.place| == |c.files| && EntriesOk(es, c.place) && |es| == 16 * |bl|
  {
    && i < |c.files|
    && !p.free && !p.stale && !p.root
    && p.s == Held(c, i) && Describes(p.entry, c.files[i])
    && p.entry.filename == NameAt(es, c.place[i])
    && p.addr == bl[c.place[i] / 16] && p.index == 32 * (c.place[i] % 16)
    && (p.modified || es[c.place[i]] == Encode(p.entry))
  }

  ghost predicate DescOk(es: seq<Raw>, bl: seq<int>, c: Catalog, h: Handle, p: Desc)
    requires |c.place| == |c.files| && EntriesOk(es, c.place) && |es| == 16 * |bl|
  {
    match h
    case Unused => p.free && !p.stale
    case Elsewhere => !p.free
    case OnFile(i) => OpenOn(es, bl, c, i, p)
  }

  ghost predicate HandlesOk(es: seq<Raw>, bl: seq<int>, c: Catalog, ps: seq<Desc>)
    requires |c.place| == |c.files| && EntriesOk(es, c.place) && |es| == 16 * |bl|
  {
    && |ps| == |c.handles| == MAX_FILE_DESC
    && (forall k :: 0 <= k < |ps| ==> DescOk(es, bl, c, c.handles[k], ps[k]))
    && (forall k, m :: 0 <= k < m < |ps| && c.handles[k].OnFile? ==> c.handles[k] != c.handles[m])
  }

  /** The part of the invariant that looks at the entries of the directory. */
  ghost predicate Listed(es: seq<Raw>, bl: seq<int>, c: Catalog, ps: seq<Desc>) {
    |c.place| == |c.files| && EntriesOk(es, c.place) && |es| == 16 * |bl| && ClosedOk(es, c) && HandlesOk(es, bl, c, ps)
  }

  /** The invariant of the whole file system. */
  ghost predicate CatalogOk(g: FatInfo, d: Disk, dir: Dir, c: Catalog, ps: seq<Desc>) {
    && Sound(g, d, c.files, c.others)
    && DirOk(g, d, dir, c.others)
    && OnDiskBlocks(d, dir.bl)
    && Listed(EntriesOf(d, dir.bl), dir.bl, c, ps)
    && AstrayOk(g, c)
  }

  /** A volume none of whose files is open. */
  ghost predicate AtRest(g: FatInfo, d: Disk, dir: Dir, c: Catalog) {
    && Sound(g, d, c.files, c.others)
    && DirOk(g, d, dir, c.others)
    && OnDiskBlocks(d, dir.bl)
    && |c.place| == |c.files| && EntriesOk(EntriesOf(d, dir.bl), c.place) && ClosedOk(EntriesOf(d, dir.bl), c)
    && c.astray == map[]
    && |c.handles| == MAX_FILE_DESC && forall k :: 0 <= k < |c.handles| ==> c.handles[k] == Unused
  }

  lemma AtRestOk(g: FatInfo, d: Disk, dir: Dir, c: Catalog, ps: seq<Desc>)
    requires AtRest(g, d, dir, c)
    requires |ps| == MAX_FILE_DESC && forall k :: 0 <= k < |ps| ==> ps[k].free && !ps[k].stale
    ensures CatalogOk(g, d, dir, c, ps)
  {
    hide Sound, DirOk, EntriesOf, ClosedOk, EntriesOk;
  }

  // -------------------------------------------------------------- abstraction

  ghost function Holes(es: seq<Raw>): set<int> {
    set q | 0 <= q < |es| && InUse(es, q) && IsDeleted(es[q])
  }

  ghost function Ends(es: seq<Raw>): set<int> {
    set q | 0 <= q < |es| && IsEnd(es[q])
  }

  ghost function Reserved(es: seq<Raw>, place: seq<nat>): set<seq<byte>> {
    set q | 0 <= q < |es| && Live(es, q) && q !in place :: NameAt(es, q)
  }

  ghost function NamesOf(es: seq<Raw>, place: seq<nat>): (r: seq<seq<byte>>)
    requires EntriesOk(es, place)
    ensures |r| == |place|
  {
    seq(|place|, i requires 0 <= i < |place| => NameAt(es, place[i]))
  }

  /** What a program sees of the volume. */
  ghost function FolderOf(g: FatInfo, d: Disk, dir: Dir, c: Catalog): (f: Folder)
    requires Sound(g, d, c.files, c.others) && OnDiskBlocks(d, dir.bl) && EntriesOk(EntriesOf(d, dir.bl), c.place)
  {
    var es := EntriesOf(d, dir.bl);
    Folder(dir.cluster == 0, NamesOf(es, c.place), Abstract(g, d, c.files), c.handles, c.astray.Keys, |Holes(es)|,
           |Ends(es)|, Reserved(es, c.place))
  }

  // --------------------------------------------------- the directory is left alone

  ghost predicate Outside(ch: seq<nat>, others: set<nat>) {
    forall n :: n in ch ==> n !in others
  }

  ghost predicate SameBlocks(d: Disk, e: Disk, bl: seq<int>) {
    |e| == |d| && OnDiskBlocks(d, bl) && forall k :: 0 <= k < |bl| ==> e[bl[k]] == d[bl[k]]
  }

  lemma EntriesFrame(d: Disk, e: Disk, bl: seq<int>)
    requires SameBlocks(d, e, bl)
    ensures OnDiskBlocks(e, bl) && EntriesOf(e, bl) == EntriesOf(d, bl)
  {
    hide RawAt;
    var l, r := EntriesOf(e, bl), EntriesOf(d, bl);
    forall q | 0 <= q < 16 * |bl|
      ensures l[q] == r[q]
    {
      EntryAt(d, bl, q / 16, q % 16);
      EntryAt(e, bl, q / 16, q % 16);
    }
  }

  /** A directory whose blocks and chain are untouched is the same directory. */
  lemma DirKept(g: FatInfo, d: Disk, e: Disk, dir: Dir, others: set<nat>)
    requires Fits(g, d) && DirOk(g, d, dir, others) && Fits(g, e) && SameBlocks(d, e, dir.bl)
    requires dir.cluster != 0 ==> SameChain(g, d, e, dir.ch)
    ensures DirOk(g, e, dir, others) && OnDiskBlocks(e, dir.bl) && EntriesOf(e, dir.bl) == EntriesOf(d, dir.bl)
  {
    hide Fat, WellFormed, ChainBlocks, RootBlocks, EntriesOf, IsChain;
    EntriesFrame(d, e, dir.bl);
    if dir.cluster != 0 {
      ChainKept(Fat0(g, d), Fat0(g, e), dir.ch);
      ChainNonEmpty(Fat0(g, d), dir.ch);
    }
  }

  lemma ChainNonEmpty(f: seq<word>, ch: seq<nat>)
    requires IsChain(f, ch)
    ensures ch != []
  {
  }

  lemma SameChainBlocks(g: FatInfo, d: Disk, e: Disk, ch: seq<nat>)
    requires Fits(g, d) && SameChain(g, d, e, ch)
    ensures SameBlocks(d, e, ChainBlocks(g, ch))
  {
  }

  lemma RootNotOwned(g: FatInfo, f: seq<word>, ch: seq<nat>, a: int)
    requires a < g.dataOffset
    ensures !Owned(g, f, ch, a)
  {
    forall c: nat | 2 <= c
      ensures ClusterBlock(g, c) >= g.dataOffset
    {
      assert (c - 2) * g.sectorsPerCluster >= 0;
    }
  }

  lemma GrewKeepsRoot(g: FatInfo, d: Disk, ch: seq<nat>, e: Disk)
    requires Fits(g, d) && OnlyOwned(g, d, ch, e)
    ensures SameBlocks(d, e, RootBlocks(g))
  {
    hide Fat, Owned;
    RootShape(g);
    RootOnDisk(g, d);
    forall k | 0 <= k < |RootBlocks(g)|
      ensures e[RootBlocks(g)[k]] == d[RootBlocks(g)[k]]
    {
      RootNotOwned(g, Fat0(g, d), ch, RootBlocks(g)[k]);
    }
  }

  /** Growing a file does not touch the directory. */
  lemma GrewKeepsDir(g: FatInfo, d: Disk, ch: seq<nat>, e: Disk, to: seq<nat>, dir: Dir, others: set<nat>)
    requires Fits(g, d) && DirOk(g, d, dir, others) && Grew(g, d, ch, e, to) && Fits(g, e)
    requires Outside(ch, others)
    ensures DirOk(g, e, dir, others) && OnDiskBlocks(e, dir.bl) && EntriesOf(e, dir.bl) == EntriesOf(d, dir.bl)
  {
    hide Fat, WellFormed, ChainBlocks, RootBlocks, EntriesOf, IsChain, SameChain, SameBlocks, GrewTo, OnlyOwned,
      CanGrow, Mirrored;
    if dir.cluster == 0 {
      GrewKeepsRoot(g, d, ch, e);
    } else {
      GrewKeepsChain(g, d, ch, e, to, dir.ch);
      SameChainBlocks(g, d, e, dir.ch);
    }
    DirKept(g, d, e, dir, others);
  }

  lemma CutKeepsRoot(g: FatInfo, d: Disk, e: Disk)
    requires Fits(g, d) && SameOutsideFats(g, d, e)
    ensures SameBlocks(d, e, RootBlocks(g))
  {
    RootShape(g);
    RootOnDisk(g, d);
  }

  /** Neither does cutting one. */
  lemma CutKeepsDir(g: FatInfo, d: Disk, ch: seq<nat>, keep: nat, e: Disk, dir: Dir, others: set<nat>)
    requires Fits(g, d) && DirOk(g, d, dir, others) && SameOutsideFats(g, d, e)
    requires InTable(Fat0(g, d), ch) && keep <= |ch| && Fat0(g, e) == CutFat(Fat0(g, d), ch, keep)
    requires Outside(ch, others)
    ensures DirOk(g, e, dir, others) && OnDiskBlocks(e, dir.bl) && EntriesOf(e, dir.bl) == EntriesOf(d, dir.bl)
  {
    hide Fat, WellFormed, ChainBlocks, RootBlocks, EntriesOf, IsChain, SameChain, SameBlocks, CutFat, Mirrored;
    if dir.cluster == 0 {
      CutKeepsRoot(g, d, e);
    } else {
      CutKeepsChain(g, d, ch, keep, e, dir.ch);
      SameChainBlocks(g, d, e, dir.ch);
    }
    DirKept(g, d, e, dir, others);
  }
}
