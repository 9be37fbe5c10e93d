/** What each operation of the driver does to the directory, the descriptors and the files together. */
module FolderSteps {
  import opened Bytes
  import opened Chains
  import opened Layout
  import opened Content
  import opened Descriptor
  import opened FileIO
  import opened Writing
  import opened Isolation
  import opened Entries
  import opened Directory
  import opened NamedFiles
  import opened System
  import opened Refinement
  import opened Folders

  // --------------------------------------------------------- commands on a file

  /** A descriptor that has moved, read, written or cut its file and now holds `u`. */
  ghost predicate Worked(p: Desc, u: State, q: Desc) {
    && q == p.(s := u, entry := q.entry, modified := q.modified)
    && Edited(p.modified, p.entry, q.modified, q.entry)
    && q.entry.clusterLo == u.head && q.entry.size == u.size
  }

  /** The catalog after a command on file `i`: the file is at `t`, its descriptor holds `u`. */
  function Moved(c: Catalog, i: nat, t: State, u: State): Catalog
    requires i < |c.files|
  {
    c.(files := c.files[i := t], astray := if u == t then c.astray - {i} else c.astray[i := u])
  }

  lemma WorkedOpenOn(es: seq<Raw>, bl: seq<int>, c: Catalog, i: nat, t: State, u: State, p: Desc, q: Desc)
    requires |c.place| == |c.files| && EntriesOk(es, c.place) && |es| == 16 * |bl|
    requires OpenOn(es, bl, c, i, p) && Worked(p, u, q) && t.head == u.head && t.size == u.size
    ensures OpenOn(es, bl, Moved(c, i, t, u), i, q)
  {
    hide EntriesOk;
  }

  lemma WorkedListed(es: seq<Raw>, bl: seq<int>, c: Catalog, ps: seq<Desc>, k: nat, i: nat, t: State, u: State, q: Desc)
    requires Listed(es, bl, c, ps) && k < |ps| && c.handles[k] == OnFile(i) && i < |c.files|
    requires Worked(ps[k], u, q) && t.head == u.head && t.size == u.size
    ensures Listed(es, bl, Moved(c, i, t, u), ps[k := q])
  {
    hide EntriesOk, OpenOn, Describes, Worked, Encode, Decode;
    var c', ps' := Moved(c, i, t, u), ps[k := q];
    assert DescOk(es, bl, c, c.handles[k], ps[k]);
    WorkedOpenOn(es, bl, c, i, t, u, ps[k], q);
    forall m | 0 <= m < |ps| && m != k
      ensures DescOk(es, bl, c', c.handles[m], ps'[m])
    {
      assert DescOk(es, bl, c, c.handles[m], ps[m]);
      if c.handles[m].OnFile? {
        assert m < k ==> c.handles[m] != c.handles[k];
        OpenOnFile(es, bl, c, c.handles[m].file, ps[m]);
        OpenOnSame(es, es, bl, c, c', c.handles[m].file, ps[m]);
      }
    }
  }

  /** What a descriptor open on file `j` agrees with. */
  lemma OpenOnSame(es: seq<Raw>, fs: seq<Raw>, bl: seq<int>, c: Catalog, c': Catalog, j: nat, p: Desc)
    requires |c.place| == |c.files| && EntriesOk(es, c.place) && |es| == 16 * |bl| && OpenOn(es, bl, c, j, p)
    requires |c'.place| == |c'.files| && EntriesOk(fs, c'.place) && |fs| == |es| && j < |c.files| && j < |c'.files|
    requires c'.place[j] == c.place[j] && fs[c.place[j]] == es[c.place[j]]
    requires c'.files[j] == c.files[j] && (j in c'.astray <==> j in c.astray) && Held(c', j) == Held(c, j)
    ensures OpenOn(fs, bl, c', j, p)
  {
    hide EntriesOk, Encode;
  }

  lemma MovedAstray(g: FatInfo, c: Catalog, i: nat, t: State, u: State)
    requires AstrayOk(g, c) && i < |c.files| && OnFile(i) in c.handles && (u == t || Astray(g, u, t))
    ensures AstrayOk(g, Moved(c, i, t, u))
  {
    hide Astray;
  }

  /** A command on an open file leaves everything else in place. */
  lemma CommandKeeps(g: FatInfo, d: Disk, dir: Dir, c: Catalog, ps: seq<Desc>, k: nat, i: nat, e: Disk, t: State,
                     u: State, q: Desc)
    requires CatalogOk(g, d, dir, c, ps) && k < |ps| && c.handles[k] == OnFile(i) && i < |c.files|
    requires Worked(ps[k], u, q) && (u == t || Astray(g, u, t))
    requires Sound(g, e, c.files[i := t], c.others)
    requires DirOk(g, e, dir, c.others) && OnDiskBlocks(e, dir.bl) && EntriesOf(e, dir.bl) == EntriesOf(d, dir.bl)
    ensures CatalogOk(g, e, dir, Moved(c, i, t, u), ps[k := q])
    ensures FolderOf(g, e, dir, Moved(c, i, t, u)) ==
      FolderOf(g, d, dir, c).(store := Abstract(g, e, c.files[i := t]),
                              astray := if u == t then c.astray.Keys - {i} else c.astray.Keys + {i})
  {
    hide Sound, DirOk, EntriesOf, Worked, Abstract, Holes, Ends, Reserved, NamesOf, ClosedOk, HandlesOk, EntriesOk,
      AstrayOk;
    AstraySizes(g, u, t);
    WorkedListed(EntriesOf(d, dir.bl), dir.bl, c, ps, k, i, t, u, q);
    ListedEntries(EntriesOf(d, dir.bl), dir.bl, c, ps);
    assert c.handles[k] in c.handles;
    MovedAstray(g, c, i, t, u);
  }

  lemma AstraySizes(g: FatInfo, u: State, t: State)
    requires u == t || Astray(g, u, t)
    ensures u.head == t.head && u.size == t.size
  {
  }

  lemma ListedEntries(es: seq<Raw>, bl: seq<int>, c: Catalog, ps: seq<Desc>)
    requires Listed(es, bl, c, ps)
    ensures EntriesOk(es, c.place) && |c.place| == |c.files| && |es| == 16 * |bl|
    ensures |ps| == |c.handles| == MAX_FILE_DESC
  {
  }

  // ------------------------------------------------------- writing entries back

  /** The entries have the same names, and so the same standing, in both lists. */
  ghost predicate SameNames(es: seq<Raw>, fs: seq<Raw>) {
    |fs| == |es| && forall q :: 0 <= q < |es| ==> NameAt(fs, q) == NameAt(es, q)
  }

  lemma NameDecides(a: Raw, b: Raw)
    requires a[..11] == b[..11]
    ensures IsEnd(a) <==> IsEnd(b)
    ensures IsDeleted(a) <==> IsDeleted(b)
    ensures forall n :: Named(a, n) <==> Named(b, n)
  {
    assert a[..11][0] == a[0] && b[..11][0] == b[0];
  }

  lemma SameStanding(es: seq<Raw>, fs: seq<Raw>)
    requires SameNames(es, fs)
    ensures forall q :: 0 <= q < |es| ==> (IsEnd(fs[q]) <==> IsEnd(es[q])) && (IsDeleted(fs[q]) <==> IsDeleted(es[q]))
    ensures forall q, n :: 0 <= q < |es| ==> (Named(fs[q], n) <==> Named(es[q], n))
    ensures forall q :: InUse(fs, q) <==> InUse(es, q)
  {
    hide IsEnd, IsDeleted, Named;
    forall q | 0 <= q < |es|
      ensures (IsEnd(fs[q]) <==> IsEnd(es[q])) && (IsDeleted(fs[q]) <==> IsDeleted(es[q]))
      ensures forall n :: Named(fs[q], n) <==> Named(es[q], n)
    {
      assert NameAt(fs, q) == NameAt(es, q);
      NameDecides(fs[q], es[q]);
    }
  }

  lemma SameEntriesOk(es: seq<Raw>, fs: seq<Raw>, place: seq<nat>)
    requires EntriesOk(es, place) && SameNames(es, fs)
    ensures EntriesOk(fs, place) && NamesOf(fs, place) == NamesOf(es, place)
  {
    SameStanding(es, fs);
    hide IsEnd, IsDeleted, Named, InUse;
    forall i, q | 0 <= i < |place| && Matches(fs, q, NameAt(fs, place[i]))
      ensures q == place[i]
    {
      assert Matches(es, q, NameAt(es, place[i]));
    }
    forall t, k | FirstEnd(fs, t) && t <= k < |fs|
      ensures IsEnd(fs[k])
    {
      assert FirstEnd(es, t);
    }
  }

  lemma SameSets(es: seq<Raw>, fs: seq<Raw>, place: seq<nat>)
    requires SameNames(es, fs)
    ensures Holes(fs) == Holes(es) && Ends(fs) == Ends(es) && Reserved(fs, place) == Reserved(es, place)
  {
    SameStanding(es, fs);
    hide IsEnd, IsDeleted, InUse;
    forall n
      ensures n in Reserved(fs, place) <==> n in Reserved(es, place)
    {
      assert forall q :: 0 <= q < |es| ==> NameAt(fs, q) == NameAt(es, q) && (Live(fs, q) <==> Live(es, q));
    }
  }

  /** The catalog after handle `k`, on file `i`, has been closed. */
  function Shut(c: Catalog, k: nat, i: nat): Catalog
    requires k < |c.handles|
  {
    c.(handles := c.handles[k := Unused], astray := c.astray - {i})
  }

  /** A closed file's entry on the disk is the one its descriptor had. */
  lemma CloseListed(es: seq<Raw>, bl: seq<int>, c: Catalog, ps: seq<Desc>, k: nat, i: nat)
    requires Listed(es, bl, c, ps) && k < |ps| && c.handles[k] == OnFile(i)
    ensures OpenOn(es, bl, c, i, ps[k]) && IsEntry(ps[k].entry) && i < |c.place| && c.place[i] < |es|
    ensures SameNames(es, es[c.place[i] := Encode(ps[k].entry)])
    ensures Listed(es[c.place[i] := Encode(ps[k].entry)], bl, Shut(c, k, i),
                   ps[k := ps[k].(free := true, stale := false)])
  {
    assert DescOk(es, bl, c, c.handles[k], ps[k]);
    var fs := es[c.place[i] := Encode(ps[k].entry)];
    EncodedName(ps[k].entry);
    SameEntriesOk(es, fs, c.place);
    hide EntriesOk, OpenOn, Encode, Decode, Describes;
    PlacesApart(es, c.place);
    CloseOthers(es, bl, c, ps, k, i);
    CloseClosed(es, bl, c, ps, k, i);
  }

  lemma EncodedName(e: DirEntry)
    requires IsEntry(e)
    ensures Encode(e)[..11] == e.filename
  {
  }

  lemma PlacesApart(es: seq<Raw>, place: seq<nat>)
    requires EntriesOk(es, place)
    ensures forall i :: 0 <= i < |place| ==> place[i] < |es|
    ensures forall i, j :: 0 <= i < |place| && 0 <= j < |place| && i != j ==> place[i] != place[j]
  {
    assert forall i :: 0 <= i < |place| ==> Live(es, place[i]);
  }

  lemma CloseOthers(es: seq<Raw>, bl: seq<int>, c: Catalog, ps: seq<Desc>, k: nat, i: nat)
    requires Listed(es, bl, c, ps) && k < |ps| && c.handles[k] == OnFile(i) && OpenOn(es, bl, c, i, ps[k])
    requires IsEntry(ps[k].entry) && i < |c.place| && c.place[i] < |es|
    requires var fs := es[c.place[i] := Encode(ps[k].entry)]; SameNames(es, fs) && EntriesOk(fs, c.place)
    ensures HandlesOk(es[c.place[i] := Encode(ps[k].entry)], bl, Shut(c, k, i),
                      ps[k := ps[k].(free := true, stale := false)])
  {
    hide EntriesOk, OpenOn, Encode, ClosedOk, SameNames;
    var c', ps' := Shut(c, k, i), ps[k := ps[k].(free := true, stale := false)];
    var fs := es[c.place[i] := Encode(ps[k].entry)];
    PlacesApart(es, c.place);
    forall m | 0 <= m < |ps|
      ensures DescOk(fs, bl, c', c'.handles[m], ps'[m])
    {
      assert DescOk(es, bl, c, c.handles[m], ps[m]);
      if m != k && c.handles[m].OnFile? {
        assert m < k ==> c.handles[m] != c.handles[k];
        OpenOnFile(es, bl, c, c.handles[m].file, ps[m]);
        OpenOnSame(es, fs, bl, c, c', c.handles[m].file, ps[m]);
      }
    }
  }

  lemma OpenOnFile(es: seq<Raw>, bl: seq<int>, c: Catalog, i: nat, p: Desc)
    requires |c.place| == |c.files| && EntriesOk(es, c.place) && |es| == 16 * |bl| && OpenOn(es, bl, c, i, p)
    ensures i < |c.files| && Describes(p.entry, c.files[i])
  {
  }

  lemma CloseClosed(es: seq<Raw>, bl: seq<int>, c: Catalog, ps: seq<Desc>, k: nat, i: nat)
    requires Listed(es, bl, c, ps) && k < |ps| && c.handles[k] == OnFile(i) && OpenOn(es, bl, c, i, ps[k])
    requires IsEntry(ps[k].entry) && i < |c.place| && c.place[i] < |es|
    requires EntriesOk(es[c.place[i] := Encode(ps[k].entry)], c.place)
    ensures k < |c.handles|
    ensures ClosedOk(es[c.place[i] := Encode(ps[k].entry)], Shut(c, k, i))
  {
    hide EntriesOk, OpenOn, Encode, Decode, HandlesOk, Describes;
    ListedEntries(es, bl, c, ps);
    var c' := Shut(c, k, i);
    var fs := es[c.place[i] := Encode(ps[k].entry)];
    PlacesApart(es, c.place);
    DecodeEncode(ps[k].entry);
    OpenOnFile(es, bl, c, i, ps[k]);
    forall j | 0 <= j < |c.files| && OnFile(j) !in c'.handles
      ensures Describes(Decode(fs[c.place[j]]), c.files[j])
    {
      if j != i {
        StillClosed(c.handles, k, Unused, j);
      }
    }
  }

  lemma StillClosed(hs: seq<Handle>, k: nat, h: Handle, j: nat)
    requires k < |hs| && hs[k] != OnFile(j) && OnFile(j) !in hs[k := h]
    ensures OnFile(j) !in hs
  {
    var ks := hs[k := h];
    assert forall m :: 0 <= m < |hs| && hs[m] == OnFile(j) ==> ks[m] == OnFile(j) && ks[m] in ks;
  }

  // ------------------------------------------------------ storing in the directory

  lemma ChainsApart(g: FatInfo, x: seq<nat>, y: seq<nat>)
    requires Disjoint(x, y) && g.sectorsPerCluster > 0
    requires (forall i :: 0 <= i < |x| ==> 2 <= x[i]) && (forall i :: 0 <= i < |y| ==> 2 <= y[i])
    ensures forall m, n :: 0 <= m < |ChainBlocks(g, x)| && 0 <= n < |ChainBlocks(g, y)| ==>
      ChainBlocks(g, x)[m] != ChainBlocks(g, y)[n]
  {
    hide ClusterBlock, Span, ChainBlocks;
    forall m, n | 0 <= m < |ChainBlocks(g, x)| && 0 <= n < |ChainBlocks(g, y)|
      ensures ChainBlocks(g, x)[m] != ChainBlocks(g, y)[n]
    {
      var k, b := BlockIndex(g, |x|, m);
      var l, h := BlockIndex(g, |y|, n);
      ChainBlockAt(g, x, k, b);
      ChainBlockAt(g, y, l, h);
      assert x[k] in x && y[l] in y;
      if ChainBlocks(g, x)[m] == ChainBlocks(g, y)[n] {
        ClustersApart(g, x[k], b, y[l], h);
      }
    }
  }

  /** The blocks of the directory are neither in the tables nor in any file. */
  ghost predicate DirBlock(g: FatInfo, d: Disk, ss: seq<State>, a: int)
    requires Fits(g, d)
  {
    && g.rootDirBlock <= a < |d|
    && forall i, m :: 0 <= i < |ss| && 0 <= m < |ChainBlocks(g, ss[i].chain)| ==> ChainBlocks(g, ss[i].chain)[m] != a
  }

  lemma RootBlockPlace(g: FatInfo, d: Disk, ss: seq<State>, j: nat)
    requires Fits(g, d) && AllOpen(g, d, ss) && j < |RootBlocks(g)|
    ensures DirBlock(g, d, ss, RootBlocks(g)[j])
  {
    hide Fat, ChainBlocks, ClusterBlock, Open;
    RootShape(g);
    ClusterSize(g);
    forall i | 0 <= i < |ss|
      ensures ChainOnDisk(g, d, ss[i].chain)
    {
      OpenParts(g, d, ss[i]);
    }
    forall i, m | 0 <= i < |ss| && 0 <= m < |ChainBlocks(g, ss[i].chain)|
      ensures ChainBlocks(g, ss[i].chain)[m] >= g.dataOffset
    {
      ChainBlocksInData(g, d, ss[i].chain);
    }
  }

  lemma ChainBlockPlace(g: FatInfo, d: Disk, ss: seq<State>, ch: seq<nat>, j: nat)
    requires Fits(g, d) && AllOpen(g, d, ss) && ChainOnDisk(g, d, ch) && j < |ChainBlocks(g, ch)|
    requires forall i :: 0 <= i < |ss| ==> Disjoint(ch, ss[i].chain)
    ensures DirBlock(g, d, ss, ChainBlocks(g, ch)[j])
  {
    hide Fat, ChainBlocks, ClusterBlock, Open;
    ClusterSize(g);
    ChainBlocksInData(g, d, ch);
    forall i, m | 0 <= i < |ss| && 0 <= m < |ChainBlocks(g, ss[i].chain)|
      ensures ChainBlocks(g, ss[i].chain)[m] != ChainBlocks(g, ch)[j]
    {
      OpenParts(g, d, ss[i]);
      AboveTwo(g, d, ss[i].chain);
      AboveTwo(g, d, ch);
      ChainsApart(g, ch, ss[i].chain);
    }
  }

  lemma AboveTwo(g: FatInfo, d: Disk, ch: seq<nat>)
    requires ChainOnDisk(g, d, ch)
    ensures forall i :: 0 <= i < |ch| ==> 2 <= ch[i]
  {
    hide ClusterBlock;
  }

  lemma DirBlockPlace(g: FatInfo, d: Disk, dir: Dir, ss: seq<State>, others: set<nat>, j: nat)
    requires Sound(g, d, ss, others) && DirOk(g, d, dir, others) && j < |dir.bl|
    ensures DirBlock(g, d, ss, dir.bl[j]) && Distinct(dir.bl) && OnDiskBlocks(d, dir.bl)
  {
    hide Fat, ChainBlocks, RootBlocks, ClusterBlock, Open, EntriesOf, Accounted, Mirrored, FreeUsable, IsChain,
      WellFormed;
    if dir.cluster == 0 {
      RootOnDisk(g, d);
      RootBlockPlace(g, d, ss, j);
    } else {
      ChainBlockPlace(g, d, ss, dir.ch, j);
      ClusterSize(g);
      AboveTwo(g, d, dir.ch);
      ChainAcyclic(Fat0(g, d), dir.ch);
      ChainBlocksDistinct(g, dir.ch);
    }
  }

  lemma StoreSameChain(g: FatInfo, d: Disk, s: State, a: int, block: Block)
    requires Fits(g, d) && Open(g, d, s) && g.rootDirBlock <= a < |d|
    requires forall m :: 0 <= m < |ChainBlocks(g, s.chain)| ==> ChainBlocks(g, s.chain)[m] != a
    ensures SameChain(g, d, d[a := block], s.chain)
  {
    hide Fat, ChainBlocks, ClusterBlock, Open, IsChain, WellFormed;
    SameTables(g, d, a, block);
    OpenParts(g, d, s);
    ChainInTable(Fat0(g, d), s.chain);
    ChainOkBlocks(g, d, s);
  }

  /** Storing a directory block changes no file. */
  lemma StoreKeepsFiles(g: FatInfo, d: Disk, ss: seq<State>, others: set<nat>, a: int, block: Block)
    requires Sound(g, d, ss, others) && DirBlock(g, d, ss, a)
    ensures Sound(g, d[a := block], ss, others)
    ensures Abstract(g, d[a := block], ss) == Abstract(g, d, ss)
  {
    hide Fat, Accounted, SameChain, FileData, Mirrored, Open, FlatOf, ChainBlocks, WellFormed, Free, Separate;
    SameTables(g, d, a, block);
    forall i | 0 <= i < |ss|
      ensures Open(g, d[a := block], ss[i]) && FlatOf(g, d[a := block], ss[i]) == FlatOf(g, d, ss[i])
    {
      StoreSameChain(g, d, ss[i], a, block);
      StillOpen(g, d, d[a := block], ss[i]);
    }
    StillUsable(g, d, d[a := block]);
  }

  lemma StillUsable(g: FatInfo, d: Disk, e: Disk)
    requires Fits(g, d) && FreeUsable(g, d) && |e| == |d| && Fat0(g, e) == Fat0(g, d)
    ensures FreeUsable(g, e)
  {
    hide Fat;
  }

  /** Storing an entry in the directory, as the list of entries and as a change of the disk. */
  lemma StoreKeepsDir(g: FatInfo, d: Disk, dir: Dir, ss: seq<State>, others: set<nat>, q: nat, raw: Raw, e: Disk)
    requires Sound(g, d, ss, others) && DirOk(g, d, dir, others) && OnDiskBlocks(d, dir.bl)
    requires Stored(d, dir.bl, q, raw, e)
    requires dir.cluster == 0 ==> HasEnd(EntriesOf(d, dir.bl)[q := raw])
    ensures OnDiskBlocks(e, dir.bl) && EntriesOf(e, dir.bl) == EntriesOf(d, dir.bl)[q := raw]
    ensures Sound(g, e, ss, others) && Abstract(g, e, ss) == Abstract(g, d, ss)
    ensures DirOk(g, e, dir, others)
  {
    hide Fat, ChainBlocks, RootBlocks, EntriesOf, Sound, Abstract, IsChain, Splice, WellFormed;
    DirBlockPlace(g, d, dir, ss, others, q / 16);
    EntryStored(d, dir.bl, q / 16, q % 16, raw);
    assert 16 * (q / 16) + q % 16 == q;
    SoundParts(g, d, ss, others);
    var a, block := dir.bl[q / 16], Splice(d[dir.bl[q / 16]], 32 * (q % 16), raw);
    SameTables(g, d, a, block);
    StoreKeepsFiles(g, d, ss, others, a, block);
  }

  /** Disk and descriptor after closing: a modified entry is written to its place. */
  ghost predicate WrittenBack(d: Disk, p: Desc, e: Disk) {
    if p.modified then
      p.addr < |d| && IsEntry(p.entry) && p.index + ENTRY_LEN <= BLOCK_SIZE
      && e == d[p.addr := Splice(d[p.addr], p.index, Encode(p.entry))]
    else e == d
  }

  lemma CloseStored(es: seq<Raw>, bl: seq<int>, c: Catalog, i: nat, p: Desc, d: Disk, e: Disk)
    requires |c.place| == |c.files| && EntriesOk(es, c.place) && OnDiskBlocks(d, bl) && es == EntriesOf(d, bl)
    requires OpenOn(es, bl, c, i, p) && WrittenBack(d, p, e)
    ensures IsEntry(p.entry) && c.place[i] < |es|
    ensures if p.modified then Stored(d, bl, c.place[i], Encode(p.entry), e)
            else e == d && es[c.place[i] := Encode(p.entry)] == es
  {
    PlacesApart(es, c.place);
    hide EntriesOk, Encode, EntriesOf, Splice;
  }

  lemma ShutAstray(g: FatInfo, c: Catalog, k: nat, i: nat)
    requires AstrayOk(g, c) && k < |c.handles| && c.handles[k] == OnFile(i)
    ensures AstrayOk(g, Shut(c, k, i))
  {
    hide Astray;
    var hs := c.handles[k := Unused];
    forall j | j in c.astray && j != i
      ensures OnFile(j) in hs
    {
      var m :| 0 <= m < |c.handles| && c.handles[m] == OnFile(j);
      assert hs[m] == OnFile(j);
    }
  }

  /** Closing frees the handle and changes nothing that a program could see of the files. */
  lemma CloseKeeps(g: FatInfo, d: Disk, dir: Dir, c: Catalog, ps: seq<Desc>, k: nat, i: nat, e: Disk)
    requires CatalogOk(g, d, dir, c, ps) && k < |ps| && c.handles[k] == OnFile(i) && WrittenBack(d, ps[k], e)
    ensures CatalogOk(g, e, dir, Shut(c, k, i), ps[k := ps[k].(free := true, stale := false)])
    ensures FolderOf(g, e, dir, Shut(c, k, i)) ==
      FolderOf(g, d, dir, c).(handles := c.handles[k := Unused], astray := c.astray.Keys - {i})
  {
    hide Sound, DirOk, EntriesOf, Abstract, Holes, Ends, Reserved, NamesOf, ClosedOk, HandlesOk, EntriesOk, WrittenBack,
      Stored, OpenOn, Encode, SameNames, AstrayOk;
    var es := EntriesOf(d, dir.bl);
    ListedEntries(es, dir.bl, c, ps);
    CloseListed(es, dir.bl, c, ps, k, i);
    CloseStored(es, dir.bl, c, i, ps[k], d, e);
    var fs := es[c.place[i] := Encode(ps[k].entry)];
    ListedEntries(fs, dir.bl, Shut(c, k, i), ps[k := ps[k].(free := true, stale := false)]);
    SoundParts(g, d, c.files, c.others);
    if ps[k].modified {
      StillEnds(g, d, dir, c.others, fs);
      StoreKeepsDir(g, d, dir, c.files, c.others, c.place[i], Encode(ps[k].entry), e);
    }
    SameSets(es, fs, c.place);
    SameEntriesOk(es, fs, c.place);
    ShutAstray(g, c, k, i);
  }

  lemma StillEnds(g: FatInfo, d: Disk, dir: Dir, others: set<nat>, fs: seq<Raw>)
    requires Fits(g, d) && DirOk(g, d, dir, others) && OnDiskBlocks(d, dir.bl) && SameNames(EntriesOf(d, dir.bl), fs)
    ensures dir.cluster == 0 ==> HasEnd(fs)
  {
    hide EntriesOf, IsEnd, IsDeleted, Named, Fat, IsChain, ChainBlocks, RootBlocks, WellFormed;
    SameStanding(EntriesOf(d, dir.bl), fs);
  }
}
