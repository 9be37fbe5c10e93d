/** Where the invariant starts: volumes with an empty root directory, of which there are some. */
module Formatting {
  import opened Bytes
  import opened Chains
  import opened Layout
  import opened Entries
  import opened Directory
  import opened NamedFiles
  import opened System
  import opened Folders

  ghost function Used(f: seq<word>): set<nat> {
    set n: nat | n < |f| && f[n] != 0
  }

  ghost function NoFiles(f: seq<word>): Catalog {
    Catalog([], [], seq(MAX_FILE_DESC, _ => Unused), Used(f), map[])
  }

  lemma EmptyEntries(es: seq<Raw>)
    requires es != [] && forall q :: 0 <= q < |es| ==> IsEnd(es[q])
    ensures EntriesOk(es, [])
  {
    assert IsEnd(es[0]);
  }

  /** With both tables alike, every free entry naming a cluster that exists and a root directory of
      free entries only, the volume is in order and holds no files; whatever else is in use stays so. */
  lemma EmptyRootAtRest(g: FatInfo, d: Disk)
    requires Fits(g, d) && Mirrored(g, d) && FreeUsable(g, d) && g.nDirEntries > 0
    requires OnDiskBlocks(d, RootBlocks(g))
    requires forall q :: 0 <= q < |EntriesOf(d, RootBlocks(g))| ==> IsEnd(EntriesOf(d, RootBlocks(g))[q])
    ensures AtRest(g, d, Dir(0, [], RootBlocks(g)), NoFiles(Fat0(g, d)))
  {
    hide Fat, IsEnd, EntriesOf;
    RootShape(g);
    var es := EntriesOf(d, RootBlocks(g));
    assert |es| == 16 * |RootBlocks(g)| > 0;
    assert IsEnd(es[0]);
    EmptyEntries(es);
    NothingLost(Fat0(g, d));
  }

  lemma NothingLost(f: seq<word>)
    ensures Accounted(f, [], Used(f))
  {
  }

  // ---------------------------------------------------------- an actual volume

  function BlankBlock(): Block {
    seq(BLOCK_SIZE, _ => 0)
  }

  /** Entries 0 and 1 are reserved, all others are free. */
  function FreshTable(): Block {
    seq(BLOCK_SIZE, i => if i < 4 then 0xFF else 0)
  }

  /** One sector for each table, one for the root directory, 254 clusters of one block, all blank. */
  ghost predicate Blank(g: FatInfo, d: Disk) {
    && g == FatInfo(0, 1, 2, 3, 16, 1, 0, 1)
    && |d| == 257 && d[0] == FreshTable() && d[1] == FreshTable()
    && forall i :: 2 <= i < |d| ==> d[i] == BlankBlock()
  }

  lemma FreshEntry(n: nat)
    requires n < 256
    ensures GetWord(FreshTable(), n) == if n < 2 then EOC else 0
  {
  }

  lemma BlankFits(g: FatInfo, d: Disk)
    requires Blank(g, d)
    ensures Fits(g, d) && g.nDirEntries > 0
  {
    assert Pow2(0) == 1;
  }

  lemma BlankTable(g: FatInfo, d: Disk)
    requires Blank(g, d) && Fits(g, d)
    ensures Mirrored(g, d) && FreeUsable(g, d)
    ensures forall n: nat :: n in Free(Fat0(g, d)) <==> 2 <= n < 256
  {
    hide FreshTable, BlankBlock, WellFormed;
    var f := Fat0(g, d);
    forall n: nat | n < 256
      ensures f[n] == if n < 2 then EOC else 0
    {
      FatAt(g, d, 0, 0, n);
      FreshEntry(n);
    }
    assert d[0..1] == d[1..2];
  }

  lemma ZeroEntry(q: nat)
    requires q < 16
    ensures IsEnd(RawAt(BlankBlock(), q))
  {
  }

  lemma BlankRoot(g: FatInfo, d: Disk)
    requires Blank(g, d) && Fits(g, d)
    ensures OnDiskBlocks(d, RootBlocks(g))
    ensures forall q :: 0 <= q < |EntriesOf(d, RootBlocks(g))| ==> IsEnd(EntriesOf(d, RootBlocks(g))[q])
  {
    hide BlankBlock, RawAt, IsEnd, WellFormed, FreshTable;
    RootOnDisk(g, d);
    RootShape(g);
    assert |RootBlocks(g)| == 1;
    forall q | 0 <= q < 16
      ensures IsEnd(EntriesOf(d, RootBlocks(g))[q])
    {
      EntryAt(d, RootBlocks(g), 0, q);
      ZeroEntry(q);
    }
  }

  /** There is a volume to start from. */
  lemma BlankVolume() returns (g: FatInfo, d: Disk)
    ensures Fits(g, d) && AtRest(g, d, Dir(0, [], RootBlocks(g)), NoFiles(Fat0(g, d)))
    ensures forall n: nat :: n in Free(Fat0(g, d)) <==> 2 <= n < 256
  {
    hide Fat, IsEnd, EntriesOf, AtRest, WellFormed, FreshTable, BlankBlock;
    g := FatInfo(0, 1, 2, 3, 16, 1, 0, 1);
    d := [FreshTable(), FreshTable()] + seq(255, _ => BlankBlock());
    BlankFits(g, d);
    BlankTable(g, d);
    BlankRoot(g, d);
    EmptyRootAtRest(g, d);
  }
}
