/** Where the regions of a mounted FAT16 volume lie, and the views of the disk they give. */
module Layout {
  import opened Bytes
  import opened Chains

  datatype FatInfo = FatInfo(
    fat0Offset: dword,
    fat1Offset: dword,
    rootDirBlock: dword,
    dataOffset: dword,
    nDirEntries: word,
    sectorsPerFat: word,
    logSectorsPerCluster: byte,
    sectorsPerCluster: byte)

  /** The layout that mounting a volume with two allocation tables establishes. */
  ghost predicate WellFormed(g: FatInfo) {
    && 1 <= g.sectorsPerFat <= 256
    && g.logSectorsPerCluster <= 6
    && g.sectorsPerCluster == Pow2(g.logSectorsPerCluster)
    && g.fat1Offset == g.fat0Offset + g.sectorsPerFat
    && g.rootDirBlock == g.fat1Offset + g.sectorsPerFat
    && g.dataOffset == g.rootDirBlock + (g.nDirEntries + 15) / 16
  }

  ghost predicate Fits(g: FatInfo, d: Disk) {
    WellFormed(g) && g.dataOffset <= |d| < 0xFFFF_FFFF
  }

  lemma SectorsPerCluster(g: FatInfo)
    requires WellFormed(g)
    ensures g.sectorsPerCluster in {1, 2, 4, 8, 16, 32, 64}
  {
    assert Pow2(2) == 4 && Pow2(4) == 16 && Pow2(6) == 64;
  }

  lemma ClusterSize(g: FatInfo)
    requires WellFormed(g)
    ensures 0 < g.sectorsPerCluster <= 64
  {
    SectorsPerCluster(g);
  }

  // ------------------------------------------------------- allocation tables

  /** The allocation table that starts at block `base`. */
  ghost function Fat(g: FatInfo, d: Disk, base: nat): (f: seq<word>)
    requires base + g.sectorsPerFat <= |d|
    ensures |f| == 256 * g.sectorsPerFat
  {
    seq(256 * g.sectorsPerFat, (n: nat) requires n < 256 * g.sectorsPerFat => GetWord(d[base + n / 256], n % 256))
  }

  lemma FatAt(g: FatInfo, d: Disk, base: nat, s: nat, i: nat)
    requires base + g.sectorsPerFat <= |d| && s < g.sectorsPerFat && i < 256
    ensures Fat(g, d, base)[256 * s + i] == GetWord(d[base + s], i)
  {
    assert (256 * s + i) / 256 == s && (256 * s + i) % 256 == i;
  }

  /** Entry `n` of the table at block `base` reads `w`: two bytes of the card, the low one first. */
  ghost predicate EntryInBytes(d: Disk, base: nat, n: nat, w: word)
    requires base + n / 256 < |d|
  {
    && d[base + n / 256][2 * (n % 256)] == w % 256
    && d[base + n / 256][2 * (n % 256) + 1] == w / 256
  }

  lemma FatInBytes(g: FatInfo, d: Disk, base: nat, n: nat, w: word)
    requires base + g.sectorsPerFat <= |d| && n < 256 * g.sectorsPerFat
    ensures Fat(g, d, base)[n] == w <==> EntryInBytes(d, base, n, w)
  {
    hide WellFormed;
    FatAt(g, d, base, n / 256, n % 256);
    GetWordBytes(d[base + n / 256], n % 256);
  }

  ghost function Fat0(g: FatInfo, d: Disk): seq<word>
    requires Fits(g, d)
  {
    Fat(g, d, g.fat0Offset)
  }

  ghost function Fat1(g: FatInfo, d: Disk): seq<word>
    requires Fits(g, d)
  {
    Fat(g, d, g.fat1Offset)
  }

  type FatPair = (seq<word>, seq<word>)

  ghost function FatViews(g: FatInfo, d: Disk): (p: FatPair)
    requires Fits(g, d)
    ensures |p.0| == |p.1| == 256 * g.sectorsPerFat
  {
    (Fat0(g, d), Fat1(g, d))
  }

  /** Both allocation tables hold the same blocks. */
  ghost predicate Mirrored(g: FatInfo, d: Disk)
    requires Fits(g, d)
  {
    d[g.fat0Offset..g.fat1Offset] == d[g.fat1Offset..g.rootDirBlock]
  }

  lemma MirroredAt(g: FatInfo, d: Disk, s: nat)
    requires Fits(g, d) && Mirrored(g, d) && s < g.sectorsPerFat
    ensures d[g.fat0Offset + s] == d[g.fat1Offset + s]
  {
    assert d[g.fat0Offset..g.fat1Offset][s] == d[g.fat1Offset..g.rootDirBlock][s];
  }

  ghost predicate SameOutsideFats(g: FatInfo, d: Disk, e: Disk) {
    && |e| == |d|
    && forall a :: 0 <= a < |d| && !(g.fat0Offset <= a < g.rootDirBlock) ==> e[a] == d[a]
  }

  /** Storing one word in a sector of a table changes that entry of its view. */
  lemma FatStore(g: FatInfo, d: Disk, base: nat, s: nat, i: nat, w: word)
    requires base + g.sectorsPerFat <= |d| && s < g.sectorsPerFat && i < 256
    ensures Fat(g, d[base + s := PutWord(d[base + s], i, w)], base) == Fat(g, d, base)[256 * s + i := w]
  {
    var e := d[base + s := PutWord(d[base + s], i, w)];
    forall n: nat | n < 256 * g.sectorsPerFat
      ensures Fat(g, e, base)[n] == Fat(g, d, base)[256 * s + i := w][n]
    {
      if n / 256 == s {
        PutWordGet(d[base + s], i, w, n % 256);
      }
    }
  }

  lemma FatFrame(g: FatInfo, d: Disk, e: Disk, base: nat)
    requires base + g.sectorsPerFat <= |d| && |e| == |d|
    requires forall a :: base <= a < base + g.sectorsPerFat ==> e[a] == d[a]
    ensures Fat(g, e, base) == Fat(g, d, base)
  {
    forall n: nat | n < 256 * g.sectorsPerFat
      ensures Fat(g, e, base)[n] == Fat(g, d, base)[n]
    {
      assert e[base + n / 256] == d[base + n / 256];
    }
  }

  lemma SameViewsMirrored(g: FatInfo, d: Disk)
    requires Fits(g, d) && FatViews(g, d).0 == FatViews(g, d).1
    ensures Mirrored(g, d)
  {
    forall s | 0 <= s < g.sectorsPerFat
      ensures d[g.fat0Offset..g.fat1Offset][s] == d[g.fat1Offset..g.rootDirBlock][s]
    {
      var a, b := d[g.fat0Offset + s], d[g.fat1Offset + s];
      forall i | 0 <= i < 256
        ensures GetWord(a, i) == GetWord(b, i)
      {
        FatAt(g, d, g.fat0Offset, s, i);
        FatAt(g, d, g.fat1Offset, s, i);
      }
      WordsDetermineBlock(a, b);
    }
  }

  lemma MirroredViews(g: FatInfo, d: Disk)
    requires Fits(g, d) && Mirrored(g, d)
    ensures Fat0(g, d) == Fat1(g, d) == FatViews(g, d).0 == FatViews(g, d).1
  {
    forall n: nat | n < 256 * g.sectorsPerFat
      ensures Fat0(g, d)[n] == Fat1(g, d)[n]
    {
      MirroredAt(g, d, n / 256);
    }
  }

  // --------------------------------------------------------------- data area

  /** First block of a data cluster. */
  function ClusterBlock(g: FatInfo, c: int): int {
    g.dataOffset + (c - 2) * g.sectorsPerCluster
  }

  ghost predicate OnDisk(g: FatInfo, d: Disk, c: int) {
    2 <= c && ClusterBlock(g, c) + g.sectorsPerCluster <= |d|
  }

  /** Every free entry names a cluster that exists, so the allocator need not know the cluster count. */
  ghost predicate FreeUsable(g: FatInfo, d: Disk)
    requires Fits(g, d)
  {
    var f := Fat0(g, d);
    forall c :: 0 <= c < |f| && f[c] == 0 ==> IsCluster(f, c) && OnDisk(g, d, c)
  }
}
