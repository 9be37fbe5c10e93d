/** What is found on the card when the power fails in the middle of a call. */
module PowerCuts {
  import opened Bytes
  import opened Chains
  import opened Layout
  import opened Content
  import opened Descriptor
  import opened Writing
  import opened Truncation
  import opened Isolation
  import opened Entries
  import opened Directory
  import opened NamedFiles
  import opened System
  import opened Refinement
  import opened Interruption
  import opened Folders
  import opened FolderSteps
  import opened FolderCommands
  import opened Surroundings

  /** Everything but file `i` is on disk `e` as it is on disk `d`: the directory reads the same, every
      other file has its bytes in the clusters that its entry or its descriptor names, and so has all
      else on the volume. */
  ghost predicate Survives(g: FatInfo, d: Disk, dir: Dir, c: Catalog, i: nat, e: Disk)
    requires Fits(g, d) && AllOpen(g, d, c.files) && OnDiskBlocks(d, dir.bl)
  {
    && OthersIntact(g, d, c.files, i, e)
    && DirOk(g, e, dir, c.others) && OnDiskBlocks(e, dir.bl) && EntriesOf(e, dir.bl) == EntriesOf(d, dir.bl)
    && RestKept(g, d, e, dir, c.others)
  }

  /** At whichever block write of a call on file `i` the power fails, all the rest survives. */
  ghost predicate AllSurvive(g: FatInfo, d: Disk, dir: Dir, c: Catalog, i: nat, steps: seq<Disk>) {
    && Fits(g, d) && AllOpen(g, d, c.files) && OnDiskBlocks(d, dir.bl)
    && forall k :: 0 <= k < |steps| ==> Survives(g, d, dir, c, i, steps[k])
  }

  lemma CrashKeepsDir(g: FatInfo, d: Disk, ch: seq<nat>, e: Disk, dir: Dir, others: set<nat>)
    requires Fits(g, d) && DirOk(g, d, dir, others) && CrashDisk(g, d, ch, e) && Fits(g, e) && Outside(ch, others)
    ensures DirOk(g, e, dir, others) && OnDiskBlocks(e, dir.bl) && EntriesOf(e, dir.bl) == EntriesOf(d, dir.bl)
  {
    hide Fat, WellFormed, ChainBlocks, RootBlocks, EntriesOf, IsChain, SameChain, SameBlocks, OnlyOwned;
    if dir.cluster == 0 {
      GrewKeepsRoot(g, d, ch, e);
    } else {
      CrashKeepsChain(g, d, ch, e, dir.ch);
      SameChainBlocks(g, d, e, dir.ch);
    }
    DirKept(g, d, e, dir, others);
  }

  lemma CrashCutKeepsDir(g: FatInfo, d: Disk, ch: seq<nat>, keep: nat, e: Disk, dir: Dir, others: set<nat>)
    requires Fits(g, d) && DirOk(g, d, dir, others) && SameOutsideFats(g, d, e) && Outside(ch, others)
    requires keep <= |ch| && CrashCut(Fat0(g, d), ch, keep, Fat0(g, e))
    ensures DirOk(g, e, dir, others) && OnDiskBlocks(e, dir.bl) && EntriesOf(e, dir.bl) == EntriesOf(d, dir.bl)
  {
    hide Fat, WellFormed, ChainBlocks, RootBlocks, EntriesOf, IsChain, SameChain, SameBlocks, CrashCut;
    if dir.cluster == 0 {
      CutKeepsRoot(g, d, e);
    } else {
      CrashCutKeepsChain(g, d, ch, keep, e, dir.ch);
      SameChainBlocks(g, d, e, dir.ch);
    }
    DirKept(g, d, e, dir, others);
  }

  /** Power cut during a write. */
  lemma WriteSurvives(g: FatInfo, d: Disk, dir: Dir, c: Catalog, ps: seq<Desc>, i: nat, steps: seq<Disk>)
    requires CatalogOk(g, d, dir, c, ps) && i < |c.files| && CrashSafe(g, d, c.files[i].chain, steps)
    ensures AllSurvive(g, d, dir, c, i, steps)
  {
    hide Fat, CrashDisk, Sound, DirOk, Listed, EntriesOf, OthersIntact, Outside, RestKept;
    SoundParts(g, d, c.files, c.others);
    FileSeparate(g, d, c.files, c.others, i);
    WriteInterrupted(g, d, c.files, c.others, i, steps);
    forall k | 0 <= k < |steps|
      ensures Survives(g, d, dir, c, i, steps[k])
    {
      CrashDiskFits(g, d, c.files[i].chain, steps[k]);
      CrashKeepsDir(g, d, c.files[i].chain, steps[k], dir, c.others);
      RestCrash(g, d, c.files, c.others, c.files[i].chain, steps[k], dir);
    }
  }

  /** Power cut during a truncation. */
  lemma TruncateSurvives(g: FatInfo, d: Disk, dir: Dir, c: Catalog, ps: seq<Desc>, i: nat, keep: nat, steps: seq<Disk>)
    requires CatalogOk(g, d, dir, c, ps) && i < |c.files| && keep <= |c.files[i].chain|
    requires CutSafe(g, d, c.files[i].chain, keep, steps)
    ensures AllSurvive(g, d, dir, c, i, steps)
  {
    hide Fat, CrashCut, Sound, DirOk, Listed, EntriesOf, OthersIntact, Outside, RestKept;
    SoundParts(g, d, c.files, c.others);
    FileSeparate(g, d, c.files, c.others, i);
    CutInterrupted(g, d, c.files, c.others, i, keep, steps);
    forall k | 0 <= k < |steps|
      ensures Survives(g, d, dir, c, i, steps[k])
    {
      CrashCutKeepsDir(g, d, c.files[i].chain, keep, steps[k], dir, c.others);
      RestCrashCut(g, d, c.others, c.files[i].chain, keep, steps[k], dir);
    }
  }

  /** After such a cut every other file that was closed is found by its entry, with all its bytes. */
  lemma SurvivorReadable(g: FatInfo, d: Disk, dir: Dir, c: Catalog, ps: seq<Desc>, i: nat, e: Disk, j: nat)
    requires CatalogOk(g, d, dir, c, ps) && i < |c.files| && j < |c.files| && j != i && OnFile(j) !in c.handles
    requires Survives(g, d, dir, c, i, e)
    ensures Fits(g, e) && c.place[j] < |EntriesOf(e, dir.bl)|
    ensures Describes(Decode(EntriesOf(e, dir.bl)[c.place[j]]), c.files[j])
    ensures Open(g, e, c.files[j]) && FlatOf(g, e, c.files[j]) == FlatOf(g, d, c.files[j])
  {
    hide Fat, Sound, DirOk, EntriesOf, EntriesOk, HandlesOk, Open, FlatOf, Decode, RestKept;
    PlacesApart(EntriesOf(d, dir.bl), c.place);
  }
}
