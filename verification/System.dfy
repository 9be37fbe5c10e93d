/** Several open files on one volume, and the plain byte strings they stand for. */
module System {
  import opened Bytes
  import opened Chains
  import opened Growth
  import opened Layout
  import opened Content
  import opened Descriptor
  import opened FileSteps
  import opened Writing
  import opened Isolation
  import opened FlatFiles

  ghost predicate InSome(ss: seq<State>, n: nat) {
    exists i :: 0 <= i < |ss| && n in ss[i].chain
  }

  /** Every used entry of the table belongs to one of the files or is one of the others: nothing is lost. */
  ghost predicate Accounted(f: seq<word>, ss: seq<State>, others: set<nat>) {
    forall n: nat :: n < |f| ==> (f[n] != 0 <==> n in others || InSome(ss, n))
  }

  /** No two files share a cluster, and none has one of the others'. */
  ghost predicate Separate(ss: seq<State>, others: set<nat>) {
    && (forall i, j :: 0 <= i < |ss| && 0 <= j < |ss| && i != j ==> Disjoint(ss[i].chain, ss[j].chain))
    && (forall i, n :: 0 <= i < |ss| && n in ss[i].chain ==> n !in others)
  }

  ghost predicate AllOpen(g: FatInfo, d: Disk, ss: seq<State>)
    requires Fits(g, d)
  {
    forall i :: 0 <= i < |ss| ==> Open(g, d, ss[i])
  }

  /** The heap of clusters is in order: both tables agree, the chains of all open files are
      terminated, disjoint and as long as their sizes ask for, and no cluster is lost. */
  ghost predicate Sound(g: FatInfo, d: Disk, ss: seq<State>, others: set<nat>) {
    && Fits(g, d) && Mirrored(g, d) && FreeUsable(g, d)
    && AllOpen(g, d, ss) && Separate(ss, others) && Accounted(Fat0(g, d), ss, others)
  }

  ghost function FlatOf(g: FatInfo, d: Disk, s: State): Flat
    requires Fits(g, d) && Open(g, d, s)
  {
    OpenHolds(g, d, s);
    Flat(FileData(g, d, s), s.off)
  }

  /** A file whose clusters and blocks are untouched stands for the same bytes. */
  lemma StillOpen(g: FatInfo, d: Disk, e: Disk, o: State)
    requires Fits(g, d) && Open(g, d, o) && SameChain(g, d, e, o.chain)
    ensures Fits(g, e) && Open(g, e, o) && FlatOf(g, e, o) == FlatOf(g, d, o)
  {
    hide Fat, ClusterBlock, Span, WellFormed, ChainBlocks, Content.Data, Open, FileData;
    OpenKept(g, d, e, o);
  }

  /** The byte strings that the open files stand for. */
  ghost function Abstract(g: FatInfo, d: Disk, ss: seq<State>): (r: Store)
    requires Fits(g, d) && AllOpen(g, d, ss)
    ensures |r.files| == |ss|
  {
    Store(seq(|ss|, i requires 0 <= i < |ss| => FlatOf(g, d, ss[i])), |Free(Fat0(g, d))|)
  }

  lemma OpenCanGrow(g: FatInfo, d: Disk, s: State)
    requires Fits(g, d) && FreeUsable(g, d) && Open(g, d, s)
    ensures CanGrow(g, d, s.chain)
  {
    hide Fat, ClusterBlock, Span, At, Pow2;
    ChainInTable(Fat0(g, d), s.chain);
    assert |Fat0(g, d)| == 256 * g.sectorsPerFat;
  }

  // ------------------------------------------------------------------ writing

  lemma WriteKeepsOthers(g: FatInfo, d: Disk, ss: seq<State>, others: set<nat>, i: nat, e: Disk, to: seq<nat>, j: nat)
    requires Sound(g, d, ss, others) && i < |ss| && j < |ss| && j != i && Grew(g, d, ss[i].chain, e, to)
    ensures Fits(g, e) && Open(g, e, ss[j]) && FlatOf(g, e, ss[j]) == FlatOf(g, d, ss[j])
    ensures Disjoint(ss[j].chain, to) && Disjoint(to, ss[j].chain)
  {
    hide Fat, Grew, Accounted, SameChain, FileData, Mirrored, FreeUsable;
    OpenParts(g, d, ss[j]);
    GrewFits(g, d, ss[i].chain, e, to);
    GrewKeepsChain(g, d, ss[i].chain, e, to, ss[j].chain);
    OpenKept(g, d, e, ss[j]);
  }

  lemma GrewFits(g: FatInfo, d: Disk, ch: seq<nat>, e: Disk, to: seq<nat>)
    requires Fits(g, d) && Grew(g, d, ch, e, to)
    ensures Fits(g, e) && Mirrored(g, e) && FreeUsable(g, e) && CanGrow(g, e, to)
  {
    GrewCanGrow(g, d, ch, e, to);
  }

  lemma WriteAccounts(f: seq<word>, ss: seq<State>, others: set<nat>, i: nat, h: seq<word>, t: State)
    requires Accounted(f, ss, others) && i < |ss| && GrewTo(f, ss[i].chain, h, t.chain)
    ensures Accounted(h, ss[i := t], others)
  {
    hide GrewTo;
    GrewToGrowable(f, ss[i].chain, h, t.chain);
    forall n: nat | n < |h|
      ensures h[n] != 0 <==> n in others || InSome(ss[i := t], n)
    {
      GrewEntryUse(f, ss[i].chain, h, t.chain, n);
      InSomeUpdate(ss, i, t, n);
    }
  }

  /** An entry is in use after growth just when it was before or is the chain's now. */
  lemma GrewEntryUse(f: seq<word>, ch: seq<nat>, h: seq<word>, to: seq<nat>, n: nat)
    requires GrewTo(f, ch, h, to) && n < |f|
    ensures |h| == |f| && (h[n] != 0 <==> f[n] != 0 || n in to)
    ensures n in ch ==> n in to
    ensures n in to && n !in ch ==> f[n] == 0
  {
    var ext := to[|ch|..];
    assert to == ch + ext;
    GrewToGrowable(f, ch, h, to);
    hide Growable, Grow, FirstFits;
    GrowEntry(f, ch, ext, n);
    if n in ch {
      GrowableUsed(f, ch, n);
    }
  }

  lemma GrowableUsed(f: seq<word>, ch: seq<nat>, n: nat)
    requires Growable(f, ch) && n in ch
    ensures n < |f| && f[n] != 0
  {
    ClustersUsed(f, ch);
  }

  lemma InSomeUpdate(ss: seq<State>, i: nat, t: State, n: nat)
    requires i < |ss|
    ensures InSome(ss[i := t], n) <==> n in t.chain || exists j :: 0 <= j < |ss| && j != i && n in ss[j].chain
    ensures InSome(ss, n) <==> n in ss[i].chain || exists j :: 0 <= j < |ss| && j != i && n in ss[j].chain
  {
    var us := ss[i := t];
    assert us[i] == t;
    assert forall j :: 0 <= j < |ss| && j != i ==> us[j] == ss[j];
  }

  /** The other files of a changed list are separate from a chain as soon as each of them is. */
  lemma SeparateUpdate(ss: seq<State>, others: set<nat>, i: nat, t: State)
    requires Separate(ss, others) && i < |ss|
    requires forall j :: 0 <= j < |ss| && j != i ==> Disjoint(ss[j].chain, t.chain) && Disjoint(t.chain, ss[j].chain)
    requires forall n :: n in t.chain ==> n !in others
    ensures Separate(ss[i := t], others)
  {
    hide Disjoint;
  }

  lemma WriteSound(g: FatInfo, d: Disk, ss: seq<State>, others: set<nat>, i: nat, e: Disk, t: State)
    requires Sound(g, d, ss, others) && i < |ss| && Grew(g, d, ss[i].chain, e, t.chain) && Fits(g, e) && Open(g, e, t)
    ensures Sound(g, e, ss[i := t], others)
    ensures Abstract(g, e, ss[i := t]) ==
      Store(Abstract(g, d, ss).files[i := FlatOf(g, e, t)], |Free(Fat0(g, e))|)
  {
    hide Fat, GrewTo, Accounted, FileData, Mirrored, FreeUsable, Open, FlatOf, Separate, OnlyOwned, Free, CanGrow;
    GrewFits(g, d, ss[i].chain, e, t.chain);
    forall j | 0 <= j < |ss| && j != i
      ensures Open(g, e, ss[j]) && FlatOf(g, e, ss[j]) == FlatOf(g, d, ss[j])
      ensures Disjoint(ss[j].chain, t.chain) && Disjoint(t.chain, ss[j].chain)
    {
      WriteKeepsOthers(g, d, ss, others, i, e, t.chain, j);
    }
    WriteAccounts(Fat0(g, d), ss, others, i, Fat0(g, e), t);
    WriteOthers(g, d, ss, others, i, Fat0(g, e), t);
    SeparateUpdate(ss, others, i, t);
  }

  lemma WriteOthers(g: FatInfo, d: Disk, ss: seq<State>, others: set<nat>, i: nat, h: seq<word>, t: State)
    requires Sound(g, d, ss, others) && i < |ss| && GrewTo(Fat0(g, d), ss[i].chain, h, t.chain)
    ensures forall n :: n in t.chain ==> n !in others
  {
    hide Fat, GrewTo, Mirrored, FreeUsable, AllOpen;
    GrewToGrowable(Fat0(g, d), ss[i].chain, h, t.chain);
  }

  // ------------------------------------------------------------------ cutting

  /** An entry is in use after a cut just when it was before and is not one of those cut off. */
  lemma CutEntryUse(f: seq<word>, ch: seq<nat>, keep: nat, n: nat)
    requires (ch == [] || IsChain(f, ch)) && InTable(f, ch) && keep <= |ch| && n < |f|
    ensures |CutFat(f, ch, keep)| == |f|
    ensures CutFat(f, ch, keep)[n] != 0 <==> f[n] != 0 && n !in ch[keep..]
    ensures n in ch <==> n in ch[..keep] || n in ch[keep..]
    ensures n in ch ==> f[n] != 0
    ensures n in ch[..keep] ==> n !in ch[keep..]
  {
    hide CutFat, IsChain, InTable;
    CutLength(f, ch, keep);
    InEitherPart(ch, keep, n);
    if ch == [] {
      CutNothing(f);
    } else {
      UsedMember(f, ch, n);
      CutApart(f, ch, keep, n);
      CutUse(f, ch, keep, n);
    }
  }

  lemma InEitherPart(ch: seq<nat>, keep: nat, n: nat)
    requires keep <= |ch|
    ensures n in ch <==> n in ch[..keep] || n in ch[keep..]
  {
    assert ch == ch[..keep] + ch[keep..];
  }

  lemma UsedMember(f: seq<word>, ch: seq<nat>, n: nat)
    requires IsChain(f, ch) && n < |f|
    ensures n in ch ==> f[n] != 0
  {
    ClustersUsed(f, ch);
  }

  lemma CutUse(f: seq<word>, ch: seq<nat>, keep: nat, n: nat)
    requires IsChain(f, ch) && InTable(f, ch) && keep <= |ch| && n < |f| == |CutFat(f, ch, keep)|
    ensures CutFat(f, ch, keep)[n] != 0 <==> f[n] != 0 && n !in ch[keep..]
  {
    if keep == |ch| {
      CutWhole(f, ch);
    } else {
      CutAt(f, ch, keep, n);
      hide CutFat, InTable, IsChain;
      if keep > 0 && n == ch[keep - 1] {
        UsedMember(f, ch, n);
        CutApart(f, ch, keep, n);
        assert n == ch[..keep][keep - 1];
      }
    }
  }

  lemma CutWhole(f: seq<word>, ch: seq<nat>)
    requires InTable(f, ch)
    ensures CutFat(f, ch, |ch|) == f && ch[|ch|..] == []
  {
  }

  lemma CutNothing(f: seq<word>)
    ensures CutFat(f, [], 0) == f
  {
  }

  lemma CutApart(f: seq<word>, ch: seq<nat>, keep: nat, n: nat)
    requires keep <= |ch| && IsChain(f, ch)
    ensures n in ch[..keep] ==> n !in ch[keep..]
  {
    ChainAcyclic(f, ch);
  }

  lemma CutAccounts(f: seq<word>, ss: seq<State>, others: set<nat>, i: nat, keep: nat, t: State)
    requires Accounted(f, ss, others) && Separate(ss, others) && i < |ss|
    requires ss[i].chain == [] || IsChain(f, ss[i].chain)
    requires InTable(f, ss[i].chain) && keep <= |ss[i].chain| && t.chain == ss[i].chain[..keep]
    ensures Accounted(CutFat(f, ss[i].chain, keep), ss[i := t], others)
  {
    hide IsChain, CutFat;
    var ch := ss[i].chain;
    CutLength(f, ch, keep);
    forall n: nat | n < |f|
      ensures CutFat(f, ch, keep)[n] != 0 <==> n in others || InSome(ss[i := t], n)
    {
      CutEntryUse(f, ch, keep, n);
      InSomeUpdate(ss, i, t, n);
    }
  }

  lemma CutLength(f: seq<word>, ch: seq<nat>, keep: nat)
    requires InTable(f, ch) && keep <= |ch|
    ensures |CutFat(f, ch, keep)| == |f|
  {
  }

  /** What the file loses the free pool gains. */
  lemma CutFree(f: seq<word>, ch: seq<nat>, keep: nat)
    requires (ch == [] || IsChain(f, ch)) && InTable(f, ch) && keep <= |ch|
    ensures |Free(CutFat(f, ch, keep))| == |Free(f)| + |ch| - keep
  {
    hide CutFat, IsChain, InTable, Free;
    CutFreed(f, ch, keep);
    TailDistinct(f, ch, keep);
    MembersCount(ch[keep..]);
  }

  lemma CutFreed(f: seq<word>, ch: seq<nat>, keep: nat)
    requires (ch == [] || IsChain(f, ch)) && InTable(f, ch) && keep <= |ch|
    ensures Free(CutFat(f, ch, keep)) == Free(f) + Members(ch[keep..]) && Free(f) !! Members(ch[keep..])
  {
    hide CutFat, IsChain;
    CutLength(f, ch, keep);
    TailInTable(f, ch, keep);
    var h, tail := CutFat(f, ch, keep), ch[keep..];
    forall n: nat | n < |f|
      ensures n in Free(h) <==> n in Free(f) || n in tail
      ensures n in Free(f) ==> n !in tail
    {
      CutEntryUse(f, ch, keep, n);
    }
    MembersAre(tail);
  }

  ghost function Members(s: seq<nat>): set<nat> {
    if s == [] then {} else {s[0]} + Members(s[1..])
  }

  lemma {:induction false} MembersAre(s: seq<nat>)
    ensures forall n: nat :: n in Members(s) <==> n in s
  {
    if s != [] {
      MembersAre(s[1..]);
      assert forall n: nat :: n in s <==> n == s[0] || n in s[1..];
    }
  }

  lemma {:induction false} MembersCount(s: seq<nat>)
    requires forall i, j :: 0 <= i < j < |s| ==> s[i] != s[j]
    ensures |Members(s)| == |s|
  {
    if s != [] {
      MembersCount(s[1..]);
      MembersAre(s[1..]);
    }
  }

  lemma TailInTable(f: seq<word>, ch: seq<nat>, keep: nat)
    requires InTable(f, ch) && keep <= |ch|
    ensures forall n :: n in ch[keep..] ==> n < |f|
  {
  }

  lemma TailDistinct(f: seq<word>, ch: seq<nat>, keep: nat)
    requires (ch == [] || IsChain(f, ch)) && keep <= |ch|
    ensures forall i, j :: 0 <= i < j < |ch[keep..]| ==> ch[keep..][i] != ch[keep..][j]
  {
    if ch != [] {
      ChainAcyclic(f, ch);
    }
  }

  lemma CutSound(g: FatInfo, d: Disk, ss: seq<State>, others: set<nat>, i: nat, keep: nat, e: Disk, t: State)
    requires Sound(g, d, ss, others) && i < |ss| && keep <= |ss[i].chain| && InTable(Fat0(g, d), ss[i].chain)
    requires SameOutsideFats(g, d, e) && Mirrored(g, e) && t.chain == ss[i].chain[..keep]
    requires Fat0(g, e) == CutFat(Fat0(g, d), ss[i].chain, keep) && Open(g, e, t)
    ensures Sound(g, e, ss[i := t], others)
    ensures Abstract(g, e, ss[i := t]) ==
      Store(Abstract(g, d, ss).files[i := FlatOf(g, e, t)], |Free(Fat0(g, d))| + |ss[i].chain| - keep)
  {
    hide Fat, Accounted, FileData, Mirrored, FreeUsable, Open, FlatOf, Separate, CutFat, Free, IsChain, InTable;
    OpenParts(g, d, ss[i]);
    forall j | 0 <= j < |ss| && j != i
      ensures Open(g, e, ss[j]) && FlatOf(g, e, ss[j]) == FlatOf(g, d, ss[j])
    {
      CutKeepsOther(g, d, ss, others, i, keep, e, j);
    }
    CutAccounts(Fat0(g, d), ss, others, i, keep, t);
    CutFree(Fat0(g, d), ss[i].chain, keep);
    CutUsable(g, d, ss[i].chain, keep, e);
    CutSeparate(ss, others, i, keep, t);
  }

  lemma CutKeepsOther(g: FatInfo, d: Disk, ss: seq<State>, others: set<nat>, i: nat, keep: nat, e: Disk, j: nat)
    requires Sound(g, d, ss, others) && i < |ss| && j < |ss| && i != j
    requires keep <= |ss[i].chain| && InTable(Fat0(g, d), ss[i].chain)
    requires SameOutsideFats(g, d, e) && Fat0(g, e) == CutFat(Fat0(g, d), ss[i].chain, keep)
    ensures Open(g, e, ss[j]) && FlatOf(g, e, ss[j]) == FlatOf(g, d, ss[j])
  {
    hide Fat, Accounted, SameChain, FileData, Mirrored, FreeUsable, CutFat;
    OpenParts(g, d, ss[j]);
    CutKeepsChain(g, d, ss[i].chain, keep, e, ss[j].chain);
    OpenKept(g, d, e, ss[j]);
  }

  lemma CutSeparate(ss: seq<State>, others: set<nat>, i: nat, keep: nat, t: State)
    requires Separate(ss, others) && i < |ss| && keep <= |ss[i].chain| && t.chain == ss[i].chain[..keep]
    ensures Separate(ss[i := t], others)
  {
    forall n | n in t.chain
      ensures n in ss[i].chain
    {
    }
    SeparateUpdate(ss, others, i, t);
  }

  /** Clusters given back can be taken again. */
  lemma CutUsable(g: FatInfo, d: Disk, ch: seq<nat>, keep: nat, e: Disk)
    requires Fits(g, d) && FreeUsable(g, d) && SameOutsideFats(g, d, e) && keep <= |ch| && InTable(Fat0(g, d), ch)
    requires (ch == [] || IsChain(Fat0(g, d), ch)) && ChainOnDisk(g, d, ch)
    requires Fat0(g, e) == CutFat(Fat0(g, d), ch, keep)
    ensures FreeUsable(g, e)
  {
    hide Fat, CutFat, IsChain;
    var f, h := Fat0(g, d), Fat0(g, e);
    forall c: nat | c < |h| && h[c] == 0
      ensures IsCluster(h, c) && OnDisk(g, e, c)
    {
      CutEntryUse(f, ch, keep, c);
      if f[c] != 0 {
        ChainMember(g, d, ch, c);
      }
    }
  }

  lemma ChainMember(g: FatInfo, d: Disk, ch: seq<nat>, c: nat)
    requires Fits(g, d) && c in ch && (ch == [] || IsChain(Fat0(g, d), ch)) && ChainOnDisk(g, d, ch)
    ensures IsCluster(Fat0(g, d), c) && OnDisk(g, d, c)
  {
  }
}
