/** What each operation on one open file does to the byte strings that all open files stand for. */
module Refinement {
  import opened Bytes
  import opened Chains
  import opened Growth
  import opened Layout
  import opened Content
  import opened Descriptor
  import opened Position
  import opened FileSteps
  import opened FileIO
  import opened Writing
  import opened Truncation
  import opened FlatFiles
  import opened System

  function ClusterBytes(g: FatInfo): nat {
    BLOCK_SIZE * g.sectorsPerCluster
  }

  /** A consistent file has exactly the clusters that its bytes need. */
  lemma ChainLength(g: FatInfo, ch: seq<nat>, size: nat)
    requires WellFormed(g) && SizeFits(g, ch, size)
    ensures ClusterBytes(g) > 0 && Clusters(ClusterBytes(g), size) == |ch|
  {
    ClusterSize(g);
    var cb := ClusterBytes(g);
    if ch == [] {
      ModUnique(cb - 1, 0, cb, cb - 1);
    } else {
      var n := |ch| - 1;
      SpanBytes(g, cb, n);
      SpanBytes(g, cb, n + 1);
      hide Span;
      MulAdd(n, 1, cb);
      ModUnique(size + cb - 1, n + 1, cb, size - 1 - n * cb);
    }
  }

  lemma OpenLength(g: FatInfo, d: Disk, s: State)
    requires Fits(g, d) && Open(g, d, s)
    ensures ClusterBytes(g) > 0 && Clusters(ClusterBytes(g), s.size) == |s.chain|
    ensures s.off <= s.size <= |s.chain| * ClusterBytes(g)
  {
    hide Fat, IsChain, WellFormed, OnDisk;
    ChainLength(g, s.chain, s.size);
    SpanBytes(g, ClusterBytes(g), |s.chain|);
  }

  lemma FlatIs(g: FatInfo, d: Disk, ss: seq<State>, i: nat)
    requires Fits(g, d) && AllOpen(g, d, ss) && i < |ss|
    ensures Holds(g, d, ss[i]) && ss[i].off <= ss[i].size
    ensures Abstract(g, d, ss).files[i] == Flat(FileData(g, d, ss[i]), ss[i].off)
    ensures Abstract(g, d, ss).free == |Free(Fat0(g, d))|
  {
    hide Open, FileData, Fat, Free;
    OpenHolds(g, d, ss[i]);
    OpenSize(g, d, ss[i]);
  }

  // ------------------------------------------------------------------ moving

  /** Moving the position of one file is invisible to the others. */
  lemma MoveSound(g: FatInfo, d: Disk, ss: seq<State>, others: set<nat>, i: nat, t: State)
    requires Sound(g, d, ss, others) && i < |ss| && Open(g, d, t) && SameFile(ss[i], t)
    ensures Sound(g, d, ss[i := t], others)
    ensures FileData(g, d, t) == FileData(g, d, ss[i])
    ensures Abstract(g, d, ss[i := t]) ==
      Store(Abstract(g, d, ss).files[i := Flat(FileData(g, d, ss[i]), t.off)], Abstract(g, d, ss).free)
  {
    hide Fat, FileData, Open, Mirrored, FreeUsable, Separate, Accounted, FlatOf, Free;
    FlatIs(g, d, ss, i);
    MoveSeparate(Fat0(g, d), ss, others, i, t);
    OpenSize(g, d, t);
    ReadAdvanced(g, d, ss[i], t);
    FlatOfIs(g, d, t);
  }

  lemma FlatOfIs(g: FatInfo, d: Disk, t: State)
    requires Fits(g, d) && Open(g, d, t)
    ensures Holds(g, d, t) && FlatOf(g, d, t) == Flat(FileData(g, d, t), t.off)
  {
    hide Fat, FileData, Open;
    OpenHolds(g, d, t);
  }

  lemma MoveSeparate(f: seq<word>, ss: seq<State>, others: set<nat>, i: nat, t: State)
    requires Separate(ss, others) && Accounted(f, ss, others) && i < |ss| && t.chain == ss[i].chain
    ensures Separate(ss[i := t], others) && Accounted(f, ss[i := t], others)
  {
    SeparateUpdate(ss, others, i, t);
    forall n: nat | n < |f|
      ensures f[n] != 0 <==> n in others || InSome(ss[i := t], n)
    {
      InSomeUpdate(ss, i, t, n);
    }
  }

  /** Reading is reading the byte string. */
  lemma ReadRefines(g: FatInfo, d: Disk, ss: seq<State>, others: set<nat>, i: nat, t: State, a: seq<byte>, b: seq<byte>,
                    len: word, n: nat)
    requires Sound(g, d, ss, others) && i < |ss| && ClusterBytes(g) > 0
    requires ReadTo(g, d, ss[i], t, a, b, 0, n) && n == Min(len, ss[i].size - ss[i].off)
    ensures Sound(g, d, ss[i := t], others) && n <= |b| && ss[i].off <= ss[i].size
    ensures (Abstract(g, d, ss[i := t]), Reply.Data(b[..n])) == Apply(ClusterBytes(g), Abstract(g, d, ss), i, Read(len))
  {
    hide Fat, FileData, Open, Mirrored, FreeUsable, Separate, Accounted, FlatOf, Free, Sound, Abstract;
    SoundParts(g, d, ss, others);
    FlatIs(g, d, ss, i);
    MoveSound(g, d, ss, others, i, t);
    assert b[..n] == FileData(g, d, ss[i])[ss[i].off..ss[i].off + n];
  }

  lemma SoundParts(g: FatInfo, d: Disk, ss: seq<State>, others: set<nat>)
    requires Sound(g, d, ss, others)
    ensures Fits(g, d) && Mirrored(g, d) && FreeUsable(g, d) && AllOpen(g, d, ss)
    ensures forall i :: 0 <= i < |ss| ==> Open(g, d, ss[i])
  {
  }

  /** So is seeking. */
  lemma SeekRefines(g: FatInfo, d: Disk, ss: seq<State>, others: set<nat>, i: nat, t: State, c: Command)
    requires Sound(g, d, ss, others) && i < |ss| && ClusterBytes(g) > 0 && Open(g, d, t) && SameFile(ss[i], t)
    requires c.Seek? || c.SeekEnd?
    requires t.off == if c.Seek? then Min(c.offset, ss[i].size) else ss[i].size
    ensures Sound(g, d, ss[i := t], others) && ss[i].off <= ss[i].size
    ensures (Abstract(g, d, ss[i := t]), Done) == Apply(ClusterBytes(g), Abstract(g, d, ss), i, c)
  {
    hide Fat, FileData, Open, Mirrored, FreeUsable, Separate, Accounted, FlatOf, Free, Sound, Abstract;
    SoundParts(g, d, ss, others);
    FlatIs(g, d, ss, i);
    MoveSound(g, d, ss, others, i, t);
  }

  // ----------------------------------------------------------------- writing

  /** How many bytes a write can take, in clusters before and after it. */
  lemma RoomCount(cb: nat, before: nat, free: nat, after: nat, left: nat, off: nat, r: nat, len: nat, size: nat)
    requires left + after == free + before && off + r <= size <= after * cb && r <= len
    requires r < len ==> left == 0 && off + r == after * cb
    ensures r == Min(len, (before + free) * cb - off)
  {
    MulAdd(after, left, cb);
    assert left * cb >= 0;
  }

  lemma WriteCount(g: FatInfo, d: Disk, s: State, e: Disk, t: State, bytes: seq<byte>, len: nat)
    requires Fits(g, d) && Open(g, d, s) && Reached(g, d, s, e, t, bytes) && Fits(g, e) && Open(g, e, t)
    requires |bytes| <= len && (|bytes| < len ==> Free(Fat0(g, e)) == {} && AtFullEnd(g, t))
    ensures ClusterBytes(g) > 0
    ensures |bytes| == Min(len, (Clusters(ClusterBytes(g), s.size) + |Free(Fat0(g, d))|) * ClusterBytes(g) - s.off)
    ensures |Free(Fat0(g, e))| + Clusters(ClusterBytes(g), t.size) ==
      |Free(Fat0(g, d))| + Clusters(ClusterBytes(g), s.size)
  {
    hide Fat, Open, Free, FileData, OnlyOwned, CanGrow, GrewTo, Mirrored, Span, Holds, WellFormed, ClusterBytes,
      Clusters;
    OpenLength(g, d, s);
    OpenLength(g, e, t);
    GrewToFree(Fat0(g, d), s.chain, Fat0(g, e), t.chain);
    if |bytes| < len {
      FullEnd(g, e, t);
      SpanClusters(g, |t.chain|);
    }
    RoomCount(ClusterBytes(g), |s.chain|, |Free(Fat0(g, d))|, |t.chain|, |Free(Fat0(g, e))|, s.off, |bytes|, len,
              t.size);
  }

  lemma SpanClusters(g: FatInfo, n: nat)
    ensures BLOCK_SIZE * Span(g, n) == n * ClusterBytes(g)
  {
    SpanBytes(g, ClusterBytes(g), n);
  }

  /** Writing overwrites the byte string with as many bytes as the free clusters allow. */
  lemma WriteRefines(g: FatInfo, d: Disk, ss: seq<State>, others: set<nat>, i: nat, e: Disk, t: State, bytes: seq<byte>,
                     r: nat)
    requires Sound(g, d, ss, others) && i < |ss| && r <= |bytes|
    requires Reached(g, d, ss[i], e, t, bytes[..r]) && Fits(g, e) && Open(g, e, t)
    requires r < |bytes| ==> Free(Fat0(g, e)) == {} && AtFullEnd(g, t)
    ensures Sound(g, e, ss[i := t], others) && ClusterBytes(g) > 0 && ss[i].off <= ss[i].size
    ensures (Abstract(g, e, ss[i := t]), Count(r)) == Apply(ClusterBytes(g), Abstract(g, d, ss), i, Write(bytes))
  {
    hide Fat, FileData, Open, Mirrored, FreeUsable, Separate, Accounted, FlatOf, Free, Sound, Abstract, Grew, Overwrite,
      AllOpen, ClusterBytes, Clusters, Holds, AtFullEnd, WellFormed;
    SoundParts(g, d, ss, others);
    FlatIs(g, d, ss, i);
    FlatOfIs(g, e, t);
    WriteSound(g, d, ss, others, i, e, t);
    WriteCount(g, d, ss[i], e, t, bytes[..r], |bytes|);
    WriteSizes(g, d, ss[i], e, t, bytes[..r]);
  }

  lemma WriteSizes(g: FatInfo, d: Disk, s: State, e: Disk, t: State, bytes: seq<byte>)
    requires Fits(g, d) && Reached(g, d, s, e, t, bytes) && Fits(g, e)
    ensures Holds(g, d, s) && Holds(g, e, t)
    ensures |FileData(g, d, s)| == s.size && |FileData(g, e, t)| == t.size && t.off == s.off + |bytes|
    ensures FileData(g, e, t) == Overwrite(FileData(g, d, s), s.off, bytes)
  {
  }

  // ----------------------------------------------------------------- cutting

  /** Cutting cuts the byte string and returns the clusters it no longer needs. */
  lemma CutRefines(g: FatInfo, d: Disk, ss: seq<State>, others: set<nat>, i: nat, e: Disk, t: State)
    requires Sound(g, d, ss, others) && i < |ss| && SameOutsideFats(g, d, e) && Mirrored(g, e)
    requires KeepFor(ss[i]) <= |ss[i].chain| && t.chain == ss[i].chain[..KeepFor(ss[i])]
    requires InTable(Fat0(g, d), ss[i].chain) && Fat0(g, e) == CutFat(Fat0(g, d), ss[i].chain, KeepFor(ss[i]))
    requires Open(g, e, t) && t.size == t.off == ss[i].off <= ss[i].size
    requires FileData(g, e, t) == FileData(g, d, ss[i])[..ss[i].off]
    ensures Sound(g, e, ss[i := t], others) && ClusterBytes(g) > 0
    ensures (Abstract(g, e, ss[i := t]), Done) == Apply(ClusterBytes(g), Abstract(g, d, ss), i, Truncate)
  {
    hide Fat, FileData, Open, Mirrored, FreeUsable, Separate, Accounted, FlatOf, Free, Sound, Abstract, AllOpen,
      ClusterBytes, Clusters, Holds, WellFormed, CutFat, KeepFor;
    SoundParts(g, d, ss, others);
    FlatIs(g, d, ss, i);
    FlatOfIs(g, e, t);
    CutSound(g, d, ss, others, i, KeepFor(ss[i]), e, t);
    OpenLength(g, d, ss[i]);
    OpenLength(g, e, t);
  }
}
