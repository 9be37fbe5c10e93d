/** The bytes of a file: the blocks of its clusters in chain order, cut off at the file's size. */
module Content {
  import opened Bytes
  import opened Layout

  /** Number of blocks in `k` clusters. */
  function Span(g: FatInfo, k: nat): nat {
    k * g.sectorsPerCluster
  }

  lemma SpanZero(g: FatInfo)
    ensures Span(g, 0) == 0
  {
  }

  lemma SpanStep(g: FatInfo, k: nat)
    ensures Span(g, k + 1) == Span(g, k) + g.sectorsPerCluster
  {
  }

  lemma {:induction false} SpanMono(g: FatInfo, k: nat, m: nat)
    requires k < m
    ensures Span(g, k) + g.sectorsPerCluster <= Span(g, m)
  {
    SpanStep(g, m - 1);
    hide Span;
    if k < m - 1 {
      SpanMono(g, k, m - 1);
    }
  }

  ghost predicate ChainOnDisk(g: FatInfo, d: Disk, ch: seq<nat>) {
    forall i :: 0 <= i < |ch| ==> OnDisk(g, d, ch[i])
  }

  function ClusterBlocks(g: FatInfo, c: int): (bl: seq<int>)
    ensures |bl| == g.sectorsPerCluster
  {
    seq(g.sectorsPerCluster, b => ClusterBlock(g, c) + b)
  }

  /** Addresses of the blocks of a chain, in order. */
  ghost function ChainBlocks(g: FatInfo, ch: seq<nat>): (bl: seq<int>)
    ensures |bl| == Span(g, |ch|)
  {
    if ch == [] then []
    else ChainBlocks(g, ch[..|ch| - 1]) + ClusterBlocks(g, ch[|ch| - 1])
  }

  lemma {:induction false} ChainBlockAt(g: FatInfo, ch: seq<nat>, k: nat, b: nat)
    requires k < |ch| && b < g.sectorsPerCluster
    ensures Span(g, k) + b < |ChainBlocks(g, ch)|
    ensures ChainBlocks(g, ch)[Span(g, k) + b] == ClusterBlock(g, ch[k]) + b
  {
    hide ClusterBlock;
    SpanMono(g, k, |ch|);
    if k < |ch| - 1 {
      SpanMono(g, k, |ch| - 1);
      ChainBlockAt(g, ch[..|ch| - 1], k, b);
    }
  }

  lemma ChainBlocksAppend(g: FatInfo, ch: seq<nat>, c: nat)
    ensures ChainBlocks(g, ch + [c]) == ChainBlocks(g, ch) + ClusterBlocks(g, c)
  {
    assert (ch + [c])[..|ch|] == ch;
  }

  lemma {:induction false} ChainBlocksSplit(g: FatInfo, ch: seq<nat>, k: nat)
    requires k <= |ch|
    ensures ChainBlocks(g, ch) == ChainBlocks(g, ch[..k]) + ChainBlocks(g, ch[k..])
  {
    hide ClusterBlocks, Span;
    if k == |ch| {
      assert ch[..k] == ch && ch[k..] == [];
    } else {
      var c := ch[..|ch| - 1];
      ChainBlocksSplit(g, c, k);
      assert c[..k] == ch[..k] && ch[k..] == c[k..] + [ch[|ch| - 1]];
      ChainBlocksAppend(g, c[k..], ch[|ch| - 1]);
    }
  }

  /** Every position of the block list is some block of some cluster. */
  lemma {:induction false} BlockIndex(g: FatInfo, n: nat, j: nat) returns (k: nat, b: nat)
    requires j < Span(g, n) && g.sectorsPerCluster > 0
    ensures k < n && b < g.sectorsPerCluster && j == Span(g, k) + b
  {
    SpanStep(g, n - 1);
    if j >= Span(g, n - 1) {
      k, b := n - 1, j - Span(g, n - 1);
    } else {
      k, b := BlockIndex(g, n - 1, j);
    }
  }

  /** Different clusters never share a block. */
  lemma ClustersApart(g: FatInfo, c: nat, b: nat, e: nat, h: nat)
    requires 2 <= c && 2 <= e && b < g.sectorsPerCluster && h < g.sectorsPerCluster
    requires ClusterBlock(g, c) + b == ClusterBlock(g, e) + h
    ensures c == e && b == h
  {
    assert ClusterBlock(g, c) == g.dataOffset + Span(g, c - 2) && ClusterBlock(g, e) == g.dataOffset + Span(g, e - 2);
    hide Span, ClusterBlock;
    if c < e {
      SpanMono(g, c - 2, e - 2);
    } else if e < c {
      SpanMono(g, e - 2, c - 2);
    }
  }

  ghost predicate Distinct(s: seq<int>) {
    forall i, j :: 0 <= i < j < |s| ==> s[i] != s[j]
  }

  ghost predicate InData(g: FatInfo, d: Disk, bl: seq<int>) {
    forall i :: 0 <= i < |bl| ==> g.dataOffset <= bl[i] < |d|
  }

  lemma ClusterInData(g: FatInfo, d: Disk, c: int, b: nat)
    requires OnDisk(g, d, c) && b < g.sectorsPerCluster
    ensures g.dataOffset <= ClusterBlock(g, c) + b < |d|
  {
    assert (c - 2) * g.sectorsPerCluster >= 0;
  }

  lemma ChainBlocksInData(g: FatInfo, d: Disk, ch: seq<nat>)
    requires ChainOnDisk(g, d, ch) && g.sectorsPerCluster > 0
    ensures InData(g, d, ChainBlocks(g, ch))
  {
    hide OnDisk, ClusterBlock;
    forall j | 0 <= j < |ChainBlocks(g, ch)|
      ensures g.dataOffset <= ChainBlocks(g, ch)[j] < |d|
    {
      var k, b := BlockIndex(g, |ch|, j);
      ChainBlockAt(g, ch, k, b);
      ClusterInData(g, d, ch[k], b);
    }
  }

  /** Distinct clusters have distinct blocks. */
  lemma ChainBlocksDistinct(g: FatInfo, ch: seq<nat>)
    requires g.sectorsPerCluster > 0
    requires forall i, j :: 0 <= i < j < |ch| ==> ch[i] != ch[j]
    requires forall i :: 0 <= i < |ch| ==> 2 <= ch[i]
    ensures Distinct(ChainBlocks(g, ch))
  {
    hide ClusterBlock, Span, ChainBlocks;
    var bl := ChainBlocks(g, ch);
    forall i, j | 0 <= i < j < |bl|
      ensures bl[i] != bl[j]
    {
      var k, b := BlockIndex(g, |ch|, i);
      var m, h := BlockIndex(g, |ch|, j);
      ChainBlockAt(g, ch, k, b);
      ChainBlockAt(g, ch, m, h);
      if bl[i] == bl[j] {
        ClustersApart(g, ch[k], b, ch[m], h);
      }
    }
  }

  // -------------------------------------------------------------- file bytes

  /** The first `n` bytes stored in the blocks `bl`. */
  ghost function Data(d: Disk, bl: seq<int>, n: nat): (s: seq<byte>)
    requires n <= BLOCK_SIZE * |bl|
    requires forall i :: 0 <= i < |bl| ==> 0 <= bl[i] < |d|
    ensures |s| == n
  {
    seq(n, (p: nat) requires p < n => d[bl[p / BLOCK_SIZE]][p % BLOCK_SIZE])
  }

  /** `s` written at `pos` over `content`, growing it when it reaches past the end. */
  function Overwrite(content: seq<byte>, pos: nat, s: seq<byte>): (r: seq<byte>)
    requires pos <= |content|
  {
    content[..pos] + s + if pos + |s| <= |content| then content[pos + |s|..] else []
  }

  lemma DataAt(d: Disk, bl: seq<int>, n: nat, j: nat, i: nat)
    requires n <= BLOCK_SIZE * |bl|
    requires forall i :: 0 <= i < |bl| ==> 0 <= bl[i] < |d|
    requires i < BLOCK_SIZE && BLOCK_SIZE * j + i < n
    ensures Data(d, bl, n)[BLOCK_SIZE * j + i] == d[bl[j]][i]
  {
    assert (BLOCK_SIZE * j + i) / BLOCK_SIZE == j && (BLOCK_SIZE * j + i) % BLOCK_SIZE == i;
  }

  lemma DataRead(d: Disk, bl: seq<int>, n: nat, j: nat, at: nat, len: nat)
    requires n <= BLOCK_SIZE * |bl|
    requires forall i :: 0 <= i < |bl| ==> 0 <= bl[i] < |d|
    requires j < |bl| && at + len <= BLOCK_SIZE && BLOCK_SIZE * j + at + len <= n
    ensures d[bl[j]][at..at + len] == Data(d, bl, n)[BLOCK_SIZE * j + at..BLOCK_SIZE * j + at + len]
  {
    var l, r := d[bl[j]][at..at + len], Data(d, bl, n)[BLOCK_SIZE * j + at..BLOCK_SIZE * j + at + len];
    forall i | 0 <= i < len
      ensures l[i] == r[i]
    {
      DataAt(d, bl, n, j, at + i);
    }
  }

  /** Splicing into one block of a list of distinct blocks is an overwrite of the bytes they hold. */
  lemma DataWrite(d: Disk, bl: seq<int>, n: nat, j: nat, at: nat, s: seq<byte>, m: nat)
    requires Distinct(bl) && n <= m <= BLOCK_SIZE * |bl|
    requires forall i :: 0 <= i < |bl| ==> 0 <= bl[i] < |d|
    requires j < |bl| && at + |s| <= BLOCK_SIZE && BLOCK_SIZE * j + at <= n
    requires m == if BLOCK_SIZE * j + at + |s| <= n then n else BLOCK_SIZE * j + at + |s|
    ensures Data(d[bl[j] := Splice(d[bl[j]], at, s)], bl, m) == Overwrite(Data(d, bl, n), BLOCK_SIZE * j + at, s)
  {
    var e := d[bl[j] := Splice(d[bl[j]], at, s)];
    var pos := BLOCK_SIZE * j + at;
    var l, r := Data(e, bl, m), Overwrite(Data(d, bl, n), pos, s);
    forall p | 0 <= p < m
      ensures l[p] == r[p]
    {
      var q, i := p / BLOCK_SIZE, p % BLOCK_SIZE;
      DataAt(e, bl, m, q, i);
      if p < n {
        DataAt(d, bl, n, q, i);
      }
    }
  }

  lemma DataFrame(d: Disk, e: Disk, bl: seq<int>, n: nat)
    requires n <= BLOCK_SIZE * |bl| && |d| == |e|
    requires forall i :: 0 <= i < |bl| ==> 0 <= bl[i] < |d| && e[bl[i]] == d[bl[i]]
    ensures Data(e, bl, n) == Data(d, bl, n)
  {
    forall p | 0 <= p < n
      ensures Data(e, bl, n)[p] == Data(d, bl, n)[p]
    {
      DataAt(e, bl, n, p / BLOCK_SIZE, p % BLOCK_SIZE);
    }
  }

  /** More blocks behind the end, or fewer bytes asked for, do not change the bytes before it. */
  lemma DataPrefix(d: Disk, bl: seq<int>, more: seq<int>, n: nat, m: nat)
    requires m <= n <= BLOCK_SIZE * |bl + more| && m <= BLOCK_SIZE * |bl|
    requires forall i :: 0 <= i < |bl + more| ==> 0 <= (bl + more)[i] < |d|
    requires forall i :: 0 <= i < |bl| ==> 0 <= bl[i] < |d|
    ensures Data(d, bl, m) == Data(d, bl + more, n)[..m]
  {
    forall p | 0 <= p < m
      ensures Data(d, bl, m)[p] == Data(d, bl + more, n)[p]
    {
      DataAt(d, bl, m, p / BLOCK_SIZE, p % BLOCK_SIZE);
      DataAt(d, bl + more, n, p / BLOCK_SIZE, p % BLOCK_SIZE);
    }
  }

  lemma OverwriteTwice(c: seq<byte>, p: nat, a: seq<byte>, b: seq<byte>)
    requires p <= |c|
    ensures p + |a| <= |Overwrite(c, p, a)|
    ensures Overwrite(Overwrite(c, p, a), p + |a|, b) == Overwrite(c, p, a + b)
  {
  }

  lemma OverwriteNothing(c: seq<byte>, p: nat)
    requires p <= |c|
    ensures Overwrite(c, p, []) == c
  {
  }
}
