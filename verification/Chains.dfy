/** The allocation table as a plain sequence of entries, and the cluster chains it links. */
module Chains {
  import opened Bytes

  const EOC_MIN: int := 0xFFF8
  const EOC: word := 0xFFFF

  ghost predicate IsCluster(f: seq<word>, c: int) {
    2 <= c < |f| && c < 0xFFF7
  }

  /** `ch` is a terminated chain: each cluster's entry names the next one, the last entry ends it. */
  ghost predicate IsChain(f: seq<word>, ch: seq<nat>) {
    && ch != []
    && (forall i :: 0 <= i < |ch| ==> IsCluster(f, ch[i]))
    && (forall i :: 0 <= i < |ch| - 1 ==> f[ch[i]] == ch[i + 1])
    && f[ch[|ch| - 1]] >= EOC_MIN
  }

  /** The chain a directory entry's first-cluster field denotes: 0 stands for no clusters at all. */
  ghost predicate ChainFrom(f: seq<word>, head: int, ch: seq<nat>) {
    if ch == [] then head == 0 else IsChain(f, ch) && ch[0] == head
  }

  ghost predicate InTable(f: seq<word>, cs: seq<nat>) {
    forall i :: 0 <= i < |cs| ==> cs[i] < |f|
  }

  ghost predicate Disjoint(a: seq<nat>, b: seq<nat>) {
    forall x :: x in a ==> x !in b
  }

  lemma LastTogether(f: seq<word>, a: seq<nat>, i: nat, b: seq<nat>, j: nat)
    requires IsChain(f, a) && IsChain(f, b) && i < |a| && j < |b| && a[i] == b[j]
    ensures i == |a| - 1 ==> j == |b| - 1
  {
    if j < |b| - 1 {
      assert f[b[j]] == b[j + 1] && IsCluster(f, b[j + 1]);
    }
  }

  /** Two chains that meet are equal from there on. */
  lemma {:induction false} SharedTail(f: seq<word>, a: seq<nat>, i: nat, b: seq<nat>, j: nat)
    requires IsChain(f, a) && IsChain(f, b) && i < |a| && j < |b| && a[i] == b[j]
    ensures a[i..] == b[j..]
    decreases |a| - i
  {
    if i < |a| - 1 && j < |b| - 1 {
      assert f[a[i]] == a[i + 1] && f[b[j]] == b[j + 1];
      SharedTail(f, a, i + 1, b, j + 1);
      assert a[i..] == [a[i]] + a[i + 1..] && b[j..] == [b[j]] + b[j + 1..];
    } else {
      LastTogether(f, a, i, b, j);
      LastTogether(f, b, j, a, i);
      assert a[i..] == [a[i]] && b[j..] == [b[j]];
    }
  }

  /** A terminated chain is acyclic. */
  lemma ChainAcyclic(f: seq<word>, ch: seq<nat>)
    requires IsChain(f, ch)
    ensures forall i, j :: 0 <= i < j < |ch| ==> ch[i] != ch[j]
  {
    forall i, j | 0 <= i < j < |ch|
      ensures ch[i] != ch[j]
    {
      if ch[i] == ch[j] {
        SharedTail(f, ch, i, ch, j);
      }
    }
  }

  lemma {:induction false} DistinctCount(s: seq<nat>, n: nat)
    requires forall i, j :: 0 <= i < j < |s| ==> s[i] != s[j]
    requires forall i :: 0 <= i < |s| ==> s[i] < n
    ensures |s| <= n
  {
    if s != [] {
      assert s[0] < n;
      var top := n - 1;
      if i :| 0 <= i < |s| && s[i] == top {
        DistinctCount(s[..i] + s[i + 1..], top);
      } else {
        DistinctCount(s, top);
      }
    }
  }

  /** A chain is no longer than the table. */
  lemma ChainShort(f: seq<word>, ch: seq<nat>)
    requires IsChain(f, ch)
    ensures |ch| <= |f|
  {
    ChainAcyclic(f, ch);
    DistinctCount(ch, |f|);
  }

  /** The head determines the chain. */
  lemma ChainUnique(f: seq<word>, head: int, a: seq<nat>, b: seq<nat>)
    requires ChainFrom(f, head, a) && ChainFrom(f, head, b)
    ensures a == b
  {
    if a != [] && b != [] {
      SharedTail(f, a, 0, b, 0);
      assert a[0..] == a && b[0..] == b;
    }
  }

  // ---------------------------------------------------------------- allocation

  ghost function Free(f: seq<word>): set<nat> {
    set n: nat | n < |f| && f[n] == 0
  }

  /** The least free entry from `from` on, |f| when there is none. */
  ghost function FirstFree(f: seq<word>, from: nat): (n: nat)
    requires from <= |f|
    ensures from <= n <= |f| && (n < |f| ==> f[n] == 0)
    ensures forall k :: from <= k < n ==> f[k] != 0
    decreases |f| - from
  {
    if from == |f| || f[from] == 0 then from else FirstFree(f, from + 1)
  }

  ghost predicate NoneFreeBefore(f: seq<word>, n: nat) {
    forall k :: 0 <= k < n && k < |f| ==> f[k] != 0
  }

  lemma FirstFreeIs(f: seq<word>, n: nat)
    requires n <= |f| && NoneFreeBefore(f, n) && (n < |f| ==> f[n] == 0)
    ensures FirstFree(f, 0) == n
  {
    var m := FirstFree(f, 0);
    assert m < |f| ==> m >= n;
    assert n < |f| ==> m <= n;
  }

  function Last(ch: seq<nat>): nat {
    if ch == [] then 0 else ch[|ch| - 1]
  }

  /** Cluster `n` taken as the end of a chain and hung below `last`, or a new chain when `last` is 0. */
  function AllocFat(f: seq<word>, last: nat, n: nat): seq<word>
    requires n < |f| && n < 0x1_0000 && last < |f|
  {
    var g := f[n := EOC];
    if last == 0 then g else g[last := n]
  }

  lemma ClustersUsed(f: seq<word>, ch: seq<nat>)
    requires IsChain(f, ch)
    ensures forall x :: x in ch ==> IsCluster(f, x) && f[x] != 0
  {
    forall i | 0 <= i < |ch|
      ensures f[ch[i]] != 0
    {
      assert i < |ch| - 1 ==> f[ch[i]] == ch[i + 1] && IsCluster(f, ch[i + 1]);
    }
  }

  /** A chain only depends on the entries of its own clusters. */
  lemma ChainFrame(f: seq<word>, g: seq<word>, ch: seq<nat>)
    requires IsChain(f, ch) && |f| == |g|
    requires forall x :: x in ch ==> f[x] == g[x]
    ensures IsChain(g, ch)
  {
    forall i | 0 <= i < |ch|
      ensures IsCluster(g, ch[i]) && (i < |ch| - 1 ==> g[ch[i]] == ch[i + 1])
    {
      assert IsCluster(f, ch[i]);
      assert ch[i] in ch;
    }
  }

  lemma AllocExtends(f: seq<word>, ch: seq<nat>, n: nat)
    requires ch == [] || IsChain(f, ch)
    requires IsCluster(f, n) && f[n] == 0
    ensures n !in ch && Last(ch) < |f| && IsChain(AllocFat(f, Last(ch), n), ch + [n])
  {
    if ch != [] {
      ClustersUsed(f, ch);
      ChainAcyclic(f, ch);
      assert Last(ch) in ch;
      var g := AllocFat(f, Last(ch), n);
      var e := ch + [n];
      forall i | 0 <= i < |e|
        ensures IsCluster(g, e[i]) && (i < |e| - 1 ==> g[e[i]] == e[i + 1])
      {
        if i < |ch| {
          assert IsCluster(f, ch[i]);
          assert ch[i] in ch;
        }
      }
    }
  }

  // ------------------------------------------------------------------- freeing

  function FreeAll(f: seq<word>, cs: seq<nat>): (g: seq<word>)
    requires InTable(f, cs)
    ensures |g| == |f|
    ensures forall k :: 0 <= k < |f| ==> g[k] == if k in cs then 0 else f[k]
    decreases |cs|
  {
    if cs == [] then f
    else
      var g := FreeAll(f[cs[0] := 0], cs[1..]);
      assert forall k :: k in cs <==> k == cs[0] || k in cs[1..];
      g
  }

  /** Freeing the head of a chain leaves the rest of it a chain. */
  lemma FreeHead(f: seq<word>, ch: seq<nat>)
    requires IsChain(f, ch)
    ensures f[ch[0]] != 0
    ensures if |ch| == 1 then f[ch[0]] >= EOC_MIN else f[ch[0]] == ch[1] && IsChain(f[ch[0] := 0], ch[1..])
  {
    ClustersUsed(f, ch);
    ChainAcyclic(f, ch);
    if |ch| > 1 {
      var rest := ch[1..];
      assert forall i :: 0 <= i < |rest| ==> rest[i] == ch[i + 1] && rest[i] != ch[0];
    }
  }

  /** `ch` cut down to its first `keep` clusters, the rest returned to the free pool. */
  function CutFat(f: seq<word>, ch: seq<nat>, keep: nat): (g: seq<word>)
    requires keep <= |ch|
    requires InTable(f, ch)
  {
    if keep == |ch| then f
    else if keep == 0 then FreeAll(f, ch)
    else FreeAll(f[ch[keep - 1] := EOC], ch[keep..])
  }

  lemma CutAt(f: seq<word>, ch: seq<nat>, keep: nat, k: nat)
    requires IsChain(f, ch) && keep < |ch| && k < |f|
    ensures InTable(f, ch)
    ensures CutFat(f, ch, keep)[k] ==
      if k in ch[keep..] then 0 else if keep > 0 && k == ch[keep - 1] then EOC else f[k]
  {
    ClustersUsed(f, ch);
    assert ch[0..] == ch;
  }

  lemma CutLeavesPrefix(f: seq<word>, ch: seq<nat>, keep: nat)
    requires IsChain(f, ch) && keep <= |ch|
    ensures InTable(f, ch)
    ensures keep > 0 ==> IsChain(CutFat(f, ch, keep), ch[..keep])
  {
    ClustersUsed(f, ch);
    ChainAcyclic(f, ch);
    if keep == |ch| {
      assert ch[..keep] == ch;
    } else if keep > 0 {
      var g := CutFat(f, ch, keep);
      var p := ch[..keep];
      forall i | 0 <= i < keep
        ensures IsCluster(g, p[i]) && g[p[i]] == if i == keep - 1 then EOC else p[i + 1]
      {
        assert IsCluster(f, ch[i]);
        assert p[i] == ch[i];
        CutAt(f, ch, keep, p[i]);
      }
    }
  }
}
