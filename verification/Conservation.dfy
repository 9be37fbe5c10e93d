/** No cluster is ever lost or made up: over any run the free clusters and those of all files add up
    to the same number. */
module Conservation {
  import opened Bytes
  import opened Position
  import opened Content
  import opened FlatFiles
  import opened Names
  import opened NamedFiles

  ghost function Taken(cb: nat, files: seq<Flat>): nat
    requires cb > 0
  {
    if files == [] then 0 else Taken(cb, files[..|files| - 1]) + Clusters(cb, |files[|files| - 1].content|)
  }

  ghost function Total(cb: nat, s: Store): nat
    requires cb > 0
  {
    Taken(cb, s.files) + s.free
  }

  lemma {:induction false} TakenUpdate(cb: nat, files: seq<Flat>, i: nat, f: Flat)
    requires cb > 0 && i < |files|
    ensures Taken(cb, files[i := f]) == Taken(cb, files) - Clusters(cb, |files[i].content|) + Clusters(cb, |f.content|)
  {
    hide Clusters;
    var n := |files| - 1;
    if i == n {
      assert files[i := f][..n] == files[..n];
    } else {
      TakenUpdate(cb, files[..n], i, f);
      assert files[i := f][..n] == files[..n][i := f];
    }
  }

  /** `n` bytes fit `k` clusters just when they take at most `k`. */
  lemma ClustersFit(cb: nat, n: nat, k: nat)
    requires cb > 0
    ensures Clusters(cb, n) <= k <==> n <= k * cb
  {
    var c := Clusters(cb, n);
    var r := (n + cb - 1) % cb;
    assert n + cb - 1 == c * cb + r;
    if c <= k {
      assert (k - c) * cb >= 0;
      MulAdd(c, k - c, cb);
    } else {
      MulAtLeast(c - k, cb);
      MulAdd(k, c - k, cb);
    }
  }

  lemma ApplyConserves(cb: nat, s: Store, i: nat, c: Command)
    requires cb > 0 && Allowed(s, i, c)
    ensures Total(cb, Apply(cb, s, i, c).0) == Total(cb, s)
  {
    hide Taken, Clusters;
    var f := s.files[i];
    match c {
      case Read(len) =>
        TakenUpdate(cb, s.files, i, f.(pos := f.pos + Min(len, |f.content| - f.pos)));
      case Write(bytes) =>
        var room := Room(cb, s, i);
        var n := Min(|bytes|, if room < 0 then 0 else room);
        var content := Overwrite(f.content, f.pos, bytes[..n]);
        WriteFits(cb, s, i, n);
        TakenUpdate(cb, s.files, i, Flat(content, f.pos + n));
      case Seek(o) =>
        TakenUpdate(cb, s.files, i, f.(pos := Min(o, |f.content|)));
      case SeekEnd =>
        TakenUpdate(cb, s.files, i, f.(pos := |f.content|));
      case Truncate =>
        ClustersMono(cb, f.pos, |f.content|);
        TakenUpdate(cb, s.files, i, f.(content := f.content[..f.pos]));
    }
  }

  lemma ClustersMono(cb: nat, n: nat, m: nat)
    requires cb > 0 && n <= m
    ensures Clusters(cb, n) <= Clusters(cb, m)
  {
    ClustersFit(cb, m, Clusters(cb, m));
    ClustersFit(cb, n, Clusters(cb, m));
  }

  /** What a write takes fits the clusters of the file and the free ones. */
  lemma WriteFits(cb: nat, s: Store, i: nat, n: nat)
    requires cb > 0 && i < |s.files| && s.files[i].pos <= |s.files[i].content|
    requires n == 0 || n <= Room(cb, s, i)
    ensures var f := s.files[i];
            var size := if f.pos + n <= |f.content| then |f.content| else f.pos + n;
            Clusters(cb, size) <= Clusters(cb, |f.content|) + s.free
  {
    var f := s.files[i];
    var c := Clusters(cb, |f.content|);
    ClustersFit(cb, |f.content|, c);
    ClustersFit(cb, |f.content|, c + s.free);
    ClustersFit(cb, f.pos + n, c + s.free);
  }

  /** Neither going back to the beginning of a file nor making an empty one takes a cluster. */
  lemma OpenConserves(cb: nat, s: Store, i: nat)
    requires cb > 0
    ensures i < |s.files| ==> Total(cb, s.(files := s.files[i := s.files[i].(pos := 0)])) == Total(cb, s)
    ensures Total(cb, s.(files := s.files + [Flat([], 0)])) == Total(cb, s)
  {
    if i < |s.files| {
      TakenUpdate(cb, s.files, i, s.files[i].(pos := 0));
    }
    var more := s.files + [Flat([], 0)];
    assert more[..|s.files|] == s.files && |more[|s.files|].content| == 0;
    ClustersFit(cb, 0, 0);
  }

  /** A file cut to nothing and closed is empty and has given back all its clusters. */
  lemma EmptiedAndClosed(cb: nat, f: Folder, fd: byte, i: nat)
    requires cb > 0 && Wellformed(f) && fd < MAX_FILE_DESC && f.handles[fd] == OnFile(i)
    requires f.store.files[i].pos == 0 && i !in f.astray
    ensures AllPromised(cb, f, [On(fd, Truncate), Close(fd)])
    ensures Serve(cb, f, [On(fd, Truncate), Close(fd)]) ==
      (f.(store := Store(f.store.files[i := Flat([], 0)], f.store.free + Clusters(cb, |f.store.files[i].content|)),
          handles := f.handles[fd := Unused], astray := f.astray - {i}),
       [Did(Done), Closed])
  {
    hide Clusters, Serve, AllPromised;
    ClustersFit(cb, 0, 0);
    ServeTwo(cb, f, On(fd, Truncate), Close(fd));
    assert f.store.files[i].content[..0] == [];
    assert f.astray + {i} - {i} == f.astray - {i};
  }

  lemma StepConserves(cb: nat, f: Folder, r: Request)
    requires cb > 0 && Wellformed(f) && Promised(cb, f, r)
    ensures Total(cb, Step(cb, f, r).0.store) == Total(cb, f.store)
  {
    hide Taken, Clusters, Total, FatName, Apply, Allowed, BitAnd;
    match r {
      case OpenFile(name, mode) =>
        OpenConserves(cb, f.store, IndexOf(f.names, FatName(name)));
      case Close(fd) =>
      case On(fd, c) =>
        if f.handles[fd].OnFile? {
          ApplyConserves(cb, f.store, f.handles[fd].file, c);
        }
    }
  }

  /** Over any run of calls. */
  lemma {:induction false} RunConserves(cb: nat, f: Folder, rs: seq<Request>)
    requires cb > 0 && Wellformed(f) && AllPromised(cb, f, rs)
    ensures Total(cb, Serve(cb, f, rs).0.store) == Total(cb, f.store)
    decreases |rs|
  {
    hide Step, Promised, Total;
    if rs != [] {
      StepConserves(cb, f, rs[0]);
      RunConserves(cb, Step(cb, f, rs[0]).0, rs[1..]);
    }
  }
}
