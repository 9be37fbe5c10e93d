/** What a program sees of one directory: files with names, of which up to sixteen handles are open. */
module NamedFiles {
  import opened Bytes
  import opened Errors
  import opened Names
  import opened Entries
  import opened FlatFiles

  const MAX_FILE_DESC: int := 16

  /** A handle is free, open on a file of the directory, or in use for something else. */
  datatype Handle = Unused | OnFile(file: nat) | Elsewhere

  /** `names[i]` is the name of file `i`. `root` tells the root directory, which must keep a free entry
      behind its end. `holes` entries can be reused and `spare` ones are behind the end; `reserved` are
      the names of what is no file: subdirectories, labels, long names. The handles on the files in
      `astray` cannot read or write. */
  datatype Folder = Folder(
    root: bool,
    names: seq<seq<byte>>,
    store: Store,
    handles: seq<Handle>,
    astray: set<nat>,
    holes: nat,
    spare: nat,
    reserved: set<seq<byte>>)

  datatype Request = OpenFile(name: CString, mode: byte) | Close(fd: byte) | On(fd: byte, command: Command)

  datatype Answer = Opened(fd: byte) | Closed | Did(reply: Reply) | Failed(error: byte)

  /** The least index of `x` in `s`, |s| when it is not there. */
  function IndexOf<T(==)>(s: seq<T>, x: T): (i: nat)
    ensures i <= |s| && (i < |s| ==> s[i] == x)
    ensures forall k :: 0 <= k < i ==> s[k] != x
  {
    if s == [] || s[0] == x then 0 else 1 + IndexOf(s[1..], x)
  }

  ghost predicate Wellformed(f: Folder) {
    && |f.names| == |f.store.files| && |f.handles| == MAX_FILE_DESC
    && (forall i :: 0 <= i < |f.store.files| ==> f.store.files[i].pos <= |f.store.files[i].content|)
    && (forall k :: 0 <= k < |f.handles| && f.handles[k].OnFile? ==> f.handles[k].file < |f.names|)
  }

  /** The requests whose outcome is promised: a file is open at most once, nothing but a file is
      opened as one, a new file leaves the root directory its end, and a handle that is not free is only
      used when it is open on a file, and on one in `astray` only for what it is still good for. */
  ghost predicate Promised(cb: nat, f: Folder, r: Request)
    requires cb > 0 && Wellformed(f)
  {
    match r
    case OpenFile(name, mode) =>
      var field := FatName(name);
      var i := IndexOf(f.names, field);
      && field !in f.reserved
      && (i < |f.names| ==> OnFile(i) !in f.handles)
      && (i == |f.names| && Creates(mode) && f.spare > 0 ==>
            field[0] != DELETED && (f.root && f.holes == 0 ==> f.spare > 1))
    case Close(fd) => fd < MAX_FILE_DESC && f.handles[fd].OnFile?
    case On(fd, c) =>
      && fd < MAX_FILE_DESC && !f.handles[fd].Elsewhere? && (c.Write? ==> |c.bytes| < 0x1_0000)
      && (f.handles[fd].OnFile? ==> Allowed(f.store, f.handles[fd].file, c) && Fit(f, f.handles[fd].file, c))
  }

  ghost predicate Fit(f: Folder, i: nat, c: Command)
    requires i < |f.store.files|
  {
    i in f.astray ==> Recovers(f.store.files[i], c)
  }

  /** A new empty file, open on handle `fd`; its entry is one that can be reused, or else a spare one. */
  ghost function WithFile(f: Folder, name: seq<byte>, fd: nat): (g: Folder)
    requires fd < |f.handles|
    ensures Wellformed(f) ==> Wellformed(g)
  {
    f.(names := f.names + [name],
       store := f.store.(files := f.store.files + [Flat([], 0)]),
       handles := f.handles[fd := OnFile(|f.names|)],
       holes := if f.holes > 0 then f.holes - 1 else 0,
       spare := if f.holes > 0 || f.spare == 0 then f.spare else f.spare - 1)
  }

  /** Handle `fd` at the beginning of file `i`. */
  ghost function Reopened(f: Folder, i: nat, fd: nat): (g: Folder)
    requires Wellformed(f) && i < |f.names| && fd < |f.handles|
    ensures Wellformed(g)
  {
    f.(store := f.store.(files := f.store.files[i := f.store.files[i].(pos := 0)]),
       handles := f.handles[fd := OnFile(i)])
  }

  /** A command carried out on file `i`. */
  ghost function Obeyed(cb: nat, f: Folder, i: nat, c: Command): (t: (Folder, Reply))
    requires cb > 0 && Wellformed(f) && i < |f.names| && Allowed(f.store, i, c)
    ensures Wellformed(t.0)
  {
    var (store, reply) := Apply(cb, f.store, i, c);
    (f.(store := store, astray := if Strays(cb, f.store.files[i], c) then f.astray + {i} else f.astray - {i}), reply)
  }

  ghost function Step(cb: nat, f: Folder, r: Request): (t: (Folder, Answer))
    requires cb > 0 && Wellformed(f) && Promised(cb, f, r)
    ensures Wellformed(t.0)
  {
    match r
    case OpenFile(name, mode) =>
      var fd, i := IndexOf(f.handles, Unused), IndexOf(f.names, FatName(name));
      if fd == MAX_FILE_DESC then (f, Failed(FAT_ERROR_TOO_MANY_OPEN_FILES))
      else if i < |f.names| then
        if Exclusive(mode) then (f, Failed(FAT_ERROR_FILE_EXISTS))
        else (Reopened(f, i, fd), Opened(fd))
      else if !Creates(mode) then (f, Failed(FAT_ERROR_NOT_FOUND))
      else if f.spare == 0 then (f, Failed(FAT_ERROR_DIR_FULL))
      else (WithFile(f, FatName(name), fd), Opened(fd))
    case Close(fd) => (f.(handles := f.handles[fd := Unused], astray := f.astray - {f.handles[fd].file}), Closed)
    case On(fd, c) =>
      if f.handles[fd].Unused? then (f, Failed(FAT_ERROR_BAD_DESCRIPTOR))
      else
        var (g, reply) := Obeyed(cb, f, f.handles[fd].file, c);
        (g, Did(reply))
  }

  lemma IndexOfIn<T>(s: seq<T>, x: T)
    ensures x in s <==> IndexOf(s, x) < |s|
  {
  }

  /** What opening answers while a handle is free, from the bits of the mode. */
  lemma OpenAnswers(cb: nat, f: Folder, name: CString, mode: byte)
    requires cb > 0 && Wellformed(f) && Promised(cb, f, OpenFile(name, mode)) && Unused in f.handles
    ensures var (g, a) := Step(cb, f, OpenFile(name, mode)); var fd := IndexOf(f.handles, Unused);
            if FatName(name) in f.names then
              if mode % 4 == 3 then g == f && a == Failed(FAT_ERROR_FILE_EXISTS) else a == Opened(fd)
            else if mode % 2 == 0 then g == f && a == Failed(FAT_ERROR_NOT_FOUND)
            else if f.spare == 0 then g == f && a == Failed(FAT_ERROR_DIR_FULL)
            else a == Opened(fd) && g.names == f.names + [FatName(name)]
  {
    hide FatName, Creates, Exclusive;
    ModeBits(mode);
    IndexOfIn(f.handles, Unused);
    IndexOfIn(f.names, FatName(name));
  }

  ghost predicate AllPromised(cb: nat, f: Folder, rs: seq<Request>)
    requires cb > 0 && Wellformed(f)
    decreases |rs|
  {
    rs == [] || (Promised(cb, f, rs[0]) && AllPromised(cb, Step(cb, f, rs[0]).0, rs[1..]))
  }

  /** A whole run. */
  ghost function Serve(cb: nat, f: Folder, rs: seq<Request>): (t: (Folder, seq<Answer>))
    requires cb > 0 && Wellformed(f) && AllPromised(cb, f, rs)
    decreases |rs|
  {
    if rs == [] then (f, [])
    else
      var (g, answer) := Step(cb, f, rs[0]);
      var (h, rest) := Serve(cb, g, rs[1..]);
      (h, [answer] + rest)
  }

  lemma ServeNothing(cb: nat, f: Folder)
    requires cb > 0 && Wellformed(f)
    ensures AllPromised(cb, f, []) && Serve(cb, f, []) == (f, [])
  {
  }

  lemma ServeOne(cb: nat, f: Folder, r: Request, rs: seq<Request>)
    requires cb > 0 && Wellformed(f) && Promised(cb, f, r) && AllPromised(cb, Step(cb, f, r).0, rs)
    ensures AllPromised(cb, f, [r] + rs)
    ensures Serve(cb, f, [r] + rs) ==
      (Serve(cb, Step(cb, f, r).0, rs).0, [Step(cb, f, r).1] + Serve(cb, Step(cb, f, r).0, rs).1)
  {
    hide Step, Promised;
    var all := [r] + rs;
    assert all[0] == r && all[1..] == rs;
  }

  lemma ServeTwo(cb: nat, f: Folder, r: Request, q: Request)
    requires cb > 0 && Wellformed(f) && Promised(cb, f, r) && Promised(cb, Step(cb, f, r).0, q)
    ensures AllPromised(cb, f, [r, q])
    ensures Serve(cb, f, [r, q]) == (Step(cb, Step(cb, f, r).0, q).0,
                                     [Step(cb, f, r).1, Step(cb, Step(cb, f, r).0, q).1])
  {
    hide Step, Promised, Serve, AllPromised;
    var g := Step(cb, f, r).0;
    ServeNothing(cb, Step(cb, g, q).0);
    ServeOne(cb, g, q, []);
    assert [q] + [] == [q];
    ServeOne(cb, f, r, [q]);
    assert [r] + [q] == [r, q];
    var a, b := Step(cb, f, r).1, Step(cb, g, q).1;
    assert [a] + ([b] + []) == [a, b];
  }

  /** Handle `fd`, and no other, is open on the file of that name. */
  ghost predicate OpenAs(f: Folder, fd: byte, name: CString)
    requires Wellformed(f)
  {
    && fd < MAX_FILE_DESC && f.handles[fd].OnFile? && f.handles[fd] !in f.handles[fd := Unused]
    && IndexOf(f.names, FatName(name)) == f.handles[fd].file && FatName(name) !in f.reserved
  }

  /** The first `len` bytes of the file behind a handle, or all of them. */
  ghost function Beginning(f: Folder, fd: byte, len: word): seq<byte>
    requires Wellformed(f) && fd < MAX_FILE_DESC && f.handles[fd].OnFile?
  {
    var content := f.store.files[f.handles[fd].file].content;
    content[..Min(len, |content|)]
  }

  /** The folder after handle `fd`, on a file named `name`, has been closed and the file opened again. */
  lemma ReopenStep(cb: nat, f: Folder, fd: byte, name: CString)
    requires cb > 0 && Wellformed(f) && OpenAs(f, fd, name)
    ensures IndexOf(f.handles[fd := Unused], Unused) < MAX_FILE_DESC
    ensures Promised(cb, f, Close(fd)) && Step(cb, f, Close(fd)).1 == Closed
    ensures Promised(cb, Step(cb, f, Close(fd)).0, OpenFile(name, 0))
    ensures Step(cb, Step(cb, f, Close(fd)).0, OpenFile(name, 0)) ==
      (Reopened(Step(cb, f, Close(fd)).0, f.handles[fd].file, IndexOf(f.handles[fd := Unused], Unused)),
       Opened(IndexOf(f.handles[fd := Unused], Unused)))
  {
    hide FatName;
    var hs := f.handles[fd := Unused];
    assert hs[fd] == Unused;
    assert !Exclusive(0);
  }

  /** Bytes outlive the handle they were written with: a file that is closed, opened again by its name
      and read gives what it held, whatever its handle had come to. */
  lemma ReopenReads(cb: nat, f: Folder, fd: byte, name: CString, len: word, again: byte)
    requires cb > 0 && Wellformed(f) && OpenAs(f, fd, name)
    requires again == IndexOf(f.handles[fd := Unused], Unused)
    ensures AllPromised(cb, f, [Close(fd), OpenFile(name, 0), On(again, Read(len))])
    ensures Serve(cb, f, [Close(fd), OpenFile(name, 0), On(again, Read(len))]).1 ==
      [Closed, Opened(again), Did(Data(Beginning(f, fd, len)))]
  {
    hide FatName, Step, Promised, Serve, AllPromised;
    var n := ReopenPlan(cb, f, fd, name, len);
    var g := Step(cb, f, Close(fd)).0;
    ServeTwo(cb, g, OpenFile(name, 0), On(again, Read(len)));
    ServeOne(cb, f, Close(fd), [OpenFile(name, 0), On(again, Read(len))]);
    assert [Close(fd)] + [OpenFile(name, 0), On(again, Read(len))] ==
      [Close(fd), OpenFile(name, 0), On(again, Read(len))];
  }

  /** Closing, opening and reading, one by one. */
  lemma ReopenPlan(cb: nat, f: Folder, fd: byte, name: CString, len: word) returns (again: byte)
    requires cb > 0 && Wellformed(f) && OpenAs(f, fd, name)
    ensures again < MAX_FILE_DESC && again == IndexOf(f.handles[fd := Unused], Unused)
    ensures Promised(cb, f, Close(fd)) && Step(cb, f, Close(fd)).1 == Closed
    ensures var g := Step(cb, f, Close(fd)).0;
            Promised(cb, g, OpenFile(name, 0)) &&
            (var h := Step(cb, g, OpenFile(name, 0)).0;
             && Step(cb, g, OpenFile(name, 0)).1 == Opened(again)
             && Promised(cb, h, On(again, Read(len)))
             && Step(cb, h, On(again, Read(len))).1 == Did(Data(Beginning(f, fd, len))))
  {
    hide FatName, Step, Promised;
    again := IndexOf(f.handles[fd := Unused], Unused);
    ReopenStep(cb, f, fd, name);
    ReopenFiles(cb, f, fd);
    var h := Step(cb, Step(cb, f, Close(fd)).0, OpenFile(name, 0)).0;
    ReadFirst(cb, h, again, f.handles[fd].file, len);
  }

  lemma ReopenFiles(cb: nat, f: Folder, fd: byte)
    requires cb > 0 && Wellformed(f) && fd < MAX_FILE_DESC && f.handles[fd].OnFile? && Promised(cb, f, Close(fd))
    ensures var g := Step(cb, f, Close(fd)).0;
            g.store == f.store && f.handles[fd].file !in g.astray && g.handles == f.handles[fd := Unused]
  {
  }

  /** A file can be cut off anywhere, also at a cluster boundary, and its handle is fit for everything
      afterwards. */
  lemma SeekAndCut(cb: nat, f: Folder, fd: byte, i: nat, n: dword)
    requires cb > 0 && Wellformed(f) && fd < MAX_FILE_DESC && f.handles[fd] == OnFile(i)
    requires 0 < n <= |f.store.files[i].content|
    ensures AllPromised(cb, f, [On(fd, Seek(n)), On(fd, Truncate)])
    ensures var g := Serve(cb, f, [On(fd, Seek(n)), On(fd, Truncate)]).0;
            g.store.files == f.store.files[i := Flat(f.store.files[i].content[..n], n)] && g.astray == f.astray - {i}
  {
    hide Clusters, Serve, AllPromised;
    ServeTwo(cb, f, On(fd, Seek(n)), On(fd, Truncate));
  }

  lemma ReadFirst(cb: nat, f: Folder, fd: byte, i: nat, len: word)
    requires cb > 0 && Wellformed(f) && fd < MAX_FILE_DESC && f.handles[fd] == OnFile(i) && i !in f.astray
    requires i < |f.store.files| && f.store.files[i].pos == 0
    ensures Promised(cb, f, On(fd, Read(len)))
    ensures var content := f.store.files[i].content;
            Step(cb, f, On(fd, Read(len))).1 == Did(Data(content[..Min(len, |content|)]))
  {
  }
}
