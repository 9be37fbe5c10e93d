/** What the file system is for: a number of byte strings, each with a position, sharing a number of
    free clusters. Nothing here knows about blocks, tables or chains. */
module FlatFiles {
  import opened Bytes
  import opened Content

  datatype Flat = Flat(content: seq<byte>, pos: nat)

  datatype Store = Store(files: seq<Flat>, free: nat)

  datatype Command =
    | Read(len: word)
    | Write(bytes: seq<byte>)
    | Seek(offset: dword)
    | SeekEnd
    | Truncate

  datatype Reply = Data(bytes: seq<byte>) | Count(n: nat) | Done

  /** Clusters of `cb` bytes that `n` bytes take. */
  function Clusters(cb: nat, n: nat): nat
    requires cb > 0
  {
    (n + cb - 1) / cb
  }

  /** Bytes that can still be written from the position on. */
  function Room(cb: nat, s: Store, i: nat): int
    requires cb > 0 && i < |s.files|
  {
    (Clusters(cb, |s.files[i].content|) + s.free) * cb - s.files[i].pos
  }

  /** The commands whose outcome is promised: all but writes whose length leaves 16 bits. */
  ghost predicate Allowed(s: Store, i: nat, c: Command) {
    && i < |s.files| && s.files[i].pos <= |s.files[i].content|
    && (c.Write? ==> InRange16(|s.files[i].content|, s.files[i].pos, |c.bytes|))
  }

  /** The commands that do what they promise but leave a descriptor that is not fit for reading and
      writing: a seek to a cluster boundary in the middle of the file, a cut of a file to nothing. */
  ghost predicate Strays(cb: nat, f: Flat, c: Command)
    requires cb > 0
  {
    match c
    case Seek(o) => 0 < o < |f.content| && o % cb == 0
    case Truncate => f.pos == 0 && f.content != []
    case _ => false
  }

  /** What such a descriptor is still good for. */
  ghost predicate Recovers(f: Flat, c: Command) {
    f.content != [] && (c.Seek? || c.SeekEnd? || c.Truncate?)
  }

  ghost function Apply(cb: nat, s: Store, i: nat, c: Command): (r: (Store, Reply))
    requires cb > 0 && i < |s.files| && s.files[i].pos <= |s.files[i].content|
  {
    var f := s.files[i];
    match c
    case Read(len) =>
      var n := Min(len, |f.content| - f.pos);
      (s.(files := s.files[i := f.(pos := f.pos + n)]), Data(f.content[f.pos..f.pos + n]))
    case Write(bytes) =>
      var n := Min(|bytes|, if Room(cb, s, i) < 0 then 0 else Room(cb, s, i));
      var content := Overwrite(f.content, f.pos, bytes[..n]);
      var free := s.free + Clusters(cb, |f.content|) - Clusters(cb, |content|);
      (Store(s.files[i := Flat(content, f.pos + n)], if free < 0 then 0 else free), Count(n))
    case Seek(o) =>
      (s.(files := s.files[i := f.(pos := Min(o, |f.content|))]), Done)
    case SeekEnd =>
      (s.(files := s.files[i := f.(pos := |f.content|)]), Done)
    case Truncate =>
      var free := s.free + Clusters(cb, |f.content|) - Clusters(cb, f.pos);
      (Store(s.files[i := f.(content := f.content[..f.pos])], if free < 0 then 0 else free), Done)
  }
}
