/** Opening files of a directory, old ones and new ones. */
module FolderOpening {
  import opened Bytes
  import opened Layout
  import opened Descriptor
  import opened Position
  import opened Entries
  import opened Directory
  import opened NamedFiles
  import opened System
  import opened Refinement
  import opened Folders
  import opened FolderSteps

  // ------------------------------------------------------------------- lookup

  lemma NameUnreserved(es: seq<Raw>, place: seq<nat>, name: seq<byte>, q: int)
    requires EntriesOk(es, place) && name !in Reserved(es, place) && Matches(es, q, name)
    ensures exists i :: 0 <= i < |place| && place[i] == q && NamesOf(es, place)[i] == name
  {
    LiveNames(es, place, q);
    var names := NamesOf(es, place);
    assert forall i :: 0 <= i < |place| ==> names[i] == NameAt(es, place[i]);
  }

  lemma LiveNames(es: seq<Raw>, place: seq<nat>, q: int)
    requires 0 <= q < |es| && Live(es, q)
    ensures q in place || NameAt(es, q) in Reserved(es, place)
  {
  }

  lemma LiveMatches(es: seq<Raw>, q: nat)
    requires Live(es, q)
    ensures q < |es| && Matches(es, q, NameAt(es, q))
  {
  }

  /** Looking a name up in the directory finds the file of that name, and nothing when there is none. */
  lemma Lookup(es: seq<Raw>, place: seq<nat>, name: seq<byte>, mode: byte)
    requires EntriesOk(es, place) && name !in Reserved(es, place)
    ensures var i, o := IndexOf(NamesOf(es, place), name), Search(es, 0, name, mode, -1);
            if i < |place| then
              o == if Exclusive(mode) then Exists else Found(place[i])
            else
              && NoMatch(es, name)
              && if !Creates(mode) then o == NotFound
                 else if HasEnd(es) then o.Created? && InsertionPoint(es, o.at) && o.at < |es|
                 else o == DirFull
  {
    hide Search, Reserved, BitAnd, IsEnd, IsDeleted;
    var i := IndexOf(NamesOf(es, place), name);
    SearchMeans(es, name, mode);
    if i < |place| {
      LiveMatches(es, place[i]);
    } else {
      forall q | Matches(es, q, name)
        ensures false
      {
        NameUnreserved(es, place, name, q);
      }
      NoMatchIff(es, name);
      if HasEnd(es) {
        var t := FirstEndOf(es);
      } else {
        NoInsertion(es);
      }
    }
  }

  lemma NoInsertion(es: seq<Raw>)
    requires !HasEnd(es)
    ensures forall q :: !InsertionPoint(es, q)
  {
  }

  lemma NoMatchIff(es: seq<Raw>, name: seq<byte>)
    ensures NoMatch(es, name) <==> forall q :: !Matches(es, q, name)
  {
    if forall q :: !Matches(es, q, name) {
      forall q | 0 <= q < |es| && Named(es[q], name)
        ensures !InUse(es, q)
      {
        assert !Matches(es, q, name);
      }
    }
  }

  // ---------------------------------------------------------- an existing file

  /** A descriptor just opened on file `i`. */
  ghost predicate OpenedOn(es: seq<Raw>, bl: seq<int>, c: Catalog, i: nat, t: State, p: Desc)
    requires i < |c.place| == |c.files| && EntriesOk(es, c.place) && |es| == 16 * |bl|
  {
    && SameFile(c.files[i], t)
    && p == Desc(false, false, false, t, Decode(es[c.place[i]]), p.addr, p.index, false)
    && p.addr == bl[c.place[i] / 16] && p.index == 32 * (c.place[i] % 16)
  }

  lemma OpenListed(es: seq<Raw>, bl: seq<int>, c: Catalog, ps: seq<Desc>, fd: nat, i: nat, t: State, p: Desc)
    requires Listed(es, bl, c, ps) && fd < |ps| && c.handles[fd] == Unused && OnFile(i) !in c.handles
    requires i < |c.files| && i !in c.astray && OpenedOn(es, bl, c, i, t, p)
    ensures Listed(es, bl, c.(files := c.files[i := t], handles := c.handles[fd := OnFile(i)]), ps[fd := p])
  {
    hide EntriesOk, OpenOn, Encode, Decode;
    var c', ps' := c.(files := c.files[i := t], handles := c.handles[fd := OnFile(i)]), ps[fd := p];
    PlacesApart(es, c.place);
    assert Describes(Decode(es[c.place[i]]), c.files[i]);
    OpenedDesc(es, bl, c, i, t, p, c'.handles);
    forall m | 0 <= m < |ps| && m != fd
      ensures DescOk(es, bl, c', c'.handles[m], ps'[m])
    {
      assert DescOk(es, bl, c, c.handles[m], ps[m]);
      if c.handles[m].OnFile? {
        assert c.handles[m] in c.handles;
        OpenOnFile(es, bl, c, c.handles[m].file, ps[m]);
        OpenOnSame(es, es, bl, c, c', c.handles[m].file, ps[m]);
      }
    }
    forall m, n | 0 <= m < n < |ps| && c'.handles[m].OnFile?
      ensures c'.handles[m] != c'.handles[n]
    {
      assert c.handles[m] in c.handles && c.handles[n] in c.handles;
    }
    OpenClosed(es, c, fd, i, t);
  }

  lemma OpenedDesc(es: seq<Raw>, bl: seq<int>, c: Catalog, i: nat, t: State, p: Desc, hs: seq<Handle>)
    requires i < |c.place| == |c.files| && EntriesOk(es, c.place) && |es| == 16 * |bl| && OpenedOn(es, bl, c, i, t, p)
    requires Describes(Decode(es[c.place[i]]), c.files[i]) && i !in c.astray
    ensures OpenOn(es, bl, c.(files := c.files[i := t], handles := hs), i, p)
  {
    PlacesApart(es, c.place);
    EncodeDecode(es[c.place[i]]);
    hide EntriesOk, Encode;
  }

  lemma OpenAstray(g: FatInfo, c: Catalog, fd: nat, i: nat, t: State)
    requires AstrayOk(g, c) && fd < |c.handles| && c.handles[fd] == Unused && OnFile(i) !in c.handles && i < |c.files|
    ensures i !in c.astray
    ensures AstrayOk(g, c.(files := c.files[i := t], handles := c.handles[fd := OnFile(i)]))
  {
    hide Astray;
    KeptHandles(c, fd, OnFile(i));
  }

  lemma KeptHandles(c: Catalog, fd: nat, h: Handle)
    requires fd < |c.handles| && c.handles[fd] == Unused
    ensures forall j :: OnFile(j) in c.handles ==> OnFile(j) in c.handles[fd := h]
  {
    var hs := c.handles[fd := h];
    forall j | OnFile(j) in c.handles
      ensures OnFile(j) in hs
    {
      var m :| 0 <= m < |c.handles| && c.handles[m] == OnFile(j);
      assert hs[m] == OnFile(j);
    }
  }

  lemma OpenClosed(es: seq<Raw>, c: Catalog, fd: nat, i: nat, t: State)
    requires |c.place| == |c.files| && EntriesOk(es, c.place) && ClosedOk(es, c) && fd < |c.handles|
    requires c.handles[fd] == Unused
    requires i < |c.files|
    ensures ClosedOk(es, c.(files := c.files[i := t], handles := c.handles[fd := OnFile(i)]))
  {
    hide EntriesOk, Decode, Describes;
    PlacesApart(es, c.place);
    var hs := c.handles[fd := OnFile(i)];
    assert hs[fd] in hs;
    forall j | 0 <= j < |c.files| && OnFile(j) !in hs
      ensures Describes(Decode(es[c.place[j]]), c.files[i := t][j])
    {
      StillClosed(c.handles, fd, OnFile(i), j);
    }
  }

  /** Opening a file of the directory puts a handle at its beginning. */
  lemma OpenKeeps(g: FatInfo, d: Disk, dir: Dir, c: Catalog, ps: seq<Desc>, fd: nat, i: nat, t: State, p: Desc)
    requires CatalogOk(g, d, dir, c, ps) && fd < |ps| && c.handles[fd] == Unused && OnFile(i) !in c.handles
    requires i < |c.files| && OpenedOn(EntriesOf(d, dir.bl), dir.bl, c, i, t, p) && Open(g, d, t) && t.off == 0
    ensures CatalogOk(g, d, dir, c.(files := c.files[i := t], handles := c.handles[fd := OnFile(i)]), ps[fd := p])
    ensures var f := FolderOf(g, d, dir, c);
            FolderOf(g, d, dir, c.(files := c.files[i := t], handles := c.handles[fd := OnFile(i)])) ==
            f.(store := f.store.(files := f.store.files[i := f.store.files[i].(pos := 0)]),
               handles := c.handles[fd := OnFile(i)])
  {
    hide DirOk, EntriesOf, Abstract, Holes, Ends, Reserved, NamesOf, ClosedOk, HandlesOk, EntriesOk, Sound, Open,
      FileData, Fat, AstrayOk;
    var es := EntriesOf(d, dir.bl);
    ListedEntries(es, dir.bl, c, ps);
    OpenAstray(g, c, fd, i, t);
    OpenListed(es, dir.bl, c, ps, fd, i, t, p);
    OpenedSame(es, dir.bl, c, i, t, p);
    hide OpenedOn;
    SoundParts(g, d, c.files, c.others);
    FlatIs(g, d, c.files, i);
    MoveSound(g, d, c.files, c.others, i, t);
  }

  lemma OpenedSame(es: seq<Raw>, bl: seq<int>, c: Catalog, i: nat, t: State, p: Desc)
    requires i < |c.place| == |c.files| && EntriesOk(es, c.place) && |es| == 16 * |bl| && OpenedOn(es, bl, c, i, t, p)
    ensures SameFile(c.files[i], t)
  {
  }
}
