/** Making a new file in a directory. */
module FolderCreation {
  import opened Bytes
  import opened Chains
  import opened Layout
  import opened Descriptor
  import opened FileSteps
  import opened Names
  import opened Entries
  import opened Directory
  import opened FlatFiles
  import opened NamedFiles
  import opened System
  import opened Refinement
  import opened Folders
  import opened FolderSteps
  import opened FolderOpening

  lemma FatNameStarts(s: CString)
    ensures FatName(s)[0] != 0
  {
    hide Extension;
    if s != [] && s[0] != DOT {
      assert BaseLen(s) > 0;
    }
  }

  /** The place of a new entry was not in use for anything. */
  ghost predicate Fresh(es: seq<Raw>, q: nat, name: seq<byte>) {
    && q < |es| && InsertionPoint(es, q) && NoMatch(es, name)
    && |name| == 11 && name[0] != 0 && name[0] != DELETED
  }

  lemma FreshName(es: seq<Raw>, q: nat, name: seq<byte>)
    requires Fresh(es, q, name)
    ensures q < |es| && |name| == 11
  {
  }

  lemma FreshNotLive(es: seq<Raw>, q: nat, name: seq<byte>)
    requires Fresh(es, q, name)
    ensures !Live(es, q)
  {
  }

  lemma LiveIff(es: seq<Raw>, q: int)
    ensures Live(es, q) <==> 0 <= q < |es| && Matches(es, q, NameAt(es, q))
  {
  }

  lemma NewName(name: seq<byte>)
    requires |name| == 11
    ensures NewRaw(name)[..11] == name && NewRaw(name)[0] == name[0]
  {
  }

  lemma MatchesAfter(es: seq<Raw>, q: nat, name: seq<byte>, p: int, n: seq<byte>)
    requires Fresh(es, q, name) && EndsClean(es)
    ensures Matches(es[q := NewRaw(name)], p, n) <==> if p == q then n == name else Matches(es, p, n)
  {
    hide Matches, NoMatch, InsertionPoint, NewRaw;
    NewName(name);
    AfterInsertion(es, q, NewRaw(name), p, n);
  }

  /** After the insertion the new entry is live, and every other one is what it was. */
  lemma LiveAfter(es: seq<Raw>, q: nat, name: seq<byte>)
    requires Fresh(es, q, name) && EndsClean(es)
    ensures forall p :: Live(es[q := NewRaw(name)], p) <==> p == q || Live(es, p)
  {
    hide Live, Matches, NoMatch, InsertionPoint, NewRaw;
    NewName(name);
    var fs := es[q := NewRaw(name)];
    forall p
      ensures Live(fs, p) <==> p == q || Live(es, p)
    {
      LiveIff(fs, p);
      LiveIff(es, p);
      if 0 <= p < |es| {
        MatchesAfter(es, q, name, p, NameAt(fs, p));
      }
    }
  }

  lemma InsertionEndsClean(es: seq<Raw>, q: nat, raw: Raw)
    requires q < |es| && InsertionPoint(es, q) && EndsClean(es) && !IsEnd(raw)
    ensures EndsClean(es[q := raw])
  {
    hide IsEnd;
    var fs := es[q := raw];
    forall t, k | FirstEnd(fs, t) && t <= k < |fs|
      ensures IsEnd(fs[k])
    {
      if FirstEnd(es, q) {
        EndsBehind(es, q);
        assert t > q;
      } else {
        InsertedBefore(es, q, raw, t);
        EndsBehind(es, t);
      }
    }
  }

  lemma InsertedBefore(es: seq<Raw>, q: nat, raw: Raw, t: int)
    requires q < |es| && InUse(es, q) && !IsEnd(raw) && FirstEnd(es[q := raw], t)
    ensures q < t && FirstEnd(es, t)
  {
    hide IsEnd;
    var fs := es[q := raw];
    assert fs[t] == es[t];
    assert forall k :: 0 <= k < t && k != q ==> fs[k] == es[k];
  }

  lemma EndsBehind(es: seq<Raw>, t: int)
    requires EndsClean(es) && FirstEnd(es, t)
    ensures forall k :: t <= k < |es| ==> IsEnd(es[k])
  {
  }

  // -------------------------------------------------------------------- counts

  /** The driver reuses a deleted entry when there is one, and else takes the first one behind the end. */
  lemma InsertionKind(es: seq<Raw>, q: nat)
    requires q < |es| && InsertionPoint(es, q)
    ensures if Holes(es) == {} then FirstEnd(es, q) else q in Holes(es) && !FirstEnd(es, q)
  {
    if FirstEnd(es, q) {
      forall p
        ensures p !in Holes(es)
      {
      }
    } else {
      assert q in Holes(es);
    }
  }

  lemma HolesAfter(es: seq<Raw>, q: nat, name: seq<byte>)
    requires Fresh(es, q, name) && EndsClean(es)
    ensures Holes(es[q := NewRaw(name)]) == Holes(es) - {q}
  {
    hide IsEnd, InsertionPoint, NewRaw, NoMatch;
    NewName(name);
    var fs := es[q := NewRaw(name)];
    forall p
      ensures p in Holes(fs) <==> p in Holes(es) - {q}
    {
      InUseAfter(es, q, NewRaw(name), p);
      if p != q && 0 <= p < |es| {
        assert fs[p] == es[p];
      }
    }
  }

  lemma EndsAfter(es: seq<Raw>, q: nat, name: seq<byte>)
    requires Fresh(es, q, name)
    ensures Ends(es[q := NewRaw(name)]) == Ends(es) - {q}
  {
    NewName(name);
  }

  lemma FirstEndInUse(es: seq<Raw>, q: nat)
    requires q < |es|
    ensures FirstEnd(es, q) ==> q in Ends(es) && q !in Holes(es)
    ensures q in Holes(es) ==> q !in Ends(es)
  {
  }

  ghost predicate RoomFor(es: seq<Raw>) {
    if |Holes(es)| > 0 then |Ends(es)| > 0 else |Ends(es)| > 1
  }

  /** How many entries are left afterwards, and whether the directory still has an end. */
  lemma CountsAfter(es: seq<Raw>, q: nat, name: seq<byte>)
    requires Fresh(es, q, name) && EndsClean(es)
    ensures var fs := es[q := NewRaw(name)];
            && |Holes(fs)| == (if |Holes(es)| > 0 then |Holes(es)| - 1 else 0)
            && |Ends(fs)| == (if |Holes(es)| > 0 then |Ends(es)| else |Ends(es)| - 1)
            && (RoomFor(es) ==> HasEnd(fs)) && |Ends(es)| > 0
  {
    hide Holes, Ends, InsertionPoint, NewRaw;
    var fs := es[q := NewRaw(name)];
    HolesAfter(es, q, name);
    EndsAfter(es, q, name);
    InsertionKind(es, q);
    FirstEndInUse(es, q);
    InsertionHasEnd(es, q);
    EndsNonEmpty(es);
    EndsNonEmpty(fs);
  }

  lemma InsertionHasEnd(es: seq<Raw>, q: nat)
    requires q < |es| && InsertionPoint(es, q)
    ensures HasEnd(es)
  {
    hide IsEnd, IsDeleted;
  }

  lemma EndsNonEmpty(es: seq<Raw>)
    ensures HasEnd(es) <==> |Ends(es)| > 0
  {
    if q :| 0 <= q < |es| && IsEnd(es[q]) {
      assert q in Ends(es);
    }
    if |Ends(es)| > 0 {
      var q :| q in Ends(es);
    }
  }

  // ------------------------------------------------------------------- entries

  lemma CreatedEntries(es: seq<Raw>, place: seq<nat>, q: nat, name: seq<byte>)
    requires EntriesOk(es, place) && Fresh(es, q, name)
    ensures EntriesOk(es[q := NewRaw(name)], place + [q])
    ensures q !in place
  {
    hide InUse, IsDeleted, Named, InsertionPoint, NewRaw, Live, Matches, IsEnd, NoMatch;
    var fs, all := es[q := NewRaw(name)], place + [q];
    LiveAfter(es, q, name);
    FreshNotLive(es, q, name);
    NewNotEnd(name);
    InsertionEndsClean(es, q, NewRaw(name));
    PlacesApart(es, place);
    assert q !in place;
    forall i, p | 0 <= i < |all| && Matches(fs, p, NameAt(fs, all[i]))
      ensures p == all[i]
    {
      NewName(name);
      if i < |place| {
        assert NameAt(fs, place[i]) == NameAt(es, place[i]);
        CreatedUnique(es, place, q, name, i, p);
      } else {
        NewUnique(es, q, name, p);
      }
    }
  }

  lemma NewUnique(es: seq<Raw>, q: nat, name: seq<byte>, p: int)
    requires EndsClean(es) && Fresh(es, q, name) && Matches(es[q := NewRaw(name)], p, name)
    ensures p == q
  {
    hide InUse, IsDeleted, Named, InsertionPoint, NewRaw, Live, Matches, IsEnd, NoMatch;
    MatchesAfter(es, q, name, p, name);
    NoMatchIff(es, name);
  }

  lemma CreatedUnique(es: seq<Raw>, place: seq<nat>, q: nat, name: seq<byte>, i: nat, p: int)
    requires EntriesOk(es, place) && Fresh(es, q, name) && i < |place| && place[i] < |es| && place[i] != q
    requires Matches(es[q := NewRaw(name)], p, NameAt(es, place[i]))
    ensures p == place[i]
  {
    hide InUse, IsDeleted, Named, InsertionPoint, NewRaw, Live, Matches, IsEnd, NoMatch, EntriesOk;
    EndsCleanOf(es, place);
    MatchesAfter(es, q, name, p, NameAt(es, place[i]));
    NoMatchIff(es, name);
    UniqueIn(es, place, i);
    LiveIff(es, place[i]);
    assert !Matches(es, place[i], name);
  }

  lemma UniqueIn(es: seq<Raw>, place: seq<nat>, i: nat)
    requires EntriesOk(es, place) && i < |place|
    ensures place[i] < |es| && Live(es, place[i])
    ensures forall p :: Matches(es, p, NameAt(es, place[i])) ==> p == place[i]
  {
    assert Live(es, place[i]);
  }

  lemma NewNotEnd(name: seq<byte>)
    requires |name| == 11 && name[0] != 0
    ensures !IsEnd(NewRaw(name))
  {
  }

  lemma CreatedNames(es: seq<Raw>, place: seq<nat>, q: nat, name: seq<byte>)
    requires EntriesOk(es, place) && Fresh(es, q, name) && EntriesOk(es[q := NewRaw(name)], place + [q]) && q !in place
    ensures NamesOf(es[q := NewRaw(name)], place + [q]) == NamesOf(es, place) + [name]
    ensures Reserved(es[q := NewRaw(name)], place + [q]) == Reserved(es, place)
  {
    hide EntriesOk, Live, InsertionPoint, NoMatch, NewRaw;
    var fs := es[q := NewRaw(name)];
    NewName(name);
    PlacesApart(es, place);
    EndsCleanOf(es, place);
    LiveAfter(es, q, name);
    forall n
      ensures n in Reserved(fs, place + [q]) <==> n in Reserved(es, place)
    {
      assert forall p :: 0 <= p < |es| && p != q ==> NameAt(fs, p) == NameAt(es, p);
      FreshNotLive(es, q, name);
    }
  }

  lemma EndsCleanOf(es: seq<Raw>, place: seq<nat>)
    requires EntriesOk(es, place)
    ensures EndsClean(es)
  {
  }

  // --------------------------------------------------------------- the new file

  /** The catalog with a file more, open on handle `fd`. */
  function Added(c: Catalog, fd: nat, t: State, q: nat): Catalog
    requires fd < |c.handles|
  {
    c.(files := c.files + [t], place := c.place + [q], handles := c.handles[fd := OnFile(|c.files|)])
  }

  /** A descriptor just opened on a new file. */
  ghost predicate CreatedOn(bl: seq<int>, q: nat, name: seq<byte>, t: State, p: Desc)
    requires |name| == 11
  {
    && q < 16 * |bl| && t.chain == [] && t.head == 0 && t.size == 0 && t.off == 0
    && p == Desc(false, false, false, t, Decode(NewRaw(name)), p.addr, p.index, false)
    && p.addr == bl[q / 16] && p.index == 32 * (q % 16)
  }

  lemma NewDescribes(name: seq<byte>, t: State)
    requires |name| == 11 && t.head == 0 && t.size == 0
    ensures Describes(Decode(NewRaw(name)), t) && Decode(NewRaw(name)).filename == name
    ensures Encode(Decode(NewRaw(name))) == NewRaw(name)
  {
    NewName(name);
    EncodeDecode(NewRaw(name));
    hide Encode;
  }

  lemma CreatedDesc(fs: seq<Raw>, bl: seq<int>, c: Catalog, fd: nat, q: nat, name: seq<byte>, t: State, p: Desc)
    requires |c.place| == |c.files| && EntriesOk(fs, c.place + [q]) && |fs| == 16 * |bl| && |name| == 11
    requires fd < |c.handles|
    requires CreatedOn(bl, q, name, t, p) && fs[q] == NewRaw(name) && |c.files| !in c.astray
    ensures OpenOn(fs, bl, Added(c, fd, t, q), |c.files|, p)
  {
    hide EntriesOk, Encode, Decode, NewRaw, Describes;
    NewName(name);
    NewDescribes(name, t);
  }

  lemma AddedAstray(g: FatInfo, c: Catalog, fd: nat, t: State, q: nat)
    requires AstrayOk(g, c) && fd < |c.handles| && c.handles[fd] == Unused
    ensures |c.files| !in c.astray && AstrayOk(g, Added(c, fd, t, q))
  {
    hide Astray;
    KeptHandles(c, fd, OnFile(|c.files|));
  }

  lemma CreatedHandles(es: seq<Raw>, bl: seq<int>, c: Catalog, ps: seq<Desc>, fd: nat, q: nat, name: seq<byte>,
                       t: State, p: Desc)
    requires Listed(es, bl, c, ps) && fd < |ps| && c.handles[fd] == Unused && |name| == 11
    requires q < |es| && CreatedOn(bl, q, name, t, p) && q !in c.place
    requires EntriesOk(es[q := NewRaw(name)], c.place + [q])
    requires |c.files| !in c.astray
    ensures HandlesOk(es[q := NewRaw(name)], bl, Added(c, fd, t, q), ps[fd := p])
  {
    hide EntriesOk, OpenOn, NewRaw, ClosedOk, CreatedOn;
    ListedEntries(es, bl, c, ps);
    var c', ps', fs := Added(c, fd, t, q), ps[fd := p], es[q := NewRaw(name)];
    CreatedDesc(fs, bl, c, fd, q, name, t, p);
    PlacesApart(es, c.place);
    forall m | 0 <= m < |ps|
      ensures c.handles[m].OnFile? ==> c.handles[m].file < |c.files|
      ensures DescOk(fs, bl, c', c'.handles[m], ps'[m])
    {
      assert DescOk(es, bl, c, c.handles[m], ps[m]);
      if c.handles[m].OnFile? {
        OpenOnFile(es, bl, c, c.handles[m].file, ps[m]);
        OpenOnSame(es, fs, bl, c, c', c.handles[m].file, ps[m]);
      }
    }
  }

  lemma CreatedClosed(es: seq<Raw>, bl: seq<int>, c: Catalog, ps: seq<Desc>, fd: nat, q: nat, name: seq<byte>, t: State)
    requires Listed(es, bl, c, ps) && fd < |ps| && c.handles[fd] == Unused && |name| == 11
    requires q < |es| && q !in c.place && EntriesOk(es[q := NewRaw(name)], c.place + [q])
    ensures fd < |c.handles| && ClosedOk(es[q := NewRaw(name)], Added(c, fd, t, q))
  {
    hide EntriesOk, HandlesOk, NewRaw, Describes, Decode;
    ListedEntries(es, bl, c, ps);
    PlacesApart(es, c.place);
    var c', fs := Added(c, fd, t, q), es[q := NewRaw(name)];
    assert c'.handles[fd] in c'.handles;
    forall j | 0 <= j < |c'.files| && OnFile(j) !in c'.handles
      ensures Describes(Decode(fs[c'.place[j]]), c'.files[j])
    {
      StillClosed(c.handles, fd, OnFile(|c.files|), j);
    }
  }

  lemma CreatedListed(es: seq<Raw>, bl: seq<int>, c: Catalog, ps: seq<Desc>, fd: nat, q: nat, name: seq<byte>, t: State,
                      p: Desc)
    requires Listed(es, bl, c, ps) && fd < |ps| && c.handles[fd] == Unused
    requires Fresh(es, q, name) && CreatedOn(bl, q, name, t, p)
    requires |c.files| !in c.astray
    ensures fd < |c.handles| && Listed(es[q := NewRaw(name)], bl, Added(c, fd, t, q), ps[fd := p])
    ensures q !in c.place
  {
    hide EntriesOk, HandlesOk, NewRaw, ClosedOk, CreatedOn, InsertionPoint, NoMatch;
    ListedEntries(es, bl, c, ps);
    CreatedEntries(es, c.place, q, name);
    CreatedHandles(es, bl, c, ps, fd, q, name, t, p);
    CreatedClosed(es, bl, c, ps, fd, q, name, t);
  }

  /** A file without clusters fits any volume. */
  lemma AppendSound(g: FatInfo, d: Disk, ss: seq<State>, others: set<nat>, t: State)
    requires Sound(g, d, ss, others) && Open(g, d, t) && t.chain == [] && t.off == 0 && t.size == 0
    ensures Sound(g, d, ss + [t], others)
    ensures Abstract(g, d, ss + [t]) == Store(Abstract(g, d, ss).files + [Flat([], 0)], Abstract(g, d, ss).free)
  {
    hide Fat, FileData, Mirrored, FreeUsable, Open, Free;
    FlatOfIs(g, d, t);
    EmptyFile(g, d, t);
    hide FlatOf;
    AppendAccounted(Fat0(g, d), ss, others, t);
    hide Accounted;
    AppendSeparate(ss, others, t);
    hide Separate;
    SoundParts(g, d, ss, others);
  }

  lemma EmptyFile(g: FatInfo, d: Disk, t: State)
    requires Fits(g, d) && Holds(g, d, t) && t.size == 0
    ensures FileData(g, d, t) == []
  {
  }

  lemma AppendSeparate(ss: seq<State>, others: set<nat>, t: State)
    requires Separate(ss, others) && t.chain == []
    ensures Separate(ss + [t], others)
  {
    var us := ss + [t];
    forall i, j | 0 <= i < |us| && 0 <= j < |us| && i != j
      ensures Disjoint(us[i].chain, us[j].chain)
    {
      if i < |ss| && j < |ss| {
        assert Disjoint(ss[i].chain, ss[j].chain);
      }
    }
  }

  lemma AppendAccounted(f: seq<word>, ss: seq<State>, others: set<nat>, t: State)
    requires Accounted(f, ss, others) && t.chain == []
    ensures Accounted(f, ss + [t], others)
  {
    var us := ss + [t];
    forall n: nat
      ensures InSome(us, n) <==> InSome(ss, n)
    {
      assert forall i :: 0 <= i < |ss| ==> us[i] == ss[i];
    }
  }

  /** A new file is empty, has the name asked for and is open at its beginning; no other file and no
      other entry changes. */
  lemma CreateKeeps(g: FatInfo, d: Disk, dir: Dir, c: Catalog, ps: seq<Desc>, fd: nat, q: nat, name: seq<byte>,
                    t: State, p: Desc, e: Disk)
    requires CatalogOk(g, d, dir, c, ps) && fd < |ps| && c.handles[fd] == Unused
    requires Fresh(EntriesOf(d, dir.bl), q, name) && Stored(d, dir.bl, q, NewRaw(name), e)
    requires dir.cluster == 0 ==> RoomFor(EntriesOf(d, dir.bl))
    requires Fits(g, e) && Open(g, e, t) && CreatedOn(dir.bl, q, name, t, p)
    ensures CatalogOk(g, e, dir, Added(c, fd, t, q), ps[fd := p])
    ensures var f := FolderOf(g, d, dir, c);
            |f.names| == |c.files| && FolderOf(g, e, dir, Added(c, fd, t, q)) == WithFile(f, name, fd)
  {
    hide DirOk, EntriesOf, Abstract, Holes, Ends, Reserved, NamesOf, ClosedOk, HandlesOk, EntriesOk, Sound, Open,
      NewRaw, Fresh, RoomFor, Stored, CreatedOn, AstrayOk;
    var es := EntriesOf(d, dir.bl);
    ListedEntries(es, dir.bl, c, ps);
    FreshName(es, q, name);
    EndsCleanOf(es, c.place);
    CountsAfter(es, q, name);
    AddedAstray(g, c, fd, t, q);
    CreatedListed(es, dir.bl, c, ps, fd, q, name, t, p);
    ListedEntries(es[q := NewRaw(name)], dir.bl, Added(c, fd, t, q), ps[fd := p]);
    CreatedNames(es, c.place, q, name);
    StoreKeepsDir(g, d, dir, c.files, c.others, q, NewRaw(name), e);
    CreatedEmpty(dir.bl, q, name, t, p);
    AppendSound(g, e, c.files, c.others, t);
  }

  lemma CreatedEmpty(bl: seq<int>, q: nat, name: seq<byte>, t: State, p: Desc)
    requires |name| == 11 && CreatedOn(bl, q, name, t, p)
    ensures t.chain == [] && t.off == 0 && t.size == 0
  {
  }
}
