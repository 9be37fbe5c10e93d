/** Directories as lists of 32-byte entries. */
module Entries {
  import opened Bytes
  import opened Content
  import opened Descriptor

  const DELETED: byte := 0xE5

  /** An entry as stored. */
  type Raw = r: seq<byte> | |r| == ENTRY_LEN witness seq(ENTRY_LEN, _ => 0)

  function PutWordBytes(w: word): (r: seq<byte>)
    ensures |r| == 2
  {
    [w % 256, w / 256]
  }

  function WordAt(b: seq<byte>, i: nat): word
    requires i + 1 < |b|
  {
    (b[i] as int) + 256 * (b[i + 1] as int)
  }

  ghost predicate IsEntry(e: DirEntry) {
    |e.filename| == 11 && |e.other| == 14
  }

  /** The entry as it lies on the disk, integers with their low byte first. */
  function Encode(e: DirEntry): Raw
    requires IsEntry(e)
  {
    e.filename + [e.attrs] + e.other + PutWordBytes(e.clusterLo)
      + PutWordBytes(e.size % 0x1_0000) + PutWordBytes(e.size / 0x1_0000)
  }

  function Decode(b: Raw): (e: DirEntry)
    ensures IsEntry(e)
  {
    DirEntry(b[..11], b[11], b[12..26], WordAt(b, 26), WordAt(b, 28) + 0x1_0000 * WordAt(b, 30))
  }

  /** Where the fields of an entry lie in a list of bytes, cluster and size with their low bytes first. */
  ghost predicate EntryBytes(b: seq<byte>, at: nat, e: DirEntry)
    requires at + ENTRY_LEN <= |b|
  {
    && b[at..at + 11] == e.filename && b[at + 11] == e.attrs && b[at + 12..at + 26] == e.other
    && e.clusterLo == (b[at + 26] as int) + 0x100 * (b[at + 27] as int)
    && e.size == (b[at + 28] as int) + 0x100 * (b[at + 29] as int) + 0x1_0000 * (b[at + 30] as int)
                 + 0x100_0000 * (b[at + 31] as int)
  }

  /** The card holds that entry at byte `index` of block `addr`. */
  ghost predicate OnCard(d: Disk, addr: int, index: int, e: DirEntry) {
    0 <= addr < |d| && 0 <= index && index + ENTRY_LEN <= BLOCK_SIZE && EntryBytes(d[addr], index, e)
  }

  lemma DecodedBytes(b: Raw)
    ensures EntryBytes(b, 0, Decode(b))
  {
  }

  lemma EncodedBytes(e: DirEntry)
    requires IsEntry(e)
    ensures EntryBytes(Encode(e), 0, e)
  {
    DecodeEncode(e);
    hide Encode, Decode;
    DecodedBytes(Encode(e));
  }

  /** An entry stored in a block. */
  lemma SplicedBytes(b: Block, at: nat, e: DirEntry)
    requires IsEntry(e) && at + ENTRY_LEN <= BLOCK_SIZE
    ensures EntryBytes(Splice(b, at, Encode(e)), at, e)
  {
    EncodedBytes(e);
    var raw, c := Encode(e), Splice(b, at, Encode(e));
    assert c[at..at + ENTRY_LEN] == raw;
    SlicedBytes(c, at, raw, e);
  }

  lemma SlicedBytes(b: seq<byte>, at: nat, raw: Raw, e: DirEntry)
    requires at + ENTRY_LEN <= |b| && b[at..at + ENTRY_LEN] == raw && EntryBytes(raw, 0, e)
    ensures EntryBytes(b, at, e)
  {
    assert forall i :: 0 <= i < ENTRY_LEN ==> b[at + i] == raw[i];
    assert b[at..at + 11] == raw[..11] && b[at + 12..at + 26] == raw[12..26];
  }

  lemma DecodeEncode(e: DirEntry)
    requires IsEntry(e)
    ensures Decode(Encode(e)) == e
  {
    var b := Encode(e);
    assert b[..11] == e.filename && b[12..26] == e.other;
  }

  lemma WordBytes(b: seq<byte>, i: nat)
    requires i + 1 < |b|
    ensures PutWordBytes(WordAt(b, i)) == b[i..i + 2]
  {
  }

  lemma WordPair(lo: word, hi: word)
    ensures (lo + 0x1_0000 * hi) % 0x1_0000 == lo && (lo + 0x1_0000 * hi) / 0x1_0000 == hi
  {
  }

  lemma EncodeDecode(b: Raw)
    ensures Encode(Decode(b)) == b
  {
    hide PutWordBytes, WordAt;
    WordBytes(b, 26);
    WordBytes(b, 28);
    WordBytes(b, 30);
    WordPair(WordAt(b, 28), WordAt(b, 30));
    assert b[..11] + [b[11]] + b[12..26] == b[..26];
    assert b[..26] + b[26..28] + b[28..30] + b[30..32] == b;
  }

  /** Entry `i` of a directory block. */
  function RawAt(b: Block, i: nat): Raw
    requires i < 16
  {
    b[32 * i..32 * i + 32]
  }

  ghost predicate OnDiskBlocks(d: Disk, bl: seq<int>) {
    forall i :: 0 <= i < |bl| ==> 0 <= bl[i] < |d|
  }

  /** An entry of a block, as bytes of it. */
  lemma RawBytes(d: Disk, addr: nat, i: nat)
    requires addr < |d| && i < 16
    ensures OnCard(d, addr, 32 * i, Decode(RawAt(d[addr], i)))
  {
    var raw := RawAt(d[addr], i);
    assert d[addr][32 * i..32 * i + ENTRY_LEN] == raw;
    hide RawAt, Decode, EntryBytes;
    DecodedBytes(raw);
    SlicedBytes(d[addr], 32 * i, raw, Decode(raw));
  }

  /** All entries of the directory in the blocks `bl`. */
  ghost function EntriesOf(d: Disk, bl: seq<int>): (es: seq<Raw>)
    requires OnDiskBlocks(d, bl)
    ensures |es| == 16 * |bl|
  {
    seq(16 * |bl|, (q: nat) requires q < 16 * |bl| => RawAt(d[bl[q / 16]], q % 16))
  }

  lemma EntryAt(d: Disk, bl: seq<int>, j: nat, i: nat)
    requires OnDiskBlocks(d, bl) && j < |bl| && i < 16
    ensures EntriesOf(d, bl)[16 * j + i] == RawAt(d[bl[j]], i)
  {
    assert (16 * j + i) / 16 == j && (16 * j + i) % 16 == i;
  }

  lemma RawAtSplice(b: Block, i: nat, raw: Raw, k: nat)
    requires i < 16 && k < 16
    ensures RawAt(Splice(b, 32 * i, raw), k) == if k == i then raw else RawAt(b, k)
  {
  }

  /** Storing one entry changes that entry of the list and no other. */
  lemma EntryStored(d: Disk, bl: seq<int>, j: nat, i: nat, raw: Raw)
    requires OnDiskBlocks(d, bl) && Distinct(bl) && j < |bl| && i < 16
    ensures OnDiskBlocks(d[bl[j] := Splice(d[bl[j]], 32 * i, raw)], bl)
    ensures EntriesOf(d[bl[j] := Splice(d[bl[j]], 32 * i, raw)], bl) == EntriesOf(d, bl)[16 * j + i := raw]
  {
    hide RawAt, Splice;
    var e := d[bl[j] := Splice(d[bl[j]], 32 * i, raw)];
    var l, r := EntriesOf(e, bl), EntriesOf(d, bl)[16 * j + i := raw];
    forall q | 0 <= q < 16 * |bl|
      ensures l[q] == r[q]
    {
      EntryAt(d, bl, q / 16, q % 16);
      EntryAt(e, bl, q / 16, q % 16);
      RawAtSplice(d[bl[j]], i, raw, q % 16);
    }
  }

  // --------------------------------------------------- lookup and insertion

  const O_CREAT: int := 1
  const O_EXCL: int := 2

  predicate Creates(mode: byte) {
    BitAnd(mode, O_CREAT) != 0
  }

  predicate Exclusive(mode: byte) {
    BitAnd(mode, O_EXCL + O_CREAT) == O_EXCL + O_CREAT
  }

  /** Bit 0 of a mode asks for creation, bits 0 and 1 together for a new file and no other. */
  lemma ModeBits(mode: byte)
    ensures Creates(mode) <==> mode % 2 == 1
    ensures Exclusive(mode) <==> mode % 4 == 3
  {
    BitAndMask(mode, 1);
    BitAndMask(mode, 2);
    assert Pow2(1) == 2 && Pow2(2) == 4;
    hide BitAnd;
  }

  datatype Outcome = Found(at: nat) | Created(at: nat) | Exists | NotFound | DirFull

  ghost predicate IsEnd(raw: Raw)
  {
    raw[0] == 0
  }

  ghost predicate IsDeleted(raw: Raw)
  {
    raw[0] == DELETED
  }

  ghost predicate Named(raw: Raw, name: seq<byte>)
  {
    raw[0] != 0 && raw[0] != DELETED && raw[..11] == name
  }

  /** The search from entry `q` on; `slot` is the first deleted entry met so far, or -1. */
  ghost function Search(es: seq<Raw>, q: nat, name: seq<byte>, mode: byte, slot: int): Outcome
    requires q <= |es| && slot < |es|
    decreases |es| - q
  {
    if q == |es| then (if Creates(mode) then DirFull else NotFound)
    else if IsEnd(es[q]) then
      if !Creates(mode) then NotFound else Created(if slot >= 0 then slot else q)
    else if Named(es[q], name) then
      if Exclusive(mode) then Exists else Found(q)
    else Search(es, q + 1, name, mode, if slot < 0 && IsDeleted(es[q]) then q else slot)
  }

  lemma SearchStep(es: seq<Raw>, q: nat, name: seq<byte>, mode: byte, slot: int)
    requires q < |es| && slot < |es| && !IsEnd(es[q]) && !Named(es[q], name)
    ensures Search(es, q, name, mode, slot) ==
      Search(es, q + 1, name, mode, if slot < 0 && IsDeleted(es[q]) then q else slot)
  {
  }

  ghost predicate NoEnd(es: seq<Raw>, lo: nat, hi: nat) {
    forall k :: lo <= k < hi && k < |es| ==> !IsEnd(es[k])
  }

  /** Where the search stops: at the first free entry, or at a live entry with the name. */
  lemma SearchEnds(es: seq<Raw>, q: nat, name: seq<byte>, mode: byte, slot: int)
    requires q < |es| && slot < |es| && (IsEnd(es[q]) || Named(es[q], name))
    ensures Search(es, q, name, mode, slot) ==
      if IsEnd(es[q]) then (if !Creates(mode) then NotFound else Created(if slot >= 0 then slot else q))
      else if Exclusive(mode) then Exists else Found(q)
  {
  }

  // ------------------------------------------- what the search amounts to

  /** Entry `q` comes before the first free one. */
  ghost predicate InUse(es: seq<Raw>, q: int) {
    0 <= q < |es| && forall k :: 0 <= k <= q ==> !IsEnd(es[k])
  }

  /** Entry `q` is the one a user means by `name`. */
  ghost predicate Matches(es: seq<Raw>, q: int, name: seq<byte>) {
    InUse(es, q) && Named(es[q], name)
  }

  ghost predicate FirstMatch(es: seq<Raw>, q: int, name: seq<byte>) {
    Matches(es, q, name) && forall k :: 0 <= k < q ==> !Named(es[k], name)
  }

  /** The first free entry of the directory. */
  ghost predicate FirstEnd(es: seq<Raw>, t: int) {
    0 <= t < |es| && IsEnd(es[t]) && forall k :: 0 <= k < t ==> !IsEnd(es[k])
  }

  /** Where a new entry goes: to the first deleted entry in use, or else to the first free one. */
  ghost predicate InsertionPoint(es: seq<Raw>, q: int) {
    if FirstEnd(es, q) then forall k :: 0 <= k < q ==> !IsDeleted(es[k])
    else
      && InUse(es, q) && IsDeleted(es[q])
      && (forall k :: 0 <= k < q ==> !IsDeleted(es[k]))
      && exists t :: FirstEnd(es, t)
  }

  ghost predicate NoMatch(es: seq<Raw>, name: seq<byte>) {
    forall q :: 0 <= q < |es| && Named(es[q], name) ==> !InUse(es, q)
  }

  /** What each outcome of a search says about the directory. */
  ghost predicate Means(es: seq<Raw>, name: seq<byte>, mode: byte, o: Outcome) {
    match o
    case Found(q) => !Exclusive(mode) && FirstMatch(es, q, name)
    case Exists => Exclusive(mode) && exists q :: Matches(es, q, name)
    case Created(q) => Creates(mode) && NoMatch(es, name) && InsertionPoint(es, q)
    case NotFound => !Creates(mode) && NoMatch(es, name)
    case DirFull => Creates(mode) && NoMatch(es, name) && forall t :: !FirstEnd(es, t)
  }

  /** The state of the search between two entries: nothing decisive so far. */
  ghost predicate Searching(es: seq<Raw>, q: nat, name: seq<byte>, slot: int) {
    && q <= |es| && -1 <= slot < q
    && (forall k :: 0 <= k < q ==> !IsEnd(es[k]) && !Named(es[k], name))
    && (forall k :: 0 <= k < (if slot < 0 then q else slot) ==> !IsDeleted(es[k]))
    && (slot >= 0 ==> IsDeleted(es[slot]))
  }

  lemma {:induction false} SearchMeansFrom(es: seq<Raw>, q: nat, name: seq<byte>, mode: byte, slot: int)
    requires Searching(es, q, name, slot)
    ensures Means(es, name, mode, Search(es, q, name, mode, slot))
    decreases |es| - q
  {
    hide BitAnd;
    if q == |es| {
    } else if IsEnd(es[q]) {
      assert FirstEnd(es, q);
    } else if Named(es[q], name) {
      assert Matches(es, q, name);
    } else {
      SearchStep(es, q, name, mode, slot);
      SearchMeansFrom(es, q + 1, name, mode, if slot < 0 && IsDeleted(es[q]) then q else slot);
    }
  }

  /** The search finds the first live entry with the name; it makes a new one only where there is
      none, and then in the first deleted entry or at the end. */
  lemma SearchMeans(es: seq<Raw>, name: seq<byte>, mode: byte)
    ensures Means(es, name, mode, Search(es, 0, name, mode, -1))
  {
    SearchMeansFrom(es, 0, name, mode, -1);
  }

  /** The meaning leaves no choice. */
  lemma MeansUnique(es: seq<Raw>, name: seq<byte>, mode: byte, o: Outcome, u: Outcome)
    requires Means(es, name, mode, o) && Means(es, name, mode, u)
    ensures o == u
  {
    hide BitAnd;
    match (o, u) {
      case (Found(q), Found(p)) =>
      case (Created(q), Created(p)) => InsertionUnique(es, q, p);
      case _ =>
    }
  }

  lemma InsertionUnique(es: seq<Raw>, q: int, p: int)
    requires InsertionPoint(es, q) && InsertionPoint(es, p)
    ensures q == p
  {
  }

  // ----------------------------------------------------------- after creation

  /** No two live entries have the same name. */
  ghost predicate UniqueNames(es: seq<Raw>) {
    forall p, q, name {:trigger Matches(es, p, name), Matches(es, q, name)} ::
      Matches(es, p, name) && Matches(es, q, name) ==> p == q
  }

  /** Behind the first free entry there are only free ones. */
  ghost predicate EndsClean(es: seq<Raw>) {
    forall t, k :: FirstEnd(es, t) && t <= k < |es| ==> IsEnd(es[k])
  }

  /** A new entry is in use exactly as itself, and nobody else's standing changes. */
  lemma AfterInsertion(es: seq<Raw>, q: nat, raw: Raw, p: int, name: seq<byte>)
    requires q < |es| && InsertionPoint(es, q) && EndsClean(es) && raw[0] != 0 && raw[0] != DELETED
    ensures Matches(es[q := raw], p, name) <==> if p == q then name == raw[..11] else Matches(es, p, name)
  {
    var fs := es[q := raw];
    InUseAfter(es, q, raw, p);
    if p == q {
      assert fs[p] == raw;
    } else if InUse(es, p) {
      assert fs[p] == es[p];
    }
  }

  lemma InUseAfter(es: seq<Raw>, q: nat, raw: Raw, p: int)
    requires InsertionPoint(es, q) && EndsClean(es) && raw[0] != 0
    ensures InUse(es[q := raw], p) <==> p == q || InUse(es, p)
  {
    var fs := es[q := raw];
    if FirstEnd(es, q) && q < p < |es| {
      assert IsEnd(es[q + 1]) && IsEnd(fs[q + 1]);
      assert IsEnd(es[q]);
    } else if 0 <= p < |es| {
      assert forall k :: 0 <= k <= p && k != q ==> fs[k] == es[k];
      assert fs[q] == raw && !IsEnd(raw);
    }
  }

  /** Creation keeps names unique, and a lookup of any other name ends as before. */
  lemma CreationKeepsOthers(es: seq<Raw>, q: nat, raw: Raw, name: seq<byte>, other: seq<byte>, mode: byte)
    requires UniqueNames(es) && EndsClean(es) && NoMatch(es, name) && InsertionPoint(es, q)
    requires raw[0] != 0 && raw[0] != DELETED && raw[..11] == name
    requires !Creates(mode) && !Exclusive(mode)
    ensures UniqueNames(es[q := raw])
    ensures Search(es[q := raw], 0, name, mode, -1) == Found(q)
    ensures other != name ==> Search(es[q := raw], 0, other, mode, -1) == Search(es, 0, other, mode, -1)
  {
    var fs := es[q := raw];
    assert forall r :: !Matches(es, r, name);
    forall p, r, n | Matches(fs, p, n) && Matches(fs, r, n)
      ensures p == r
    {
      AfterInsertion(es, q, raw, p, n);
      AfterInsertion(es, q, raw, r, n);
    }
    AfterInsertion(es, q, raw, q, name);
    SearchMeans(fs, name, mode);
    if other != name {
      SearchAfterInsertion(es, q, raw, other, mode);
    }
  }

  lemma SearchAfterInsertion(es: seq<Raw>, q: nat, raw: Raw, other: seq<byte>, mode: byte)
    requires UniqueNames(es) && EndsClean(es) && InsertionPoint(es, q)
    requires raw[0] != 0 && raw[0] != DELETED && raw[..11] != other
    requires !Creates(mode) && !Exclusive(mode)
    ensures Search(es[q := raw], 0, other, mode, -1) == Search(es, 0, other, mode, -1)
  {
    hide Search, BitAnd;
    var fs := es[q := raw];
    SearchMeans(es, other, mode);
    SearchMeans(fs, other, mode);
    if p :| Matches(es, p, other) {
      AfterInsertion(es, q, raw, p, other);
    } else {
      forall p
        ensures !Matches(fs, p, other)
      {
        AfterInsertion(es, q, raw, p, other);
      }
    }
  }
}
