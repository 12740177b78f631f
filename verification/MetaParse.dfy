/** What a byte string must hold to be read as a meta file: the readers accept exactly these bytes. */
module MetaParse {
  import opened Base
  import opened Bytes
  import opened PackFormat
  import opened SortOrder
  import opened FilterQuery
  import opened BoundLayout
  import opened BoundParse
  import opened BoundMeta
  import CacheKey

  // ---- Pieces ----

  /** The bytes behind a 32-bit length, if all of them are there. */
  function BlobIn(data: Data, pos: nat): Option<Data> {
    if pos + 4 > |data| then None else PartIn(data, pos + 4, U32In(data, pos))
  }

  function ShortIn(data: Data, pos: nat): int
    requires pos + 2 <= |data|
  {
    data[pos] as int + 0x100 * data[pos + 1] as int
  }

  lemma ShortReads(data: Data, pos: nat)
    requires pos + 2 <= |data|
    ensures ReadU16(data, pos) == Some((ShortIn(data, pos), pos + 2))
  {
    FirstTwo(data[pos..pos + 2]);
  }

  lemma PairReads<A, B>(f: Reader<A>, g: Reader<B>, data: Data, pos: nat)
    ensures var (r, a) := (Pair(f, g)(data, pos), f(data, pos));
            if a.None? then r == None
            else
              var b := g(data, a.value.1);
              r == if b.None? then None else Some(((a.value.0, b.value.0), b.value.1))
  {
  }

  lemma CheckedReads<A, B>(f: Reader<A>, convert: A -> Option<B>, data: Data, pos: nat)
    ensures var (r, a) := (Checked(f, convert)(data, pos), f(data, pos));
            if a.None? then r == None
            else
              var b := convert(a.value.0);
              r == if b.None? then None else Some((b.value, a.value.1))
  {
  }

  // ---- The parts of a record ----

  /** Id, then the sort field behind a 16-bit length, then one byte for the direction. */
  ghost predicate HeadSays(c: Codec, data: Data, pos: nat, h: Head, next: nat) {
    && pos + 6 <= |data| && h.0 == U32In(data, pos)
    && var end := pos + 6 + ShortIn(data, pos + 4);
       && end < |data| && next == end + 1
       && c.unpackText(data[pos + 6..end]) == Some(h.1.0)
       && ((h.1.1 == Desc && data[end] == 0) || (h.1.1 == Asc && data[end] == 1))
  }

  ghost predicate KeySays(c: Codec, data: Data, pos: nat, k: CacheKey.Key, next: nat) {
    var b := BlobIn(data, pos);
    b.Some? && c.unpackKey(b.value) == Some(k) && next == pos + 4 + |b.value|
  }

  /** Three 32-bit numbers, a 64-bit one and a byte. */
  ghost predicate NumbersSay(data: Data, pos: nat, n: Numbers, next: nat) {
    && pos + 21 <= |data| && next == pos + 21
    && n.0 == [U32In(data, pos), U32In(data, pos + 4), U32In(data, pos + 8)]
    && n.1.0 as int == U32In(data, pos + 12) as int + 0x1_0000_0000 * U32In(data, pos + 16) as int && n.1.1 == data[pos + 20]
  }

  ghost predicate TreeSays(c: Codec, data: Data, pos: nat, v2: bool, tree: seq<Clause>, next: nat) {
    var b := BlobIn(data, pos);
    if v2 then b.Some? && c.unpackTree(b.value) == Some(tree) && next == pos + 4 + |b.value| else tree == [] && next == pos
  }

  lemma HeadReadsExactly(c: Codec, data: Data, pos: nat, h: Head, next: nat)
    ensures HeadReader(c)(data, pos) == Some((h, next)) <==> HeadSays(c, data, pos, h, next)
  {
    var (field, direction) := (Checked(ShortBlobs(), c.unpackText), Checked(U8s(), ToDirection));
    PairReads(U32s(), Pair(field, direction), data, pos);
    NumberReads(data, pos);
    if pos + 4 <= |data| {
      PairReads(field, direction, data, pos + 4);
      CheckedReads(ShortBlobs(), c.unpackText, data, pos + 4);
      if pos + 6 <= |data| {
        ShortReads(data, pos + 4);
        CheckedReads(U8s(), ToDirection, data, pos + 6 + ShortIn(data, pos + 4));
        assert h == (h.0, (h.1.0, h.1.1));
      }
    }
  }

  lemma KeyReadsExactly(c: Codec, data: Data, pos: nat, k: CacheKey.Key, next: nat)
    ensures KeyReader(c)(data, pos) == Some((k, next)) <==> KeySays(c, data, pos, k, next)
  {
    CheckedReads(Blobs(), c.unpackKey, data, pos);
    NumberReads(data, pos);
  }

  lemma LongReads(data: Data, pos: nat)
    requires pos + 8 <= |data|
    ensures Le64(data[pos..pos + 8]) as int == U32In(data, pos) as int + 0x1_0000_0000 * U32In(data, pos + 4) as int
  {
    var b := data[pos..pos + 8];
    EightBytes(b);
    FourBytes(b[..4]);
    FourBytes(b[4..]);
  }

  lemma ThreeRead(data: Data, pos: nat)
    requires pos + 12 <= |data|
    ensures ReadFields(data, pos, 3) == Some(([U32In(data, pos), U32In(data, pos + 4), U32In(data, pos + 8)], pos + 12))
  {
    FieldsRead(data, pos, 3);
    var fs := ReadFields(data, pos, 3).value.0;
    assert fs[0] == Number(data, pos) && fs[1] == Number(data, pos + 4) && fs[2] == Number(data, pos + 8);
    assert fs == [fs[0], fs[1], fs[2]];
  }

  lemma NumbersReadExactly(data: Data, pos: nat, n: Numbers, next: nat)
    ensures NumberReader()(data, pos) == Some((n, next)) <==> NumbersSay(data, pos, n, next)
  {
    PairReads(FieldLists(3), Pair(U64s(), U8s()), data, pos);
    if pos + 12 <= |data| {
      ThreeRead(data, pos);
      PairReads(U64s(), U8s(), data, pos + 12);
      assert n == (n.0, (n.1.0, n.1.1));
      if pos + 20 <= |data| {
        LongReads(data, pos + 12);
      }
    }
  }

  lemma TreeReadsExactly(c: Codec, data: Data, pos: nat, v2: bool, tree: seq<Clause>, next: nat)
    ensures TreeReader(c, v2)(data, pos) == Some((tree, next)) <==> TreeSays(c, data, pos, v2, tree, next)
  {
    CheckedReads(Blobs(), c.unpackTree, data, pos);
    NumberReads(data, pos);
  }

  // ---- A record ----

  /** The four parts of a record, each where the one before it ends. */
  ghost predicate PiecesSay(c: Codec, data: Data, pos: nat, v2: bool, p: Parts, key: nat, numbers: nat, tree: nat, next: nat) {
    && HeadSays(c, data, pos, p.0, key) && KeySays(c, data, key, p.1.0, numbers)
    && NumbersSay(data, numbers, p.1.1.0, tree) && TreeSays(c, data, tree, v2, p.1.1.1, next)
  }

  lemma PiecesRead(c: Codec, data: Data, pos: nat, v2: bool, p: Parts, key: nat, numbers: nat, tree: nat, next: nat)
    requires PiecesSay(c, data, pos, v2, p, key, numbers, tree, next)
    ensures PartReader(c, v2)(data, pos) == Some((p, next))
  {
    var (late, later) := (Pair(NumberReader(), TreeReader(c, v2)), Pair(KeyReader(c), Pair(NumberReader(), TreeReader(c, v2))));
    HeadReadsExactly(c, data, pos, p.0, key);
    KeyReadsExactly(c, data, key, p.1.0, numbers);
    NumbersReadExactly(data, numbers, p.1.1.0, tree);
    TreeReadsExactly(c, data, tree, v2, p.1.1.1, next);
    PairReads(NumberReader(), TreeReader(c, v2), data, numbers);
    PairReads(KeyReader(c), late, data, key);
    PairReads(HeadReader(c), later, data, pos);
    assert p == (p.0, (p.1.0, (p.1.1.0, p.1.1.1)));
  }

  lemma ReadSays(c: Codec, data: Data, pos: nat, v2: bool, p: Parts, next: nat) returns (key: nat, numbers: nat, tree: nat)
    requires PartReader(c, v2)(data, pos) == Some((p, next))
    ensures PiecesSay(c, data, pos, v2, p, key, numbers, tree, next)
  {
    var (late, later) := (Pair(NumberReader(), TreeReader(c, v2)), Pair(KeyReader(c), Pair(NumberReader(), TreeReader(c, v2))));
    PairReads(HeadReader(c), later, data, pos);
    key := HeadReader(c)(data, pos).value.1;
    PairReads(KeyReader(c), late, data, key);
    numbers := KeyReader(c)(data, key).value.1;
    PairReads(NumberReader(), TreeReader(c, v2), data, numbers);
    tree := NumberReader()(data, numbers).value.1;
    HeadReadsExactly(c, data, pos, p.0, key);
    KeyReadsExactly(c, data, key, p.1.0, numbers);
    NumbersReadExactly(data, numbers, p.1.1.0, tree);
    TreeReadsExactly(c, data, tree, v2, p.1.1.1, next);
  }

  function PartsOfEntry(e: MetaEntry, flag: U8): Parts {
    ((e.id, (e.sortField, e.direction)), (e.clauses, (([e.capacity, e.maxCapacity, e.minTracked], (e.totalMatched, flag)), e.original)))
  }

  /** The bytes of one entry: its parts in a row, with any flag but zero for more. */
  ghost predicate RecordSays(c: Codec, data: Data, pos: nat, v2: bool, e: MetaEntry, next: nat) {
    exists key, numbers, tree, flag: U8 ::
      PiecesSay(c, data, pos, v2, PartsOfEntry(e, flag), key, numbers, tree, next) && (e.hasMore <==> flag != 0)
  }

  lemma AssembledExactly(p: Parts, e: MetaEntry)
    ensures Assembled(p) == Some(e) <==> p == PartsOfEntry(e, p.1.1.0.1.1) && (e.hasMore <==> p.1.1.0.1.1 != 0)
  {
    var fs := p.1.1.0.0;
    if |fs| == 3 {
      assert fs == [fs[0], fs[1], fs[2]];
    }
    assert p == (p.0, (p.1.0, (p.1.1.0, p.1.1.1))) && p.0 == (p.0.0, (p.0.1.0, p.0.1.1));
    assert p.1.1.0 == (fs, (p.1.1.0.1.0, p.1.1.0.1.1));
  }

  lemma RecordReadsExactly(c: Codec, data: Data, pos: nat, v2: bool, e: MetaEntry, next: nat)
    ensures EntryReader(c, v2)(data, pos) == Some((e, next)) <==> RecordSays(c, data, pos, v2, e, next)
  {
    CheckedReads(PartReader(c, v2), Assembled, data, pos);
    if EntryReader(c, v2)(data, pos) == Some((e, next)) {
      var p := PartReader(c, v2)(data, pos).value.0;
      var key, numbers, tree := ReadSays(c, data, pos, v2, p, next);
      AssembledExactly(p, e);
    } else if key, numbers, tree, flag: U8 :|
      PiecesSay(c, data, pos, v2, PartsOfEntry(e, flag), key, numbers, tree, next) && (e.hasMore <==> flag != 0) {
      PiecesRead(c, data, pos, v2, PartsOfEntry(e, flag), key, numbers, tree, next);
      AssembledExactly(PartsOfEntry(e, flag), e);
    }
  }

  // ---- The whole file ----

  ghost predicate RecordsSay(c: Codec, data: Data, pos: nat, v2: bool, es: seq<MetaEntry>, end: nat)
    decreases |es|
  {
    if es == [] then end == pos
    else exists next: nat :: RecordSays(c, data, pos, v2, es[0], next) && RecordsSay(c, data, next, v2, es[1..], end)
  }

  lemma FirstOfMany<T>(read: Reader<T>, data: Data, pos: nat, xs: seq<T>, end: nat)
    requires xs != []
    ensures ReadMany(read, data, pos, |xs|) == Some((xs, end)) <==>
            read(data, pos).Some? && read(data, pos).value.0 == xs[0]
            && ReadMany(read, data, read(data, pos).value.1, |xs| - 1) == Some((xs[1..], end))
  {
    assert xs == [xs[0]] + xs[1..];
  }

  /** The reader takes exactly what the bytes say at every position. */
  ghost predicate Faithful(read: Reader<MetaEntry>, c: Codec, data: Data, v2: bool) {
    forall pos: nat, e, next: nat :: read(data, pos) == Some((e, next)) <==> RecordSays(c, data, pos, v2, e, next)
  }

  lemma {:induction false} RecordsAreSaid(read: Reader<MetaEntry>, c: Codec, data: Data, pos: nat, v2: bool, es: seq<MetaEntry>, end: nat)
    requires Faithful(read, c, data, v2) && ReadMany(read, data, pos, |es|) == Some((es, end))
    ensures RecordsSay(c, data, pos, v2, es, end)
    decreases |es|
  {
    if es != [] {
      FirstOfMany(read, data, pos, es, end);
      var next := read(data, pos).value.1;
      assert read(data, pos) == Some((es[0], next));
      RecordsAreSaid(read, c, data, next, v2, es[1..], end);
    }
  }

  lemma {:induction false} SaidIsRead(read: Reader<MetaEntry>, c: Codec, data: Data, pos: nat, v2: bool, es: seq<MetaEntry>, end: nat)
    requires Faithful(read, c, data, v2) && RecordsSay(c, data, pos, v2, es, end)
    ensures ReadMany(read, data, pos, |es|) == Some((es, end))
    decreases |es|
  {
    if es != [] {
      var next: nat :| RecordSays(c, data, pos, v2, es[0], next) && RecordsSay(c, data, next, v2, es[1..], end);
      SaidFirst(read, c, data, pos, v2, es[0], next);
      SaidIsRead(read, c, data, next, v2, es[1..], end);
      ReadThenMany(read, data, pos, es, next, end);
    }
  }

  lemma SaidFirst(read: Reader<MetaEntry>, c: Codec, data: Data, pos: nat, v2: bool, e: MetaEntry, next: nat)
    requires Faithful(read, c, data, v2) && RecordSays(c, data, pos, v2, e, next)
    ensures read(data, pos) == Some((e, next))
  {
  }

  lemma ReadThenMany<T>(read: Reader<T>, data: Data, pos: nat, xs: seq<T>, next: nat, end: nat)
    requires xs != [] && read(data, pos) == Some((xs[0], next)) && ReadMany(read, data, next, |xs| - 1) == Some((xs[1..], end))
    ensures ReadMany(read, data, pos, |xs|) == Some((xs, end))
  {
    FirstOfMany(read, data, pos, xs, end);
  }

  lemma ReaderIsFaithful(c: Codec, data: Data, v2: bool)
    ensures Faithful(EntryReader(c, v2), c, data, v2)
  {
    forall pos: nat, e, next: nat ensures EntryReader(c, v2)(data, pos) == Some((e, next)) <==> RecordSays(c, data, pos, v2, e, next) {
      RecordReadsExactly(c, data, pos, v2, e, next);
    }
  }

  lemma RecordsReadExactly(c: Codec, data: Data, pos: nat, v2: bool, es: seq<MetaEntry>, end: nat)
    ensures ReadMany(EntryReader(c, v2), data, pos, |es|) == Some((es, end)) <==> RecordsSay(c, data, pos, v2, es, end)
  {
    ReaderIsFaithful(c, data, v2);
    if ReadMany(EntryReader(c, v2), data, pos, |es|) == Some((es, end)) {
      RecordsAreSaid(EntryReader(c, v2), c, data, pos, v2, es, end);
    } else if RecordsSay(c, data, pos, v2, es, end) {
      SaidIsRead(EntryReader(c, v2), c, data, pos, v2, es, end);
    }
  }

  /** The tombstones behind a length, then the next id. */
  ghost predicate TailSays(c: Codec, data: Data, pos: nat, m: MetaFile) {
    var b := BlobIn(data, pos);
    && b.Some? && c.unpackMap(b.value) == Some(m.tombstones)
    && pos + 8 + |b.value| <= |data| && m.nextId == U32In(data, pos + 4 + |b.value|)
  }

  lemma TailReadsExactly(c: Codec, data: Data, pos: nat, m: MetaFile)
    ensures (TailReader(c)(data, pos).Some? && TailReader(c)(data, pos).value.0 == (m.tombstones, m.nextId)) <==> TailSays(c, data, pos, m)
  {
    PairReads(Checked(Blobs(), c.unpackMap), U32s(), data, pos);
    CheckedReads(Blobs(), c.unpackMap, data, pos);
    NumberReads(data, pos);
    if BlobIn(data, pos).Some? {
      NumberReads(data, pos + 4 + |BlobIn(data, pos).value|);
    }
  }

  /** The bytes are a meta file with these contents; what follows the next id does not matter. */
  ghost predicate MetaSays(c: Codec, data: Data, v2: bool, m: MetaFile) {
    && HeaderLies(data, if v2 then 2 else 1, |m.entries|)
    && exists end :: RecordsSay(c, data, 8, v2, m.entries, end) && TailSays(c, data, end, m)
  }

  lemma {:induction false} AsManyAsAsked<T>(read: Reader<T>, data: Data, pos: nat, n: nat)
    ensures var r := ReadMany(read, data, pos, n); r.Some? ==> |r.value.0| == n
    decreases n
  {
    if n > 0 && read(data, pos).Some? {
      AsManyAsAsked(read, data, read(data, pos).value.1, n - 1);
    }
  }

  lemma BodyReadsExactly(c: Codec, data: Data, v2: bool, m: MetaFile)
    ensures ReadBody(EntryReader(c, v2), TailReader(c), data, 8, |m.entries|) == Some(m) <==>
            exists end :: RecordsSay(c, data, 8, v2, m.entries, end) && TailSays(c, data, end, m)
  {
    var es := ReadMany(EntryReader(c, v2), data, 8, |m.entries|);
    if es.Some? {
      RecordsReadExactly(c, data, 8, v2, m.entries, es.value.1);
      TailReadsExactly(c, data, es.value.1, m);
    }
    if end :| RecordsSay(c, data, 8, v2, m.entries, end) && TailSays(c, data, end, m) {
      RecordsReadExactly(c, data, 8, v2, m.entries, end);
      TailReadsExactly(c, data, end, m);
    }
  }

  lemma ParseIsBody(c: Codec, data: Data, v2: bool, n: nat)
    requires HeaderLies(data, if v2 then 2 else 1, n)
    ensures ParseMeta(c, data) == ReadBody(EntryReader(c, v2), TailReader(c), data, 8, n)
  {
    BoundParse.HeaderReads(data, if v2 then 2 else 1, n);
  }

  lemma ParsedHasVersion(c: Codec, data: Data, m: MetaFile) returns (v2: bool)
    requires ParseMeta(c, data) == Some(m)
    ensures HeaderLies(data, if v2 then 2 else 1, |m.entries|)
  {
    NumberReads(data, 0);
    NumberReads(data, 4);
    v2 := Number(data, 0) == 2;
    AsManyAsAsked(EntryReader(c, v2), data, 8, Number(data, 4));
  }

  /** The reader accepts exactly the bytes that are a meta file, and returns what they hold. */
  lemma MetaParsesExactly(c: Codec, data: Data, m: MetaFile)
    ensures ParseMeta(c, data) == Some(m) <==> MetaSays(c, data, false, m) || MetaSays(c, data, true, m)
  {
    BodyReadsExactly(c, data, false, m);
    BodyReadsExactly(c, data, true, m);
    if ParseMeta(c, data) == Some(m) {
      var v2 := ParsedHasVersion(c, data, m);
      ParseIsBody(c, data, v2, |m.entries|);
    } else if MetaSays(c, data, false, m) {
      ParseIsBody(c, data, false, |m.entries|);
    } else if MetaSays(c, data, true, m) {
      ParseIsBody(c, data, true, |m.entries|);
    }
  }
}
