/** The meta file of the persisted cache: one record per entry, tombstones, and the next id. */
module BoundMeta {
  import opened Base
  import opened Bytes
  import opened PackFormat
  import opened SortOrder
  import opened FilterQuery
  import CacheKey

  datatype MetaEntry = MetaEntry(id: U32, sortField: string, direction: Direction, clauses: CacheKey.Key, capacity: U32,
                                 maxCapacity: U32, minTracked: U32, totalMatched: U64, hasMore: bool, original: seq<Clause>)

  datatype MetaFile = MetaFile(entries: seq<MetaEntry>, tombstones: Bitmap, nextId: U32)

  /** A bucket clause keeps its name on disk, not its bitmap. */
  function Strip(cl: Clause): Clause {
    match cl
    case BucketBitmap(field, name, _) => BucketBitmap(field, name, {})
    case Not(inner) => Not(Strip(inner))
    case And(cs) => And(StripAll(cs))
    case Or(cs) => Or(StripAll(cs))
    case _ => cl
  }

  function StripAll(cs: seq<Clause>): seq<Clause> {
    if cs == [] then [] else [Strip(cs[0])] + StripAll(cs[1..])
  }

  /** UTF-8, msgpack and roaring, which the format only calls. */
  datatype Codec = Codec(
    packText: string -> Data, unpackText: Data -> Option<string>,
    packKey: CacheKey.Key -> Data, unpackKey: Data -> Option<CacheKey.Key>,
    packTree: seq<Clause> -> Data, unpackTree: Data -> Option<seq<Clause>>,
    packMap: Bitmap -> Data, unpackMap: Data -> Option<Bitmap>)

  ghost predicate Sound(c: Codec) {
    && (forall t :: c.unpackText(c.packText(t)) == Some(t))
    && (forall k :: c.unpackKey(c.packKey(k)) == Some(k))
    && (forall cs :: c.unpackTree(c.packTree(cs)) == Some(StripAll(cs)))
    && (forall b :: c.unpackMap(c.packMap(b)) == Some(b))
  }

  // ---- Writing ----

  function HeadBytes(c: Codec, e: MetaEntry): Data {
    ToLe(e.id, 4) + (ShortBlob(c.packText(e.sortField)) + [DirectionByte(e.direction)])
  }

  function NumberBytes(e: MetaEntry): Data {
    Fields([e.capacity, e.maxCapacity, e.minTracked]) + (ToLe(e.totalMatched, 8) + [if e.hasMore then 1 else 0])
  }

  /** Version 1 has no clause tree. */
  function TreeBytes(c: Codec, e: MetaEntry, v2: bool): Data {
    if v2 then Blob(c.packTree(e.original)) else []
  }

  function EntryBytes(c: Codec, e: MetaEntry, v2: bool): Data {
    HeadBytes(c, e) + (Blob(c.packKey(e.clauses)) + (NumberBytes(e) + TreeBytes(c, e, v2)))
  }

  function Records(c: Codec, es: seq<MetaEntry>, v2: bool): seq<Data> {
    seq(|es|, i requires 0 <= i < |es| => EntryBytes(c, es[i], v2))
  }

  function Packed(version: U32, n: nat, entries: Data, tail: Data): Data {
    ToLe(version, 4) + (ToLe(n, 4) + (entries + tail))
  }

  function TailBytes(c: Codec, m: MetaFile): Data {
    Blob(c.packMap(m.tombstones)) + ToLe(m.nextId, 4)
  }

  function MetaBytes(c: Codec, m: MetaFile, v2: bool): Data {
    Packed(if v2 then 2 else 1, |m.entries|, Concat(Records(c, m.entries, v2)), TailBytes(c, m))
  }

  function DirectionByte(d: Direction): U8 {
    if d.Desc? then 0 else 1
  }

  // ---- Reading ----

  function ToDirection(b: U8): Option<Direction> {
    if b == 0 then Some(Desc) else if b == 1 then Some(Asc) else None
  }

  type Head = (U32, (string, Direction))

  function HeadReader(c: Codec): Reader<Head> {
    Pair(U32s(), Pair(Checked(ShortBlobs(), c.unpackText), Checked(U8s(), ToDirection)))
  }

  function KeyReader(c: Codec): Reader<CacheKey.Key> {
    Checked(Blobs(), c.unpackKey)
  }

  type Numbers = (seq<nat>, (U64, U8))

  function NumberReader(): Reader<Numbers> {
    Pair(FieldLists(3), Pair(U64s(), U8s()))
  }

  function TreeReader(c: Codec, v2: bool): Reader<seq<Clause>> {
    if v2 then Checked(Blobs(), c.unpackTree) else Constant([])
  }

  type Parts = (Head, (CacheKey.Key, (Numbers, seq<Clause>)))

  function Assembled(p: Parts): Option<MetaEntry> {
    var h := p.0;
    var n := p.1.1.0;
    var fs := n.0;
    if |fs| == 3 && fs[0] < 0x1_0000_0000 && fs[1] < 0x1_0000_0000 && fs[2] < 0x1_0000_0000 then
      Some(MetaEntry(h.0, h.1.0, h.1.1, p.1.0, fs[0], fs[1], fs[2], n.1.0, n.1.1 != 0, p.1.1.1))
    else None
  }

  function PartReader(c: Codec, v2: bool): Reader<Parts> {
    Pair(HeadReader(c), Pair(KeyReader(c), Pair(NumberReader(), TreeReader(c, v2))))
  }

  function EntryReader(c: Codec, v2: bool): Reader<MetaEntry> {
    Checked(PartReader(c, v2), Assembled)
  }

  function TailReader(c: Codec): Reader<(Bitmap, U32)> {
    Pair(Checked(Blobs(), c.unpackMap), U32s())
  }

  function ReadBody(entry: Reader<MetaEntry>, tail: Reader<(Bitmap, U32)>, data: Data, pos: nat, n: nat): Option<MetaFile> {
    var es :- ReadMany(entry, data, pos, n);
    var t :- tail(data, es.1);
    Some(MetaFile(es.0, t.0.0, t.0.1))
  }

  function ParseMeta(c: Codec, data: Data): Option<MetaFile> {
    var version :- ReadU32(data, 0);
    if version.0 != 1 && version.0 != 2 then None
    else
      var n :- ReadU32(data, version.1);
      ReadBody(EntryReader(c, version.0 >= 2), TailReader(c), data, n.1, n.0)
  }

  /** Total on every byte string: a read outside the data is an error, never taken. */
  method DeserializeMeta(c: Codec, data: Data) returns (r: Option<MetaFile>)
    ensures r == ParseMeta(c, data)
  {
    var version :- ReadU32(data, 0);
    if version.0 != 1 && version.0 != 2 {
      return None;
    }
    var n :- ReadU32(data, version.1);
    var es :- ReadLoop(EntryReader(c, version.0 >= 2), data, n.1, n.0);
    var t :- TailReader(c)(data, es.1);
    r := Some(MetaFile(es.0, t.0.0, t.0.1));
  }

  method SerializeMeta(c: Codec, m: MetaFile) returns (buf: Data)
    ensures buf == MetaBytes(c, m, true)
  {
    buf := ToLe(2, 4) + ToLe(|m.entries|, 4);
    ghost var header := buf;
    ghost var records := Records(c, m.entries, true);
    for i := 0 to |m.entries|
      invariant buf == header + Concat(records[..i])
    {
      RecordAppended(header, records, i);
      buf := buf + EntryBytes(c, m.entries[i], true);
    }
    assert records[..|m.entries|] == records;
    PackedLeft(2, |m.entries|, Concat(records), TailBytes(c, m));
    buf := buf + TailBytes(c, m);
  }

  lemma RecordAppended(header: Data, records: seq<Data>, i: nat)
    requires i < |records|
    ensures header + Concat(records[..i + 1]) == (header + Concat(records[..i])) + records[i]
  {
    ConcatOneMore(records[..i], records[i]);
    assert records[..i + 1] == records[..i] + [records[i]];
    Associates(header, Concat(records[..i]), records[i]);
  }

  lemma PackedLeft(version: U32, n: nat, entries: Data, tail: Data)
    ensures ToLe(version, 4) + ToLe(n, 4) + entries + tail == Packed(version, n, entries, tail)
  {
    Associates(ToLe(version, 4) + ToLe(n, 4), entries, tail);
    Associates(ToLe(version, 4), ToLe(n, 4), entries + tail);
  }

  // ---- Round trip ----

  /** What comes back: bucket bitmaps are gone, and version 1 has no clause tree. */
  function ReadBack(e: MetaEntry, v2: bool): MetaEntry {
    e.(original := if v2 then StripAll(e.original) else [])
  }

  function ReadBackAll(es: seq<MetaEntry>, v2: bool): seq<MetaEntry> {
    seq(|es|, i requires 0 <= i < |es| => ReadBack(es[i], v2))
  }

  predicate EntryFits(c: Codec, e: MetaEntry) {
    && |c.packText(e.sortField)| < 0x1_0000 && |c.packKey(e.clauses)| < 0x1_0000_0000
    && |c.packTree(e.original)| < 0x1_0000_0000
  }

  /** Every length fits its field. */
  predicate Fits(c: Codec, m: MetaFile) {
    && |m.entries| < 0x1_0000_0000 && |c.packMap(m.tombstones)| < 0x1_0000_0000
    && forall i :: 0 <= i < |m.entries| ==> EntryFits(c, m.entries[i])
  }

  lemma HeadReads(c: Codec, data: Data, e: MetaEntry)
    requires Sound(c) && EntryFits(c, e)
    ensures ReadsAs(HeadReader(c), data, HeadBytes(c, e), (e.id, (e.sortField, e.direction)))
  {
    var (text, dir) := (c.packText(e.sortField), DirectionByte(e.direction));
    ReadsAsU32(data, e.id);
    ReadsAsShortBlob(data, text);
    ReadsAsByte(data, dir);
    var (names, directions) := (Checked(ShortBlobs(), c.unpackText), Checked(U8s(), ToDirection));
    ReadsAsChecked(ShortBlobs(), c.unpackText, data, ShortBlob(text), text, e.sortField);
    ReadsAsChecked(U8s(), ToDirection, data, [dir], dir, e.direction);
    ReadsAsPair(names, directions, data, ShortBlob(text), e.sortField, [dir], e.direction);
    ReadsAsPair(U32s(), Pair(names, directions), data, ToLe(e.id, 4), e.id, ShortBlob(text) + [dir], (e.sortField, e.direction));
  }

  lemma KeyReads(c: Codec, data: Data, e: MetaEntry)
    requires Sound(c) && EntryFits(c, e)
    ensures ReadsAs(KeyReader(c), data, Blob(c.packKey(e.clauses)), e.clauses)
  {
    ReadsAsBlob(data, c.packKey(e.clauses));
    ReadsAsChecked(Blobs(), c.unpackKey, data, Blob(c.packKey(e.clauses)), c.packKey(e.clauses), e.clauses);
  }

  function NumbersOf(e: MetaEntry): Numbers {
    ([e.capacity, e.maxCapacity, e.minTracked], (e.totalMatched, if e.hasMore then 1 else 0))
  }

  lemma NumbersRead(data: Data, e: MetaEntry)
    ensures ReadsAs(NumberReader(), data, NumberBytes(e), NumbersOf(e))
  {
    var fs: seq<nat> := [e.capacity, e.maxCapacity, e.minTracked];
    var more: U8 := if e.hasMore then 1 else 0;
    ReadsAsFields(data, fs);
    ReadsAsU64(data, e.totalMatched);
    ReadsAsByte(data, more);
    ReadsAsPair(U64s(), U8s(), data, ToLe(e.totalMatched, 8), e.totalMatched, [more], more);
    ReadsAsPair(FieldLists(3), Pair(U64s(), U8s()), data, Fields(fs), fs, ToLe(e.totalMatched, 8) + [more], (e.totalMatched, more));
  }

  lemma TreeReads(c: Codec, data: Data, e: MetaEntry, v2: bool)
    requires Sound(c) && EntryFits(c, e)
    ensures ReadsAs(TreeReader(c, v2), data, TreeBytes(c, e, v2), ReadBack(e, v2).original)
  {
    if v2 {
      ReadsAsBlob(data, c.packTree(e.original));
      ReadsAsChecked(Blobs(), c.unpackTree, data, Blob(c.packTree(e.original)), c.packTree(e.original), StripAll(e.original));
    } else {
      ReadsAsConstant<seq<Clause>>(data, []);
    }
  }

  /** Four readers in a row read four parts in a row. */
  lemma FourRead<A(!new), B(!new), C(!new), D(!new)>(ra: Reader<A>, rb: Reader<B>, rc: Reader<C>, rd: Reader<D>,
      data: Data, a: Data, va: A, b: Data, vb: B, c: Data, vc: C, d: Data, vd: D)
    requires ReadsAs(ra, data, a, va) && ReadsAs(rb, data, b, vb) && ReadsAs(rc, data, c, vc) && ReadsAs(rd, data, d, vd)
    ensures ReadsAs(Pair(ra, Pair(rb, Pair(rc, rd))), data, a + (b + (c + d)), (va, (vb, (vc, vd))))
  {
    ReadsAsPair(rc, rd, data, c, vc, d, vd);
    ReadsAsPair(rb, Pair(rc, rd), data, b, vb, c + d, (vc, vd));
    ReadsAsPair(ra, Pair(rb, Pair(rc, rd)), data, a, va, b + (c + d), (vb, (vc, vd)));
  }

  lemma EntryReads(c: Codec, data: Data, e: MetaEntry, v2: bool)
    requires Sound(c) && EntryFits(c, e)
    ensures ReadsAs(EntryReader(c, v2), data, EntryBytes(c, e, v2), ReadBack(e, v2))
  {
    HeadReads(c, data, e);
    KeyReads(c, data, e);
    NumbersRead(data, e);
    TreeReads(c, data, e, v2);
    var parts: Parts := ((e.id, (e.sortField, e.direction)), (e.clauses, (NumbersOf(e), ReadBack(e, v2).original)));
    FourRead(HeadReader(c), KeyReader(c), NumberReader(), TreeReader(c, v2), data,
             HeadBytes(c, e), parts.0, Blob(c.packKey(e.clauses)), e.clauses, NumberBytes(e), NumbersOf(e),
             TreeBytes(c, e, v2), ReadBack(e, v2).original);
    ReadsAsChecked(PartReader(c, v2), Assembled, data, EntryBytes(c, e, v2), parts, ReadBack(e, v2));
  }

  lemma EachEntryReads(c: Codec, data: Data, es: seq<MetaEntry>, v2: bool)
    requires Sound(c) && forall i :: 0 <= i < |es| ==> EntryFits(c, es[i])
    ensures forall i :: 0 <= i < |es| ==> ReadsAs(EntryReader(c, v2), data, Records(c, es, v2)[i], ReadBackAll(es, v2)[i])
  {
    forall i | 0 <= i < |es| ensures ReadsAs(EntryReader(c, v2), data, Records(c, es, v2)[i], ReadBackAll(es, v2)[i]) {
      EntryReads(c, data, es[i], v2);
    }
  }

  lemma TailReads(c: Codec, data: Data, m: MetaFile)
    requires Sound(c) && Fits(c, m)
    ensures ReadsAs(TailReader(c), data, TailBytes(c, m), (m.tombstones, m.nextId))
  {
    var packed := c.packMap(m.tombstones);
    ReadsAsBlob(data, packed);
    ReadsAsChecked(Blobs(), c.unpackMap, data, Blob(packed), packed, m.tombstones);
    ReadsAsU32(data, m.nextId);
    ReadsAsPair(Checked(Blobs(), c.unpackMap), U32s(), data, Blob(packed), m.tombstones, ToLe(m.nextId, 4), m.nextId);
  }

  lemma {:induction false} BodyReads(entry: Reader<MetaEntry>, tail: Reader<(Bitmap, U32)>, data: Data, version: U32, n: U32,
                  records: seq<Data>, es: seq<MetaEntry>, last: Data, t: (Bitmap, U32))
    requires data == Packed(version, n, Concat(records), last) && n == |records| == |es|
    requires forall i :: 0 <= i < |es| ==> ReadsAs(entry, data, records[i], es[i])
    requires ReadsAs(tail, data, last, t)
    ensures ReadU32(data, 0) == Some((version, 4)) && ReadU32(data, 4) == Some((n, 8))
    ensures ReadBody(entry, tail, data, 8, n) == Some(MetaFile(es, t.0, t.1))
  {
    HeaderReads(data, version, n, Concat(records), last);
    ReadsMany(entry, data, 8, records, es);
  }

  lemma HeaderReads(data: Data, version: U32, n: U32, entries: Data, tail: Data)
    requires data == Packed(version, n, entries, tail)
    ensures ReadU32(data, 0) == Some((version, 4)) && ReadU32(data, 4) == Some((n, 8))
    ensures Has(data, 8, entries) && Has(data, 8 + |entries|, tail)
  {
    HasWhole(data);
    HasSplit(data, 0, ToLe(version, 4), ToLe(n, 4) + (entries + tail));
    HasSplit(data, 4, ToLe(n, 4), entries + tail);
    ReadsU32(data, 0, version);
    ReadsU32(data, 4, n);
    HasSplit(data, 8, entries, tail);
  }

  /** Both versions read back: version 2 with bucket bitmaps stripped, version 1 with an empty tree. */
  lemma MetaRoundTrip(c: Codec, m: MetaFile, v2: bool)
    requires Sound(c) && Fits(c, m)
    ensures ParseMeta(c, MetaBytes(c, m, v2)) == Some(m.(entries := ReadBackAll(m.entries, v2)))
  {
    var data := MetaBytes(c, m, v2);
    EachEntryReads(c, data, m.entries, v2);
    TailReads(c, data, m);
    BodyReads(EntryReader(c, v2), TailReader(c), data, if v2 then 2 else 1, |m.entries|, Records(c, m.entries, v2),
              ReadBackAll(m.entries, v2), TailBytes(c, m), (m.tombstones, m.nextId));
  }
}
