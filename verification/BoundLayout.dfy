/** Where each field of the persisted cache lies: byte positions in shard files and in meta records. */
module BoundLayout {
  import opened Base
  import opened Bytes
  import opened PackFormat
  import opened SortOrder
  import BoundShard
  import BoundMeta

  /** Four bytes as a number, the lowest first. */
  function Number(data: Data, pos: nat): int
    requires pos + 4 <= |data|
  {
    data[pos] as int + 0x100 * data[pos + 1] as int + 0x1_0000 * data[pos + 2] as int + 0x100_0000 * data[pos + 3] as int
  }

  predicate NumberAt(data: Data, pos: nat, n: int) {
    pos + 4 <= |data| && Number(data, pos) == n
  }

  /** An offset into a section and a length, and the part that lies there. */
  ghost predicate PointsTo(data: Data, pos: nat, section: nat, part: Data) {
    exists off: nat :: NumberAt(data, pos, off) && NumberAt(data, pos + 4, |part|) && Has(data, section + off, part)
  }

  lemma NumberIsAt(data: Data, pos: nat, n: U32)
    requires Has(data, pos, ToLe(n, 4))
    ensures NumberAt(data, pos, n)
  {
    HasSlice(data, pos, ToLe(n, 4));
    Reads32(n);
    FourBytes(data[pos..pos + 4]);
  }

  lemma {:induction false} FieldAt(data: Data, pos: nat, fs: seq<nat>, j: nat)
    requires Has(data, pos, Fields(fs)) && j < |fs| && fs[j] < 0x1_0000_0000
    ensures NumberAt(data, pos + 4 * j, fs[j])
    decreases j
  {
    HasSplit(data, pos, ToLe(fs[0], 4), Fields(fs[1..]));
    if j == 0 {
      NumberIsAt(data, pos, fs[0]);
    } else {
      FieldAt(data, pos + 4, fs[1..], j - 1);
    }
  }

  // ---- Shard files ----

  /** The index row at a position and the three parts it points to. */
  ghost predicate RowLies(c: BoundShard.Codec, data: Data, pos: nat, at: BoundShard.Starts, e: BoundShard.ShardEntry, v2: bool) {
    && NumberAt(data, pos, e.id)
    && PointsTo(data, pos + 4, at.keys, c.packKey(e.clauses))
    && PointsTo(data, pos + 12, at.maps, c.packMap(e.bitmap))
    && (v2 ==> PointsTo(data, pos + 20, at.sorted, if e.sortedKeys.Some? then Words(e.sortedKeys.value) else []))
  }

  lemma RecordAt(data: Data, rows: seq<BoundShard.Row>, v2: bool, i: nat)
    requires Has(data, 8, BoundShard.IndexBytes(rows, v2)) && i < |rows|
    ensures Has(data, 8 + Width(v2) * i, Fields(BoundShard.RowFields(rows[i], v2)))
  {
    var records := BoundShard.RowRecords(rows, v2);
    PartAt(data, 8, records, i);
    BoundShard.IndexLength(rows[..i], v2);
    assert records[..i] == BoundShard.RowRecords(rows[..i], v2);
  }

  lemma RowNumbers(data: Data, pos: nat, r: BoundShard.Row, v2: bool)
    requires Has(data, pos, Fields(BoundShard.RowFields(r, v2))) && BoundShard.RowFits(r, v2)
    ensures NumbersOf(data, pos, r, v2)
  {
    var fs := BoundShard.RowFields(r, v2);
    FieldAt(data, pos, fs, 0);
    FieldAt(data, pos, fs, 1);
    FieldAt(data, pos, fs, 2);
    FieldAt(data, pos, fs, 3);
    FieldAt(data, pos, fs, 4);
    if v2 {
      FieldAt(data, pos, fs, 5);
      FieldAt(data, pos, fs, 6);
    }
  }

  /** The offsets and lengths of a row. */
  predicate NumbersOf(data: Data, pos: nat, r: BoundShard.Row, v2: bool) {
    && NumberAt(data, pos, r.id) && NumberAt(data, pos + 4, r.keyOff) && NumberAt(data, pos + 8, r.keyLen)
    && NumberAt(data, pos + 12, r.mapOff) && NumberAt(data, pos + 16, r.mapLen)
    && (v2 ==> NumberAt(data, pos + 20, r.skOff) && NumberAt(data, pos + 24, r.skLen))
  }

  lemma RowPoints(data: Data, pos: nat, at: BoundShard.Starts, r: BoundShard.Row, v2: bool, key: Data, packed: Data, words: Data)
    requires NumbersOf(data, pos, r, v2) && r.keyLen == |key| && r.mapLen == |packed| && r.skLen == |words|
    requires Has(data, at.keys + r.keyOff, key) && Has(data, at.maps + r.mapOff, packed) && Has(data, at.sorted + r.skOff, words)
    ensures PointsTo(data, pos + 4, at.keys, key) && PointsTo(data, pos + 12, at.maps, packed)
    ensures v2 ==> PointsTo(data, pos + 20, at.sorted, words)
  {
    assert NumberAt(data, pos + 4, r.keyOff) && NumberAt(data, pos + 12, r.mapOff) && (v2 ==> NumberAt(data, pos + 20, r.skOff));
  }

  /** The parts of one entry, whichever row they have. */
  ghost predicate PartsOfEntry(c: BoundShard.Codec, e: BoundShard.ShardEntry, v2: bool, key: Data, packed: Data, words: Data) {
    && key == c.packKey(e.clauses) && packed == c.packMap(e.bitmap)
    && (v2 ==> words == if e.sortedKeys.Some? then Words(e.sortedKeys.value) else [])
  }

  lemma RowIsAt(c: BoundShard.Codec, data: Data, pos: nat, at: BoundShard.Starts, e: BoundShard.ShardEntry, r: BoundShard.Row, v2: bool,
                key: Data, packed: Data, words: Data)
    requires NumbersOf(data, pos, r, v2) && PartsOfEntry(c, e, v2, key, packed, words) && r.id == e.id
    requires PointsTo(data, pos + 4, at.keys, key) && PointsTo(data, pos + 12, at.maps, packed)
    requires v2 ==> PointsTo(data, pos + 20, at.sorted, words)
    ensures RowLies(c, data, pos, at, e, v2)
  {
  }

  lemma PartsLie(c: BoundShard.Codec, data: Data, at: BoundShard.Starts, entries: seq<BoundShard.ShardEntry>, v2: bool,
                 ids: seq<U32>, keys: seq<Data>, maps: seq<Data>, sorted: seq<Data>, i: nat, r: BoundShard.Row, pos: nat)
    requires BoundShard.PartsOf(c, entries, v2, ids, keys, maps, sorted) && i < |entries|
    requires BoundShard.Laid(data, at, Concat(keys), Concat(maps), Concat(sorted))
    requires r == BoundShard.RowOf(ids, keys, maps, sorted, i) && NumbersOf(data, pos, r, v2)
    ensures RowLies(c, data, pos, at, entries[i], v2)
  {
    BoundShard.PartsAt(data, at, ids, keys, maps, sorted, i, r);
    RowPoints(data, pos, at, r, v2, keys[i], maps[i], sorted[i]);
    RowIsAt(c, data, pos, at, entries[i], r, v2, keys[i], maps[i], sorted[i]);
  }

  function Width(v2: bool): nat {
    if v2 then 28 else 20
  }

  lemma IndexEnds(rows: seq<BoundShard.Row>, v2: bool)
    ensures |BoundShard.IndexBytes(rows, v2)| == Width(v2) * |rows|
  {
    BoundShard.IndexLength(rows, v2);
  }

  /** A version and a count open either file. */
  predicate HeaderLies(data: Data, version: U32, n: int) {
    NumberAt(data, 0, version) && NumberAt(data, 4, n)
  }

  lemma HeaderIsAt(data: Data, version: U32, n: U32)
    requires ReadU32(data, 0) == Some((version, 4)) && ReadU32(data, 4) == Some((n, 8))
    ensures HeaderLies(data, version, n)
  {
    FourBytes(data[0..4]);
    FourBytes(data[4..8]);
  }

  lemma SectionsLaid(data: Data, version: U32, n: U32, index: Data, keys: Data, maps: Data, sorted: Data, at: BoundShard.Starts)
    requires data == BoundShard.Packed(version, n, index, keys, maps, sorted) && at == BoundShard.StartsAfter(8 + |index|, keys, maps)
    ensures HeaderLies(data, version, n) && Has(data, 8, index) && BoundShard.Laid(data, at, keys, maps, sorted)
  {
    BoundShard.PackedAt(data, version, n, index, keys, maps, sorted);
    HeaderIsAt(data, version, n);
  }

  lemma RowAt(data: Data, rows: seq<BoundShard.Row>, v2: bool, i: nat)
    requires Has(data, 8, BoundShard.IndexBytes(rows, v2)) && i < |rows| && BoundShard.RowFits(rows[i], v2)
    ensures NumbersOf(data, 8 + Width(v2) * i, rows[i], v2)
  {
    RecordAt(data, rows, v2, i);
    RowNumbers(data, 8 + Width(v2) * i, rows[i], v2);
  }

  lemma RowsLaid(data: Data, version: U32, v2: bool, keys: seq<Data>, maps: seq<Data>, sorted: seq<Data>,
                 rows: seq<BoundShard.Row>, n: U32, at: BoundShard.Starts, i: nat, pos: nat)
    requires i < n == |rows| && BoundShard.RowFits(rows[i], v2) && pos == 8 + Width(v2) * i
    requires at == BoundShard.StartsAfter(8 + Width(v2) * n, Concat(keys), Concat(maps))
    requires data == BoundShard.Packed(version, n, BoundShard.IndexBytes(rows, v2), Concat(keys), Concat(maps), Concat(sorted))
    ensures HeaderLies(data, version, n) && NumbersOf(data, pos, rows[i], v2)
    ensures BoundShard.Laid(data, at, Concat(keys), Concat(maps), Concat(sorted))
  {
    IndexEnds(rows, v2);
    SectionsLaid(data, version, n, BoundShard.IndexBytes(rows, v2), Concat(keys), Concat(maps), Concat(sorted), at);
    RowAt(data, rows, v2, i);
  }

  /** Everything `ShardLayout` needs, with the parts of the file named. */
  ghost predicate Named(c: BoundShard.Codec, entries: seq<BoundShard.ShardEntry>, v2: bool, data: Data,
                        ids: seq<U32>, keys: seq<Data>, maps: seq<Data>, sorted: seq<Data>, rows: seq<BoundShard.Row>) {
    && BoundShard.PartsOf(c, entries, v2, ids, keys, maps, sorted) && rows == BoundShard.Rows(ids, keys, maps, sorted)
    && data == BoundShard.Packed(if v2 then 2 else 1, |entries|, BoundShard.IndexBytes(rows, v2), Concat(keys), Concat(maps), Concat(sorted))
  }

  lemma HeaderLaid(c: BoundShard.Codec, entries: seq<BoundShard.ShardEntry>, v2: bool, data: Data, ids: seq<U32>, keys: seq<Data>,
                   maps: seq<Data>, sorted: seq<Data>, rows: seq<BoundShard.Row>, at: BoundShard.Starts, i: nat, pos: nat)
    requires Named(c, entries, v2, data, ids, keys, maps, sorted, rows) && i < |entries| < 0x1_0000_0000
    requires BoundShard.RowFits(rows[i], v2) && pos == 8 + Width(v2) * i
    requires at == BoundShard.StartsAfter(8 + Width(v2) * |entries|, Concat(keys), Concat(maps))
    ensures HeaderLies(data, if v2 then 2 else 1, |entries|) && NumbersOf(data, pos, rows[i], v2)
    ensures BoundShard.Laid(data, at, Concat(keys), Concat(maps), Concat(sorted))
  {
    RowsLaid(data, if v2 then 2 else 1, v2, keys, maps, sorted, rows, |entries|, at, i, pos);
  }

  lemma EntryLaid(c: BoundShard.Codec, entries: seq<BoundShard.ShardEntry>, v2: bool, data: Data, ids: seq<U32>, keys: seq<Data>,
                  maps: seq<Data>, sorted: seq<Data>, rows: seq<BoundShard.Row>, at: BoundShard.Starts, i: nat, pos: nat)
    requires BoundShard.PartsOf(c, entries, v2, ids, keys, maps, sorted) && rows == BoundShard.Rows(ids, keys, maps, sorted)
    requires i < |entries| && NumbersOf(data, pos, rows[i], v2) && BoundShard.Laid(data, at, Concat(keys), Concat(maps), Concat(sorted))
    ensures RowLies(c, data, pos, at, entries[i], v2)
  {
    PartsLie(c, data, at, entries, v2, ids, keys, maps, sorted, i, rows[i], pos);
  }

  lemma ShardNamed(c: BoundShard.Codec, entries: seq<BoundShard.ShardEntry>, v2: bool, i: nat)
    requires BoundShard.Fits(c, entries) && i < |entries|
    ensures var (ids, keys, maps) := (BoundShard.Ids(entries), BoundShard.KeyParts(c, entries), BoundShard.MapParts(c, entries));
            var sorted := BoundShard.SortedParts(entries, v2);
            var rows := BoundShard.Rows(ids, keys, maps, sorted);
            Named(c, entries, v2, BoundShard.ShardBytes(c, entries, v2), ids, keys, maps, sorted, rows) && BoundShard.RowFits(rows[i], v2)
  {
    BoundShard.NothingSorted(entries);
    BoundShard.RowsFit(BoundShard.Ids(entries), BoundShard.KeyParts(c, entries), BoundShard.MapParts(c, entries),
                       BoundShard.SortedParts(entries, v2), i, v2);
  }

  /** Version and count first, then rows of 28 bytes (20 in version 1), then all keys, all bitmaps and all
      sorted keys; each row points to the parts of its entry. */
  lemma ShardLayout(c: BoundShard.Codec, entries: seq<BoundShard.ShardEntry>, v2: bool, data: Data, at: BoundShard.Starts, i: nat, pos: nat)
    requires BoundShard.Fits(c, entries) && i < |entries| && data == BoundShard.ShardBytes(c, entries, v2) && pos == 8 + Width(v2) * i
    requires at.keys == 8 + Width(v2) * |entries| && at.maps == at.keys + |Concat(BoundShard.KeyParts(c, entries))|
    requires at.sorted == at.maps + |Concat(BoundShard.MapParts(c, entries))|
    ensures HeaderLies(data, if v2 then 2 else 1, |entries|) && RowLies(c, data, pos, at, entries[i], v2)
  {
    ShardNamed(c, entries, v2, i);
    var (ids, keys, maps) := (BoundShard.Ids(entries), BoundShard.KeyParts(c, entries), BoundShard.MapParts(c, entries));
    var sorted := BoundShard.SortedParts(entries, v2);
    var rows := BoundShard.Rows(ids, keys, maps, sorted);
    HeaderLaid(c, entries, v2, data, ids, keys, maps, sorted, rows, at, i, pos);
    EntryLaid(c, entries, v2, data, ids, keys, maps, sorted, rows, at, i, pos);
  }

  // ---- Meta files ----

  /** A 32-bit length and the bytes behind it. */
  ghost predicate BlobAt(data: Data, pos: nat, b: Data) {
    NumberAt(data, pos, |b|) && Has(data, pos + 4, b)
  }

  lemma BlobIsAt(data: Data, pos: nat, b: Data)
    requires Has(data, pos, Blob(b)) && |b| < 0x1_0000_0000
    ensures BlobAt(data, pos, b)
  {
    HasSplit(data, pos, ToLe(|b|, 4), b);
    NumberIsAt(data, pos, |b|);
  }

  /** Id, sort field and direction. */
  ghost predicate HeadLies(c: BoundMeta.Codec, data: Data, pos: nat, e: BoundMeta.MetaEntry) {
    var field := c.packText(e.sortField);
    && NumberAt(data, pos, e.id)
    && pos + 6 <= |data| && data[pos + 4] as int + 0x100 * data[pos + 5] as int == |field|
    && Has(data, pos + 6, field) && Has(data, pos + 6 + |field|, [if e.direction == Asc then 1 else 0])
  }

  /** Capacities, the tracked minimum, the total and the flag. */
  ghost predicate NumbersLie(data: Data, pos: nat, e: BoundMeta.MetaEntry) {
    && NumberAt(data, pos, e.capacity) && NumberAt(data, pos + 4, e.maxCapacity) && NumberAt(data, pos + 8, e.minTracked)
    && pos + 20 <= |data| && Number(data, pos + 12) + 0x1_0000_0000 * Number(data, pos + 16) == e.totalMatched
    && Has(data, pos + 20, [if e.hasMore then 1 else 0])
  }

  /** A whole record: head, clauses, numbers and, from version 2 on, the clause tree. */
  ghost predicate RecordLies(c: BoundMeta.Codec, data: Data, pos: nat, e: BoundMeta.MetaEntry, v2: bool) {
    var (field, key) := (|c.packText(e.sortField)|, c.packKey(e.clauses));
    && HeadLies(c, data, pos, e) && BlobAt(data, pos + 7 + field, key)
    && NumbersLie(data, pos + 11 + field + |key|, e)
    && (v2 ==> BlobAt(data, pos + 32 + field + |key|, c.packTree(e.original)))
  }

  lemma TwoBytes(n: nat)
    requires n < 0x1_0000
    ensures var b := ToLe(n, 2); b[0] as int + 0x100 * b[1] as int == n
  {
    assert ToLe(n, 2) == [n % 256] + ToLe(n / 256, 1);
    assert ToLe(n / 256, 1) == [n / 256 % 256] + ToLe(n / 256 / 256, 0);
  }

  lemma HeadIsAt(c: BoundMeta.Codec, data: Data, pos: nat, e: BoundMeta.MetaEntry)
    requires Has(data, pos, BoundMeta.HeadBytes(c, e)) && BoundMeta.EntryFits(c, e)
    ensures HeadLies(c, data, pos, e)
  {
    var (field, d) := (c.packText(e.sortField), [BoundMeta.DirectionByte(e.direction)]);
    HasSplit(data, pos, ToLe(e.id, 4), ShortBlob(field) + d);
    NumberIsAt(data, pos, e.id);
    HasSplit(data, pos + 4, ShortBlob(field), d);
    HasSplit(data, pos + 4, ToLe(|field|, 2), field);
    LengthAt(data, pos + 4, |field|);
  }

  lemma LengthAt(data: Data, pos: nat, n: nat)
    requires Has(data, pos, ToLe(n, 2)) && n < 0x1_0000
    ensures pos + 2 <= |data| && data[pos] as int + 0x100 * data[pos + 1] as int == n
  {
    HasSlice(data, pos, ToLe(n, 2));
    TwoBytes(n);
    assert data[pos] == data[pos..pos + 2][0] && data[pos + 1] == data[pos..pos + 2][1];
  }

  lemma LongIsAt(data: Data, pos: nat, n: U64)
    requires Has(data, pos, ToLe(n, 8))
    ensures pos + 8 <= |data| && Number(data, pos) + 0x1_0000_0000 * Number(data, pos + 4) == n
  {
    HasSlice(data, pos, ToLe(n, 8));
    Reads64(n);
    var b := data[pos..pos + 8];
    EightBytes(b);
    FourBytes(b[..4]);
    FourBytes(b[4..]);
  }

  lemma NumbersAreAt(data: Data, pos: nat, e: BoundMeta.MetaEntry)
    requires Has(data, pos, BoundMeta.NumberBytes(e))
    ensures NumbersLie(data, pos, e)
  {
    var (fs, flag) := ([e.capacity, e.maxCapacity, e.minTracked], [if e.hasMore then 1 else 0]);
    HasSplit(data, pos, Fields(fs), ToLe(e.totalMatched, 8) + flag);
    FieldAt(data, pos, fs, 0);
    FieldAt(data, pos, fs, 1);
    FieldAt(data, pos, fs, 2);
    HasSplit(data, pos + 12, ToLe(e.totalMatched, 8), flag);
    LongIsAt(data, pos + 12, e.totalMatched);
  }

  lemma PiecesAt(data: Data, pos: nat, head: Data, key: Data, numbers: Data, tree: Data)
    requires Has(data, pos, head + (key + (numbers + tree)))
    ensures Has(data, pos, head) && Has(data, pos + |head|, key) && Has(data, pos + |head| + |key|, numbers)
    ensures Has(data, pos + |head| + |key| + |numbers|, tree)
  {
    HasSplit(data, pos, head, key + (numbers + tree));
    HasSplit(data, pos + |head|, key, numbers + tree);
    HasSplit(data, pos + |head| + |key|, numbers, tree);
  }

  lemma PieceLengths(c: BoundMeta.Codec, e: BoundMeta.MetaEntry)
    ensures |BoundMeta.HeadBytes(c, e)| == 7 + |c.packText(e.sortField)| && |BoundMeta.NumberBytes(e)| == 21
    ensures |Blob(c.packKey(e.clauses))| == 4 + |c.packKey(e.clauses)|
  {
  }

  lemma RecordIsAt(c: BoundMeta.Codec, data: Data, pos: nat, e: BoundMeta.MetaEntry, v2: bool)
    requires Has(data, pos, BoundMeta.EntryBytes(c, e, v2)) && BoundMeta.EntryFits(c, e)
    ensures RecordLies(c, data, pos, e, v2)
  {
    var (head, key) := (BoundMeta.HeadBytes(c, e), Blob(c.packKey(e.clauses)));
    var (numbers, tree) := (BoundMeta.NumberBytes(e), BoundMeta.TreeBytes(c, e, v2));
    PiecesAt(data, pos, head, key, numbers, tree);
    HeadIsAt(c, data, pos, e);
    BlobIsAt(data, pos + |head|, c.packKey(e.clauses));
    NumbersAreAt(data, pos + |head| + |key|, e);
    PieceLengths(c, e);
    if v2 {
      BlobIsAt(data, pos + |head| + |key| + |numbers|, c.packTree(e.original));
    }
  }

  /** The tombstones and the next id end the file. */
  ghost predicate TailLies(c: BoundMeta.Codec, data: Data, pos: nat, m: BoundMeta.MetaFile) {
    var dead := c.packMap(m.tombstones);
    BlobAt(data, pos, dead) && NumberAt(data, pos + 4 + |dead|, m.nextId)
  }

  lemma TailIsAt(c: BoundMeta.Codec, data: Data, pos: nat, m: BoundMeta.MetaFile)
    requires Has(data, pos, BoundMeta.TailBytes(c, m)) && |c.packMap(m.tombstones)| < 0x1_0000_0000
    ensures TailLies(c, data, pos, m)
  {
    var dead := c.packMap(m.tombstones);
    HasSplit(data, pos, Blob(dead), ToLe(m.nextId, 4));
    BlobIsAt(data, pos, dead);
    NumberIsAt(data, pos + 4 + |dead|, m.nextId);
  }

  lemma FileParts(data: Data, version: U32, n: U32, records: seq<Data>, tail: Data, i: nat, pos: nat, end: nat)
    requires data == BoundMeta.Packed(version, n, Concat(records), tail) && i < |records|
    requires pos == 8 + Offset(records, i) && end == 8 + Offset(records, |records|)
    ensures HeaderLies(data, version, n) && Has(data, pos, records[i]) && Has(data, end, tail)
  {
    BoundMeta.HeaderReads(data, version, n, Concat(records), tail);
    HeaderIsAt(data, version, n);
    PartAt(data, 8, records, i);
    assert records[..|records|] == records;
  }

  lemma FileLies(c: BoundMeta.Codec, data: Data, m: BoundMeta.MetaFile, e: BoundMeta.MetaEntry, v2: bool, pos: nat, end: nat)
    requires Has(data, pos, BoundMeta.EntryBytes(c, e, v2)) && BoundMeta.EntryFits(c, e)
    requires Has(data, end, BoundMeta.TailBytes(c, m)) && |c.packMap(m.tombstones)| < 0x1_0000_0000
    ensures RecordLies(c, data, pos, e, v2) && TailLies(c, data, end, m)
  {
    RecordIsAt(c, data, pos, e, v2);
    TailIsAt(c, data, end, m);
  }

  /** Version and count first, then the records one after the other, then the tombstones and the next id. */
  lemma MetaLayout(c: BoundMeta.Codec, m: BoundMeta.MetaFile, v2: bool, data: Data, records: seq<Data>, i: nat, pos: nat, end: nat)
    requires BoundMeta.Fits(c, m) && data == BoundMeta.MetaBytes(c, m, v2) && i < |m.entries| && records == BoundMeta.Records(c, m.entries, v2)
    requires pos == 8 + Offset(records, i) && end == 8 + Offset(records, |records|)
    ensures HeaderLies(data, if v2 then 2 else 1, |m.entries|)
    ensures RecordLies(c, data, pos, m.entries[i], v2) && TailLies(c, data, end, m)
  {
    FileParts(data, if v2 then 2 else 1, |m.entries|, records, BoundMeta.TailBytes(c, m), i, pos, end);
    FileLies(c, data, m, m.entries[i], v2, pos, end);
  }
}
