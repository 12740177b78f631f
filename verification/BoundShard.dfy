/** Shard files of the persisted cache: an index of offsets and three data sections. */
module BoundShard {
  import opened Base
  import opened Bytes
  import opened PackFormat
  import CacheKey

  datatype ShardEntry = ShardEntry(id: U32, clauses: CacheKey.Key, bitmap: Bitmap, sortedKeys: Option<seq<U64>>)

  /** The msgpack and roaring encodings, which the format only calls. */
  datatype Codec = Codec(packKey: CacheKey.Key -> Data, unpackKey: Data -> Option<CacheKey.Key>,
                         packMap: Bitmap -> Data, unpackMap: Data -> Option<Bitmap>)

  ghost predicate Sound(c: Codec) {
    && (forall k :: c.unpackKey(c.packKey(k)) == Some(k))
    && (forall b :: c.unpackMap(c.packMap(b)) == Some(b))
  }

  /** Where the three parts of an entry lie in their sections. */
  datatype Row = Row(id: U32, keyOff: nat, keyLen: nat, mapOff: nat, mapLen: nat, skOff: nat, skLen: nat)

  // ---- Writing ----

  function SortedKeyBytes(e: ShardEntry): Data {
    if e.sortedKeys.Some? then Words(e.sortedKeys.value) else []
  }

  function KeyParts(c: Codec, entries: seq<ShardEntry>): seq<Data> {
    seq(|entries|, i requires 0 <= i < |entries| => c.packKey(entries[i].clauses))
  }

  function MapParts(c: Codec, entries: seq<ShardEntry>): seq<Data> {
    seq(|entries|, i requires 0 <= i < |entries| => c.packMap(entries[i].bitmap))
  }

  function SortedParts(entries: seq<ShardEntry>, v2: bool): seq<Data> {
    seq(|entries|, i requires 0 <= i < |entries| => if v2 then SortedKeyBytes(entries[i]) else [])
  }

  /** The row of entry `i`: its parts follow the parts of the entries before it. */
  function RowOf(ids: seq<U32>, keys: seq<Data>, maps: seq<Data>, sorted: seq<Data>, i: nat): Row
    requires i < |ids| == |keys| == |maps| == |sorted|
  {
    Row(ids[i], Offset(keys, i), |keys[i]|, Offset(maps, i), |maps[i]|, Offset(sorted, i), |sorted[i]|)
  }

  function Ids(entries: seq<ShardEntry>): seq<U32> {
    seq(|entries|, i requires 0 <= i < |entries| => entries[i].id)
  }

  function Rows(ids: seq<U32>, keys: seq<Data>, maps: seq<Data>, sorted: seq<Data>): seq<Row>
    requires |ids| == |keys| == |maps| == |sorted|
  {
    seq(|ids|, i requires 0 <= i < |ids| => RowOf(ids, keys, maps, sorted, i))
  }

  /** Version 2 adds the two sorted-key fields. */
  function RowFields(r: Row, v2: bool): seq<nat> {
    [r.id, r.keyOff, r.keyLen, r.mapOff, r.mapLen] + if v2 then [r.skOff, r.skLen] else []
  }

  function FieldsRow(fs: seq<nat>, v2: bool): Option<Row> {
    if |fs| != (if v2 then 7 else 5) || fs[0] >= 0x1_0000_0000 then None
    else if v2 then Some(Row(fs[0], fs[1], fs[2], fs[3], fs[4], fs[5], fs[6]))
    else Some(Row(fs[0], fs[1], fs[2], fs[3], fs[4], 0, 0))
  }

  function RowRecords(rows: seq<Row>, v2: bool): seq<Data> {
    seq(|rows|, i requires 0 <= i < |rows| => Fields(RowFields(rows[i], v2)))
  }

  function IndexBytes(rows: seq<Row>, v2: bool): Data {
    Concat(RowRecords(rows, v2))
  }

  function Packed(version: U32, n: nat, index: Data, keys: Data, maps: Data, sorted: Data): Data {
    ToLe(version, 4) + (ToLe(n, 4) + (index + (keys + (maps + sorted))))
  }

  function ShardBytes(c: Codec, entries: seq<ShardEntry>, v2: bool): Data {
    var (keys, maps, sorted) := (KeyParts(c, entries), MapParts(c, entries), SortedParts(entries, v2));
    Packed(if v2 then 2 else 1, |entries|, IndexBytes(Rows(Ids(entries), keys, maps, sorted), v2),
           Concat(keys), Concat(maps), Concat(sorted))
  }

  // ---- Reading ----

  /** The reader of one index row. */
  function RowReader(v2: bool): Reader<Row> {
    Checked(FieldLists(if v2 then 7 else 5), fs => FieldsRow(fs, v2))
  }

  function IndexSize(n: nat, v2: bool): nat {
    if v2 then 28 * n else 20 * n
  }

  function KeyBytes(rows: seq<Row>): nat {
    if rows == [] then 0 else rows[0].keyLen + KeyBytes(rows[1..])
  }

  function MapBytes(rows: seq<Row>): nat {
    if rows == [] then 0 else rows[0].mapLen + MapBytes(rows[1..])
  }

  /** Where the sections start. */
  datatype Starts = Starts(keys: nat, maps: nat, sorted: nat)

  function SectionStarts(rows: seq<Row>, pos: nat): Starts {
    Starts(pos, pos + KeyBytes(rows), pos + KeyBytes(rows) + MapBytes(rows))
  }

  function ReadSortedKeys(data: Data, at: Starts, r: Row): Option<Option<seq<U64>>> {
    if r.skLen == 0 then Some(None)
    else
      var words :- ReadSlice(data, at.sorted + r.skOff, r.skLen);
      if |words.0| % 8 != 0 then None else Some(Some(WordsOf(words.0)))
  }

  function ReadEntry(c: Codec, data: Data, at: Starts, r: Row): Option<ShardEntry> {
    var key :- ReadSlice(data, at.keys + r.keyOff, r.keyLen);
    var clauses :- c.unpackKey(key.0);
    var packed :- ReadSlice(data, at.maps + r.mapOff, r.mapLen);
    var bitmap :- c.unpackMap(packed.0);
    var sortedKeys :- ReadSortedKeys(data, at, r);
    Some(ShardEntry(r.id, clauses, bitmap, sortedKeys))
  }

  function ReadEntries(c: Codec, data: Data, at: Starts, rows: seq<Row>): Option<seq<ShardEntry>> {
    if rows == [] then Some([])
    else
      var e :- ReadEntry(c, data, at, rows[0]);
      var rest :- ReadEntries(c, data, at, rows[1..]);
      Some([e] + rest)
  }

  function ParseShard(c: Codec, data: Data): Option<seq<ShardEntry>> {
    var version :- ReadU32(data, 0);
    if version.0 != 1 && version.0 != 2 then None
    else
      var v2 := version.0 >= 2;
      var n :- ReadU32(data, version.1);
      if n.1 + IndexSize(n.0, v2) > |data| then None
      else
        var rows :- ReadMany(RowReader(v2), data, n.1, n.0);
        ReadEntries(c, data, SectionStarts(rows.0, rows.1), rows.0)
  }

  // ---- The index reads back ----

  predicate RowFits(r: Row, v2: bool) {
    && r.keyOff < 0x1_0000_0000 && r.keyLen < 0x1_0000_0000
    && r.mapOff < 0x1_0000_0000 && r.mapLen < 0x1_0000_0000 && r.skOff < 0x1_0000_0000 && r.skLen < 0x1_0000_0000
    && (!v2 ==> r.skOff == r.skLen == 0)
  }

  lemma ReadsRow(data: Data, r: Row, v2: bool)
    requires RowFits(r, v2)
    ensures ReadsAs(RowReader(v2), data, Fields(RowFields(r, v2)), r)
  {
    var fs := RowFields(r, v2);
    ReadsAsFields(data, fs);
    ReadsAsChecked(FieldLists(|fs|), fs => FieldsRow(fs, v2), data, Fields(fs), fs, r);
  }

  lemma EachRowReads(data: Data, rows: seq<Row>, v2: bool)
    requires forall i :: 0 <= i < |rows| ==> RowFits(rows[i], v2)
    ensures forall i :: 0 <= i < |rows| ==> ReadsAs(RowReader(v2), data, RowRecords(rows, v2)[i], rows[i])
  {
    forall i | 0 <= i < |rows| ensures ReadsAs(RowReader(v2), data, RowRecords(rows, v2)[i], rows[i]) {
      ReadsRow(data, rows[i], v2);
    }
  }

  lemma {:induction false} IndexLength(rows: seq<Row>, v2: bool)
    ensures |IndexBytes(rows, v2)| == IndexSize(|rows|, v2)
  {
    if rows != [] {
      IndexLength(rows[1..], v2);
      assert RowRecords(rows, v2)[1..] == RowRecords(rows[1..], v2);
    }
  }

  lemma {:induction false} KeyBytesSum(rows: seq<Row>, parts: seq<Data>)
    requires |rows| == |parts| && forall i :: 0 <= i < |rows| ==> rows[i].keyLen == |parts[i]|
    ensures KeyBytes(rows) == |Concat(parts)|
  {
    if rows != [] {
      KeyBytesSum(rows[1..], parts[1..]);
    }
  }

  lemma {:induction false} MapBytesSum(rows: seq<Row>, parts: seq<Data>)
    requires |rows| == |parts| && forall i :: 0 <= i < |rows| ==> rows[i].mapLen == |parts[i]|
    ensures MapBytes(rows) == |Concat(parts)|
  {
    if rows != [] {
      MapBytesSum(rows[1..], parts[1..]);
    }
  }

  // ---- Entries read back ----

  /** What comes back: an empty list of sorted keys is not told from none, and version 1 has none. */
  function ReadBack(e: ShardEntry, v2: bool): ShardEntry {
    if v2 && e.sortedKeys != Some([]) then e else e.(sortedKeys := None)
  }

  function ReadBackAll(entries: seq<ShardEntry>, v2: bool): seq<ShardEntry> {
    seq(|entries|, i requires 0 <= i < |entries| => ReadBack(entries[i], v2))
  }

  lemma ReadsSortedKeys(data: Data, at: Starts, e: ShardEntry, r: Row)
    requires r.skLen == |SortedKeyBytes(e)| && Has(data, at.sorted + r.skOff, SortedKeyBytes(e))
    ensures ReadSortedKeys(data, at, r) == Some(ReadBack(e, true).sortedKeys)
  {
    ReadsSlice(data, at.sorted + r.skOff, SortedKeyBytes(e));
    if e.sortedKeys.Some? {
      ReadsWords(e.sortedKeys.value);
    }
  }

  lemma ReadsEntry(c: Codec, data: Data, at: Starts, e: ShardEntry, r: Row, v2: bool)
    requires Sound(c) && r.id == e.id
    requires r.keyLen == |c.packKey(e.clauses)| && Has(data, at.keys + r.keyOff, c.packKey(e.clauses))
    requires r.mapLen == |c.packMap(e.bitmap)| && Has(data, at.maps + r.mapOff, c.packMap(e.bitmap))
    requires if v2 then r.skLen == |SortedKeyBytes(e)| && Has(data, at.sorted + r.skOff, SortedKeyBytes(e)) else r.skLen == 0
    ensures ReadEntry(c, data, at, r) == Some(ReadBack(e, v2))
  {
    ReadsSlice(data, at.keys + r.keyOff, c.packKey(e.clauses));
    ReadsSlice(data, at.maps + r.mapOff, c.packMap(e.bitmap));
    if v2 {
      ReadsSortedKeys(data, at, e, r);
    }
  }

  lemma {:induction false} ReadsEntries(c: Codec, data: Data, at: Starts, rows: seq<Row>, entries: seq<ShardEntry>)
    requires |rows| == |entries| && forall i :: 0 <= i < |rows| ==> ReadEntry(c, data, at, rows[i]) == Some(entries[i])
    ensures ReadEntries(c, data, at, rows) == Some(entries)
    decreases |rows|
  {
    if rows != [] {
      ReadsEntries(c, data, at, rows[1..], entries[1..]);
      assert entries == [entries[0]] + entries[1..];
    }
  }

  lemma HeaderAt(data: Data, version: U32, n: U32, rest: Data)
    requires data == ToLe(version, 4) + (ToLe(n, 4) + rest)
    ensures ReadU32(data, 0) == Some((version, 4)) && ReadU32(data, 4) == Some((n, 8)) && Has(data, 8, rest)
  {
    HasWhole(data);
    HasSplit(data, 0, ToLe(version, 4), ToLe(n, 4) + rest);
    HasSplit(data, 4, ToLe(n, 4), rest);
    ReadsU32(data, 0, version);
    ReadsU32(data, 4, n);
  }

  /** The three sections lie where the index says. */
  ghost predicate Laid(data: Data, at: Starts, keys: Data, maps: Data, sorted: Data) {
    Has(data, at.keys, keys) && Has(data, at.maps, maps) && Has(data, at.sorted, sorted)
  }

  function StartsAfter(end: nat, keys: Data, maps: Data): Starts {
    Starts(end, end + |keys|, end + |keys| + |maps|)
  }

  /** The index and the three sections lie one after the other. */
  lemma SectionsAt(data: Data, pos: nat, index: Data, keys: Data, maps: Data, sorted: Data)
    requires Has(data, pos, index + (keys + (maps + sorted)))
    ensures Has(data, pos, index) && Laid(data, StartsAfter(pos + |index|, keys, maps), keys, maps, sorted)
  {
    HasSplit(data, pos, index, keys + (maps + sorted));
    HasSplit(data, pos + |index|, keys, maps + sorted);
    HasSplit(data, pos + |index| + |keys|, maps, sorted);
  }

  /** Every length and offset fits its 32-bit field. */
  predicate Fits(c: Codec, entries: seq<ShardEntry>) {
    && |entries| < 0x1_0000_0000 && |Concat(KeyParts(c, entries))| < 0x1_0000_0000
    && |Concat(MapParts(c, entries))| < 0x1_0000_0000 && |Concat(SortedParts(entries, true))| < 0x1_0000_0000
  }

  lemma {:induction false} RowsFit(ids: seq<U32>, keys: seq<Data>, maps: seq<Data>, sorted: seq<Data>, i: nat, v2: bool)
    requires i < |ids| == |keys| == |maps| == |sorted|
    requires |Concat(keys)| < 0x1_0000_0000 && |Concat(maps)| < 0x1_0000_0000 && |Concat(sorted)| < 0x1_0000_0000
    requires !v2 ==> |Concat(sorted)| == 0
    ensures RowFits(RowOf(ids, keys, maps, sorted, i), v2)
  {
    OffsetNext(keys, i);
    OffsetNext(maps, i);
    OffsetNext(sorted, i);
  }

  lemma {:induction false} NothingSorted(entries: seq<ShardEntry>)
    ensures |Concat(SortedParts(entries, false))| == 0
  {
    if entries != [] {
      NothingSorted(entries[1..]);
      assert SortedParts(entries, false)[1..] == SortedParts(entries[1..], false);
    }
  }

  lemma PartsAt(data: Data, at: Starts, ids: seq<U32>, keys: seq<Data>, maps: seq<Data>, sorted: seq<Data>, i: nat, r: Row)
    requires i < |ids| == |keys| == |maps| == |sorted| && Laid(data, at, Concat(keys), Concat(maps), Concat(sorted))
    requires r == RowOf(ids, keys, maps, sorted, i)
    ensures Has(data, at.keys + r.keyOff, keys[i]) && Has(data, at.maps + r.mapOff, maps[i]) && Has(data, at.sorted + r.skOff, sorted[i])
  {
    PartAt(data, at.keys, keys, i);
    PartAt(data, at.maps, maps, i);
    PartAt(data, at.sorted, sorted, i);
  }

  /** The parts an entry was written as. */
  ghost predicate PartsOf(c: Codec, entries: seq<ShardEntry>, v2: bool, ids: seq<U32>, keys: seq<Data>, maps: seq<Data>, sorted: seq<Data>) {
    && |entries| == |ids| == |keys| == |maps| == |sorted|
    && forall i :: 0 <= i < |entries| ==>
         && ids[i] == entries[i].id && keys[i] == c.packKey(entries[i].clauses) && maps[i] == c.packMap(entries[i].bitmap)
         && sorted[i] == if v2 then SortedKeyBytes(entries[i]) else []
  }

  lemma EntryAt(c: Codec, data: Data, at: Starts, e: ShardEntry, r: Row, v2: bool, key: Data, packed: Data, words: Data)
    requires Sound(c) && r.id == e.id && r.keyLen == |key| && r.mapLen == |packed| && r.skLen == |words|
    requires key == c.packKey(e.clauses) && packed == c.packMap(e.bitmap) && words == if v2 then SortedKeyBytes(e) else []
    requires Has(data, at.keys + r.keyOff, key) && Has(data, at.maps + r.mapOff, packed) && Has(data, at.sorted + r.skOff, words)
    ensures ReadEntry(c, data, at, r) == Some(ReadBack(e, v2))
  {
    ReadsEntry(c, data, at, e, r, v2);
  }

  lemma OneEntryAt(c: Codec, data: Data, at: Starts, entries: seq<ShardEntry>, v2: bool,
                   ids: seq<U32>, keys: seq<Data>, maps: seq<Data>, sorted: seq<Data>, i: nat, r: Row)
    requires Sound(c) && PartsOf(c, entries, v2, ids, keys, maps, sorted) && i < |entries|
    requires Laid(data, at, Concat(keys), Concat(maps), Concat(sorted)) && r == RowOf(ids, keys, maps, sorted, i)
    ensures ReadEntry(c, data, at, r) == Some(ReadBack(entries[i], v2))
  {
    PartsAt(data, at, ids, keys, maps, sorted, i, r);
    EntryAt(c, data, at, entries[i], r, v2, keys[i], maps[i], sorted[i]);
  }

  lemma {:induction false} EntriesAt(c: Codec, data: Data, at: Starts, entries: seq<ShardEntry>, v2: bool,
                  ids: seq<U32>, keys: seq<Data>, maps: seq<Data>, sorted: seq<Data>)
    requires Sound(c) && PartsOf(c, entries, v2, ids, keys, maps, sorted)
    requires Laid(data, at, Concat(keys), Concat(maps), Concat(sorted))
    ensures ReadEntries(c, data, at, Rows(ids, keys, maps, sorted)) == Some(ReadBackAll(entries, v2))
  {
    var (rows, back) := (Rows(ids, keys, maps, sorted), ReadBackAll(entries, v2));
    forall i | 0 <= i < |rows| ensures ReadEntry(c, data, at, rows[i]) == Some(back[i]) {
      OneEntryAt(c, data, at, entries, v2, ids, keys, maps, sorted, i, rows[i]);
    }
    ReadsEntries(c, data, at, rows, back);
  }

  lemma {:induction false} AllRowsFit(ids: seq<U32>, keys: seq<Data>, maps: seq<Data>, sorted: seq<Data>, v2: bool)
    requires |ids| == |keys| == |maps| == |sorted| && (!v2 ==> |Concat(sorted)| == 0)
    requires |Concat(keys)| < 0x1_0000_0000 && |Concat(maps)| < 0x1_0000_0000 && |Concat(sorted)| < 0x1_0000_0000
    ensures forall i :: 0 <= i < |ids| ==> RowFits(Rows(ids, keys, maps, sorted)[i], v2)
  {
    forall i | 0 <= i < |ids| ensures RowFits(Rows(ids, keys, maps, sorted)[i], v2) {
      RowsFit(ids, keys, maps, sorted, i, v2);
    }
  }

  lemma {:induction false} IndexAt(read: Reader<Row>, data: Data, rows: seq<Row>, v2: bool)
    requires (forall i :: 0 <= i < |rows| ==> ReadsAs(read, data, RowRecords(rows, v2)[i], rows[i])) && Has(data, 8, IndexBytes(rows, v2))
    ensures 8 + |IndexBytes(rows, v2)| == 8 + IndexSize(|rows|, v2) <= |data|
    ensures ReadMany(read, data, 8, |rows|) == Some((rows, 8 + IndexSize(|rows|, v2)))
  {
    HasSlice(data, 8, IndexBytes(rows, v2));
    IndexLength(rows, v2);
    ReadsMany(read, data, 8, RowRecords(rows, v2), rows);
  }

  lemma StartsAt(ids: seq<U32>, keys: seq<Data>, maps: seq<Data>, sorted: seq<Data>, end: nat)
    requires |ids| == |keys| == |maps| == |sorted|
    ensures SectionStarts(Rows(ids, keys, maps, sorted), end) ==
            StartsAfter(end, Concat(keys), Concat(maps))
  {
    var rows := Rows(ids, keys, maps, sorted);
    KeyBytesSum(rows, keys);
    MapBytesSum(rows, maps);
  }

  lemma Assembled(c: Codec, data: Data, v2: bool, n: U32, rows: seq<Row>, end: nat, entries: seq<ShardEntry>)
    requires ReadU32(data, 0) == Some((if v2 then 2 else 1, 4)) && ReadU32(data, 4) == Some((n, 8))
    requires 8 + IndexSize(n, v2) <= |data| && ReadMany(RowReader(v2), data, 8, n) == Some((rows, end))
    requires ReadEntries(c, data, SectionStarts(rows, end), rows) == Some(entries)
    ensures ParseShard(c, data) == Some(entries)
  {
  }

  lemma {:induction false} PartsReadBack(c: Codec, data: Data, entries: seq<ShardEntry>, v2: bool,
                      ids: seq<U32>, keys: seq<Data>, maps: seq<Data>, sorted: seq<Data>)
    requires Sound(c) && PartsOf(c, entries, v2, ids, keys, maps, sorted) && |entries| < 0x1_0000_0000
    requires |Concat(keys)| < 0x1_0000_0000 && |Concat(maps)| < 0x1_0000_0000 && |Concat(sorted)| < 0x1_0000_0000
    requires !v2 ==> |Concat(sorted)| == 0
    requires data == Packed(if v2 then 2 else 1, |entries|, IndexBytes(Rows(ids, keys, maps, sorted), v2),
                            Concat(keys), Concat(maps), Concat(sorted))
    ensures ParseShard(c, data) == Some(ReadBackAll(entries, v2))
  {
    var rows := Rows(ids, keys, maps, sorted);
    AllRowsFit(ids, keys, maps, sorted, v2);
    EachRowReads(data, rows, v2);
    var at := LaidAt(RowReader(v2), data, if v2 then 2 else 1, |entries|, v2, ids, keys, maps, sorted);
    EntriesAt(c, data, at, entries, v2, ids, keys, maps, sorted);
    Assembled(c, data, v2, |entries|, rows, at.keys, ReadBackAll(entries, v2));
  }

  lemma {:induction false} PackedAt(data: Data, version: U32, n: U32, index: Data, keys: Data, maps: Data, sorted: Data)
    requires data == Packed(version, n, index, keys, maps, sorted)
    ensures ReadU32(data, 0) == Some((version, 4)) && ReadU32(data, 4) == Some((n, 8)) && Has(data, 8, index)
    ensures Laid(data, StartsAfter(8 + |index|, keys, maps), keys, maps, sorted)
  {
    HeaderAt(data, version, n, index + (keys + (maps + sorted)));
    SectionsAt(data, 8, index, keys, maps, sorted);
  }

  lemma LaidAt(read: Reader<Row>, data: Data, version: U32, n: U32, v2: bool, ids: seq<U32>, keys: seq<Data>, maps: seq<Data>, sorted: seq<Data>)
    returns (at: Starts)
    requires |ids| == |keys| == |maps| == |sorted| == n
    requires var rows := Rows(ids, keys, maps, sorted);
             forall i :: 0 <= i < n ==> ReadsAs(read, data, RowRecords(rows, v2)[i], rows[i])
    requires data == Packed(version, n, IndexBytes(Rows(ids, keys, maps, sorted), v2), Concat(keys), Concat(maps), Concat(sorted))
    ensures ReadU32(data, 0) == Some((version, 4)) && ReadU32(data, 4) == Some((n, 8))
    ensures 8 + IndexSize(n, v2) <= |data| && ReadMany(read, data, 8, n) == Some((Rows(ids, keys, maps, sorted), at.keys))
    ensures at == SectionStarts(Rows(ids, keys, maps, sorted), at.keys) && Laid(data, at, Concat(keys), Concat(maps), Concat(sorted))
  {
    var rows := Rows(ids, keys, maps, sorted);
    var index := IndexBytes(rows, v2);
    PackedAt(data, version, n, index, Concat(keys), Concat(maps), Concat(sorted));
    at := StartsAfter(8 + |index|, Concat(keys), Concat(maps));
    IndexAt(read, data, rows, v2);
    StartsAt(ids, keys, maps, sorted, 8 + |index|);
  }

  /** Both versions read back: version 2 everything but the difference between an empty and a
      missing list of sorted keys, version 1 without sorted keys. */
  lemma ShardRoundTrip(c: Codec, entries: seq<ShardEntry>, v2: bool)
    requires Sound(c) && Fits(c, entries)
    ensures ParseShard(c, ShardBytes(c, entries, v2)) == Some(ReadBackAll(entries, v2))
  {
    NothingSorted(entries);
    PartsReadBack(c, ShardBytes(c, entries, v2), entries, v2,
                  Ids(entries), KeyParts(c, entries), MapParts(c, entries), SortedParts(entries, v2));
  }

  // ---- The reader ----

  lemma JoinedNothing<T>(rest: Option<seq<T>>)
    ensures Joined([], rest) == rest
  {
    if rest.Some? {
      NothingAdded(rest.value);
    }
  }

  function Joined<T>(read: seq<T>, rest: Option<seq<T>>): Option<seq<T>> {
    if rest.Some? then Some(read + rest.value) else None
  }

  lemma EntriesOneMore(c: Codec, data: Data, at: Starts, rows: seq<Row>, i: nat, read: seq<ShardEntry>)
    requires i < |rows| && ReadEntry(c, data, at, rows[i]).Some?
    ensures Joined(read, ReadEntries(c, data, at, rows[i..])) ==
            Joined(read + [ReadEntry(c, data, at, rows[i]).value], ReadEntries(c, data, at, rows[i + 1..]))
  {
    assert rows[i..][1..] == rows[i + 1..];
    var rest := ReadEntries(c, data, at, rows[i + 1..]);
    if rest.Some? {
      LastMoves(read, ReadEntry(c, data, at, rows[i]).value, rest.value);
    }
  }

  lemma NoEntry(c: Codec, data: Data, at: Starts, rows: seq<Row>, i: nat)
    requires i < |rows| && ReadEntry(c, data, at, rows[i]).None?
    ensures ReadEntries(c, data, at, rows[i..]) == None
  {
  }

  method ReadEntryAt(c: Codec, data: Data, at: Starts, r: Row) returns (e: Option<ShardEntry>)
    ensures e == ReadEntry(c, data, at, r)
  {
    var key :- ReadSlice(data, at.keys + r.keyOff, r.keyLen);
    var clauses :- c.unpackKey(key.0);
    var packed :- ReadSlice(data, at.maps + r.mapOff, r.mapLen);
    var bitmap :- c.unpackMap(packed.0);
    var sortedKeys: Option<seq<U64>> := None;
    if r.skLen > 0 {
      var words :- ReadSlice(data, at.sorted + r.skOff, r.skLen);
      if |words.0| % 8 != 0 {
        return None;
      }
      var ks := DecodeWords(words.0);
      sortedKeys := Some(ks);
    }
    e := Some(ShardEntry(r.id, clauses, bitmap, sortedKeys));
  }

  method ReadSections(c: Codec, data: Data, at: Starts, rows: seq<Row>) returns (r: Option<seq<ShardEntry>>)
    ensures r == ReadEntries(c, data, at, rows)
  {
    var entries: seq<ShardEntry> := [];
    assert rows[0..] == rows;
    JoinedNothing(ReadEntries(c, data, at, rows));
    for i := 0 to |rows|
      invariant ReadEntries(c, data, at, rows) == Joined(entries, ReadEntries(c, data, at, rows[i..]))
    {
      var e := ReadEntryAt(c, data, at, rows[i]);
      if e.None? {
        NoEntry(c, data, at, rows, i);
        return None;
      }
      EntriesOneMore(c, data, at, rows, i, entries);
      entries := entries + [e.value];
    }
    NothingAdded(entries);
    r := Some(entries);
  }

  /** Total on every byte string: a read outside the data is an error, never taken. */
  method DeserializeShard(c: Codec, data: Data) returns (r: Option<seq<ShardEntry>>)
    ensures r == ParseShard(c, data)
  {
    var version :- ReadU32(data, 0);
    if version.0 != 1 && version.0 != 2 {
      return None;
    }
    var v2 := version.0 >= 2;
    var n :- ReadU32(data, version.1);
    if n.1 + IndexSize(n.0, v2) > |data| {
      return None;
    }
    var rows :- ReadLoop(RowReader(v2), data, n.1, n.0);
    r := ReadSections(c, data, SectionStarts(rows.0, rows.1), rows.0);
  }

  // ---- The writer ----

  method AppendAll(buf: Data, parts: seq<Data>) returns (r: Data)
    ensures r == buf + Concat(parts)
  {
    r := buf;
    for i := 0 to |parts|
      invariant r == buf + Concat(parts[..i])
    {
      ConcatOneMore(parts[..i], parts[i]);
      assert parts[..i + 1] == parts[..i] + [parts[i]];
      r := r + parts[i];
    }
    assert parts[..|parts|] == parts;
  }

  /** The offsets run on from entry to entry. */
  method WriteIndex(ids: seq<U32>, keys: seq<Data>, maps: seq<Data>, sorted: seq<Data>) returns (index: Data)
    requires |ids| == |keys| == |maps| == |sorted|
    ensures index == IndexBytes(Rows(ids, keys, maps, sorted), true)
  {
    index := [];
    var ko, mo, so := 0, 0, 0;
    ghost var rows := Rows(ids, keys, maps, sorted);
    for i := 0 to |ids|
      invariant ko == Offset(keys, i) && mo == Offset(maps, i) && so == Offset(sorted, i)
      invariant index == IndexBytes(rows[..i], true)
    {
      var r := Row(ids[i], ko, |keys[i]|, mo, |maps[i]|, so, |sorted[i]|);
      ConcatOneMore(RowRecords(rows[..i], true), Fields(RowFields(r, true)));
      assert RowRecords(rows[..i + 1], true) == RowRecords(rows[..i], true) + [Fields(RowFields(r, true))];
      index := index + Fields(RowFields(r, true));
      OffsetNext(keys, i);
      OffsetNext(maps, i);
      OffsetNext(sorted, i);
      ko, mo, so := ko + |keys[i]|, mo + |maps[i]|, so + |sorted[i]|;
    }
    assert rows[..|ids|] == rows;
  }

  method PackParts(c: Codec, entries: seq<ShardEntry>) returns (ids: seq<U32>, keys: seq<Data>, maps: seq<Data>, sorted: seq<Data>)
    ensures ids == Ids(entries) && keys == KeyParts(c, entries) && maps == MapParts(c, entries)
    ensures sorted == SortedParts(entries, true)
  {
    ids, keys, maps, sorted := [], [], [], [];
    for i := 0 to |entries|
      invariant |ids| == |keys| == |maps| == |sorted| == i
      invariant PartsOf(c, entries[..i], true, ids, keys, maps, sorted)
    {
      var e := entries[i];
      var words: Data := [];
      if e.sortedKeys.Some? {
        words := EncodeWords(e.sortedKeys.value);
      }
      ids, keys, maps, sorted := ids + [e.id], keys + [c.packKey(e.clauses)], maps + [c.packMap(e.bitmap)], sorted + [words];
    }
    assert entries[..|entries|] == entries;
  }

  lemma PackedLeft(version: U32, n: nat, index: Data, keys: Data, maps: Data, sorted: Data)
    ensures ToLe(version, 4) + ToLe(n, 4) + index + keys + maps + sorted == Packed(version, n, index, keys, maps, sorted)
  {
    var (v, m) := (ToLe(version, 4), ToLe(n, 4));
    assert maps + sorted == maps + sorted;
    assert v + m + index + keys + maps + sorted == v + m + index + keys + (maps + sorted);
    assert v + m + index + keys + (maps + sorted) == v + m + index + (keys + (maps + sorted));
    assert v + m + index + (keys + (maps + sorted)) == v + m + (index + (keys + (maps + sorted)));
    assert v + m + (index + (keys + (maps + sorted))) == v + (m + (index + (keys + (maps + sorted))));
  }

  method SerializeShard(c: Codec, entries: seq<ShardEntry>) returns (buf: Data)
    ensures buf == ShardBytes(c, entries, true)
  {
    var ids, keys, maps, sorted := PackParts(c, entries);
    var index := WriteIndex(ids, keys, maps, sorted);
    PackedLeft(2, |entries|, index, Concat(keys), Concat(maps), Concat(sorted));
    buf := ToLe(2, 4) + ToLe(|entries|, 4) + index;
    buf := AppendAll(buf, keys);
    buf := AppendAll(buf, maps);
    buf := AppendAll(buf, sorted);
  }
}
