/** What a byte string must hold to be read as a shard file: the readers accept exactly these bytes. */
module BoundParse {
  import opened Base
  import opened Bytes
  import opened PackFormat
  import opened BoundLayout
  import opened BoundShard

  // ---- Numbers and slices ----

  lemma NumberReads(data: Data, pos: nat)
    ensures pos + 4 <= |data| ==> 0 <= Number(data, pos) < 0x1_0000_0000 && ReadU32(data, pos) == Some((Number(data, pos), pos + 4))
    ensures pos + 4 > |data| ==> ReadU32(data, pos) == None
  {
    if pos + 4 <= |data| {
      FourBytes(data[pos..pos + 4]);
    }
  }

  lemma {:induction false} FieldsRead(data: Data, pos: nat, n: nat)
    requires pos + 4 * n <= |data|
    ensures var r := ReadFields(data, pos, n);
            && r.Some? && r.value.1 == pos + 4 * n && |r.value.0| == n
            && forall j :: 0 <= j < n ==> r.value.0[j] == Number(data, pos + 4 * j)
    decreases n
  {
    if n > 0 {
      NumberReads(data, pos);
      FieldsRead(data, pos + 4, n - 1);
      var (all, rest) := (ReadFields(data, pos, n).value.0, ReadFields(data, pos + 4, n - 1).value.0);
      forall j | 1 <= j < n ensures all[j] == Number(data, pos + 4 * j) {
        assert rest[j - 1] == Number(data, pos + 4 + 4 * (j - 1));
      }
    }
  }

  // ---- Rows ----

  function U32In(data: Data, pos: nat): (n: U32)
    requires pos + 4 <= |data|
    ensures n as int == Number(data, pos)
  {
    NumberReads(data, pos);
    Number(data, pos)
  }

  /** The index row whose numbers stand at a position. */
  function RowIn(data: Data, pos: nat, v2: bool): Row
    requires pos + Width(v2) <= |data|
  {
    Row(U32In(data, pos), U32In(data, pos + 4), U32In(data, pos + 8), U32In(data, pos + 12), U32In(data, pos + 16),
        if v2 then U32In(data, pos + 20) else 0, if v2 then U32In(data, pos + 24) else 0)
  }

  lemma FieldsAreRow(data: Data, pos: nat, v2: bool, fs: seq<nat>)
    requires pos + Width(v2) <= |data| && |fs| == (if v2 then 7 else 5)
    requires forall j :: 0 <= j < |fs| ==> fs[j] == Number(data, pos + 4 * j)
    ensures FieldsRow(fs, v2) == Some(RowIn(data, pos, v2))
  {
    NumberReads(data, pos);
    assert fs[0] == Number(data, pos) && fs[1] == Number(data, pos + 4) && fs[2] == Number(data, pos + 8);
    assert fs[3] == Number(data, pos + 12) && fs[4] == Number(data, pos + 16);
    assert v2 ==> fs[5] == Number(data, pos + 20) && fs[6] == Number(data, pos + 24);
  }

  lemma RowReads(data: Data, pos: nat, v2: bool)
    requires pos + Width(v2) <= |data|
    ensures RowReader(v2)(data, pos) == Some((RowIn(data, pos, v2), pos + Width(v2)))
  {
    var n := if v2 then 7 else 5;
    FieldsRead(data, pos, n);
    FieldsAreRow(data, pos, v2, ReadFields(data, pos, n).value.0);
    assert FieldLists(n)(data, pos) == ReadFields(data, pos, n);
  }

  function RowsIn(data: Data, pos: nat, n: nat, v2: bool): (rows: seq<Row>)
    requires pos + Width(v2) * n <= |data|
    ensures |rows| == n
    decreases n
  {
    if n == 0 then [] else [RowIn(data, pos, v2)] + RowsIn(data, pos + Width(v2), n - 1, v2)
  }

  lemma {:induction false} RowsRead(data: Data, pos: nat, n: nat, v2: bool)
    requires pos + Width(v2) * n <= |data|
    ensures ReadMany(RowReader(v2), data, pos, n) == Some((RowsIn(data, pos, n, v2), pos + Width(v2) * n))
    decreases n
  {
    if n > 0 {
      RowReads(data, pos, v2);
      RowsRead(data, pos + Width(v2), n - 1, v2);
    }
  }

  lemma {:induction false} RowInRows(data: Data, pos: nat, n: nat, v2: bool, i: nat)
    requires pos + Width(v2) * n <= |data| && i < n
    ensures RowsIn(data, pos, n, v2)[i] == RowIn(data, pos + Width(v2) * i, v2)
    decreases n
  {
    if i > 0 {
      RowInRows(data, pos + Width(v2), n - 1, v2, i - 1);
    }
  }

  // ---- What the bytes say ----

  /** A part of the file, if all of it is there. */
  function PartIn(data: Data, pos: nat, len: nat): Option<Data> {
    if pos + len <= |data| then Some(data[pos..pos + len]) else None
  }

  /** The key and the bitmap of an entry decode from where its row points; there are sorted keys where the row
      gives them a length, and then they are whole words. */
  ghost predicate EntrySays(c: Codec, data: Data, at: Starts, r: Row, e: ShardEntry) {
    var (key, packed, words) := (PartIn(data, at.keys + r.keyOff, r.keyLen), PartIn(data, at.maps + r.mapOff, r.mapLen),
                                 PartIn(data, at.sorted + r.skOff, r.skLen));
    && e.id == r.id
    && key.Some? && c.unpackKey(key.value) == Some(e.clauses)
    && packed.Some? && c.unpackMap(packed.value) == Some(e.bitmap)
    && (r.skLen == 0 ==> e.sortedKeys == None)
    && (r.skLen > 0 ==> words.Some? && r.skLen % 8 == 0 && e.sortedKeys == Some(WordsOf(words.value)))
  }

  ghost predicate AllSay(c: Codec, data: Data, at: Starts, rows: seq<Row>, es: seq<ShardEntry>) {
    |es| == |rows| && forall i :: 0 <= i < |rows| ==> EntrySays(c, data, at, rows[i], es[i])
  }

  lemma EntryReadsExactly(c: Codec, data: Data, at: Starts, r: Row, e: ShardEntry)
    ensures ReadEntry(c, data, at, r) == Some(e) <==> EntrySays(c, data, at, r, e)
  {
  }

  lemma {:induction false} OneEntryEach(c: Codec, data: Data, at: Starts, rows: seq<Row>)
    ensures ReadEntries(c, data, at, rows).Some? ==> |ReadEntries(c, data, at, rows).value| == |rows|
  {
    if rows != [] {
      OneEntryEach(c, data, at, rows[1..]);
    }
  }

  lemma {:induction false} EntriesReadExactly(c: Codec, data: Data, at: Starts, rows: seq<Row>, es: seq<ShardEntry>)
    requires |es| == |rows|
    ensures ReadEntries(c, data, at, rows) == Some(es) <==> AllSay(c, data, at, rows, es)
    decreases |rows|
  {
    if rows != [] {
      EntryReadsExactly(c, data, at, rows[0], es[0]);
      EntriesReadExactly(c, data, at, rows[1..], es[1..]);
      assert es == [es[0]] + es[1..];
      SaysFromSecond(c, data, at, rows, es);
    }
  }

  lemma SaysFromSecond(c: Codec, data: Data, at: Starts, rows: seq<Row>, es: seq<ShardEntry>)
    requires rows != [] && |es| == |rows|
    ensures AllSay(c, data, at, rows, es) <==> EntrySays(c, data, at, rows[0], es[0]) && AllSay(c, data, at, rows[1..], es[1..])
  {
    if AllSay(c, data, at, rows[1..], es[1..]) {
      assert forall i :: 1 <= i < |rows| ==> rows[i] == rows[1..][i - 1] && es[i] == es[1..][i - 1];
    }
  }

  // ---- The whole file ----

  /** All key lengths together and all bitmap lengths together, where the index has them. */
  function Total(data: Data, pos: nat, n: nat, v2: bool, field: nat): nat
    requires pos + Width(v2) * n <= |data| && field <= 16
    decreases n
  {
    if n == 0 then 0
    else
      NumberReads(data, pos + field);
      Number(data, pos + field) + Total(data, pos + Width(v2), n - 1, v2, field)
  }

  lemma {:induction false} TotalsAreSums(data: Data, pos: nat, n: nat, v2: bool)
    requires pos + Width(v2) * n <= |data|
    ensures KeyBytes(RowsIn(data, pos, n, v2)) == Total(data, pos, n, v2, 8)
    ensures MapBytes(RowsIn(data, pos, n, v2)) == Total(data, pos, n, v2, 16)
    decreases n
  {
    if n > 0 {
      TotalsAreSums(data, pos + Width(v2), n - 1, v2);
    }
  }

  /** Behind the index all keys, then all bitmaps, then all sorted keys. */
  function Sections(data: Data, n: nat, v2: bool): Starts
    requires 8 + Width(v2) * n <= |data|
  {
    var keys := 8 + Width(v2) * n;
    var maps := keys + Total(data, 8, n, v2, 8);
    Starts(keys, maps, maps + Total(data, 8, n, v2, 16))
  }

  /** The bytes are a shard file with these entries: a known version, a whole index, and entry by entry what
      its row points to. */
  ghost predicate ShardSays(c: Codec, data: Data, v2: bool, es: seq<ShardEntry>) {
    && HeaderLies(data, if v2 then 2 else 1, |es|) && 8 + Width(v2) * |es| <= |data|
    && AllSay(c, data, Sections(data, |es|, v2), RowsIn(data, 8, |es|, v2), es)
  }

  lemma ParsesBody(c: Codec, data: Data, v2: bool, n: U32, rows: seq<Row>, end: nat)
    requires ReadU32(data, 0) == Some((if v2 then 2 else 1, 4)) && ReadU32(data, 4) == Some((n, 8))
    requires 8 + IndexSize(n, v2) <= |data| && ReadMany(RowReader(v2), data, 8, n) == Some((rows, end))
    ensures ParseShard(c, data) == ReadEntries(c, data, SectionStarts(rows, end), rows)
  {
  }

  lemma HeaderReads(data: Data, version: U32, n: nat)
    requires HeaderLies(data, version, n)
    ensures n < 0x1_0000_0000 && ReadU32(data, 0) == Some((version, 4)) && ReadU32(data, 4) == Some((n, 8))
  {
    NumberReads(data, 0);
    NumberReads(data, 4);
  }

  lemma SectionsStart(data: Data, v2: bool, n: nat)
    requires 8 + Width(v2) * n <= |data|
    ensures SectionStarts(RowsIn(data, 8, n, v2), 8 + Width(v2) * n) == Sections(data, n, v2)
  {
    TotalsAreSums(data, 8, n, v2);
  }

  lemma ParseIsEntries(c: Codec, data: Data, v2: bool, n: nat, rows: seq<Row>, at: Starts)
    requires HeaderLies(data, if v2 then 2 else 1, n) && 8 + Width(v2) * n <= |data|
    requires rows == RowsIn(data, 8, n, v2) && at == Sections(data, n, v2)
    ensures ParseShard(c, data) == ReadEntries(c, data, at, rows)
  {
    HeaderReads(data, if v2 then 2 else 1, n);
    RowsRead(data, 8, n, v2);
    SectionsStart(data, v2, n);
    ParsesBody(c, data, v2, n, rows, 8 + Width(v2) * n);
  }

  /** What is read has a known version and a whole index. */
  lemma ParsedHasHeader(c: Codec, data: Data) returns (v2: bool, n: nat)
    requires ParseShard(c, data).Some?
    ensures HeaderLies(data, if v2 then 2 else 1, n) && 8 + Width(v2) * n <= |data|
  {
    NumberReads(data, 0);
    NumberReads(data, 4);
    v2, n := Number(data, 0) == 2, Number(data, 4);
  }

  lemma ParsedSays(c: Codec, data: Data, v2: bool, n: nat, es: seq<ShardEntry>)
    requires HeaderLies(data, if v2 then 2 else 1, n) && 8 + Width(v2) * n <= |data|
    ensures ParseShard(c, data) == Some(es) <==> n == |es| && AllSay(c, data, Sections(data, n, v2), RowsIn(data, 8, n, v2), es)
  {
    var (rows, at) := (RowsIn(data, 8, n, v2), Sections(data, n, v2));
    ParseIsEntries(c, data, v2, n, rows, at);
    OneEntryEach(c, data, at, rows);
    if |es| == n {
      EntriesReadExactly(c, data, at, rows, es);
    }
  }

  /** The reader accepts exactly the bytes that are a shard file, and returns the entries they hold. */
  lemma ShardParsesExactly(c: Codec, data: Data, es: seq<ShardEntry>)
    ensures ParseShard(c, data) == Some(es) <==> ShardSays(c, data, false, es) || ShardSays(c, data, true, es)
  {
    if ParseShard(c, data) == Some(es) {
      var v2, n := ParsedHasHeader(c, data);
      ParsedSays(c, data, v2, n, es);
    } else if ShardSays(c, data, false, es) {
      ParsedSays(c, data, false, |es|, es);
    } else if ShardSays(c, data, true, es) {
      ParsedSays(c, data, true, |es|, es);
    }
  }
}
