/** Reading and writing pieces of a byte string at given positions. */
module PackFormat {
  import opened Base
  import opened Bytes

  /** The bytes contain `part` at `pos`. */
  ghost predicate Has(data: Data, pos: nat, part: Data)
    decreases |part|
  {
    if part == [] then pos <= |data| else pos < |data| && data[pos] == part[0] && Has(data, pos + 1, part[1..])
  }

  lemma {:induction false} HasSlice(data: Data, pos: nat, part: Data)
    requires Has(data, pos, part)
    ensures pos + |part| <= |data| && data[pos..pos + |part|] == part
    decreases |part|
  {
    if part != [] {
      HasSlice(data, pos + 1, part[1..]);
      assert data[pos..pos + |part|] == [data[pos]] + data[pos + 1..pos + |part|];
    }
  }

  lemma {:induction false} SliceHas(data: Data, pos: nat, part: Data)
    requires pos + |part| <= |data| && data[pos..pos + |part|] == part
    ensures Has(data, pos, part)
    decreases |part|
  {
    if part != [] {
      assert data[pos] == data[pos..pos + |part|][0];
      assert data[pos + 1..pos + |part|] == data[pos..pos + |part|][1..];
      SliceHas(data, pos + 1, part[1..]);
    }
  }

  lemma HasSplit(data: Data, pos: nat, a: Data, b: Data)
    requires Has(data, pos, a + b)
    ensures Has(data, pos, a) && Has(data, pos + |a|, b)
  {
    HasSlice(data, pos, a + b);
    assert data[pos..pos + |a|] == data[pos..pos + |a + b|][..|a|];
    assert data[pos + |a|..pos + |a| + |b|] == data[pos..pos + |a + b|][|a|..];
    SliceHas(data, pos, a);
    SliceHas(data, pos + |a|, b);
  }

  lemma HasWhole(data: Data)
    ensures Has(data, 0, data)
  {
    assert data[0..0 + |data|] == data;
    SliceHas(data, 0, data);
  }

  // ---- Bounded readers ----

  function ReadByte(data: Data, pos: nat): Option<(Byte, nat)> {
    if pos < |data| then Some((data[pos], pos + 1)) else None
  }

  function ReadU16(data: Data, pos: nat): Option<(nat, nat)> {
    if pos + 2 > |data| then None else Some((FromLe(data[pos..pos + 2]), pos + 2))
  }

  function ReadU32(data: Data, pos: nat): Option<(U32, nat)> {
    if pos + 4 > |data| then None else Some((Le32(data[pos..pos + 4]), pos + 4))
  }

  function ReadU64(data: Data, pos: nat): Option<(U64, nat)> {
    if pos + 8 > |data| then None else Some((Le64(data[pos..pos + 8]), pos + 8))
  }

  function ReadSlice(data: Data, pos: nat, len: nat): Option<(Data, nat)> {
    if pos + len > |data| then None else Some((data[pos..pos + len], pos + len))
  }

  /** A 32-bit length and that many bytes. */
  function ReadBlob(data: Data, pos: nat): Option<(Data, nat)> {
    match ReadU32(data, pos)
    case None => None
    case Some((len, p)) => ReadSlice(data, p, len)
  }

  function Blob(b: Data): Data {
    ToLe(|b|, 4) + b
  }

  lemma ReadsByte(data: Data, pos: nat, b: Byte)
    requires Has(data, pos, [b])
    ensures ReadByte(data, pos) == Some((b, pos + 1))
  {
    HasSlice(data, pos, [b]);
  }

  lemma ReadsU16(data: Data, pos: nat, n: nat)
    requires Has(data, pos, ToLe(n, 2)) && n < 0x1_0000
    ensures ReadU16(data, pos) == Some((n, pos + 2))
  {
    HasSlice(data, pos, ToLe(n, 2));
    assert Pow256(2) == 0x1_0000;
    LeRoundTrip(n, 2);
  }

  lemma ReadsU32(data: Data, pos: nat, n: U32)
    requires Has(data, pos, ToLe(n, 4))
    ensures ReadU32(data, pos) == Some((n, pos + 4))
  {
    HasSlice(data, pos, ToLe(n, 4));
    Reads32(n);
  }

  lemma ReadsU64(data: Data, pos: nat, n: U64)
    requires Has(data, pos, ToLe(n, 8))
    ensures ReadU64(data, pos) == Some((n, pos + 8))
  {
    HasSlice(data, pos, ToLe(n, 8));
    Reads64(n);
  }

  lemma ReadsSlice(data: Data, pos: nat, part: Data)
    requires Has(data, pos, part)
    ensures ReadSlice(data, pos, |part|) == Some((part, pos + |part|))
  {
    HasSlice(data, pos, part);
  }

  lemma ReadsBlob(data: Data, pos: nat, b: Data)
    requires Has(data, pos, Blob(b)) && |b| < 0x1_0000_0000
    ensures ReadBlob(data, pos) == Some((b, pos + |Blob(b)|))
  {
    HasSplit(data, pos, ToLe(|b|, 4), b);
    ReadsU32(data, pos, |b|);
    ReadsSlice(data, pos + 4, b);
  }

  // ---- Runs of 32-bit fields ----

  function Fields(fs: seq<nat>): (b: Data)
    ensures |b| == 4 * |fs|
  {
    if fs == [] then [] else ToLe(fs[0], 4) + Fields(fs[1..])
  }

  function ReadFields(data: Data, pos: nat, n: nat): (r: Option<(seq<nat>, nat)>)
    ensures r.Some? ==> |r.value.0| == n && forall i :: 0 <= i < n ==> r.value.0[i] < 0x1_0000_0000
    ensures r.Some? <==> pos + 4 * n <= |data| || n == 0
    decreases n
  {
    if n == 0 then Some(([], pos))
    else
      var f :- ReadU32(data, pos);
      var rest :- ReadFields(data, f.1, n - 1);
      Some(([f.0] + rest.0, rest.1))
  }

  lemma {:induction false} ReadsFields(data: Data, pos: nat, fs: seq<nat>)
    requires Has(data, pos, Fields(fs)) && forall i :: 0 <= i < |fs| ==> fs[i] < 0x1_0000_0000
    ensures ReadFields(data, pos, |fs|) == Some((fs, pos + |Fields(fs)|))
    decreases |fs|
  {
    if fs != [] {
      HasSplit(data, pos, ToLe(fs[0], 4), Fields(fs[1..]));
      ReadsU32(data, pos, fs[0]);
      ReadsFields(data, pos + 4, fs[1..]);
      assert fs == [fs[0]] + fs[1..];
    }
  }

  // ---- Concatenation ----

  function Concat(parts: seq<Data>): Data {
    if parts == [] then [] else parts[0] + Concat(parts[1..])
  }

  lemma {:induction false} ConcatOneMore(parts: seq<Data>, p: Data)
    ensures Concat(parts + [p]) == Concat(parts) + p
  {
    if parts == [] {
      assert (parts + [p])[1..] == [];
    } else {
      ConcatOneMore(parts[1..], p);
      assert (parts + [p])[1..] == parts[1..] + [p];
    }
  }

  /** Where a part of a concatenation starts. */
  function Offset(parts: seq<Data>, i: nat): nat
    requires i <= |parts|
  {
    |Concat(parts[..i])|
  }

  lemma {:induction false} OffsetNext(parts: seq<Data>, i: nat)
    requires i < |parts|
    ensures Offset(parts, i + 1) == Offset(parts, i) + |parts[i]| <= |Concat(parts)|
  {
    ConcatOneMore(parts[..i], parts[i]);
    assert parts[..i + 1] == parts[..i] + [parts[i]];
    ConcatSplit(parts, i + 1);
  }

  lemma {:induction false} ConcatSplit(parts: seq<Data>, i: nat)
    requires i <= |parts|
    ensures Concat(parts) == Concat(parts[..i]) + Concat(parts[i..])
  {
    if i == 0 {
      assert parts[0..] == parts;
    } else {
      ConcatSplit(parts[1..], i - 1);
      assert parts[1..][..i - 1] == parts[..i][1..] && parts[1..][i - 1..] == parts[i..];
    }
  }

  /** A part of a section lies at its offset. */
  lemma PartAt(data: Data, pos: nat, parts: seq<Data>, i: nat)
    requires Has(data, pos, Concat(parts)) && i < |parts|
    ensures Has(data, pos + Offset(parts, i), parts[i])
  {
    ConcatSplit(parts, i);
    HasSplit(data, pos, Concat(parts[..i]), Concat(parts[i..]));
    HasSplit(data, pos + Offset(parts, i), parts[i], Concat(parts[i..][1..]));
  }

  // ---- Readers ----

  /** Takes a value off the bytes at a position and moves past it. */
  type Reader<T> = (Data, nat) -> Option<(T, nat)>

  function U8s(): Reader<U8> {
    (data, pos) => ReadByte(data, pos)
  }

  function U32s(): Reader<U32> {
    (data, pos) => ReadU32(data, pos)
  }

  function U64s(): Reader<U64> {
    (data, pos) => ReadU64(data, pos)
  }

  function Blobs(): Reader<Data> {
    (data, pos) => ReadBlob(data, pos)
  }

  /** A 16-bit length and that many bytes. */
  function ShortBlobs(): Reader<Data> {
    (data, pos) => var len :- ReadU16(data, pos); ReadSlice(data, len.1, len.0)
  }

  function ShortBlob(b: Data): Data {
    ToLe(|b|, 2) + b
  }

  /** A fixed number of 32-bit fields. */
  function FieldLists(n: nat): Reader<seq<nat>> {
    (data, pos) => ReadFields(data, pos, n)
  }

  function Pair<A, B>(first: Reader<A>, second: Reader<B>): Reader<(A, B)> {
    (data, pos) => var x :- first(data, pos); var y :- second(data, x.1); Some(((x.0, y.0), y.1))
  }

  /** Converts what was read, or fails. */
  function Checked<A, B>(reader: Reader<A>, convert: A -> Option<B>): Reader<B> {
    (data, pos) => var x :- reader(data, pos); var y :- convert(x.0); Some((y, x.1))
  }

  function Constant<A>(value: A): Reader<A> {
    (data, pos) => Some((value, pos))
  }

  function ReadMany<T>(read: Reader<T>, data: Data, pos: nat, n: nat): Option<(seq<T>, nat)>
    decreases n
  {
    if n == 0 then Some(([], pos))
    else
      var r :- read(data, pos);
      var rest :- ReadMany(read, data, r.1, n - 1);
      Some(([r.0] + rest.0, rest.1))
  }

  /** The bytes read as this value wherever they lie. */
  ghost predicate ReadsAs<T(!new)>(read: Reader<T>, data: Data, record: Data, value: T) {
    forall p: nat :: Has(data, p, record) ==> read(data, p) == Some((value, p + |record|))
  }

  lemma ReadsAsByte(data: Data, b: U8)
    ensures ReadsAs(U8s(), data, [b], b)
  {
    forall p: nat | Has(data, p, [b]) ensures U8s()(data, p) == Some((b, p + 1)) {
      ReadsByte(data, p, b);
    }
  }

  lemma ReadsAsU32(data: Data, n: U32)
    ensures ReadsAs(U32s(), data, ToLe(n, 4), n)
  {
    forall p: nat | Has(data, p, ToLe(n, 4)) ensures U32s()(data, p) == Some((n, p + 4)) {
      ReadsU32(data, p, n);
    }
  }

  lemma ReadsAsU64(data: Data, n: U64)
    ensures ReadsAs(U64s(), data, ToLe(n, 8), n)
  {
    forall p: nat | Has(data, p, ToLe(n, 8)) ensures U64s()(data, p) == Some((n, p + 8)) {
      ReadsU64(data, p, n);
    }
  }

  lemma ReadsAsBlob(data: Data, b: Data)
    requires |b| < 0x1_0000_0000
    ensures ReadsAs(Blobs(), data, Blob(b), b)
  {
    forall p: nat | Has(data, p, Blob(b)) ensures Blobs()(data, p) == Some((b, p + |Blob(b)|)) {
      ReadsBlob(data, p, b);
    }
  }

  lemma ReadsAsShortBlob(data: Data, b: Data)
    requires |b| < 0x1_0000
    ensures ReadsAs(ShortBlobs(), data, ShortBlob(b), b)
  {
    forall p: nat | Has(data, p, ShortBlob(b)) ensures ShortBlobs()(data, p) == Some((b, p + |ShortBlob(b)|)) {
      HasSplit(data, p, ToLe(|b|, 2), b);
      ReadsU16(data, p, |b|);
      ReadsSlice(data, p + 2, b);
    }
  }

  lemma {:induction false} ReadsAsFields(data: Data, fs: seq<nat>)
    requires forall i :: 0 <= i < |fs| ==> fs[i] < 0x1_0000_0000
    ensures ReadsAs(FieldLists(|fs|), data, Fields(fs), fs)
  {
    forall p: nat | Has(data, p, Fields(fs)) ensures FieldLists(|fs|)(data, p) == Some((fs, p + |Fields(fs)|)) {
      ReadsFields(data, p, fs);
    }
  }

  lemma ReadsAsPair<A(!new), B(!new)>(first: Reader<A>, second: Reader<B>, data: Data, a: Data, x: A, b: Data, y: B)
    requires ReadsAs(first, data, a, x) && ReadsAs(second, data, b, y)
    ensures ReadsAs(Pair(first, second), data, a + b, (x, y))
  {
    forall p: nat | Has(data, p, a + b) ensures Pair(first, second)(data, p) == Some(((x, y), p + |a + b|)) {
      HasSplit(data, p, a, b);
    }
  }

  lemma ReadsAsChecked<A(!new), B(!new)>(reader: Reader<A>, convert: A -> Option<B>, data: Data, a: Data, x: A, y: B)
    requires ReadsAs(reader, data, a, x) && convert(x) == Some(y)
    ensures ReadsAs(Checked(reader, convert), data, a, y)
  {
  }

  lemma ReadsAsConstant<A(!new)>(data: Data, x: A)
    ensures ReadsAs(Constant(x), data, [], x)
  {
  }

  lemma {:induction false} ReadsMany<T(!new)>(read: Reader<T>, data: Data, pos: nat, records: seq<Data>, values: seq<T>)
    requires |records| == |values| && forall i :: 0 <= i < |values| ==> ReadsAs(read, data, records[i], values[i])
    requires Has(data, pos, Concat(records))
    ensures ReadMany(read, data, pos, |values|) == Some((values, pos + |Concat(records)|))
    decreases |values|
  {
    if values != [] {
      HasSplit(data, pos, records[0], Concat(records[1..]));
      assert ReadsAs(read, data, records[0], values[0]);
      ReadsMany(read, data, pos + |records[0]|, records[1..], values[1..]);
      assert values == [values[0]] + values[1..];
    }
  }

  /** What reading on adds to the values read so far. */
  function Prepended<T>(read: seq<T>, rest: Option<(seq<T>, nat)>): Option<(seq<T>, nat)> {
    if rest.Some? then Some((read + rest.value.0, rest.value.1)) else None
  }

  lemma PrependedNothing<T>(rest: Option<(seq<T>, nat)>)
    ensures Prepended([], rest) == rest
  {
    if rest.Some? {
      NothingAdded(rest.value.0);
    }
  }

  lemma ManyOneMore<T>(read: Reader<T>, data: Data, pos: nat, n: nat, values: seq<T>)
    requires n > 0 && read(data, pos).Some?
    ensures var (x, p) := read(data, pos).value;
            Prepended(values, ReadMany(read, data, pos, n)) == Prepended(values + [x], ReadMany(read, data, p, n - 1))
  {
    var (x, p) := read(data, pos).value;
    var rest := ReadMany(read, data, p, n - 1);
    if rest.Some? {
      LastMoves(values, x, rest.value.0);
    }
  }

  /** Reads records in a loop, stopping at the first that fails. */
  method ReadLoop<T>(read: Reader<T>, data: Data, start: nat, n: nat) returns (r: Option<(seq<T>, nat)>)
    ensures r == ReadMany(read, data, start, n)
  {
    var values: seq<T> := [];
    var pos := start;
    PrependedNothing(ReadMany(read, data, start, n));
    for i := 0 to n
      invariant ReadMany(read, data, start, n) == Prepended(values, ReadMany(read, data, pos, n - i))
    {
      var x := read(data, pos);
      if x.None? {
        return None;
      }
      ManyOneMore(read, data, pos, n - i, values);
      values, pos := values + [x.value.0], x.value.1;
    }
    NothingAdded(values);
    r := Some((values, pos));
  }

  // ---- Arrays of 64-bit integers ----

  function Words(ks: seq<U64>): (b: Data)
    ensures |b| == 8 * |ks|
  {
    if ks == [] then [] else ToLe(ks[0], 8) + Words(ks[1..])
  }

  function WordsOf(b: Data): seq<U64>
    requires |b| % 8 == 0
  {
    if b == [] then [] else [Le64(b[..8])] + WordsOf(b[8..])
  }

  lemma {:induction false} ReadsWords(ks: seq<U64>)
    ensures WordsOf(Words(ks)) == ks
  {
    if ks != [] {
      Reads64(ks[0]);
      ReadsWords(ks[1..]);
      assert Words(ks)[..8] == ToLe(ks[0], 8) && Words(ks)[8..] == Words(ks[1..]);
    }
  }

  method EncodeWords(ks: seq<U64>) returns (b: Data)
    ensures b == Words(ks)
  {
    b := [];
    for i := 0 to |ks|
      invariant b == Words(ks[..i])
    {
      WordsOneMore(ks[..i], ks[i]);
      assert ks[..i + 1] == ks[..i] + [ks[i]];
      b := b + ToLe(ks[i], 8);
    }
    assert ks[..|ks|] == ks;
  }

  lemma {:induction false} WordsOneMore(ks: seq<U64>, k: U64)
    ensures Words(ks + [k]) == Words(ks) + ToLe(k, 8)
  {
    if ks == [] {
      assert (ks + [k])[1..] == [];
    } else {
      WordsOneMore(ks[1..], k);
      assert (ks + [k])[1..] == ks[1..] + [k];
      Associates(ToLe(ks[0], 8), Words(ks[1..]), ToLe(k, 8));
    }
  }

  method DecodeWords(b: Data) returns (ks: seq<U64>)
    requires |b| % 8 == 0
    ensures ks == WordsOf(b)
  {
    ks := [];
    var pos := 0;
    assert b[0..] == b;
    while pos + 8 <= |b|
      invariant pos <= |b| && pos % 8 == 0
      invariant WordsOf(b) == ks + WordsOf(b[pos..])
    {
      LastMoves(ks, Le64(b[pos..pos + 8]), WordsOf(b[pos + 8..]));
      assert b[pos..][..8] == b[pos..pos + 8] && b[pos..][8..] == b[pos + 8..];
      ks := ks + [Le64(b[pos..pos + 8])];
      pos := pos + 8;
    }
  }
}
