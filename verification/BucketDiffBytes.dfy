/** The bytes of the diff log: which files are written back byte for byte, and what an append that was
    torn hides. */
module BucketDiffBytes {
  import opened Base
  import opened Bytes
  import opened BucketDiffLog

  // ---- Bytes that read are written back ----

  /** Every stored bitmap is what the codec writes for it. */
  predicate AllCanonical(c: Codec, data: Data)
    decreases |data|
  {
    match FirstEntry(c, data)
    case None => true
    case Some((d, n)) => c.encode(d.expired) == data[20..n - 4] && AllCanonical(c, data[n..])
  }

  /** The bytes that hold whole and undamaged entries. */
  function Consumed(c: Codec, data: Data): (k: nat)
    ensures k <= |data|
    decreases |data|
  {
    match FirstEntry(c, data)
    case None => 0
    case Some((d, n)) => n + Consumed(c, data[n..])
  }

  lemma Writes64(b: Data)
    requires |b| == 8
    ensures ToLe(Le64(b), 8) == b
  {
    LeIsFaithful(b);
  }

  lemma Writes32(b: Data)
    requires |b| == 4
    ensures ToLe(Le32(b), 4) == b
  {
    LeIsFaithful(b);
  }

  /** Five pieces in a row. */
  lemma InPieces(data: Data, len: nat)
    requires 24 + len <= |data|
    ensures data[..8] + data[8..16] + data[16..20] + data[20..20 + len] == data[..20 + len]
    ensures data[..20 + len] + data[20 + len..24 + len] == data[..24 + len]
  {
  }

  lemma EntryFromPieces(c: Codec, d: Diff, a: Data, b: Data, l: Data, body: Data, sum: Data)
    requires |a| == |b| == 8 && |l| == |sum| == 4 && Le32(l) == |body|
    requires d.before == Le64(a) && d.after == Le64(b) && c.encode(d.expired) == body && Le32(sum) == c.crc(a + b + l + body)
    ensures Encoded(c, d) == a + b + l + body + sum
  {
    Writes64(a);
    Writes64(b);
    Writes32(l);
    Writes32(sum);
  }

  /** An entry is written back byte for byte if its bitmap is. */
  lemma WritesEntry(c: Codec, data: Data, d: Diff, n: nat)
    requires FirstEntry(c, data) == Some((d, n)) && c.encode(d.expired) == data[20..n - 4]
    ensures Encoded(c, d) == data[..n]
  {
    InPieces(data, n - 24);
    EntryFromPieces(c, d, data[..8], data[8..16], data[16..20], data[20..n - 4], data[n - 4..n]);
  }

  lemma {:induction false} WritesBack(c: Codec, data: Data)
    requires AllCanonical(c, data)
    ensures EncodedAll(c, Decoded(c, data)) == data[..Consumed(c, data)]
    decreases |data|
  {
    var first := FirstEntry(c, data);
    if first.Some? {
      WritesEntry(c, data, first.value.0, first.value.1);
      WritesBack(c, data[first.value.1..]);
      WritesOneMore(c, data, first.value.0, first.value.1, Decoded(c, data[first.value.1..]), Consumed(c, data[first.value.1..]));
    }
  }

  lemma WritesOneMore(c: Codec, data: Data, d: Diff, n: nat, more: seq<Diff>, k: nat)
    requires n + k <= |data| && Encoded(c, d) == data[..n] && EncodedAll(c, more) == data[n..][..k]
    ensures EncodedAll(c, [d] + more) == data[..n + k]
  {
    assert ([d] + more)[1..] == more;
    assert data[..n + k] == data[..n] + data[n..][..k];
  }

  /** What the log writes is canonical and whole. */
  lemma {:induction false} WrittenIsCanonical(c: Codec, diffs: seq<Diff>)
    requires Sound(c)
    ensures AllCanonical(c, EncodedAll(c, diffs)) && Consumed(c, EncodedAll(c, diffs)) == |EncodedAll(c, diffs)|
    decreases |diffs|
  {
    if diffs != [] {
      WrittenIsCanonical(c, diffs[1..]);
      WrittenEntry(c, diffs[0], EncodedAll(c, diffs[1..]));
    }
  }

  lemma WrittenEntry(c: Codec, d: Diff, more: Data)
    requires Sound(c)
    ensures var (data, n) := (Encoded(c, d) + more, |Encoded(c, d)|);
            FirstEntry(c, data) == Some((d, n)) && data[n..] == more && data[20..n - 4] == c.encode(d.expired)
  {
    ReadsEntry(c, d, more);
    var tail := ToLe(c.crc(Payload(c, d)), 4) + more;
    assert Encoded(c, d) + more == Payload(c, d) + tail;
    PayloadParts(c, d, tail);
  }

  /** A file is what its entries are written as exactly when it holds whole entries only, each with its
      bitmap as the codec writes it. */
  lemma WritesBackExactly(c: Codec, data: Data)
    requires Sound(c)
    ensures WrittenBack(c, data) <==> Consumed(c, data) == |data| && AllCanonical(c, data)
  {
    if WrittenBack(c, data) {
      WrittenIsCanonical(c, Decoded(c, data));
    } else if AllCanonical(c, data) {
      WritesBack(c, data);
      assert data[..|data|] == data;
    }
  }

  // ---- A torn append ----

  /** Nothing appended behind a torn entry is read before the length in its header is reached. */
  lemma TornEntryHidesAppends(c: Codec, whole: seq<Diff>, torn: Diff, n: nat, later: seq<Diff>)
    requires Sound(c) && 20 <= n && n + |EncodedAll(c, later)| < |Encoded(c, torn)|
    ensures Decoded(c, EncodedAll(c, whole) + (Encoded(c, torn)[..n] + EncodedAll(c, later))) == whole
  {
    var rest := Encoded(c, torn)[..n] + EncodedAll(c, later);
    PayloadParts(c, torn, ToLe(c.crc(Payload(c, torn)), 4));
    assert rest[16..20] == Encoded(c, torn)[16..20];
    Reads32(|c.encode(torn.expired)|);
    ReadsAppended(c, whole, rest);
    assert whole + [] == whole;
  }

  // A codec with long and short bitmaps: two slots a byte, or nothing at all.

  const PLAIN_SIZE: nat := 0x8000_0000

  function PlainByte(b: Bitmap, i: nat): Byte
    requires i < PLAIN_SIZE
  {
    (if 2 * i in b then 1 else 0) + if 2 * i + 1 in b then 2 else 0
  }

  predicate BitAt(b: Byte, odd: bool) {
    if odd then b >= 2 else b % 2 == 1
  }

  function PlainEncode(b: Bitmap): Data {
    if b == {} then [] else seq(PLAIN_SIZE, i requires 0 <= i < PLAIN_SIZE => PlainByte(b, i))
  }

  predicate PlainHas(data: Data, x: U32) {
    x / 2 < |data| && BitAt(data[x / 2], x % 2 == 1)
  }

  function PlainDecode(data: Data): Option<Bitmap> {
    Some(set x: U32 | 0 <= x < 0x1_0000_0000 && PlainHas(data, x))
  }

  const PLAIN: Codec := Codec(PlainEncode, PlainDecode, data => 0)

  lemma PlainBit(b: Bitmap, x: U32)
    ensures BitAt(PlainByte(b, x / 2), x % 2 == 1) <==> x in b
  {
    var i := x / 2;
    if x % 2 == 1 {
      assert x == 2 * i + 1;
    } else {
      assert x == 2 * i;
    }
  }

  lemma PlainHasExactly(b: Bitmap, x: U32)
    ensures PlainHas(PlainEncode(b), x) <==> x in b
  {
    if b != {} {
      assert PlainEncode(b)[x / 2] == PlainByte(b, x / 2);
      PlainBit(b, x);
    }
  }

  lemma DecodesTo(data: Data, b: Bitmap)
    requires forall x: U32 :: PlainHas(data, x) <==> x in b
    ensures PlainDecode(data) == Some(b)
  {
    var r := PlainDecode(data).value;
    forall x: U32 ensures x in r <==> x in b {
      assert PlainHas(data, x) <==> x in b;
    }
    assert r == b;
  }

  lemma PlainRoundTrip(b: Bitmap)
    ensures PlainDecode(PlainEncode(b)) == Some(b)
  {
    forall x: U32 ensures PlainHas(PlainEncode(b), x) <==> x in b {
      PlainHasExactly(b, x);
    }
    DecodesTo(PlainEncode(b), b);
  }

  lemma PlainIsSound()
    ensures Sound(PLAIN)
  {
    forall b ensures PLAIN.decode(PLAIN.encode(b)) == Some(b) && |PLAIN.encode(b)| < 0x1_0000_0000 {
      PlainRoundTrip(b);
    }
  }

  lemma OneEncoded(c: Codec, d: Diff)
    ensures EncodedAll(c, [d]) == Encoded(c, d)
  {
    assert [d][1..] == [];
    assert Encoded(c, d) + [] == Encoded(c, d);
  }

  lemma HeaderHides(c: Codec, torn: Diff, later: Diff)
    requires Sound(c) && |c.encode(torn.expired)| > 20 + |c.encode(later.expired)|
    ensures |Encoded(c, torn)| > 20 && Decoded(c, Encoded(c, later)) == [later]
    ensures Decoded(c, Encoded(c, torn)[..20] + Encoded(c, later)) == []
  {
    OneEncoded(c, later);
    ReadsBack(c, [later]);
    TornEntryHidesAppends(c, [], torn, 20, [later]);
    var rest := Encoded(c, torn)[..20] + Encoded(c, later);
    assert [] + rest == rest;
  }

  /** An append torn behind its header hides a whole one that comes later. */
  lemma WholeEntryIsLost(x: U32) returns (c: Codec, torn: Diff, later: Diff)
    ensures Sound(c) && |Encoded(c, torn)| > 20 && Decoded(c, Encoded(c, later)) == [later]
    ensures Decoded(c, Encoded(c, torn)[..20] + Encoded(c, later)) == []
  {
    c, torn, later := PLAIN, Diff(0, 0, {x}), Diff(0, 0, {});
    PlainIsSound();
    assert |PlainEncode({x})| == PLAIN_SIZE && PlainEncode({}) == [];
    HeaderHides(c, torn, later);
  }
}
