/** The paginators of the query executor, each proved to return the page of the
    one sort order. */
module Paginators {
  import opened Base
  import opened Ordering
  import opened SortOrder
  import opened SortField

  datatype PageResult = PageResult(ids: seq<U32>, cursor: Option<Cursor>)

  // ---- Simple sort ----

  /** The `retain` predicate of the simple sort: strictly after the cursor, by value then slot. */
  predicate Retained(dir: Direction, cursor: Cursor, e: Entry) {
    EntryBefore(dir, Entry(cursor.slotId, cursor.sortValue % 0x1_0000_0000), e)
  }

  method Retain(dir: Direction, cursor: Cursor, s: seq<Entry>) returns (kept: seq<Entry>)
    requires EntriesSorted(dir, s)
    ensures EntriesSorted(dir, kept)
    ensures forall e :: e in kept <==> e in s && Retained(dir, cursor, e)
  {
    kept := [];
    for i := 0 to |s|
      invariant EntriesSorted(dir, kept)
      invariant forall q, j :: 0 <= q < |kept| && i <= j < |s| ==> EntryBefore(dir, kept[q], s[j])
      invariant forall e :: e in kept <==> e in s[..i] && Retained(dir, cursor, e)
    {
      if Retained(dir, cursor, s[i]) {
        kept := kept + [s[i]];
      }
      assert s[..i + 1] == s[..i] + [s[i]];
    }
    assert s[..|s|] == s;
  }

  lemma RetainedAreAfter(dir: Direction, layers: seq<Bitmap>, c: Bitmap, cursor: Cursor, s: seq<Entry>, kept: seq<Entry>)
    requires EntriesOf(layers, c, s)
    requires forall e :: e in kept <==> e in s && Retained(dir, cursor, e)
    ensures EntriesOf(layers, After(dir, layers, c, Some(cursor)), kept)
  {
    forall x: U32
      ensures Retained(dir, cursor, Entry(x, Value(layers, x)))
              <==> Directed(dir, CursorRank(cursor)) < Directed(dir, Rank(layers, x))
    {
    }
    forall i | 0 <= i < |kept|
      ensures kept[i].slot in After(dir, layers, c, Some(cursor)) && kept[i].value == Value(layers, kept[i].slot)
    {
      assert kept[i] in kept;
    }
  }

  /** `simple_sort_and_paginate` */
  method SimpleSortAndPaginate(dir: Direction, layers: seq<Bitmap>, c: Bitmap, limit: nat, cursor: Option<Cursor>)
    returns (r: PageResult)
    requires |layers| <= 32
    ensures r.ids == Page(dir, layers, c, limit, cursor)
    ensures r.cursor == LastCursor(layers, r.ids)
  {
    var entries := SortedEntries(dir, layers, c);
    if cursor.Some? {
      var kept := Retain(dir, cursor.value, entries);
      RetainedAreAfter(dir, layers, c, cursor.value, entries, kept);
      entries := kept;
    }
    SortedEntriesAreListing(dir, layers, After(dir, layers, c, cursor), entries);
    var ids := Take(Slots(entries), limit);
    r := PageResult(ids, LastCursor(layers, ids));
  }

  // ---- Bit layer traversal ----

  /** `sort_and_paginate`: the traversal, which sees a cursor through the width of the layers. */
  method SortAndPaginate(dir: Direction, layers: seq<Bitmap>, c: Bitmap, limit: nat, cursor: Option<Cursor>)
    returns (r: PageResult)
    requires |layers| <= 32
    ensures r.ids == Page(dir, layers, c, limit, MaskCursor(layers, cursor))
    ensures r.cursor == LastCursor(layers, r.ids)
  {
    var ids := TopN(dir, layers, c, limit, cursor);
    r := PageResult(ids, LastCursor(layers, ids));
  }

  // ---- Slot order ----

  /** A slot-order cursor: only its slot is looked at. */
  function SlotCursor(cursor: Option<Cursor>): Option<Cursor> {
    match cursor
    case None => None
    case Some(k) => Some(Cursor(0, k.slotId))
  }

  /** The slots of a bitmap in slot order. */
  method IterateSlots(dir: Direction, c: Bitmap) returns (s: seq<U32>)
    ensures s == Listing(ByRank(dir, []), c)
  {
    var entries := SortedEntries(dir, [], c);
    SortedEntriesAreListing(dir, [], c, entries);
    s := Slots(entries);
  }

  /** The cursor of a slot-order page: its last slot stands in for the sort value too. */
  function LastSlot(ids: seq<U32>): Option<Cursor> {
    if ids == [] then None else Some(Cursor(ids[|ids| - 1], ids[|ids| - 1]))
  }

  /** `slot_order_paginate_dir` */
  method SlotOrderPaginate(dir: Direction, c: Bitmap, limit: nat, cursor: Option<Cursor>) returns (r: PageResult)
    ensures r.ids == Page(dir, [], c, limit, SlotCursor(cursor))
    ensures r.cursor == LastSlot(r.ids)
  {
    var narrowed := c;
    if cursor.Some? {
      narrowed := set x | x in c && Directed(dir, cursor.value.slotId) < Directed(dir, x);
    }
    assert narrowed == After(dir, [], c, SlotCursor(cursor));
    var slots := IterateSlots(dir, narrowed);
    var ids := Take(slots, limit);
    r := PageResult(ids, LastSlot(ids));
  }

  // ---- Packed sorted keys ----

  function Ranks(layers: seq<Bitmap>, s: seq<U32>): seq<nat> {
    if s == [] then [] else [Rank(layers, s[0])] + Ranks(layers, s[1..])
  }

  lemma {:induction false} RanksAt(layers: seq<Bitmap>, s: seq<U32>)
    ensures |Ranks(layers, s)| == |s|
    ensures forall i :: 0 <= i < |s| ==> Ranks(layers, s)[i] == Rank(layers, s[i])
  {
    if s != [] {
      RanksAt(layers, s[1..]);
    }
  }

  /** The keys of a cache entry: the ranks of its slots in listing order. */
  ghost predicate PackedKeys(dir: Direction, layers: seq<Bitmap>, c: Bitmap, keys: seq<U64>) {
    |keys| == |c| && keys == Ranks(layers, Listing(ByRank(dir, layers), c))
  }

  /** Packing a value and a slot loses nothing. */
  lemma Unpack(layers: seq<Bitmap>, slot: U32)
    ensures Rank(layers, slot) % 0x1_0000_0000 == slot
    ensures Rank(layers, slot) / 0x1_0000_0000 == Value(layers, slot)
  {
    Quotient(Value(layers, slot), 0x1_0000_0000, slot);
  }

  /** `partition_point`: how many keys are at or before a position. */
  method PartitionPoint(dir: Direction, keys: seq<U64>, position: nat) returns (p: nat)
    requires forall i, j :: 0 <= i < j < |keys| ==> Directed(dir, keys[i]) < Directed(dir, keys[j])
    ensures p <= |keys|
    ensures forall i :: 0 <= i < p ==> Directed(dir, keys[i]) <= Directed(dir, position)
    ensures forall i :: p <= i < |keys| ==> Directed(dir, position) < Directed(dir, keys[i])
  {
    p := 0;
    var hi := |keys|;
    while p < hi
      invariant p <= hi <= |keys|
      invariant forall i :: 0 <= i < p ==> Directed(dir, keys[i]) <= Directed(dir, position)
      invariant forall i :: hi <= i < |keys| ==> Directed(dir, position) < Directed(dir, keys[i])
    {
      var mid := (p + hi) / 2;
      if Directed(dir, keys[mid]) <= Directed(dir, position) {
        p := mid + 1;
      } else {
        hi := mid;
      }
    }
  }

  /** What a page of packed keys leaves: nothing to resume from once the end is reached. */
  ghost function KeysCursor(dir: Direction, layers: seq<Bitmap>, c: Bitmap, limit: nat, cursor: Option<Cursor>): Option<Cursor>
    requires |layers| <= 32
  {
    if |After(dir, layers, c, cursor)| <= limit then None
    else LastCursor(layers, Page(dir, layers, c, limit, cursor))
  }

  /** The keys before `start` are at or before the cursor, the others after it. */
  ghost predicate CutAt(dir: Direction, keys: seq<U64>, cursor: Option<Cursor>, start: nat) {
    && start <= |keys|
    && match cursor
       case None => start == 0
       case Some(k) =>
         && (forall i :: 0 <= i < start ==> Directed(dir, keys[i]) <= Directed(dir, CursorRank(k)))
         && (forall i :: start <= i < |keys| ==> Directed(dir, CursorRank(k)) < Directed(dir, keys[i]))
  }

  lemma CutKeys(dir: Direction, layers: seq<Bitmap>, c: Bitmap, keys: seq<U64>, cursor: Option<Cursor>, start: nat)
    requires PackedKeys(dir, layers, c, keys)
    requires CutAt(dir, keys, cursor, start)
    ensures Listing(ByRank(dir, layers), After(dir, layers, c, cursor)) == Listing(ByRank(dir, layers), c)[start..]
    ensures |After(dir, layers, c, cursor)| == |keys| - start
  {
    var k := ByRank(dir, layers);
    var all := Listing(k, c);
    RanksAt(layers, all);
    if cursor.Some? {
      SuffixFollows(k, c, all, Directed(dir, CursorRank(cursor.value)), start);
    }
  }

  function SlotsOfKeys(keys: seq<U64>): (ids: seq<U32>)
    ensures |ids| == |keys|
    ensures forall i :: 0 <= i < |keys| ==> ids[i] == keys[i] % 0x1_0000_0000
  {
    seq(|keys|, i requires 0 <= i < |keys| => keys[i] % 0x1_0000_0000)
  }

  lemma KeysSlice(dir: Direction, layers: seq<Bitmap>, c: Bitmap, keys: seq<U64>, start: nat, end: nat)
    requires PackedKeys(dir, layers, c, keys)
    requires start <= end <= |keys|
    ensures SlotsOfKeys(keys[start..end]) == Listing(ByRank(dir, layers), c)[start..end]
  {
    var all := Listing(ByRank(dir, layers), c);
    RanksAt(layers, all);
    var ids := SlotsOfKeys(keys[start..end]);
    forall i | 0 <= i < end - start
      ensures ids[i] == all[start..end][i]
    {
      Unpack(layers, all[start + i]);
    }
  }

  /** The cursor a packed key spells out. */
  function KeyCursor(key: U64): Cursor {
    Cursor(key / 0x1_0000_0000, key % 0x1_0000_0000)
  }

  lemma KeyCursorIsCursor(layers: seq<Bitmap>, slot: U32, key: U64)
    requires |layers| <= 32
    requires key == Rank(layers, slot)
    ensures KeyCursor(key) == CursorAt(layers, slot)
  {
    Unpack(layers, slot);
  }

  lemma TakeOfSuffix(s: seq<U32>, start: nat, n: nat)
    requires start <= |s|
    ensures Take(s[start..], n) == s[start..Min(start + n, |s|)]
  {
  }

  lemma KeysAscend(dir: Direction, layers: seq<Bitmap>, c: Bitmap, keys: seq<U64>)
    requires PackedKeys(dir, layers, c, keys)
    ensures forall i, j :: 0 <= i < j < |keys| ==> Directed(dir, keys[i]) < Directed(dir, keys[j])
  {
    var k := ByRank(dir, layers);
    var all := Listing(k, c);
    RanksAt(layers, all);
    assert forall i, j :: 0 <= i < j < |all| ==> k(all[i]) < k(all[j]);
  }

  lemma {:induction false} KeysPage(dir: Direction, layers: seq<Bitmap>, c: Bitmap, keys: seq<U64>, cursor: Option<Cursor>, start: nat, n: nat)
    requires PackedKeys(dir, layers, c, keys)
    requires CutAt(dir, keys, cursor, start)
    ensures |keys| == |c| && |After(dir, layers, c, cursor)| == |c| - start
    ensures SlotsOfKeys(keys[start..Min(start + n, |keys|)]) == Page(dir, layers, c, n, cursor)
    ensures Page(dir, layers, c, n, cursor) == Listing(ByRank(dir, layers), c)[start..Min(start + n, |c|)]
  {
    CutKeys(dir, layers, c, keys, cursor, start);
    KeysSlice(dir, layers, c, keys, start, Min(start + n, |keys|));
    TakeOfSuffix(Listing(ByRank(dir, layers), c), start, n);
  }

  lemma KeysResume(dir: Direction, layers: seq<Bitmap>, c: Bitmap, keys: seq<U64>, cursor: Option<Cursor>, start: nat, n: nat)
    requires |layers| <= 32
    requires PackedKeys(dir, layers, c, keys)
    requires CutAt(dir, keys, cursor, start)
    requires 1 <= n && start + n < |keys|
    ensures KeysCursor(dir, layers, c, n, cursor) == Some(KeyCursor(keys[start + n - 1]))
  {
    KeysPage(dir, layers, c, keys, cursor, start, n);
    RanksAt(layers, Listing(ByRank(dir, layers), c));
    KeyCursorIsCursor(layers, Listing(ByRank(dir, layers), c)[start + n - 1], keys[start + n - 1]);
  }

  method StartIndex(dir: Direction, ghost layers: seq<Bitmap>, ghost c: Bitmap, keys: seq<U64>, cursor: Option<Cursor>)
    returns (start: nat)
    requires PackedKeys(dir, layers, c, keys)
    ensures CutAt(dir, keys, cursor, start)
  {
    start := 0;
    if cursor.Some? {
      KeysAscend(dir, layers, c, keys);
      start := PartitionPoint(dir, keys, CursorRank(cursor.value));
    }
  }

  /** Everything the caller of `execute_from_sorted_keys` gets, from the start index on. */
  lemma KeysOutcome(dir: Direction, layers: seq<Bitmap>, c: Bitmap, keys: seq<U64>, cursor: Option<Cursor>, start: nat, n: nat)
    requires |layers| <= 32
    requires PackedKeys(dir, layers, c, keys)
    requires CutAt(dir, keys, cursor, start)
    ensures |keys| == |c| && |After(dir, layers, c, cursor)| == |c| - start
    ensures SlotsOfKeys(keys[start..Min(start + n, |keys|)]) == Page(dir, layers, c, n, cursor)
    ensures start + n >= |keys| ==> KeysCursor(dir, layers, c, n, cursor) == None
    ensures 1 <= n && start + n < |keys| ==>
              KeysCursor(dir, layers, c, n, cursor) == Some(KeyCursor(keys[start + n - 1]))
  {
    KeysPage(dir, layers, c, keys, cursor, start, n);
    if 1 <= n && start + n < |keys| {
      KeysResume(dir, layers, c, keys, cursor, start, n);
    }
  }

  method PageOfKeys(dir: Direction, layers: seq<Bitmap>, ghost c: Bitmap, keys: seq<U64>, n: nat, cursor: Option<Cursor>)
    returns (r: Option<PageResult>)
    requires |layers| <= 32
    requires PackedKeys(dir, layers, c, keys)
    ensures r.None? <==> n == 0 && c != {} && |After(dir, layers, c, cursor)| == |c|
    ensures r.Some? ==> r.value.ids == Page(dir, layers, c, n, cursor)
    ensures r.Some? && n >= 1 ==> r.value.cursor == KeysCursor(dir, layers, c, n, cursor)
  {
    var start := StartIndex(dir, layers, c, keys, cursor);
    KeysOutcome(dir, layers, c, keys, cursor, start, n);
    var end := Min(start + n, |keys|);
    var ids := SlotsOfKeys(keys[start..end]);
    if end == |keys| {
      r := Some(PageResult(ids, None));
    } else if end == 0 {
      r := None;
    } else {
      r := Some(PageResult(ids, Some(KeyCursor(keys[end - 1]))));
    }
  }

  /** `execute_from_sorted_keys`. `None` stands for the index underflow at `end_idx - 1`. */
  method ExecuteFromSortedKeys(dir: Direction, layers: seq<Bitmap>, ghost c: Bitmap, keys: seq<U64>,
                               limit: nat, maxPage: nat, cursor: Option<Cursor>)
    returns (r: Option<PageResult>)
    requires |layers| <= 32
    requires PackedKeys(dir, layers, c, keys)
    ensures r.None? <==> Min(limit, maxPage) == 0 && c != {} && |After(dir, layers, c, cursor)| == |c|
    ensures r.Some? ==> r.value.ids == Page(dir, layers, c, Min(limit, maxPage), cursor)
    ensures r.Some? && Min(limit, maxPage) >= 1 ==>
              r.value.cursor == KeysCursor(dir, layers, c, Min(limit, maxPage), cursor)
  {
    r := PageOfKeys(dir, layers, c, keys, Min(limit, maxPage), cursor);
  }

  // ---- Radix buckets ----

  const BUCKETS: nat := 256

  /** The bucket of a value: its top 8 bits. */
  function Prefix(value: nat): nat {
    value / 0x100_0000
  }

  function Bucket(layers: seq<Bitmap>, c: Bitmap, prefix: nat): Bitmap {
    set x | x in c && Prefix(Value(layers, x)) == prefix
  }

  ghost predicate IsRadix(layers: seq<Bitmap>, c: Bitmap, buckets: seq<Bitmap>) {
    |buckets| == BUCKETS && forall p :: 0 <= p < BUCKETS ==> buckets[p] == Bucket(layers, c, p)
  }

  /** `RadixSortIndex::from_bitmap` */
  method RadixFromBitmap(layers: seq<Bitmap>, c: Bitmap) returns (buckets: seq<Bitmap>)
    requires |layers| <= 32
    ensures IsRadix(layers, c, buckets)
  {
    buckets := seq(BUCKETS, _ => {});
    var left := c;
    while left != {}
      invariant left <= c
      invariant IsRadix(layers, c - left, buckets)
      decreases |left|
    {
      var slot :| slot in left;
      var value := ReconstructValue(layers, slot);
      ValueFits(layers, slot);
      var p := Prefix(value);
      assert Bucket(layers, c - left, p) + {slot} == Bucket(layers, c - (left - {slot}), p);
      assert forall q :: q != p ==> Bucket(layers, c - left, q) == Bucket(layers, c - (left - {slot}), q);
      buckets := buckets[p := buckets[p] + {slot}];
      left := left - {slot};
    }
    assert c - left == c;
  }

  /** The prefix visited in step `i`. */
  function StepPrefix(dir: Direction, i: nat): int {
    match dir
    case Desc => BUCKETS - 1 - i
    case Asc => i
  }

  /** The slots of the first `i` buckets visited. */
  function Visited(dir: Direction, layers: seq<Bitmap>, c: Bitmap, i: nat): Bitmap {
    set x | x in c && Directed(dir, Prefix(Value(layers, x))) < Directed(dir, StepPrefix(dir, i))
  }

  /** The cursor the radix walk honours. With fewer than 24 layers there is one bucket, and a
      cursor that falls into it is masked to the layers; any other cursor is taken as it is. */
  function RadixCursor(layers: seq<Bitmap>, cursor: Option<Cursor>): Option<Cursor> {
    if cursor.Some? && |layers| < 24 && Prefix(cursor.value.sortValue % 0x1_0000_0000) == 0
    then MaskCursor(layers, cursor)
    else cursor
  }

  /** The position of a cursor's bucket: `(sort_value >> 24) as u8`. */
  function CursorPrefix(cursor: Cursor): nat {
    Prefix(cursor.sortValue % 0x1_0000_0000)
  }

  /** A bucket other than the cursor's lies wholly on one side of the cursor. */
  lemma BucketBesideCursor(dir: Direction, layers: seq<Bitmap>, c: Bitmap, prefix: nat, cursor: Cursor)
    requires prefix != CursorPrefix(cursor)
    ensures var b := Bucket(layers, c, prefix);
            After(dir, layers, b, Some(cursor)) ==
            if Directed(dir, CursorPrefix(cursor)) < Directed(dir, prefix) then b else {}
  {
    forall x | x in Bucket(layers, c, prefix)
      ensures Directed(dir, CursorRank(cursor)) < Directed(dir, Rank(layers, x))
              <==> Directed(dir, CursorPrefix(cursor)) < Directed(dir, prefix)
    {
    }
  }

  lemma FewLayersOneBucket(layers: seq<Bitmap>, c: Bitmap, prefix: nat)
    requires |layers| < 24
    requires prefix > 0
    ensures Bucket(layers, c, prefix) == {}
  {
    Pow2Monotone(|layers|, 24);
    Pow2At32();
  }

  /** In the cursor's own bucket the mask is exactly what the radix cursor promises. */
  lemma CursorBucket(dir: Direction, layers: seq<Bitmap>, c: Bitmap, cursor: Cursor)
    requires |layers| <= 32
    ensures var b := Bucket(layers, c, CursorPrefix(cursor));
            After(dir, layers, b, MaskCursor(layers, Some(cursor))) == After(dir, layers, b, RadixCursor(layers, Some(cursor)))
  {
    var b := Bucket(layers, c, CursorPrefix(cursor));
    if |layers| < 24 {
      if CursorPrefix(cursor) > 0 {
        FewLayersOneBucket(layers, c, CursorPrefix(cursor));
      }
    } else if b != {} {
      var x :| x in b;
      PrefixBounds(|layers|, Value(layers, x), cursor.sortValue % 0x1_0000_0000);
      MaskIsInvisible(layers, cursor);
    }
  }

  /** From 24 layers up, a bucket that holds a value within the layers holds only such values. */
  lemma PrefixBounds(n: nat, v: nat, w: nat)
    requires n >= 24
    requires v < Pow2(n)
    requires Prefix(v) == Prefix(w)
    ensures w < Pow2(n)
  {
    Pow2Splits(n);
  }

  lemma {:induction false} Pow2Splits(n: nat)
    requires n >= 24
    ensures Pow2(n) == Pow2(n - 24) * 0x100_0000
  {
    if n > 24 {
      Pow2Splits(n - 1);
    } else {
      Pow2At32();
    }
  }

  lemma NextBucket(dir: Direction, layers: seq<Bitmap>, c: Bitmap, i: nat)
    requires i < BUCKETS
    ensures Visited(dir, layers, c, i + 1) == Visited(dir, layers, c, i) + Bucket(layers, c, StepPrefix(dir, i))
    ensures AllBefore(ByRank(dir, layers), Visited(dir, layers, c, i), Bucket(layers, c, StepPrefix(dir, i)))
  {
    forall x, y | x in Visited(dir, layers, c, i) && y in Bucket(layers, c, StepPrefix(dir, i))
      ensures Directed(dir, Rank(layers, x)) < Directed(dir, Rank(layers, y))
    {
      RankOrder(layers, x, y);
      RankOrder(layers, y, x);
    }
  }

  /** Which buckets the walk has seen, after the cursor, in order. */
  ghost function Seen(dir: Direction, layers: seq<Bitmap>, c: Bitmap, i: nat, cursor: Option<Cursor>): seq<U32> {
    Listing(ByRank(dir, layers), After(dir, layers, Visited(dir, layers, c, i), cursor))
  }

  lemma SeenExtends(dir: Direction, layers: seq<Bitmap>, c: Bitmap, i: nat, cursor: Option<Cursor>)
    requires i < BUCKETS
    ensures Seen(dir, layers, c, i + 1, cursor) == Seen(dir, layers, c, i, cursor)
            + Listing(ByRank(dir, layers), After(dir, layers, Bucket(layers, c, StepPrefix(dir, i)), cursor))
  {
    NextBucket(dir, layers, c, i);
    var v, b := Visited(dir, layers, c, i), Bucket(layers, c, StepPrefix(dir, i));
    var v', b' := After(dir, layers, v, cursor), After(dir, layers, b, cursor);
    assert After(dir, layers, v + b, cursor) == v' + b';
    assert v' <= v && b' <= b;
    ListingSplits(ByRank(dir, layers), v', b');
  }

  lemma TakeExtends(s: seq<U32>, t: seq<U32>, n: nat)
    ensures |Take(s, n)| <= n
    ensures Take(s + t, n) == Take(s, n) + Take(t, n - |Take(s, n)|)
  {
  }

  lemma {:induction false} SeenOnlyGrows(dir: Direction, layers: seq<Bitmap>, c: Bitmap, i: nat, j: nat, cursor: Option<Cursor>, n: nat)
    requires i <= j <= BUCKETS
    requires |Take(Seen(dir, layers, c, i, cursor), n)| == n
    ensures Take(Seen(dir, layers, c, j, cursor), n) == Take(Seen(dir, layers, c, i, cursor), n)
    decreases j
  {
    if i < j {
      SeenOnlyGrows(dir, layers, c, i, j - 1, cursor, n);
      SeenExtends(dir, layers, c, j - 1, cursor);
      TakeOfLonger(Seen(dir, layers, c, j - 1, cursor), Seen(dir, layers, c, j, cursor), n);
    }
  }

  lemma TakeOfLonger<T>(a: seq<T>, b: seq<T>, n: nat)
    requires a <= b && |Take(a, n)| == n
    ensures Take(b, n) == Take(a, n)
  {
  }

  /** Every slot has been visited at the end. */
  lemma AllVisited(dir: Direction, layers: seq<Bitmap>, c: Bitmap)
    requires |layers| <= 32
    ensures Visited(dir, layers, c, 0) == {}
    ensures Visited(dir, layers, c, BUCKETS) == c
  {
    forall x | x in c
      ensures 0 <= Prefix(Value(layers, x)) < BUCKETS
    {
      ValueFits(layers, x);
    }
  }

  /** The part of one bucket that belongs to the page: skipped before the cursor's bucket, cut at
      the cursor inside it, taken whole after it. */
  method PageOfBucket(dir: Direction, layers: seq<Bitmap>, ghost c: Bitmap, prefix: nat, bucket: Bitmap,
                      limit: nat, cursor: Option<Cursor>)
    returns (ids: seq<U32>)
    requires |layers| <= 32
    requires bucket == Bucket(layers, c, prefix)
    ensures ids == Take(Listing(ByRank(dir, layers), After(dir, layers, bucket, RadixCursor(layers, cursor))), limit)
  {
    if cursor.None? {
      ids := TopN(dir, layers, bucket, limit, None);
    } else if prefix == CursorPrefix(cursor.value) {
      CursorBucket(dir, layers, c, cursor.value);
      ids := TopN(dir, layers, bucket, limit, cursor);
    } else {
      OtherBucket(dir, layers, c, prefix, cursor.value);
      if Directed(dir, CursorPrefix(cursor.value)) < Directed(dir, prefix) {
        ids := TopN(dir, layers, bucket, limit, None);
      } else {
        ids := [];
      }
    }
  }

  lemma OtherBucket(dir: Direction, layers: seq<Bitmap>, c: Bitmap, prefix: nat, cursor: Cursor)
    requires prefix != CursorPrefix(cursor)
    ensures var b := Bucket(layers, c, prefix);
            After(dir, layers, b, RadixCursor(layers, Some(cursor))) ==
            if Directed(dir, CursorPrefix(cursor)) < Directed(dir, prefix) then b else {}
  {
    if |layers| < 24 && CursorPrefix(cursor) == 0 {
      FewLayersOneBucket(layers, c, prefix);
    } else {
      BucketBesideCursor(dir, layers, c, prefix, cursor);
    }
  }

  /** `execute_from_radix` */
  method ExecuteFromRadix(dir: Direction, layers: seq<Bitmap>, ghost c: Bitmap, buckets: seq<Bitmap>,
                          limit: nat, maxPage: nat, cursor: Option<Cursor>)
    returns (r: PageResult)
    requires |layers| <= 32
    requires IsRadix(layers, c, buckets)
    ensures r.ids == Page(dir, layers, c, Min(limit, maxPage), RadixCursor(layers, cursor))
    ensures r.cursor == LastCursor(layers, r.ids)
  {
    var n := Min(limit, maxPage);
    ghost var k := RadixCursor(layers, cursor);
    AllVisited(dir, layers, c);
    var ids: seq<U32> := [];
    assert Seen(dir, layers, c, 0, k) == [];
    var i := 0;
    while i < BUCKETS && |ids| < n
      invariant 0 <= i <= BUCKETS
      invariant ids == Take(Seen(dir, layers, c, i, k), n)
    {
      var prefix := StepPrefix(dir, i);
      var got := PageOfBucket(dir, layers, c, prefix, buckets[prefix], n - |ids|, cursor);
      SeenExtends(dir, layers, c, i, k);
      TakeExtends(Seen(dir, layers, c, i, k),
                  Listing(ByRank(dir, layers), After(dir, layers, Bucket(layers, c, prefix), k)), n);
      ids, i := ids + got, i + 1;
    }
    if |ids| == n {
      SeenOnlyGrows(dir, layers, c, i, BUCKETS, k, n);
    }
    r := PageResult(ids, LastCursor(layers, ids));
  }

  /** The radix cursor stands where the caller's cursor stands exactly when there are 24 layers, the
      cursor's bucket is not the first, or its value fits the layers. */
  lemma RadixCursorExact(layers: seq<Bitmap>, cursor: Cursor)
    ensures CursorRank(RadixCursor(layers, Some(cursor)).value) == CursorRank(cursor) <==>
            |layers| >= 24 || CursorPrefix(cursor) > 0 || cursor.sortValue % 0x1_0000_0000 < Pow2(|layers|)
  {
    MaskIsInvisible(layers, cursor);
  }

  /** Then bucket skipping returns the page that sorting all candidates returns. */
  lemma {:induction false} RadixPageIsSimplePage(dir: Direction, layers: seq<Bitmap>, c: Bitmap, limit: nat, cursor: Option<Cursor>)
    requires cursor.Some? ==> |layers| >= 24 || CursorPrefix(cursor.value) > 0 || cursor.value.sortValue % 0x1_0000_0000 < Pow2(|layers|)
    ensures Page(dir, layers, c, limit, RadixCursor(layers, cursor)) == Page(dir, layers, c, limit, cursor)
  {
    if cursor.Some? {
      RadixCursorExact(layers, cursor.value);
      assert After(dir, layers, c, RadixCursor(layers, cursor)) == After(dir, layers, c, cursor);
    }
  }

  /** The values of a field with this many layers decide where a cursor stands. */
  predicate RadixCursorFits(n: nat, cursor: Cursor) {
    n >= 24 || CursorPrefix(cursor) > 0 || cursor.sortValue % 0x1_0000_0000 < Pow2(n)
  }

  /** Every layer holds the one slot, so its value is the largest. */
  function FullLayers(n: nat, x: U32): seq<Bitmap> {
    seq(n, _ => {x})
  }

  lemma {:induction false} FullValue(n: nat, x: U32, k: nat)
    requires k <= n
    ensures LowValue(FullLayers(n, x), k, x) == Pow2(k) - 1
  {
    if k > 0 {
      FullValue(n, x, k - 1);
    }
  }

  /** A cursor beyond the layers loses the slot it stands at, although that slot comes after it. */
  lemma {:induction false} RadixPagesDiffer(n: nat, cursor: Cursor)
    requires !RadixCursorFits(n, cursor)
    ensures var layers, x := FullLayers(n, cursor.slotId), cursor.slotId;
            Page(Desc, layers, {x}, 1, Some(cursor)) != Page(Desc, layers, {x}, 1, RadixCursor(layers, Some(cursor)))
  {
    var layers, x := FullLayers(n, cursor.slotId), cursor.slotId;
    FullValue(n, x, n);
    assert x in After(Desc, layers, {x}, Some(cursor));
    var masked := RadixCursor(layers, Some(cursor)).value;
    assert masked.sortValue < Pow2(n);
    assert masked.sortValue % 0x1_0000_0000 <= masked.sortValue;
    assert x !in After(Desc, layers, {x}, Some(masked));
    assert After(Desc, layers, {x}, Some(cursor)) == {x} && After(Desc, layers, {x}, Some(masked)) == {};
  }

  /** On every field with this many layers the two pages are the same, exactly when the cursor fits. */
  lemma RadixPagesExact(n: nat, cursor: Cursor)
    ensures (forall dir, layers: seq<Bitmap>, c, limit :: |layers| == n ==>
               Page(dir, layers, c, limit, RadixCursor(layers, Some(cursor))) == Page(dir, layers, c, limit, Some(cursor)))
            <==> RadixCursorFits(n, cursor)
  {
    if RadixCursorFits(n, cursor) {
      forall dir, layers: seq<Bitmap>, c, limit | |layers| == n
        ensures Page(dir, layers, c, limit, RadixCursor(layers, Some(cursor))) == Page(dir, layers, c, limit, Some(cursor))
      {
        RadixPageIsSimplePage(dir, layers, c, limit, Some(cursor));
      }
    } else {
      RadixPagesDiffer(n, cursor);
      assert |FullLayers(n, cursor.slotId)| == n;
    }
  }
}
