/** Whole sweeps: following returned cursors page by page with any of the
    paginators, and starting a sweep at an offset through the engine's wrapper. */
module CursorWalk {
  import opened Base
  import opened Ordering
  import opened SortOrder
  import opened PageMeaning
  import opened SortField
  import opened Paginators

  // ---- The paginators side by side ----

  datatype Paginator = SimpleSort | LayerSort | SortedKeys | Radix | SlotOrder

  /** The packed keys and the radix buckets a cache entry may hold. */
  datatype Index = Index(keys: seq<U64>, buckets: seq<Bitmap>)

  const NO_INDEX := Index([], [])

  ghost predicate IndexServes(p: Paginator, dir: Direction, layers: seq<Bitmap>, c: Bitmap, index: Index) {
    (p.SortedKeys? ==> PackedKeys(dir, layers, c, index.keys)) && (p.Radix? ==> IsRadix(layers, c, index.buckets))
  }

  /** Slot order looks at no layer. */
  function LayersOf(p: Paginator, layers: seq<Bitmap>): seq<Bitmap> {
    if p.SlotOrder? then [] else layers
  }

  /** The cursor as the paginator reads it. */
  function Honoured(p: Paginator, layers: seq<Bitmap>, cursor: Option<Cursor>): Option<Cursor> {
    match p
    case SimpleSort => cursor
    case LayerSort => MaskCursor(layers, cursor)
    case SortedKeys => cursor
    case Radix => RadixCursor(layers, cursor)
    case SlotOrder => SlotCursor(cursor)
  }

  function PageCursor(p: Paginator, layers: seq<Bitmap>, ids: seq<U32>): Option<Cursor>
    requires |layers| <= 32
  {
    if p.SlotOrder? then LastSlot(ids) else LastCursor(layers, ids)
  }

  /** What is left after a cursor. */
  ghost function Left(p: Paginator, dir: Direction, layers: seq<Bitmap>, c: Bitmap, cursor: Option<Cursor>): Bitmap {
    After(dir, LayersOf(p, layers), c, Honoured(p, layers, cursor))
  }

  ghost function LeftInOrder(p: Paginator, dir: Direction, layers: seq<Bitmap>, c: Bitmap, cursor: Option<Cursor>): seq<U32> {
    Listing(ByRank(dir, LayersOf(p, layers)), Left(p, dir, layers, c, cursor))
  }

  ghost function NextCursor(p: Paginator, dir: Direction, layers: seq<Bitmap>, c: Bitmap, limit: nat, cursor: Option<Cursor>): Option<Cursor>
    requires |layers| <= 32
  {
    if p.SortedKeys? then KeysCursor(dir, layers, c, limit, cursor)
    else PageCursor(p, layers, Take(LeftInOrder(p, dir, layers, c, cursor), limit))
  }

  method OnePage(p: Paginator, dir: Direction, layers: seq<Bitmap>, c: Bitmap, index: Index, limit: nat, cursor: Option<Cursor>)
    returns (r: PageResult)
    requires |layers| <= 32 && limit >= 1 && IndexServes(p, dir, layers, c, index)
    ensures r.ids == Take(LeftInOrder(p, dir, layers, c, cursor), limit)
    ensures r.cursor == NextCursor(p, dir, layers, c, limit, cursor)
  {
    match p
    case SimpleSort => r := SimpleSortAndPaginate(dir, layers, c, limit, cursor);
    case LayerSort => r := SortAndPaginate(dir, layers, c, limit, cursor);
    case SortedKeys =>
      var page := ExecuteFromSortedKeys(dir, layers, c, index.keys, limit, limit, cursor);
      r := page.value;
    case Radix => r := ExecuteFromRadix(dir, layers, c, index.buckets, limit, limit, cursor);
    case SlotOrder => r := SlotOrderPaginate(dir, c, limit, cursor);
  }

  // ---- A returned cursor stands right behind its page ----

  /** After a non-empty page, the next cursor stands exactly behind it. */
  lemma PageAdvances(dir: Direction, layers: seq<Bitmap>, c: Bitmap, limit: nat, cursor: Option<Cursor>)
    requires |layers| <= 32
    requires Page(dir, layers, c, limit, cursor) != []
    ensures var page := Page(dir, layers, c, limit, cursor);
            var rest := After(dir, layers, c, LastCursor(layers, page));
            var here := After(dir, layers, c, cursor);
            && Listing(ByRank(dir, layers), here) == page + Listing(ByRank(dir, layers), rest)
            && |rest| == |here| - |page|
  {
    var k := ByRank(dir, layers);
    var here := After(dir, layers, c, cursor);
    var all := Listing(k, here);
    var page := Page(dir, layers, c, limit, cursor);
    var n := |page|;
    var last := CursorAt(layers, page[n - 1]);
    assert page[n - 1] == all[n - 1];
    ResumeContinues(k, here, n - 1);
    var rest := After(dir, layers, c, Some(last));
    assert k(all[n - 1]) == Directed(dir, CursorRank(last));
    assert all[n - 1] in here;
    assert rest == AfterKey(k, here, k(all[n - 1])) by {
      forall x | x in rest ensures x in here {
      }
    }
    assert all == page + all[n..];
  }

  /** A cursor whose value the layers can hold. */
  predicate CursorFits(layers: seq<Bitmap>, cursor: Option<Cursor>) {
    cursor.Some? ==> cursor.value.sortValue % 0x1_0000_0000 < Pow2(|layers|)
  }

  /** The cursor of a page comes from a slot of the field, so it fits the layers. */
  lemma ReturnedCursorFits(layers: seq<Bitmap>, ids: seq<U32>)
    requires |layers| <= 32
    ensures CursorFits(layers, LastCursor(layers, ids))
  {
    if ids != [] {
      ValueFits(layers, ids[|ids| - 1]);
    }
  }

  /** No paginator reads the cursor of its own page as standing anywhere else than where the page ends. */
  lemma ReturnedCursorIsHonoured(p: Paginator, layers: seq<Bitmap>, ids: seq<U32>)
    requires |layers| <= 32 && ids != []
    ensures CursorRank(Honoured(p, layers, PageCursor(p, layers, ids)).value) ==
            CursorRank(LastCursor(LayersOf(p, layers), ids).value)
  {
    if !p.SlotOrder? {
      ReturnedCursorFits(layers, ids);
      MaskIsInvisible(layers, LastCursor(layers, ids).value);
      RadixCursorExact(layers, LastCursor(layers, ids).value);
    }
  }

  /** After a page that hands out a cursor, exactly what is behind the page is left; a page without one
      was the last. */
  lemma NextPageFollows(p: Paginator, dir: Direction, layers: seq<Bitmap>, c: Bitmap, limit: nat, cursor: Option<Cursor>)
    requires |layers| <= 32 && limit >= 1
    ensures var page := Take(LeftInOrder(p, dir, layers, c, cursor), limit);
            var next := NextCursor(p, dir, layers, c, limit, cursor);
            && (next.None? ==> LeftInOrder(p, dir, layers, c, cursor) == page)
            && (next.Some? ==> LeftInOrder(p, dir, layers, c, cursor) == page + LeftInOrder(p, dir, layers, c, next) &&
                               |Left(p, dir, layers, c, next)| < |Left(p, dir, layers, c, cursor)|)
  {
    var ls := LayersOf(p, layers);
    var page := Take(LeftInOrder(p, dir, layers, c, cursor), limit);
    var next := NextCursor(p, dir, layers, c, limit, cursor);
    if next.Some? {
      PageAdvances(dir, ls, c, limit, Honoured(p, layers, cursor));
      ReturnedCursorIsHonoured(p, layers, page);
      assert Left(p, dir, layers, c, next) == After(dir, ls, c, LastCursor(ls, page));
    }
  }

  /** A client that follows cursors until there is none gets every slot after its first cursor exactly
      once, in order, from any of the paginators. */
  method FollowCursors(p: Paginator, dir: Direction, layers: seq<Bitmap>, c: Bitmap, index: Index, limit: nat, cursor: Option<Cursor>)
    returns (all: seq<U32>)
    requires |layers| <= 32 && limit >= 1 && IndexServes(p, dir, layers, c, index)
    ensures all == LeftInOrder(p, dir, layers, c, cursor)
  {
    all := [];
    var at := cursor;
    NothingAdded(LeftInOrder(p, dir, layers, c, cursor));
    while true
      invariant LeftInOrder(p, dir, layers, c, cursor) == all + LeftInOrder(p, dir, layers, c, at)
      decreases |Left(p, dir, layers, c, at)|
    {
      NextPageFollows(p, dir, layers, c, limit, at);
      var page := OnePage(p, dir, layers, c, index, limit, at);
      if page.cursor.None? {
        return all + page.ids;
      }
      Associates(all, page.ids, LeftInOrder(p, dir, layers, c, page.cursor));
      all, at := all + page.ids, page.cursor;
    }
  }

  // ---- The engine's offset ----

  function SaturatingAdd(a: U64, b: U64): U64 {
    if a + b < 0x1_0000_0000_0000_0000 then a + b else 0xFFFF_FFFF_FFFF_FFFF
  }

  /** A query: whether it sorts, and what the planner chose for it. Without a sort the newest slots come first. */
  datatype Query = Query(sorted: bool, sortDir: Direction, plannedSimple: bool) {
    function Path(c: Bitmap): Paginator {
      if !sorted then SlotOrder else if plannedSimple || |c| < 1000 then SimpleSort else LayerSort
    }

    function Dir(): Direction {
      if sorted then sortDir else Desc
    }
  }

  ghost function InOrder(q: Query, layers: seq<Bitmap>, c: Bitmap): seq<U32> {
    Listing(ByRank(q.Dir(), LayersOf(q.Path(c), layers)), c)
  }

  /** Where the next page starts: the value and slot of the last id, or its slot twice without a sort. */
  function EndOfPage(q: Query, layers: seq<Bitmap>, ids: seq<U32>): Option<Cursor>
    requires |layers| <= 32
  {
    if ids == [] then None
    else
      var last := ids[|ids| - 1];
      ValueFits(layers, last);
      Some(Cursor(if q.sorted then Value(layers, last) else last, last))
  }

  lemma FittingCursorIsSeen(p: Paginator, dir: Direction, layers: seq<Bitmap>, c: Bitmap, n: nat, cursor: Option<Cursor>)
    requires |layers| <= 32 && CursorFits(layers, cursor) && (p.SimpleSort? || p.LayerSort?)
    ensures Page(dir, layers, c, n, Honoured(p, layers, cursor)) == Page(dir, layers, c, n, cursor)
  {
    if cursor.Some? {
      MaskIsInvisible(layers, cursor.value);
      assert After(dir, layers, c, Honoured(p, layers, cursor)) == After(dir, layers, c, cursor);
    }
  }

  /** A 32-bit value as far as `n` bits show it. */
  function Shown(value: U32, n: nat): (v: U32)
    ensures v as int == value as int % Pow2(n)
  {
    LowBitsAreRemainder(value, n);
    LowBitsKeep(value, n);
    value % Pow2(n)
  }

  /** The cursor a sorted path goes by: sorting in memory takes it as it is, up to 32 bits; the traversal keeps
      as many bits of its value as there are layers. */
  function Effective(inMemory: bool, layers: seq<Bitmap>, cursor: Option<Cursor>): Option<Cursor> {
    if cursor.None? || inMemory then cursor
    else Some(Cursor(Shown(cursor.value.sortValue % 0x1_0000_0000, |layers|), cursor.value.slotId))
  }

  lemma HonouredIsEffective(layers: seq<Bitmap>, cursor: Option<Cursor>)
    ensures Honoured(SimpleSort, layers, cursor) == Effective(true, layers, cursor)
    ensures Honoured(LayerSort, layers, cursor) == Effective(false, layers, cursor)
  {
    if cursor.Some? {
      LowBitsAreRemainder(cursor.value.sortValue % 0x1_0000_0000, |layers|);
    }
  }

  /** The reference page of each path, without ranks, paths or a direction that is not the query's. */
  lemma PageInWords(q: Query, layers: seq<Bitmap>, c: Bitmap, n: nat, cursor: Option<Cursor>)
    requires |layers| <= 32
    ensures var ids := Page(q.Dir(), LayersOf(q.Path(c), layers), c, n, Honoured(q.Path(c), layers, cursor));
            && (!q.sorted ==> IsNewest(c, n, cursor, ids))
            && (q.sorted && CursorFits(layers, cursor) ==> IsPage(q.sortDir, layers, c, n, cursor, ids))
            && (q.sorted ==> IsPage(q.sortDir, layers, c, n, Effective(q.plannedSimple || |c| < 1000, layers, cursor), ids))
  {
    if !q.sorted {
      PageIsPage(Desc, [], c, n, SlotCursor(cursor));
      SlotPageIsNewest(c, n, cursor, SlotCursor(cursor), Page(Desc, [], c, n, SlotCursor(cursor)));
    } else {
      HonouredIsEffective(layers, cursor);
      PageIsPage(q.sortDir, layers, c, n, Effective(q.plannedSimple || |c| < 1000, layers, cursor));
      if CursorFits(layers, cursor) {
        FittingCursorIsSeen(q.Path(c), q.sortDir, layers, c, n, cursor);
        PageIsPage(q.sortDir, layers, c, n, cursor);
      }
    }
  }

  /** Small results are sorted in memory, others traverse the layers, unsorted ones go by slot. */
  method Paginate(q: Query, layers: seq<Bitmap>, c: Bitmap, n: nat, cursor: Option<Cursor>) returns (r: PageResult)
    requires |layers| <= 32
    ensures r.ids == Page(q.Dir(), LayersOf(q.Path(c), layers), c, n, Honoured(q.Path(c), layers, cursor))
    ensures r.cursor == PageCursor(q.Path(c), layers, r.ids)
  {
    if !q.sorted {
      r := SlotOrderPaginate(Desc, c, n, cursor);
    } else if q.plannedSimple || |c| < 1000 {
      r := SimpleSortAndPaginate(q.sortDir, layers, c, n, cursor);
    } else {
      r := SortAndPaginate(q.sortDir, layers, c, n, cursor);
    }
  }

  /** `execute`: without a sort the newest slots below the cursor, with one the first slots behind it in the
      order the query asks for. */
  method Execute(q: Query, layers: seq<Bitmap>, c: Bitmap, limit: nat, maxPage: nat, cursor: Option<Cursor>) returns (r: PageResult)
    requires |layers| <= 32
    ensures r.ids == Page(q.Dir(), LayersOf(q.Path(c), layers), c, Min(limit, maxPage), Honoured(q.Path(c), layers, cursor))
    ensures !q.sorted ==> IsNewest(c, Min(limit, maxPage), cursor, r.ids)
    ensures q.sorted && CursorFits(layers, cursor) ==> IsPage(q.sortDir, layers, c, Min(limit, maxPage), cursor, r.ids)
    ensures q.sorted ==> IsPage(q.sortDir, layers, c, Min(limit, maxPage), Effective(q.plannedSimple || |c| < 1000, layers, cursor), r.ids)
    ensures r.cursor == EndOfPage(q, layers, r.ids)
  {
    PageInWords(q, layers, c, Min(limit, maxPage), cursor);
    r := Paginate(q, layers, c, Min(limit, maxPage), cursor);
  }

  /** The page at an offset: a slice of the listing, cut off at the page cap. */
  ghost function OffsetPage(q: Query, layers: seq<Bitmap>, c: Bitmap, limit: U64, offset: U64, maxPage: U64): PageResult
    requires |layers| <= 32
  {
    var all := InOrder(q, layers, c);
    var end := Min(Min(SaturatingAdd(limit, offset), maxPage), |all|);
    var ids := if offset < end then all[offset..end] else [];
    PageResult(ids, PageCursor(q.Path(c), layers, ids))
  }

  /** How many slots an offset page holds, which ones, and in what order. */
  lemma OffsetPageInWords(q: Query, layers: seq<Bitmap>, c: Bitmap, limit: U64, offset: U64, maxPage: U64)
    requires |layers| <= 32
    ensures var ids := OffsetPage(q, layers, c, limit, offset, maxPage).ids;
            && |ids| == (if offset >= maxPage || offset >= |c| then 0 else Min(limit, Min(maxPage - offset, |c| - offset)))
            && (q.sorted ==> IsSlice(q.sortDir, layers, c, offset, ids)) && (!q.sorted ==> IsSlice(Desc, [], c, offset, ids))
  {
    var end := Min(Min(SaturatingAdd(limit, offset), maxPage), |c|);
    if offset < end {
      SliceIsSlice(q.Dir(), LayersOf(q.Path(c), layers), c, offset, end);
    }
  }

  /** Fetches offset + limit, up to the page cap, then drops the first `offset`. */
  method FetchAndDrop(q: Query, layers: seq<Bitmap>, c: Bitmap, limit: U64, offset: U64, maxPage: U64) returns (r: PageResult)
    requires |layers| <= 32
    ensures r == OffsetPage(q, layers, c, limit, offset, maxPage)
  {
    r := Paginate(q, layers, c, Min(SaturatingAdd(limit, offset), maxPage), None);
    assert Honoured(q.Path(c), layers, None) == None;
    if offset > 0 && r.ids != [] {
      if offset >= |r.ids| {
        r := PageResult([], None);
      } else {
        r := PageResult(r.ids[offset..], r.cursor);
      }
    }
  }

  /** `execute_query` without a cursor. */
  method ExecuteAtOffset(q: Query, layers: seq<Bitmap>, c: Bitmap, limit: U64, offset: U64, maxPage: U64) returns (r: PageResult)
    requires |layers| <= 32
    ensures r == OffsetPage(q, layers, c, limit, offset, maxPage)
    ensures |r.ids| == if offset >= maxPage || offset >= |c| then 0 else Min(limit, Min(maxPage - offset, |c| - offset))
    ensures q.sorted ==> IsSlice(q.sortDir, layers, c, offset, r.ids)
    ensures !q.sorted ==> IsSlice(Desc, [], c, offset, r.ids)
  {
    OffsetPageInWords(q, layers, c, limit, offset, maxPage);
    r := FetchAndDrop(q, layers, c, limit, offset, maxPage);
  }

  /** A cursor at position `i` of the listing resumes behind it. */
  lemma CursorResumes(dir: Direction, layers: seq<Bitmap>, c: Bitmap, i: nat)
    requires |layers| <= 32
    requires i < |c|
    ensures var all := Listing(ByRank(dir, layers), c);
            Listing(ByRank(dir, layers), After(dir, layers, c, Some(CursorAt(layers, all[i])))) == all[i + 1..]
  {
    ResumeContinues(ByRank(dir, layers), c, i);
  }

  lemma SliceJoins(s: seq<U32>, i: nat, j: nat)
    requires i <= j <= |s|
    ensures s[i..j] + s[j..] == s[i..]
  {
  }

  /** Behind an offset page that has a cursor, the cursor leaves exactly the rest. */
  lemma OffsetPageContinues(q: Query, layers: seq<Bitmap>, c: Bitmap, limit: U64, offset: U64, maxPage: U64)
    requires |layers| <= 32 && OffsetPage(q, layers, c, limit, offset, maxPage).cursor.Some?
    ensures offset < maxPage && offset < |c|
    ensures var first := OffsetPage(q, layers, c, limit, offset, maxPage);
            first.ids + LeftInOrder(q.Path(c), q.Dir(), layers, c, first.cursor) == InOrder(q, layers, c)[offset..]
  {
    var p, ls := q.Path(c), LayersOf(q.Path(c), layers);
    var all := InOrder(q, layers, c);
    var end := Min(Min(SaturatingAdd(limit, offset), maxPage), |all|);
    var first := OffsetPage(q, layers, c, limit, offset, maxPage);
    CursorResumes(q.Dir(), ls, c, end - 1);
    ReturnedCursorIsHonoured(p, layers, first.ids);
    assert Left(p, q.Dir(), layers, c, first.cursor) == After(q.Dir(), ls, c, Some(CursorAt(ls, all[end - 1])));
    SliceJoins(all, offset, end);
  }

  lemma OffsetPageIsEmpty(q: Query, layers: seq<Bitmap>, c: Bitmap, limit: U64, offset: U64, maxPage: U64)
    requires |layers| <= 32 && limit >= 1 && OffsetPage(q, layers, c, limit, offset, maxPage).cursor.None?
    ensures OffsetPage(q, layers, c, limit, offset, maxPage).ids == []
    ensures offset >= maxPage || offset >= |c|
  {
  }

  lemma WholeTail(s: seq<U32>, i: nat)
    requires i <= |s|
    ensures s[i..|s|] == s[i..] && |s[i..]| == |s| - i
  {
  }

  /** What a client collects that starts at an offset and then follows cursors. It has no gap and no
      repeat unless the offset itself lies beyond the page cap while there are still slots there. */
  method FollowFromOffset(q: Query, layers: seq<Bitmap>, c: Bitmap, limit: U64, offset: U64, maxPage: U64) returns (all: seq<U32>)
    requires |layers| <= 32 && limit >= 1
    ensures all == InOrder(q, layers, c)[Min(offset, |c|)..] <==> offset < maxPage || offset >= |c|
    ensures all == [] || all == InOrder(q, layers, c)[Min(offset, |c|)..]
    ensures all == [] || |all| + offset == |c|
    ensures q.sorted ==> IsSlice(q.sortDir, layers, c, offset, all)
    ensures !q.sorted ==> IsSlice(Desc, [], c, offset, all)
  {
    SliceIsSlice(q.Dir(), LayersOf(q.Path(c), layers), c, Min(offset, |c|), |c|);
    WholeTail(InOrder(q, layers, c), Min(offset, |c|));
    var first := FetchAndDrop(q, layers, c, limit, offset, maxPage);
    all := first.ids;
    if first.cursor.Some? {
      OffsetPageContinues(q, layers, c, limit, offset, maxPage);
      var rest := FollowCursors(q.Path(c), q.Dir(), layers, c, NO_INDEX, Min(limit, maxPage), first.cursor);
      all := all + rest;
    } else {
      OffsetPageIsEmpty(q, layers, c, limit, offset, maxPage);
      assert |InOrder(q, layers, c)[Min(offset, |c|)..]| == |c| - Min(offset, |c|);
    }
  }
}
