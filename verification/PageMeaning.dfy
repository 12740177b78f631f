/** Pages in plain words: which slots stand on a page and in what order, without ranks or listings. */
module PageMeaning {
  import opened Base
  import opened Ordering
  import opened SortOrder

  /** The (value, slot) order: descending pages go from high values to low, ties from high slots to low. */
  predicate ComesBefore(dir: Direction, v: nat, a: U32, w: nat, b: U32) {
    match dir
    case Desc => v > w || (v == w && a > b)
    case Asc => v < w || (v == w && a < b)
  }

  predicate Before(dir: Direction, layers: seq<Bitmap>, a: U32, b: U32) {
    ComesBefore(dir, Value(layers, a), a, Value(layers, b), b)
  }

  /** A cursor keeps the low 32 bits of its value. */
  predicate Behind(dir: Direction, layers: seq<Bitmap>, cursor: Option<Cursor>, x: U32) {
    cursor.Some? ==> ComesBefore(dir, cursor.value.sortValue % 0x1_0000_0000, cursor.value.slotId, Value(layers, x), x)
  }

  ghost predicate Ordered(dir: Direction, layers: seq<Bitmap>, ids: seq<U32>) {
    forall i, j :: 0 <= i < j < |ids| ==> Before(dir, layers, ids[i], ids[j])
  }

  /** Up to `n` slots behind the cursor, in order, with every slot that is left out coming later. */
  ghost predicate IsPage(dir: Direction, layers: seq<Bitmap>, c: Bitmap, n: nat, cursor: Option<Cursor>, ids: seq<U32>) {
    && Ordered(dir, layers, ids)
    && (forall x :: x in ids ==> x in c && Behind(dir, layers, cursor, x))
    && (forall x, y :: x in ids && y in c && y !in ids && Behind(dir, layers, cursor, y) ==> Before(dir, layers, x, y))
    && |ids| <= n && (|ids| < n ==> forall y :: y in c && Behind(dir, layers, cursor, y) ==> y in ids)
  }

  lemma RanksCompare(dir: Direction, layers: seq<Bitmap>, a: U32, b: U32)
    ensures ByRank(dir, layers)(a) < ByRank(dir, layers)(b) <==> Before(dir, layers, a, b)
  {
    RankOrder(layers, a, b);
    RankOrder(layers, b, a);
  }

  lemma CursorCompares(dir: Direction, layers: seq<Bitmap>, cursor: Cursor, x: U32)
    ensures Directed(dir, CursorRank(cursor)) < ByRank(dir, layers)(x) <==> Behind(dir, layers, Some(cursor), x)
  {
    var (v, w) := (cursor.sortValue % 0x1_0000_0000, Value(layers, x));
    assert CursorRank(cursor) == v * 0x1_0000_0000 + cursor.slotId && Rank(layers, x) == w * 0x1_0000_0000 + x;
  }

  lemma AfterIsBehind(dir: Direction, layers: seq<Bitmap>, c: Bitmap, cursor: Option<Cursor>, x: U32)
    ensures x in After(dir, layers, c, cursor) <==> x in c && Behind(dir, layers, cursor, x)
  {
    if cursor.Some? {
      CursorCompares(dir, layers, cursor.value, x);
    }
  }

  lemma ListedInOrder(dir: Direction, layers: seq<Bitmap>, c: Bitmap)
    ensures Ordered(dir, layers, Listing(ByRank(dir, layers), c))
  {
    var all := Listing(ByRank(dir, layers), c);
    forall i, j | 0 <= i < j < |all| ensures Before(dir, layers, all[i], all[j]) {
      RanksCompare(dir, layers, all[i], all[j]);
    }
  }

  lemma OrderedPart(dir: Direction, layers: seq<Bitmap>, ids: seq<U32>, i: nat, j: nat)
    requires Ordered(dir, layers, ids) && i <= j <= |ids|
    ensures Ordered(dir, layers, ids[i..j])
  {
  }

  lemma Listed(k: Order, c: Bitmap, y: U32) returns (i: nat)
    requires y in c
    ensures i < |Listing(k, c)| && Listing(k, c)[i] == y
  {
    ListingCovers(k, c, Listing(k, c));
    assert y in Elements(Listing(k, c));
    i :| 0 <= i < |Listing(k, c)| && Listing(k, c)[i] == y;
  }

  /** A slot of the set that a slice from the front leaves out comes after everything in the slice. */
  lemma LeftOutComesLater(dir: Direction, layers: seq<Bitmap>, c: Bitmap, n: nat, x: U32, y: U32)
    requires n <= |c| && x in Listing(ByRank(dir, layers), c)[..n] && y in c && y !in Listing(ByRank(dir, layers), c)[..n]
    ensures Before(dir, layers, x, y)
  {
    var all := Listing(ByRank(dir, layers), c);
    var i :| 0 <= i < n && all[i] == x;
    var j := Listed(ByRank(dir, layers), c, y);
    assert forall k :: 0 <= k < n ==> all[k] in all[..n];
    ListedInOrder(dir, layers, c);
  }

  /** What the reference page holds, in plain words. */
  lemma PageIsPage(dir: Direction, layers: seq<Bitmap>, c: Bitmap, n: nat, cursor: Option<Cursor>)
    ensures IsPage(dir, layers, c, n, cursor, Page(dir, layers, c, n, cursor))
  {
    var here := After(dir, layers, c, cursor);
    var all := Listing(ByRank(dir, layers), here);
    var ids := Page(dir, layers, c, n, cursor);
    var m := |ids|;
    ListedInOrder(dir, layers, here);
    OrderedPart(dir, layers, all, 0, m);
    assert ids == all[..m] == all[0..m];
    forall x | x in ids ensures x in c && Behind(dir, layers, cursor, x) {
      AfterIsBehind(dir, layers, c, cursor, x);
    }
    forall x, y | x in ids && y in c && y !in ids && Behind(dir, layers, cursor, y) ensures Before(dir, layers, x, y) {
      AfterIsBehind(dir, layers, c, cursor, y);
      LeftOutComesLater(dir, layers, here, m, x, y);
    }
    if m < n {
      forall y | y in c && Behind(dir, layers, cursor, y) ensures y in ids {
        AfterIsBehind(dir, layers, c, cursor, y);
        var i := Listed(ByRank(dir, layers), here, y);
      }
    }
  }

  // ---- Without a sort ----

  /** Up to `n` slots below the cursor's, the highest ones, from the highest down. */
  ghost predicate IsNewest(c: Bitmap, n: nat, cursor: Option<Cursor>, ids: seq<U32>) {
    && (forall i, j :: 0 <= i < j < |ids| ==> ids[i] > ids[j])
    && (forall x :: x in ids ==> x in c && (cursor.Some? ==> x < cursor.value.slotId))
    && (forall x, y :: x in ids && y in c && y !in ids && (cursor.Some? ==> y < cursor.value.slotId) ==> y < x)
    && |ids| <= n && (|ids| < n ==> forall y :: y in c && (cursor.Some? ==> y < cursor.value.slotId) ==> y in ids)
  }

  lemma SlotPageIsNewest(c: Bitmap, n: nat, cursor: Option<Cursor>, seen: Option<Cursor>, ids: seq<U32>)
    requires IsPage(Desc, [], c, n, seen, ids)
    requires seen == match cursor { case None => None case Some(k) => Some(Cursor(0, k.slotId)) }
    ensures IsNewest(c, n, cursor, ids)
  {
    assert forall x: U32 :: Behind(Desc, [], seen, x) <==> (cursor.Some? ==> x < cursor.value.slotId);
    forall i, j | 0 <= i < j < |ids| ensures ids[i] > ids[j] {
      assert Before(Desc, [], ids[i], ids[j]);
    }
    forall x, y | x in ids && y in c && y !in ids && (cursor.Some? ==> y < cursor.value.slotId) ensures y < x {
      assert Before(Desc, [], x, y);
    }
  }

  // ---- Pages at an offset ----

  /** The slots that come before one. */
  ghost function Ahead(dir: Direction, layers: seq<Bitmap>, c: Bitmap, x: U32): Bitmap {
    set y | y in c && Before(dir, layers, y, x)
  }

  /** A run of neighbours in the order: `offset` slots come before it, and every other slot lies on one side. */
  ghost predicate IsSlice(dir: Direction, layers: seq<Bitmap>, c: Bitmap, offset: nat, ids: seq<U32>) {
    && Ordered(dir, layers, ids) && (forall x :: x in ids ==> x in c)
    && (ids != [] ==> |Ahead(dir, layers, c, ids[0])| == offset)
    && (forall y :: y in c && y !in ids ==>
          (forall x :: x in ids ==> Before(dir, layers, y, x)) || (forall x :: x in ids ==> Before(dir, layers, x, y)))
  }

  lemma AheadOfListed(dir: Direction, layers: seq<Bitmap>, c: Bitmap, i: nat)
    requires i < |c|
    ensures |Ahead(dir, layers, c, Listing(ByRank(dir, layers), c)[i])| == i
  {
    var k := ByRank(dir, layers);
    var all := Listing(k, c);
    ListedInOrder(dir, layers, c);
    forall y ensures y in Ahead(dir, layers, c, all[i]) <==> y in Elements(all[..i]) {
      if y in Ahead(dir, layers, c, all[i]) {
        var j := Listed(k, c, y);
        assert j < i;
        assert all[..i][j] == y;
      }
    }
    assert Ahead(dir, layers, c, all[i]) == Elements(all[..i]);
    AscendingHasNoRepeats(k, all[..i]);
  }

  lemma BesideSlice(dir: Direction, layers: seq<Bitmap>, c: Bitmap, i: nat, j: nat, y: U32)
    requires i <= j <= |c| && y in c && y !in Listing(ByRank(dir, layers), c)[i..j]
    ensures var ids := Listing(ByRank(dir, layers), c)[i..j];
            (forall x :: x in ids ==> Before(dir, layers, y, x)) || (forall x :: x in ids ==> Before(dir, layers, x, y))
  {
    var all := Listing(ByRank(dir, layers), c);
    var at := Listed(ByRank(dir, layers), c, y);
    ListedInOrder(dir, layers, c);
    assert forall k :: i <= k < j ==> all[k] == all[i..j][k - i];
    forall x | x in all[i..j] ensures if at < i then Before(dir, layers, y, x) else Before(dir, layers, x, y) {
      var k :| i <= k < j && all[k] == x;
    }
  }

  lemma SliceIsSlice(dir: Direction, layers: seq<Bitmap>, c: Bitmap, i: nat, j: nat)
    requires i <= j <= |c|
    ensures IsSlice(dir, layers, c, i, Listing(ByRank(dir, layers), c)[i..j])
  {
    var all := Listing(ByRank(dir, layers), c);
    ListedInOrder(dir, layers, c);
    OrderedPart(dir, layers, all, i, j);
    if i < j {
      AheadOfListed(dir, layers, c, i);
    }
    forall y | y in c && y !in all[i..j]
      ensures (forall x :: x in all[i..j] ==> Before(dir, layers, y, x)) || (forall x :: x in all[i..j] ==> Before(dir, layers, x, y))
    {
      BesideSlice(dir, layers, c, i, j, y);
    }
  }
}
