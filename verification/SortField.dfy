/** Sorting by bit layers: `SortField::top_n` and what it is built from.

    The traversal never sorts the candidates. It walks the layers from the most
    significant bit down, splitting the candidates by bitmap AND and ANDNOT, and
    must still return exactly the page a full sort would. */
module SortField {
  import opened Base
  import opened Ordering
  import opened SortOrder

  // ---- The bits above a layer ----

  /** What the layers from `k` upwards contribute to a slot's value. */
  function Upper(layers: seq<Bitmap>, k: nat, slot: U32): int
    requires k <= |layers|
  {
    Value(layers, slot) - LowValue(layers, k, slot)
  }

  ghost predicate SameUpper(layers: seq<Bitmap>, k: nat, c: Bitmap)
    requires k <= |layers|
  {
    forall x, y :: x in c && y in c ==> Upper(layers, k, x) == Upper(layers, k, y)
  }

  /** Where two slots agree above layer `k`, layer `k` decides. */
  lemma LayerDecides(layers: seq<Bitmap>, k: nat, x: U32, y: U32)
    requires k < |layers|
    requires Upper(layers, k + 1, x) == Upper(layers, k + 1, y)
    ensures (x in layers[k] <==> y in layers[k]) ==> Upper(layers, k, x) == Upper(layers, k, y)
    ensures x in layers[k] && y !in layers[k] ==> Rank(layers, x) > Rank(layers, y)
  {
  }

  // ---- Bifurcation ----

  /** The state of the traversal before layer `k - 1`: winners, then undecided, then the rest. */
  ghost predicate Split(dir: Direction, layers: seq<Bitmap>, k: nat, c: Bitmap, winners: Bitmap, undecided: Bitmap)
    requires k <= |layers|
  {
    && winners <= c && undecided <= c && winners !! undecided
    && AllBefore(ByRank(dir, layers), winners, c - winners)
    && AllBefore(ByRank(dir, layers), undecided, c - winners - undecided)
    && SameUpper(layers, k, undecided)
  }

  /** The slots with the better bit at layer `k`. */
  function Preferred(dir: Direction, layer: Bitmap, c: Bitmap): Bitmap {
    match dir
    case Desc => c * layer
    case Asc => c - layer
  }

  lemma PreferredComeFirst(dir: Direction, layers: seq<Bitmap>, k: nat, c: Bitmap)
    requires k < |layers|
    requires SameUpper(layers, k + 1, c)
    ensures var p := Preferred(dir, layers[k], c);
            && AllBefore(ByRank(dir, layers), p, c - p)
            && SameUpper(layers, k, p)
            && SameUpper(layers, k, c - p)
  {
    forall x, y | x in c && y in c
      ensures (x in layers[k] <==> y in layers[k]) ==> Upper(layers, k, x) == Upper(layers, k, y)
      ensures x in layers[k] && y !in layers[k] ==> Rank(layers, x) > Rank(layers, y)
    {
      LayerDecides(layers, k, x, y);
    }
  }

  lemma SplitNarrows(dir: Direction, layers: seq<Bitmap>, k: nat, c: Bitmap, winners: Bitmap, undecided: Bitmap)
    requires k < |layers|
    requires Split(dir, layers, k + 1, c, winners, undecided)
    ensures Split(dir, layers, k, c, winners, Preferred(dir, layers[k], undecided))
  {
    PreferredComeFirst(dir, layers, k, undecided);
  }

  lemma SplitCollects(dir: Direction, layers: seq<Bitmap>, k: nat, c: Bitmap, winners: Bitmap, undecided: Bitmap)
    requires k < |layers|
    requires Split(dir, layers, k + 1, c, winners, undecided)
    ensures var p := Preferred(dir, layers[k], undecided);
            Split(dir, layers, k, c, winners + p, undecided - p)
  {
    PreferredComeFirst(dir, layers, k, undecided);
  }

  /** The slot at one end of a bitmap (`iter()` or `iter().rev()`). */
  method EndSlot(dir: Direction, c: Bitmap) returns (m: U32)
    requires c != {}
    ensures m in c
    ensures forall x :: x in c && x != m ==> Directed(dir, m) < Directed(dir, x)
  {
    m :| m in c;
    var rest := c - {m};
    while rest != {}
      invariant m in c && rest <= c && m !in rest
      invariant forall x :: x in c && x !in rest && x != m ==> Directed(dir, m) < Directed(dir, x)
      decreases |rest|
    {
      var y :| y in rest;
      rest := rest - {y};
      if Directed(dir, y) < Directed(dir, m) {
        m := y;
      }
    }
  }

  /** The first `n` slots of a bitmap in slot order. */
  method TakeSlots(dir: Direction, c: Bitmap, n: nat) returns (taken: Bitmap)
    ensures taken <= c
    ensures |taken| == Min(n, |c|)
    ensures forall x, y :: x in taken && y in c - taken ==> Directed(dir, x) < Directed(dir, y)
  {
    taken := {};
    while |taken| < n && taken != c
      invariant taken <= c
      invariant |taken| <= Min(n, |c|)
      invariant forall x, y :: x in taken && y in c - taken ==> Directed(dir, x) < Directed(dir, y)
      decreases n - |taken|
    {
      var m := EndSlot(dir, c - taken);
      assert |taken| < |c| by {
        if |taken| == |c| {
          SubsetOfSameSize(taken, c);
        }
      }
      taken := taken + {m};
    }
  }

  lemma EqualValuesOrderBySlot(dir: Direction, layers: seq<Bitmap>, c: Bitmap, taken: Bitmap)
    requires SameUpper(layers, 0, c)
    requires taken <= c
    requires forall x, y :: x in taken && y in c - taken ==> Directed(dir, x) < Directed(dir, y)
    ensures AllBefore(ByRank(dir, layers), taken, c - taken)
  {
    var k := ByRank(dir, layers);
    forall x, y | x in taken && y in c - taken
      ensures k(x) < k(y)
    {
      assert Upper(layers, 0, x) == Value(layers, x) && Upper(layers, 0, y) == Value(layers, y);
      assert Directed(dir, x) < Directed(dir, y);
      RankOrder(layers, x, y);
      RankOrder(layers, y, x);
    }
  }

  /** The traversal's loop invariant: the split, and how many winners are still wanted. */
  ghost predicate Narrowing(dir: Direction, layers: seq<Bitmap>, k: nat, c: Bitmap, limit: nat,
                            winners: Bitmap, undecided: Bitmap, wanted: nat)
    requires k <= |layers|
  {
    && Split(dir, layers, k, c, winners, undecided)
    && |winners| + wanted == limit
    && wanted <= |undecided|
  }

  lemma PartSizes(c: Bitmap, p: Bitmap, w: Bitmap)
    requires p <= c && w !! c
    ensures |c| == |p| + |c - p|
    ensures |w + p| == |w| + |p|
  {
    assert c == p + (c - p);
  }

  lemma {:induction false} Collected(dir: Direction, layers: seq<Bitmap>, k: nat, c: Bitmap, limit: nat,
                  winners: Bitmap, undecided: Bitmap, wanted: nat)
    requires k < |layers|
    requires Narrowing(dir, layers, k + 1, c, limit, winners, undecided, wanted)
    requires |Preferred(dir, layers[k], undecided)| <= wanted
    ensures var p := Preferred(dir, layers[k], undecided);
            Narrowing(dir, layers, k, c, limit, winners + p, undecided - p, wanted - |p|)
  {
    SplitCollects(dir, layers, k, c, winners, undecided);
    PartSizes(undecided, Preferred(dir, layers[k], undecided), winners);
  }

  lemma Skipped(dir: Direction, layers: seq<Bitmap>, k: nat, c: Bitmap, limit: nat,
                winners: Bitmap, undecided: Bitmap, wanted: nat)
    requires k < |layers|
    requires Narrowing(dir, layers, k + 1, c, limit, winners, undecided, wanted)
    requires Preferred(dir, layers[k], undecided) == {}
    ensures Narrowing(dir, layers, k, c, limit, winners, undecided, wanted)
  {
    Collected(dir, layers, k, c, limit, winners, undecided, wanted);
    assert winners + {} == winners && undecided - {} == undecided;
  }

  /** One layer of the traversal. */
  method NarrowByLayer(dir: Direction, layers: seq<Bitmap>, bit: nat, ghost c: Bitmap, ghost limit: nat,
                       winners: Bitmap, undecided: Bitmap, wanted: nat)
    returns (winners': Bitmap, undecided': Bitmap, wanted': nat)
    requires bit < |layers|
    requires Narrowing(dir, layers, bit + 1, c, limit, winners, undecided, wanted)
    ensures Narrowing(dir, layers, bit, c, limit, winners', undecided', wanted')
  {
    winners', undecided', wanted' := winners, undecided, wanted;
    var preferred := Preferred(dir, layers[bit], undecided);
    if preferred == {} {
      Skipped(dir, layers, bit, c, limit, winners, undecided, wanted);
    } else if |preferred| >= wanted {
      SplitNarrows(dir, layers, bit, c, winners, undecided);
      undecided' := preferred;
    } else {
      Collected(dir, layers, bit, c, limit, winners, undecided, wanted);
      winners', undecided', wanted' := winners + preferred, undecided - preferred, wanted - |preferred|;
    }
  }

  lemma WinnersAndTakenComeFirst(dir: Direction, layers: seq<Bitmap>, c: Bitmap, limit: nat,
                                 winners: Bitmap, undecided: Bitmap, wanted: nat, taken: Bitmap)
    requires Narrowing(dir, layers, 0, c, limit, winners, undecided, wanted)
    requires taken <= undecided && |taken| == wanted
    requires forall x, y :: x in taken && y in undecided - taken ==> Directed(dir, x) < Directed(dir, y)
    ensures winners + taken <= c && |winners + taken| == limit
    ensures AllBefore(ByRank(dir, layers), winners + taken, c - (winners + taken))
  {
    EqualValuesOrderBySlot(dir, layers, undecided, taken);
  }

  /** `bifurcate_with_layers`: the set of the first `limit` candidates, without sorting them. */
  method Bifurcate(dir: Direction, layers: seq<Bitmap>, c: Bitmap, limit: nat) returns (top: Bitmap)
    ensures top <= c
    ensures |top| == Min(limit, |c|)
    ensures AllBefore(ByRank(dir, layers), top, c - top)
  {
    if |c| <= limit {
      return c;
    }
    var winners: Bitmap, undecided, wanted := {}, c, limit;
    var bit := |layers|;
    while bit > 0 && wanted > 0 && undecided != {}
      invariant 0 <= bit <= |layers|
      invariant Narrowing(dir, layers, bit, c, limit, winners, undecided, wanted)
    {
      bit := bit - 1;
      winners, undecided, wanted := NarrowByLayer(dir, layers, bit, c, limit, winners, undecided, wanted);
    }
    if wanted > 0 && undecided != {} {
      var taken := TakeSlots(dir, undecided, wanted);
      WinnersAndTakenComeFirst(dir, layers, c, limit, winners, undecided, wanted, taken);
      return winners + taken;
    }
    return winners;
  }

  // ---- Cursor filtering ----

  /** `(value >> b) & 1 == 1` */
  predicate Bit(value: nat, b: nat) {
    if b == 0 then value % 2 == 1 else Bit(value / 2, b - 1)
  }

  /** The number formed by the lowest `n` bits of a value. */
  function LowBits(value: nat, n: nat): (v: nat)
    ensures v < Pow2(n)
  {
    if n == 0 then 0
    else LowBits(value, n - 1) + (if Bit(value, n - 1) then Pow2(n - 1) else 0)
  }

  lemma {:induction false} LowBitsHalves(value: nat, n: nat)
    requires n >= 1
    ensures LowBits(value, n) == value % 2 + 2 * LowBits(value / 2, n - 1)
  {
    if n > 1 {
      LowBitsHalves(value, n - 1);
    }
  }

  /** Keeping `n` bits changes nothing exactly when the value has no more. */
  lemma {:induction false} LowBitsKeep(value: nat, n: nat)
    ensures LowBits(value, n) <= value
    ensures LowBits(value, n) == value <==> value < Pow2(n)
  {
    if n > 0 {
      LowBitsHalves(value, n);
      LowBitsKeep(value / 2, n - 1);
    }
  }

  lemma HalvedRemainder(v: nat, p: nat)
    requires p >= 1
    ensures v % (2 * p) == v % 2 + 2 * (v / 2 % p)
  {
    var (q, r) := (v / 2 / p, v / 2 % p);
    assert v / 2 == p * q + r;
    assert v == (2 * p) * q + (v % 2 + 2 * r);
    RemainderOf(v, 2 * p, q, v % 2 + 2 * r);
  }

  lemma RemainderOf(v: nat, m: nat, q: nat, r: nat)
    requires v == m * q + r && r < m
    ensures v % m == r
  {
    var (a, b) := (v / m, v % m);
    assert v == m * a + b;
    assert m * (q - a) == m * q - m * a;
    SmallMultiple(m, q - a, b - r);
  }

  lemma SmallMultiple(m: int, d: int, e: int)
    requires 0 <= m && m * d == e && -m < e < m
    ensures e == 0
  {
    assert d >= 1 ==> m * d >= m;
    assert d <= -1 ==> m * d <= -m;
  }

  /** The low bits of a value are its remainder by a power of two. */
  lemma {:induction false} LowBitsAreRemainder(value: nat, n: nat)
    ensures LowBits(value, n) == value % Pow2(n)
  {
    if n > 0 {
      LowBitsHalves(value, n);
      LowBitsAreRemainder(value / 2, n - 1);
      HalvedRemainder(value, Pow2(n - 1));
    }
  }

  /** What the bits from `k` upwards contribute to the cursor value, as far as there are layers. */
  function CursorUpper(layers: seq<Bitmap>, k: nat, value: nat): int {
    LowBits(value, |layers|) - LowBits(value, k)
  }

  /** The filter's loop invariant: confirmed slots follow the cursor, dropped slots precede it,
      the others agree with it on every layer seen so far. */
  ghost predicate Sieved(dir: Direction, layers: seq<Bitmap>, k: nat, value: nat, c: Bitmap, confirmed: Bitmap, equal: Bitmap)
    requires k <= |layers|
  {
    && confirmed <= c && equal <= c
    && (forall x :: x in confirmed ==> Directed(dir, LowBits(value, |layers|)) < Directed(dir, Value(layers, x)))
    && (forall x :: x in equal ==> Upper(layers, k, x) == CursorUpper(layers, k, value))
    && (forall x :: x in c - confirmed - equal ==> Directed(dir, Value(layers, x)) < Directed(dir, LowBits(value, |layers|)))
  }

  lemma SieveStep(layers: seq<Bitmap>, k: nat, value: nat, x: U32)
    requires k < |layers|
    requires Upper(layers, k + 1, x) == CursorUpper(layers, k + 1, value)
    ensures var bitSet := Bit(value, k);
            && ((x in layers[k] <==> bitSet) ==> Upper(layers, k, x) == CursorUpper(layers, k, value))
            && (x in layers[k] && !bitSet ==> Value(layers, x) > LowBits(value, |layers|))
            && (x !in layers[k] && bitSet ==> Value(layers, x) < LowBits(value, |layers|))
  {
  }

  method SieveByLayer(dir: Direction, layers: seq<Bitmap>, bit: nat, value: U32, ghost c: Bitmap, confirmed: Bitmap, equal: Bitmap)
    returns (confirmed': Bitmap, equal': Bitmap)
    requires bit < |layers|
    requires Sieved(dir, layers, bit + 1, value, c, confirmed, equal)
    ensures Sieved(dir, layers, bit, value, c, confirmed', equal')
  {
    forall x | x in equal
      ensures var bitSet := Bit(value, bit);
            && ((x in layers[bit] <==> bitSet) ==> Upper(layers, bit, x) == CursorUpper(layers, bit, value))
            && (x in layers[bit] && !bitSet ==> Value(layers, x) > LowBits(value, |layers|))
            && (x !in layers[bit] && bitSet ==> Value(layers, x) < LowBits(value, |layers|))
    {
      SieveStep(layers, bit, value, x);
    }
    confirmed' := confirmed;
    var bitSet := Bit(value, bit);
    if dir == Desc {
      if bitSet {
        confirmed', equal' := confirmed + (equal - layers[bit]), equal * layers[bit];
      } else {
        equal' := equal - layers[bit];
      }
    } else {
      if bitSet {
        equal' := equal * layers[bit];
      } else {
        confirmed', equal' := confirmed + equal * layers[bit], equal - layers[bit];
      }
    }
  }

  /** A 32-bit value cut down to the layers. */
  function MaskValue(layers: seq<Bitmap>, value: U32): (m: U32)
    ensures m == LowBits(value, |layers|)
  {
    LowBitsKeep(value, |layers|);
    LowBits(value, |layers|)
  }

  /** The cursor as the layers can see it. */
  function MaskCursor(layers: seq<Bitmap>, cursor: Option<Cursor>): Option<Cursor> {
    match cursor
    case None => None
    case Some(k) => Some(Cursor(MaskValue(layers, k.sortValue % 0x1_0000_0000), k.slotId))
  }

  lemma {:induction false} MaskedPosition(dir: Direction, layers: seq<Bitmap>, c: Bitmap, cursor: Cursor)
    ensures After(dir, layers, c, MaskCursor(layers, Some(cursor))) ==
            AfterKey(ByRank(dir, layers), c,
                     Directed(dir, LowBits(cursor.sortValue % 0x1_0000_0000, |layers|) * 0x1_0000_0000 + cursor.slotId))
  {
    var m := MaskValue(layers, cursor.sortValue % 0x1_0000_0000);
    assert CursorRank(Cursor(m, cursor.slotId)) == m * 0x1_0000_0000 + cursor.slotId;
  }

  lemma SieveEnds(dir: Direction, layers: seq<Bitmap>, k: nat, value: nat, slot: U32, c: Bitmap,
                  confirmed: Bitmap, equal: Bitmap, tail: Bitmap)
    requires k <= |layers| && (k == 0 || equal == {})
    requires Sieved(dir, layers, k, value, c, confirmed, equal)
    requires tail == set x | x in equal && Directed(dir, slot) < Directed(dir, x)
    ensures confirmed + tail == AfterKey(ByRank(dir, layers), c, Directed(dir, LowBits(value, |layers|) * 0x1_0000_0000 + slot))
  {
    forall x | x in c
      ensures x in confirmed + tail <==> Directed(dir, LowBits(value, |layers|) * 0x1_0000_0000 + slot) < Directed(dir, Rank(layers, x))
    {
      if x in equal {
        assert Value(layers, x) == LowBits(value, |layers|);
      }
    }
  }

  method Sieve(dir: Direction, layers: seq<Bitmap>, c: Bitmap, value: U32, slot: U32) returns (kept: Bitmap)
    ensures kept == AfterKey(ByRank(dir, layers), c, Directed(dir, LowBits(value, |layers|) * 0x1_0000_0000 + slot))
  {
    var confirmed: Bitmap, equal := {}, c;
    var bit := |layers|;
    while bit > 0 && equal != {}
      invariant 0 <= bit <= |layers|
      invariant Sieved(dir, layers, bit, value, c, confirmed, equal)
    {
      bit := bit - 1;
      confirmed, equal := SieveByLayer(dir, layers, bit, value, c, confirmed, equal);
    }
    var tail := set x | x in equal && Directed(dir, slot) < Directed(dir, x);
    SieveEnds(dir, layers, bit, value, slot, c, confirmed, equal, tail);
    return confirmed + tail;
  }

  /** `apply_cursor_filter_with_layers`: keeps exactly the candidates after the cursor. */
  method ApplyCursor(dir: Direction, layers: seq<Bitmap>, c: Bitmap, cursor: Cursor) returns (kept: Bitmap)
    ensures kept == After(dir, layers, c, MaskCursor(layers, Some(cursor)))
  {
    MaskedPosition(dir, layers, c, cursor);
    kept := Sieve(dir, layers, c, cursor.sortValue % 0x1_0000_0000, cursor.slotId);
  }

  // ---- Sorting the page ----

  datatype Entry = Entry(slot: U32, value: nat)

  /** The comparator of `sort_unstable_by`: by value, ties by slot, in the sort direction. */
  predicate EntryBefore(dir: Direction, a: Entry, b: Entry) {
    || Directed(dir, a.value) < Directed(dir, b.value)
    || (a.value == b.value && Directed(dir, a.slot) < Directed(dir, b.slot))
  }

  ghost predicate EntriesSorted(dir: Direction, s: seq<Entry>) {
    forall i, j :: 0 <= i < j < |s| ==> EntryBefore(dir, s[i], s[j])
  }

  /** The insertion point of an entry in a sorted list. */
  method InsertionPoint(dir: Direction, s: seq<Entry>, e: Entry) returns (i: nat)
    requires EntriesSorted(dir, s)
    requires forall j :: 0 <= j < |s| ==> s[j].slot != e.slot
    ensures i <= |s|
    ensures forall j :: 0 <= j < i ==> EntryBefore(dir, s[j], e)
    ensures forall j :: i <= j < |s| ==> EntryBefore(dir, e, s[j])
  {
    i := 0;
    while i < |s| && EntryBefore(dir, s[i], e)
      invariant i <= |s|
      invariant forall j :: 0 <= j < i ==> EntryBefore(dir, s[j], e)
    {
      i := i + 1;
    }
  }

  /** `reconstruct_value`: ORs one bit per layer that holds the slot. */
  method ReconstructValue(layers: seq<Bitmap>, slot: U32) returns (value: nat)
    ensures value == Value(layers, slot)
  {
    value := 0;
    for bit := 0 to |layers|
      invariant value == LowValue(layers, bit, slot)
    {
      if slot in layers[bit] {
        value := value + Pow2(bit);
      }
    }
  }

  /** Every entry carries the value of its slot, and no slot occurs twice. */
  ghost predicate EntriesOf(layers: seq<Bitmap>, c: Bitmap, s: seq<Entry>) {
    && (forall i :: 0 <= i < |s| ==> s[i].slot in c && s[i].value == Value(layers, s[i].slot))
    && (forall x :: x in c ==> Entry(x, Value(layers, x)) in s)
  }

  lemma InsertedInOrder(dir: Direction, s: seq<Entry>, e: Entry, i: nat)
    requires EntriesSorted(dir, s)
    requires i <= |s|
    requires forall j :: 0 <= j < i ==> EntryBefore(dir, s[j], e)
    requires forall j :: i <= j < |s| ==> EntryBefore(dir, e, s[j])
    ensures EntriesSorted(dir, s[..i] + [e] + s[i..])
  {
  }

  lemma InsertedEntries(layers: seq<Bitmap>, c: Bitmap, s: seq<Entry>, e: Entry, i: nat)
    requires EntriesOf(layers, c, s)
    requires e.value == Value(layers, e.slot)
    requires i <= |s|
    ensures EntriesOf(layers, c + {e.slot}, s[..i] + [e] + s[i..])
  {
    var t := s[..i] + [e] + s[i..];
    assert s == s[..i] + s[i..];
    assert forall y :: y in t <==> y in s || y == e;
  }

  /** Collects the candidates with their values and sorts them. */
  method SortedEntries(dir: Direction, layers: seq<Bitmap>, c: Bitmap) returns (s: seq<Entry>)
    ensures EntriesOf(layers, c, s)
    ensures EntriesSorted(dir, s)
  {
    s := [];
    var left := c;
    while left != {}
      invariant left <= c
      invariant EntriesOf(layers, c - left, s)
      invariant EntriesSorted(dir, s)
      decreases |left|
    {
      var slot :| slot in left;
      var value := ReconstructValue(layers, slot);
      var e := Entry(slot, value);
      var i := InsertionPoint(dir, s, e);
      InsertedInOrder(dir, s, e, i);
      InsertedEntries(layers, c - left, s, e, i);
      s := s[..i] + [e] + s[i..];
      assert c - left + {slot} == c - (left - {slot});
      left := left - {slot};
    }
    assert c - left == c;
  }

  function Slots(s: seq<Entry>): (ids: seq<U32>)
    ensures |ids| == |s|
    ensures forall i :: 0 <= i < |s| ==> ids[i] == s[i].slot
  {
    seq(|s|, i requires 0 <= i < |s| => s[i].slot)
  }

  lemma SortedEntriesAreListing(dir: Direction, layers: seq<Bitmap>, c: Bitmap, s: seq<Entry>)
    requires EntriesOf(layers, c, s)
    requires EntriesSorted(dir, s)
    ensures Slots(s) == Listing(ByRank(dir, layers), c)
  {
    var ids := Slots(s);
    forall i, j | 0 <= i < j < |ids|
      ensures ByRank(dir, layers)(ids[i]) < ByRank(dir, layers)(ids[j])
    {
      RankOrder(layers, ids[i], ids[j]);
      RankOrder(layers, ids[j], ids[i]);
      assert EntryBefore(dir, s[i], s[j]);
    }
    forall x ensures x in Elements(ids) <==> x in c {
      if x in c {
        var i :| 0 <= i < |s| && s[i] == Entry(x, Value(layers, x));
        assert ids[i] == x;
      }
    }
    AscendingMembersAreListing(ByRank(dir, layers), c, ids);
    ListingIsUnique(ByRank(dir, layers), c, ids);
  }

  // ---- top_n ----

  /** The first `limit` slots of a set, in order: bifurcate, then sort only those. */
  method FirstInOrder(dir: Direction, layers: seq<Bitmap>, c: Bitmap, limit: nat) returns (ids: seq<U32>)
    ensures ids == Take(Listing(ByRank(dir, layers), c), limit)
  {
    var top := Bifurcate(dir, layers, c, limit);
    FirstSlotsArePage(ByRank(dir, layers), c, top, limit);
    var entries := SortedEntries(dir, layers, top);
    SortedEntriesAreListing(dir, layers, top, entries);
    ids := Slots(entries);
  }

  /** `SortField::top_n`: the page of the candidates after the cursor. */
  method TopN(dir: Direction, layers: seq<Bitmap>, candidates: Bitmap, limit: nat, cursor: Option<Cursor>)
    returns (ids: seq<U32>)
    ensures ids == Page(dir, layers, candidates, limit, MaskCursor(layers, cursor))
  {
    var kept := candidates;
    if cursor.Some? {
      kept := ApplyCursor(dir, layers, candidates, cursor.value);
    }
    ids := FirstInOrder(dir, layers, kept, limit);
  }

  /** The mask changes nothing exactly when the cursor's value fits the layers. */
  lemma MaskIsInvisible(layers: seq<Bitmap>, cursor: Cursor)
    ensures CursorRank(MaskCursor(layers, Some(cursor)).value) == CursorRank(cursor)
            <==> cursor.sortValue % 0x1_0000_0000 < Pow2(|layers|)
  {
    LowBitsKeep(cursor.sortValue % 0x1_0000_0000, |layers|);
  }
}
