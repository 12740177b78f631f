/** The one order every paginator must agree with.

    A sort field is stored as bit layers: layer `b` holds the slots whose value
    has bit `b` set. Slots are ordered by value and then by slot id. Packing the
    two as `value * 2^32 + slot` turns that order into the order of one integer,
    the slot's rank; descending pages walk ranks downwards. The order without a
    sort field (slot order) is the same with no layers at all. */
module SortOrder {
  import opened Base
  import opened Ordering

  datatype Direction = Desc | Asc

  datatype Cursor = Cursor(sortValue: U64, slotId: U32)

  /** The number formed by the lowest `n` layers at a slot. */
  function LowValue(layers: seq<Bitmap>, n: nat, slot: U32): (v: nat)
    requires n <= |layers|
    ensures v < Pow2(n)
  {
    if n == 0 then 0
    else LowValue(layers, n - 1, slot) + (if slot in layers[n - 1] then Pow2(n - 1) else 0)
  }

  /** The value of a slot: what its layers spell out. */
  function Value(layers: seq<Bitmap>, slot: U32): nat {
    LowValue(layers, |layers|, slot)
  }

  /** The position of a slot in the (value, slot) order. */
  function Rank(layers: seq<Bitmap>, slot: U32): nat {
    Value(layers, slot) * 0x1_0000_0000 + slot
  }

  /** A rank seen in the walking direction. */
  function Directed(dir: Direction, rank: int): int {
    match dir
    case Desc => -rank
    case Asc => rank
  }

  /** The slot order of a sort field in one direction. */
  ghost function ByRank(dir: Direction, layers: seq<Bitmap>): (k: Order)
    ensures forall x :: k(x) == Directed(dir, Rank(layers, x))
  {
    var k := (x: U32) => Directed(dir, Rank(layers, x));
    assert Injective(k) by {
      forall a: U32, b: U32 | k(a) == k(b)
        ensures a == b
      {
        RankOrder(layers, a, b);
      }
    }
    k
  }

  /** Ranks compare as (value, slot) pairs. */
  lemma RankOrder(layers: seq<Bitmap>, a: U32, b: U32)
    ensures Rank(layers, a) == Rank(layers, b) <==> a == b
    ensures Rank(layers, a) < Rank(layers, b) <==>
            Value(layers, a) < Value(layers, b) || (Value(layers, a) == Value(layers, b) && a < b)
  {
  }

  /** The rank a cursor stands for: the executor keeps the low 32 bits of the value. */
  function CursorRank(cursor: Cursor): nat {
    (cursor.sortValue % 0x1_0000_0000) * 0x1_0000_0000 + cursor.slotId
  }

  ghost function After(dir: Direction, layers: seq<Bitmap>, c: Bitmap, cursor: Option<Cursor>): Bitmap {
    match cursor
    case None => c
    case Some(k) => AfterKey(ByRank(dir, layers), c, Directed(dir, CursorRank(k)))
  }

  /** What a page must hold: the first `limit` slots strictly after the cursor. */
  ghost function Page(dir: Direction, layers: seq<Bitmap>, c: Bitmap, limit: nat, cursor: Option<Cursor>): seq<U32> {
    Take(Listing(ByRank(dir, layers), After(dir, layers, c, cursor)), limit)
  }

  lemma Pow2Monotone(a: nat, b: nat)
    requires a <= b
    ensures Pow2(a) <= Pow2(b)
  {
    if a < b {
      Pow2Monotone(a, b - 1);
    }
  }

  lemma Pow2At32()
    ensures Pow2(24) == 0x100_0000
    ensures Pow2(32) == 0x1_0000_0000
  {
    assert Pow2(8) == 256;
    assert Pow2(16) == 65536;
  }

  lemma ValueFits(layers: seq<Bitmap>, slot: U32)
    requires |layers| <= 32
    ensures Value(layers, slot) < 0x1_0000_0000
  {
    Pow2Monotone(|layers|, 32);
    Pow2At32();
  }

  /** The cursor standing at a slot. */
  function CursorAt(layers: seq<Bitmap>, slot: U32): (k: Cursor)
    requires |layers| <= 32
    ensures CursorRank(k) == Rank(layers, slot)
  {
    ValueFits(layers, slot);
    Cursor(Value(layers, slot), slot)
  }

  /** The cursor of the last slot of a page, none for an empty page. */
  function LastCursor(layers: seq<Bitmap>, ids: seq<U32>): Option<Cursor>
    requires |layers| <= 32
  {
    if ids == [] then None else Some(CursorAt(layers, ids[|ids| - 1]))
  }
}
