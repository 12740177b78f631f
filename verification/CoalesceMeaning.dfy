/** What one coalesced work item says about the items it stands for. */
module CoalesceMeaning {
  import opened Base
  import opened Coalesce

  // ---- The order of the items does not matter ----

  lemma SameKept(a: Slots, b: Slots)
    requires AllAscend(a) && AllAscend(b) && a.Keys == b.Keys
    requires forall k :: k in a ==> SlotsAt(a, k) == SlotsAt(b, k)
    ensures a == b
  {
    forall k | k in a ensures a[k] == b[k] {
      assert SlotsAt(a, k) == SlotsAt(b, k);
      AscendingIsUnique(a[k], b[k]);
    }
  }

  lemma SameFilters(a: seq<Item>, b: seq<Item>, k: Key)
    requires multiset(a) == multiset(b)
    ensures Inserts(a, k) == Inserts(b, k) && Removes(a, k) == Removes(b, k)
    ensures InsertKeys(a) == InsertKeys(b) && RemoveKeys(a) == RemoveKeys(b)
  {
    UnionAllSameItems(a, b, (it: Item) => SlotsAt(it.inserts, k));
    UnionAllSameItems(a, b, (it: Item) => SlotsAt(it.removes, k));
    UnionAllSameItems(a, b, (it: Item) => it.inserts.Keys);
    UnionAllSameItems(a, b, (it: Item) => it.removes.Keys);
  }

  lemma KeptListsAscend(items: seq<Item>, r: Item)
    requires FiltersCoalesced(items, r)
    ensures AllAscend(r.inserts) && AllAscend(r.removes)
  {
    forall k ensures k in r.inserts ==> Ascends(r.inserts[k]) {
      assert KeptAt(k, r.inserts, Inserts(items, k), Removes(items, k), k in InsertKeys(items), k in RemoveKeys(items));
    }
    forall k ensures k in r.removes ==> Ascends(r.removes[k]) {
      assert KeptAt(k, r.removes, Removes(items, k), Inserts(items, k), k in RemoveKeys(items), k in InsertKeys(items));
    }
  }

  lemma SameFilterParts(a: seq<Item>, b: seq<Item>, x: Item, y: Item)
    requires multiset(a) == multiset(b) && FiltersCoalesced(a, x) && FiltersCoalesced(b, y)
    ensures x.inserts == y.inserts && x.removes == y.removes
  {
    forall k
      ensures (k in x.inserts <==> k in y.inserts) && SlotsAt(x.inserts, k) == SlotsAt(y.inserts, k)
      ensures (k in x.removes <==> k in y.removes) && SlotsAt(x.removes, k) == SlotsAt(y.removes, k)
    {
      SameFilters(a, b, k);
    }
    KeptListsAscend(a, x);
    KeptListsAscend(b, y);
    assert x.inserts.Keys == y.inserts.Keys && x.removes.Keys == y.removes.Keys;
    SameKept(x.inserts, y.inserts);
    SameKept(x.removes, y.removes);
  }

  lemma SameOtherParts(a: seq<Item>, b: seq<Item>, x: Item, y: Item)
    requires multiset(a) == multiset(b) && OthersCoalesced(a, x) && OthersCoalesced(b, y)
    ensures x.sorts == y.sorts && x.aliveRemoves == y.aliveRemoves && x.fields == y.fields
    ensures x.aliveChanged == y.aliveChanged && x.buckets == y.buckets
  {
    UnionAllSameItems(a, b, (it: Item) => it.sorts.Keys);
    UnionAllSameItems(a, b, (it: Item) => Elements(it.aliveRemoves));
    UnionAllSameItems(a, b, (it: Item) => it.fields);
    UnionAllSameItems(a, b, (it: Item) => it.buckets);
    forall f | f in x.sorts ensures x.sorts[f] == y.sorts[f] {
      UnionAllSameItems(a, b, (it: Item) => SortSlotsAt(it.sorts, f));
    }
    AscendingIsUnique(x.aliveRemoves, y.aliveRemoves);
    SameMembers(a, b);
  }

  /** Coalescing the same items in any order gives one and the same item. */
  lemma OrderDoesNotMatter(a: seq<Item>, b: seq<Item>, x: Item, y: Item)
    requires multiset(a) == multiset(b) && IsCoalesced(a, x) && IsCoalesced(b, y)
    ensures x == y
  {
    SameFilterParts(a, b, x, y);
    SameOtherParts(a, b, x, y);
  }

  // ---- Replaying items on a bucket ----

  /** A flush applies an item's removes, then its inserts. */
  function Flushed(bucket: Bitmap, it: Item, k: Key): Bitmap {
    bucket - SlotsAt(it.removes, k) + SlotsAt(it.inserts, k)
  }

  function Replay(bucket: Bitmap, items: seq<Item>, k: Key): Bitmap {
    if items == [] then bucket else Flushed(Replay(bucket, items[..|items| - 1], k), items[|items| - 1], k)
  }

  /** The last operation on the slot under the key is an insert. */
  predicate EndsInserted(items: seq<Item>, k: Key, s: U32) {
    items != [] &&
    var it := items[|items| - 1];
    s in SlotsAt(it.inserts, k) || (s !in SlotsAt(it.removes, k) && EndsInserted(items[..|items| - 1], k, s))
  }

  predicate Touched(items: seq<Item>, k: Key, s: U32) {
    s in Inserts(items, k) || s in Removes(items, k)
  }

  lemma {:induction false} ReplayMember(bucket: Bitmap, items: seq<Item>, k: Key, s: U32)
    ensures s in Replay(bucket, items, k) <==> if Touched(items, k, s) then EndsInserted(items, k, s) else s in bucket
    ensures s in Inserts(items, k) && s !in Removes(items, k) ==> EndsInserted(items, k, s)
    ensures s !in Inserts(items, k) ==> !EndsInserted(items, k, s)
  {
    if items != [] {
      ReplayMember(bucket, items[..|items| - 1], k, s);
    }
  }

  /** How often the slot's membership actually changed while the items were applied in order. */
  function Changes(bucket: Bitmap, items: seq<Item>, k: Key, s: U32): nat {
    if items == [] then 0
    else
      var front := items[..|items| - 1];
      Changes(bucket, front, k, s) +
      if s in Replay(bucket, front, k) <==> s in Replay(bucket, items, k) then 0 else 1
  }

  lemma {:induction false} ChangesParity(bucket: Bitmap, items: seq<Item>, k: Key, s: U32)
    ensures (s in bucket <==> s in Replay(bucket, items, k)) <==> Changes(bucket, items, k, s) % 2 == 0
  {
    if items != [] {
      ChangesParity(bucket, items[..|items| - 1], k, s);
    }
  }

  lemma {:induction false} CoalescedMember(bucket: Bitmap, items: seq<Item>, merged: Item, k: Key, s: U32)
    requires FiltersCoalesced(items, merged)
    ensures s in Inserts(items, k) && s in Removes(items, k) ==>
              (s in Flushed(bucket, merged, k) <==> s in bucket)
    ensures !(s in Inserts(items, k) && s in Removes(items, k)) ==>
              (s in Flushed(bucket, merged, k) <==> s in Replay(bucket, items, k))
  {
    ReplayMember(bucket, items, k, s);
    assert SlotsAt(merged.inserts, k) == Inserts(items, k) - Removes(items, k);
    assert SlotsAt(merged.removes, k) == Removes(items, k) - Inserts(items, k);
  }

  /** Applying the coalesced item gives the bucket the items give in order exactly when every
      slot that was both inserted and removed changed an even number of times. */
  lemma {:induction false} CoalescedReplayExact(bucket: Bitmap, items: seq<Item>, merged: Item, k: Key)
    requires IsCoalesced(items, merged)
    ensures Flushed(bucket, merged, k) == Replay(bucket, items, k) <==>
            forall s :: s in Inserts(items, k) && s in Removes(items, k) ==> Changes(bucket, items, k, s) % 2 == 0
  {
    forall s
      ensures (s in Flushed(bucket, merged, k) <==> s in Replay(bucket, items, k)) <==>
              (s in Inserts(items, k) && s in Removes(items, k) ==> Changes(bucket, items, k, s) % 2 == 0)
    {
      CoalescedMember(bucket, items, merged, k, s);
      ChangesParity(bucket, items, k, s);
    }
  }

  /** No operation on the slot repeats what already holds. */
  ghost predicate EveryOpActs(bucket: Bitmap, items: seq<Item>, k: Key, s: U32) {
    forall n :: 0 <= n < |items| ==>
      && (s in SlotsAt(items[n].inserts, k) ==> s !in Replay(bucket, items[..n], k))
      && (s in SlotsAt(items[n].removes, k) ==> s in Replay(bucket, items[..n], k))
  }

  lemma {:induction false} ChangesCountOps(bucket: Bitmap, items: seq<Item>, k: Key, s: U32)
    requires EveryOpActs(bucket, items, k, s)
    ensures s in Inserts(items, k) || s in Removes(items, k) ==> Changes(bucket, items, k, s) >= 1
    ensures s in Inserts(items, k) && s in Removes(items, k) ==> Changes(bucket, items, k, s) >= 2
  {
    if items != [] {
      var n := |items| - 1;
      var front := items[..n];
      assert forall i :: 0 <= i < n ==> front[i] == items[i] && front[..i] == items[..i];
      ChangesCountOps(bucket, front, k, s);
    }
  }

  ghost predicate ActsAtMostTwice(bucket: Bitmap, items: seq<Item>, k: Key, s: U32) {
    EveryOpActs(bucket, items, k, s) && Changes(bucket, items, k, s) <= 2
  }

  lemma TwiceIsEven(bucket: Bitmap, items: seq<Item>, k: Key, s: U32)
    requires s in Inserts(items, k) && s in Removes(items, k) && ActsAtMostTwice(bucket, items, k, s)
    ensures Changes(bucket, items, k, s) % 2 == 0
  {
    ChangesCountOps(bucket, items, k, s);
  }

  /** With at most two changes per slot and no operation that repeats what already holds,
      coalescing loses nothing. */
  lemma {:induction false} TwoChangesAreSafe(bucket: Bitmap, items: seq<Item>, merged: Item, k: Key)
    requires IsCoalesced(items, merged)
    requires forall s :: Touched(items, k, s) ==> ActsAtMostTwice(bucket, items, k, s)
    ensures Flushed(bucket, merged, k) == Replay(bucket, items, k)
  {
    CoalescedReplayExact(bucket, items, merged, k);
    forall s | s in Inserts(items, k) && s in Removes(items, k) ensures Changes(bucket, items, k, s) % 2 == 0 {
      assert Touched(items, k, s);
      TwiceIsEven(bucket, items, k, s);
    }
  }

  function Op(insert: bool, k: Key, s: U32): Item {
    if insert then EMPTY_ITEM.(inserts := map[k := [s]], fields := {k.field})
    else EMPTY_ITEM.(removes := map[k := [s]], fields := {k.field})
  }

  lemma OpSlots(insert: bool, k: Key, s: U32, o: Key)
    ensures SlotsAt(Op(insert, k, s).inserts, o) == if insert && o == k then {s} else {}
    ensures SlotsAt(Op(insert, k, s).removes, o) == if !insert && o == k then {s} else {}
  {
  }

  lemma LastItem(items: seq<Item>, it: Item, k: Key, bucket: Bitmap)
    ensures Inserts(items + [it], k) == Inserts(items, k) + SlotsAt(it.inserts, k)
    ensures Removes(items + [it], k) == Removes(items, k) + SlotsAt(it.removes, k)
    ensures Replay(bucket, items + [it], k) == Flushed(Replay(bucket, items, k), it, k)
    ensures forall s ::
      Changes(bucket, items + [it], k, s) ==
      Changes(bucket, items, k, s) +
      if s in Replay(bucket, items, k) <==> s in Replay(bucket, items + [it], k) then 0 else 1
  {
    assert (items + [it])[..|items|] == items;
  }

  /** An insert of a slot already present followed by its removal is a single change, yet the
      pair cancels and the removal is lost. */
  lemma OneChangeIsNotEnough(k: Key, s: U32, merged: Item)
    requires IsCoalesced([] + [Op(true, k, s)] + [Op(false, k, s)], merged)
    ensures Changes({s}, [] + [Op(true, k, s)] + [Op(false, k, s)], k, s) == 1
    ensures Replay({s}, [] + [Op(true, k, s)] + [Op(false, k, s)], k) == {}
    ensures Flushed({s}, merged, k) == {s}
  {
    var first := [] + [Op(true, k, s)];
    OpSlots(true, k, s, k);
    OpSlots(false, k, s, k);
    LastItem([], Op(true, k, s), k, {s});
    LastItem(first, Op(false, k, s), k, {s});
    CoalescedMember({s}, first + [Op(false, k, s)], merged, k, s);
    forall x | x != s ensures x !in Flushed({s}, merged, k) {
      CoalescedMember({s}, first + [Op(false, k, s)], merged, k, x);
    }
  }
}
