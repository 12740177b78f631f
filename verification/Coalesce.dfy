/** Merging the work items the flush thread queued for the cache worker. */
module Coalesce {
  import opened Base

  datatype Key = Key(field: string, value: U64)

  type Slots = map<Key, seq<U32>>

  datatype Item = Item(inserts: Slots, removes: Slots, sorts: map<string, Bitmap>, aliveRemoves: seq<U32>,
                       fields: set<string>, aliveChanged: bool, buckets: Bitmap)

  const EMPTY_ITEM := Item(map[], map[], map[], [], {}, false, {})

  function SlotsAt(m: Slots, k: Key): Bitmap {
    if k in m then Elements(m[k]) else {}
  }

  function SortSlotsAt(m: map<string, Bitmap>, f: string): Bitmap {
    if f in m then m[f] else {}
  }

  predicate Ascends(s: seq<U32>) {
    forall i, j :: 0 <= i < j < |s| ==> s[i] < s[j]
  }

  ghost predicate AllAscend(m: Slots) {
    forall k :: k in m ==> Ascends(m[k])
  }

  // ---- Unions over an item list, blind to its order ----

  function UnionAll<T, A>(items: seq<T>, part: T -> set<A>): set<A> {
    if items == [] then {} else UnionAll(items[..|items| - 1], part) + part(items[|items| - 1])
  }

  lemma {:induction false} UnionAllMember<T, A>(items: seq<T>, part: T -> set<A>, x: A)
    ensures x in UnionAll(items, part) <==> exists i :: 0 <= i < |items| && x in part(items[i])
  {
    if items != [] {
      var front := items[..|items| - 1];
      UnionAllMember(front, part, x);
      assert forall i :: 0 <= i < |front| ==> front[i] == items[i];
    }
  }

  lemma UnionAllSubset<T, A>(a: seq<T>, b: seq<T>, part: T -> set<A>)
    requires forall t :: t in a ==> t in b
    ensures UnionAll(a, part) <= UnionAll(b, part)
  {
    forall x | x in UnionAll(a, part) ensures x in UnionAll(b, part) {
      UnionAllMember(a, part, x);
      UnionAllMember(b, part, x);
      var i :| 0 <= i < |a| && x in part(a[i]);
      assert a[i] in b;
    }
  }

  lemma UnionAllSameItems<T, A>(a: seq<T>, b: seq<T>, part: T -> set<A>)
    requires multiset(a) == multiset(b)
    ensures UnionAll(a, part) == UnionAll(b, part)
  {
    SameMembers(a, b);
    UnionAllSubset(a, b, part);
    UnionAllSubset(b, a, part);
  }

  lemma SameMembers<T>(a: seq<T>, b: seq<T>)
    requires multiset(a) == multiset(b)
    ensures forall t :: t in a <==> t in b
  {
    assert forall t :: t in a <==> t in multiset(a);
    assert forall t :: t in b <==> t in multiset(b);
  }

  function Inserts(items: seq<Item>, k: Key): Bitmap {
    UnionAll(items, (it: Item) => SlotsAt(it.inserts, k))
  }

  function Removes(items: seq<Item>, k: Key): Bitmap {
    UnionAll(items, (it: Item) => SlotsAt(it.removes, k))
  }

  function InsertKeys(items: seq<Item>): set<Key> {
    UnionAll(items, (it: Item) => it.inserts.Keys)
  }

  function RemoveKeys(items: seq<Item>): set<Key> {
    UnionAll(items, (it: Item) => it.removes.Keys)
  }

  function SortSlots(items: seq<Item>, f: string): Bitmap {
    UnionAll(items, (it: Item) => SortSlotsAt(it.sorts, f))
  }

  function SortFields(items: seq<Item>): set<string> {
    UnionAll(items, (it: Item) => it.sorts.Keys)
  }

  function AliveRemoves(items: seq<Item>): Bitmap {
    UnionAll(items, (it: Item) => Elements(it.aliveRemoves))
  }

  function Fields(items: seq<Item>): set<string> {
    UnionAll(items, (it: Item) => it.fields)
  }

  function Buckets(items: seq<Item>): Bitmap {
    UnionAll(items, (it: Item) => it.buckets)
  }

  ghost predicate AnyAlive(items: seq<Item>) {
    exists it :: it in items && it.aliveChanged
  }

  // ---- What coalescing promises ----

  /** The slots a key keeps: strictly ascending, all of one kind minus all of the other; a key
      whose slots were all cancelled against the other map is gone. */
  ghost predicate KeptAt(k: Key, kept: Slots, mine: Bitmap, theirs: Bitmap, listed: bool, shared: bool) {
    && (k in kept <==> listed && !(shared && mine <= theirs))
    && (k in kept ==> Ascends(kept[k]))
    && SlotsAt(kept, k) == mine - theirs
  }

  ghost predicate FiltersCoalesced(items: seq<Item>, r: Item) {
    forall k ::
      && KeptAt(k, r.inserts, Inserts(items, k), Removes(items, k), k in InsertKeys(items), k in RemoveKeys(items))
      && KeptAt(k, r.removes, Removes(items, k), Inserts(items, k), k in RemoveKeys(items), k in InsertKeys(items))
  }

  ghost predicate OthersCoalesced(items: seq<Item>, r: Item) {
    && r.sorts.Keys == SortFields(items)
    && (forall f :: f in r.sorts ==> r.sorts[f] == SortSlots(items, f))
    && Ascends(r.aliveRemoves) && Elements(r.aliveRemoves) == AliveRemoves(items)
    && r.fields == Fields(items)
    && r.aliveChanged == AnyAlive(items)
    && r.buckets == Buckets(items)
  }

  ghost predicate IsCoalesced(items: seq<Item>, r: Item) {
    FiltersCoalesced(items, r) && OthersCoalesced(items, r)
  }

  // ---- Two-pointer difference ----

  lemma ElementsOf(s: seq<U32>, i: nat)
    requires i < |s|
    ensures Elements(s[..i + 1]) == Elements(s[..i]) + {s[i]}
  {
    assert s[..i + 1] == s[..i] + [s[i]];
  }

  /** What has been decided when the pointers stand at i and j. */
  ghost predicate SplitSoFar(a: seq<U32>, b: seq<U32>, i: nat, j: nat, onlyA: seq<U32>, onlyB: seq<U32>)
    requires i <= |a| && j <= |b|
  {
    && Ascends(onlyA) && Ascends(onlyB)
    && (onlyA != [] && i < |a| ==> onlyA[|onlyA| - 1] < a[i])
    && (onlyB != [] && j < |b| ==> onlyB[|onlyB| - 1] < b[j])
    && (i > 0 && j < |b| ==> a[i - 1] < b[j])
    && (j > 0 && i < |a| ==> b[j - 1] < a[i])
    && Elements(onlyA) == Elements(a[..i]) - Elements(b[..j])
    && Elements(onlyB) == Elements(b[..j]) - Elements(a[..i])
  }

  lemma Append(s: seq<U32>, x: U32)
    requires Ascends(s) && (s != [] ==> s[|s| - 1] < x)
    ensures Ascends(s + [x]) && Elements(s + [x]) == Elements(s) + {x}
  {
  }

  lemma AboveAll(s: seq<U32>, j: nat, x: U32)
    requires Ascends(s) && j <= |s| && (j > 0 ==> s[j - 1] < x)
    ensures x !in Elements(s[..j])
  {
  }

  method SymmetricDifferenceSorted(a: seq<U32>, b: seq<U32>) returns (onlyA: seq<U32>, onlyB: seq<U32>)
    requires Ascends(a) && Ascends(b)
    ensures Ascends(onlyA) && Elements(onlyA) == Elements(a) - Elements(b)
    ensures Ascends(onlyB) && Elements(onlyB) == Elements(b) - Elements(a)
  {
    onlyA, onlyB := [], [];
    var i, j := 0, 0;
    while i < |a| && j < |b|
      invariant i <= |a| && j <= |b|
      invariant SplitSoFar(a, b, i, j, onlyA, onlyB)
      decreases |a| - i + |b| - j
    {
      if a[i] < b[j] {
        StepLeft(a, b, i, j, onlyA, onlyB);
        onlyA := onlyA + [a[i]];
        i := i + 1;
      } else if b[j] < a[i] {
        StepLeft(b, a, j, i, onlyB, onlyA);
        onlyB := onlyB + [b[j]];
        j := j + 1;
      } else {
        StepBoth(a, b, i, j, onlyA, onlyB);
        i, j := i + 1, j + 1;
      }
    }
    RestAdded(a, b, i, j, onlyA, onlyB);
    onlyA, onlyB := onlyA + a[i..], onlyB + b[j..];
  }

  lemma RestAdded(a: seq<U32>, b: seq<U32>, i: nat, j: nat, onlyA: seq<U32>, onlyB: seq<U32>)
    requires Ascends(a) && Ascends(b) && i <= |a| && j <= |b| && (i == |a| || j == |b|) && SplitSoFar(a, b, i, j, onlyA, onlyB)
    ensures Ascends(onlyA + a[i..]) && Elements(onlyA + a[i..]) == Elements(a) - Elements(b)
    ensures Ascends(onlyB + b[j..]) && Elements(onlyB + b[j..]) == Elements(b) - Elements(a)
  {
    assert a[..|a|] == a && b[..|b|] == b;
    if j == |b| {
      RestLeft(a, b, i, onlyA, onlyB);
      assert onlyB + b[j..] == onlyB;
    } else {
      RestLeft(b, a, j, onlyB, onlyA);
      assert onlyA + a[i..] == onlyA;
    }
  }

  lemma StepLeft(a: seq<U32>, b: seq<U32>, i: nat, j: nat, onlyA: seq<U32>, onlyB: seq<U32>)
    requires Ascends(a) && Ascends(b) && i < |a| && j < |b| && a[i] < b[j]
    requires SplitSoFar(a, b, i, j, onlyA, onlyB)
    ensures SplitSoFar(a, b, i + 1, j, onlyA + [a[i]], onlyB)
    ensures SplitSoFar(b, a, j, i + 1, onlyB, onlyA + [a[i]])
  {
    Append(onlyA, a[i]);
    ElementsOf(a, i);
    AboveAll(b, j, a[i]);
  }

  lemma StepBoth(a: seq<U32>, b: seq<U32>, i: nat, j: nat, onlyA: seq<U32>, onlyB: seq<U32>)
    requires Ascends(a) && Ascends(b) && i < |a| && j < |b| && a[i] == b[j]
    requires SplitSoFar(a, b, i, j, onlyA, onlyB)
    ensures SplitSoFar(a, b, i + 1, j + 1, onlyA, onlyB)
  {
    ElementsOf(a, i);
    ElementsOf(b, j);
    AboveAll(b, j, a[i]);
    AboveAll(a, i, b[j]);
  }

  lemma AscendsJoined(s: seq<U32>, t: seq<U32>)
    requires Ascends(s) && Ascends(t) && (s != [] && t != [] ==> s[|s| - 1] < t[0])
    ensures Ascends(s + t)
  {
  }

  lemma ElementsJoined(s: seq<U32>, t: seq<U32>)
    ensures Elements(s + t) == Elements(s) + Elements(t)
  {
  }

  lemma RestIsApart(rest: seq<U32>, b: seq<U32>)
    requires Ascends(rest) && Ascends(b) && (rest != [] && b != [] ==> b[|b| - 1] < rest[0])
    ensures Elements(rest) !! Elements(b)
  {
    forall i | 0 <= i < |rest| ensures rest[i] !in Elements(b) {
      AboveAll(b, |b|, rest[i]);
      assert b[..|b|] == b;
    }
  }

  lemma ApartFromRest(mine: Bitmap, rest: Bitmap, theirs: Bitmap)
    requires rest !! theirs
    ensures mine - theirs + rest == mine + rest - theirs
    ensures theirs - mine == theirs - (mine + rest)
  {
  }

  /** Once one list is used up, what is left of the other belongs to it alone. */
  lemma RestLeft(a: seq<U32>, b: seq<U32>, i: nat, onlyA: seq<U32>, onlyB: seq<U32>)
    requires Ascends(a) && Ascends(b) && i <= |a| && Ascends(onlyA)
    requires i < |a| ==> (onlyA != [] ==> onlyA[|onlyA| - 1] < a[i]) && (b != [] ==> b[|b| - 1] < a[i])
    requires Elements(onlyA) == Elements(a[..i]) - Elements(b) && Elements(onlyB) == Elements(b) - Elements(a[..i])
    ensures Ascends(onlyA + a[i..]) && Elements(onlyA + a[i..]) == Elements(a) - Elements(b)
    ensures Elements(onlyB) == Elements(b) - Elements(a)
  {
    assert a == a[..i] + a[i..];
    AscendsJoined(onlyA, a[i..]);
    ElementsJoined(onlyA, a[i..]);
    ElementsJoined(a[..i], a[i..]);
    RestIsApart(a[i..], b);
    ApartFromRest(Elements(a[..i]), Elements(a[i..]), Elements(b));
  }

  // ---- Sorting and removing duplicates ----

  predicate NonDescending(s: seq<U32>) {
    forall i, j :: 0 <= i < j < |s| ==> s[i] <= s[j]
  }

  method SortUnstable(v: seq<U32>) returns (r: seq<U32>)
    ensures NonDescending(r) && multiset(r) == multiset(v)
  {
    r := [];
    for n := 0 to |v|
      invariant NonDescending(r) && multiset(r) == multiset(v[..n])
    {
      var p := 0;
      while p < |r| && r[p] <= v[n]
        invariant p <= |r|
        invariant forall i :: 0 <= i < p ==> r[i] <= v[n]
      {
        p := p + 1;
      }
      InsertAt(r, p, v[n]);
      assert v[..n + 1] == v[..n] + [v[n]];
      r := r[..p] + [v[n]] + r[p..];
    }
    assert v[..|v|] == v;
  }

  lemma InsertAt(r: seq<U32>, p: nat, x: U32)
    requires NonDescending(r) && p <= |r| && (p < |r| ==> x < r[p]) && forall i :: 0 <= i < p ==> r[i] <= x
    ensures NonDescending(r[..p] + [x] + r[p..]) && multiset(r[..p] + [x] + r[p..]) == multiset(r) + multiset{x}
  {
    assert r == r[..p] + r[p..];
    InsertedInOrder(r[..p], x, r[p..]);
  }

  lemma InsertedInOrder(low: seq<U32>, x: U32, high: seq<U32>)
    requires NonDescending(low + high) && (high != [] ==> x < high[0]) && forall i :: 0 <= i < |low| ==> low[i] <= x
    ensures NonDescending(low + [x] + high)
  {
    var (was, now) := (low + high, low + [x] + high);
    forall i, j | 0 <= i < j < |now| ensures now[i] <= now[j] {
      if j > |low| {
        assert was[|low|] <= was[j - 1] && (i < |low| ==> was[i] <= was[j - 1]) && (i > |low| ==> was[i - 1] <= was[j - 1]);
      } else if j < |low| {
        assert was[i] <= was[j];
      }
    }
  }

  /** Keeps the first of every run of equal neighbours. */
  method Dedup(v: seq<U32>) returns (r: seq<U32>)
    requires NonDescending(v)
    ensures Ascends(r) && Elements(r) == Elements(v)
  {
    r := [];
    for n := 0 to |v|
      invariant Ascends(r) && Elements(r) == Elements(v[..n])
      invariant r == [] <==> n == 0
      invariant n > 0 ==> r[|r| - 1] == v[n - 1]
    {
      ElementsOf(v, n);
      if r == [] || r[|r| - 1] != v[n] {
        Append(r, v[n]);
        r := r + [v[n]];
      } else {
        assert v[n] in Elements(r);
      }
    }
    assert v[..|v|] == v;
  }

  method DedupSort(v: seq<U32>) returns (r: seq<U32>)
    ensures Ascends(r) && Elements(r) == Elements(v)
  {
    if |v| <= 1 {
      return v;
    }
    var sorted := SortUnstable(v);
    SameMembers(sorted, v);
    r := Dedup(sorted);
  }

  /** An ascending list is determined by its elements. */
  lemma {:induction false} AscendingIsUnique(a: seq<U32>, b: seq<U32>)
    requires Ascends(a) && Ascends(b) && Elements(a) == Elements(b)
    ensures a == b
    decreases |a|
  {
    SameEmptiness(a, b);
    if a != [] {
      LastIsGreatest(a, b);
      LastIsGreatest(b, a);
      WithoutLast(a);
      WithoutLast(b);
      AscendingIsUnique(a[..|a| - 1], b[..|b| - 1]);
      assert a == a[..|a| - 1] + [a[|a| - 1]] && b == b[..|b| - 1] + [b[|b| - 1]];
    }
  }

  lemma SameEmptiness(a: seq<U32>, b: seq<U32>)
    requires Elements(a) == Elements(b)
    ensures a == [] <==> b == []
  {
    assert a != [] ==> a[0] in Elements(b);
    assert b != [] ==> b[0] in Elements(a);
  }

  lemma LastIsGreatest(a: seq<U32>, b: seq<U32>)
    requires Ascends(a) && a != [] && b != [] && Elements(a) == Elements(b)
    ensures b[|b| - 1] <= a[|a| - 1]
  {
    assert b[|b| - 1] in Elements(a);
  }

  lemma WithoutLast(a: seq<U32>)
    requires Ascends(a) && a != []
    ensures Ascends(a[..|a| - 1]) && Elements(a[..|a| - 1]) == Elements(a) - {a[|a| - 1]}
  {
  }

  // ---- Cancelling inserts against removes ----

  /** One side of a cancellation, for the keys in `done`. */
  ghost predicate CancelledFor(mine: Slots, theirs: Slots, now: Slots, done: set<Key>) {
    forall k ::
      if k in done then KeptAt(k, now, SlotsAt(mine, k), SlotsAt(theirs, k), k in mine, k in theirs)
      else (k in now <==> k in mine) && (k in mine ==> now[k] == mine[k])
  }

  function Put(m: Slots, k: Key, slots: seq<U32>): Slots {
    if slots == [] then m - {k} else m[k := slots]
  }

  lemma CancelOneMore(mine: Slots, theirs: Slots, now: Slots, done: set<Key>, k: Key, slots: seq<U32>)
    requires CancelledFor(mine, theirs, now, done) && k in mine && k in theirs
    requires Ascends(slots) && Elements(slots) == SlotsAt(mine, k) - SlotsAt(theirs, k)
    ensures CancelledFor(mine, theirs, Put(now, k, slots), done + {k})
  {
    assert slots != [] ==> slots[0] in Elements(slots);
    assert forall x :: x in SlotsAt(mine, k) && x !in SlotsAt(theirs, k) ==> x in Elements(slots);
    assert slots == [] <==> SlotsAt(mine, k) <= SlotsAt(theirs, k);
    var after := Put(now, k, slots);
    assert KeptAt(k, after, SlotsAt(mine, k), SlotsAt(theirs, k), true, true);
    assert forall o :: o != k ==> (o in after <==> o in now) && SlotsAt(after, o) == SlotsAt(now, o);
  }

  /** Both sides of a cancellation, for the keys in `done`. */
  ghost predicate Cancelled(inserts: Slots, removes: Slots, ins: Slots, rem: Slots, done: set<Key>) {
    CancelledFor(inserts, removes, ins, done) && CancelledFor(removes, inserts, rem, done)
  }

  lemma CancelKey(inserts: Slots, removes: Slots, ins: Slots, rem: Slots, done: set<Key>, k: Key, newIns: seq<U32>, newRem: seq<U32>)
    requires Cancelled(inserts, removes, ins, rem, done) && k in inserts && k in removes
    requires Ascends(newIns) && Elements(newIns) == SlotsAt(inserts, k) - SlotsAt(removes, k)
    requires Ascends(newRem) && Elements(newRem) == SlotsAt(removes, k) - SlotsAt(inserts, k)
    ensures Cancelled(inserts, removes, Put(ins, k, newIns), Put(rem, k, newRem), done + {k})
  {
    CancelOneMore(inserts, removes, ins, done, k, newIns);
    CancelOneMore(removes, inserts, rem, done, k, newRem);
  }

  lemma NotYetCancelled(inserts: Slots, removes: Slots, ins: Slots, rem: Slots, done: set<Key>, k: Key)
    requires Cancelled(inserts, removes, ins, rem, done) && k in inserts && k in removes && k !in done
    ensures k in ins && k in rem && ins[k] == inserts[k] && rem[k] == removes[k]
  {
  }

  method CancelPair(ghost inserts: Slots, ghost removes: Slots, before: Slots, beforeRem: Slots, ghost done: set<Key>, k: Key)
    returns (ins: Slots, rem: Slots)
    requires Cancelled(inserts, removes, before, beforeRem, done) && k in inserts && k in removes && k !in done
    requires Ascends(inserts[k]) && Ascends(removes[k])
    ensures Cancelled(inserts, removes, ins, rem, done + {k})
  {
    NotYetCancelled(inserts, removes, before, beforeRem, done, k);
    var newIns, newRem := SymmetricDifferenceSorted(before[k], beforeRem[k]);
    CancelKey(inserts, removes, before, beforeRem, done, k, newIns, newRem);
    ins, rem := Put(before, k, newIns), Put(beforeRem, k, newRem);
  }

  method CancelShared(inserts: Slots, removes: Slots, shared: set<Key>) returns (ins: Slots, rem: Slots)
    requires AllAscend(inserts) && AllAscend(removes)
    requires shared <= inserts.Keys && shared <= removes.Keys
    ensures Cancelled(inserts, removes, ins, rem, shared)
  {
    ins, rem := inserts, removes;
    var left := shared;
    assert shared - left == {};
    while left != {}
      invariant left <= shared
      invariant Cancelled(inserts, removes, ins, rem, shared - left)
      decreases |left|
    {
      var k :| k in left;
      ins, rem := CancelPair(inserts, removes, ins, rem, shared - left, k);
      VisitOne(shared, left, k);
      left := left - {k};
    }
    assert shared - left == shared;
  }

  method CancelPairs(inserts: Slots, removes: Slots) returns (ins: Slots, rem: Slots)
    requires AllAscend(inserts) && AllAscend(removes)
    ensures forall k :: KeptAt(k, ins, SlotsAt(inserts, k), SlotsAt(removes, k), k in inserts, k in removes)
    ensures forall k :: KeptAt(k, rem, SlotsAt(removes, k), SlotsAt(inserts, k), k in removes, k in inserts)
  {
    var shared := inserts.Keys * removes.Keys;
    ins, rem := CancelShared(inserts, removes, shared);
    Untouched(inserts, removes, ins, shared);
    Untouched(removes, inserts, rem, shared);
  }

  lemma Untouched(mine: Slots, theirs: Slots, now: Slots, done: set<Key>)
    requires AllAscend(mine)
    requires CancelledFor(mine, theirs, now, done) && done == mine.Keys * theirs.Keys
    ensures forall k :: KeptAt(k, now, SlotsAt(mine, k), SlotsAt(theirs, k), k in mine, k in theirs)
  {
    forall k ensures KeptAt(k, now, SlotsAt(mine, k), SlotsAt(theirs, k), k in mine, k in theirs) {
      assert k in done <==> k in mine && k in theirs;
    }
  }

  // ---- First pass: concatenate ----

  function ListAt(m: Slots, k: Key): seq<U32> {
    if k in m then m[k] else []
  }

  /** Every list of `more` appended to the list of the same key. */
  function Appended(m: Slots, more: Slots): Slots {
    map k | k in m.Keys + more.Keys :: ListAt(m, k) + ListAt(more, k)
  }

  function Extended(m: map<string, Bitmap>, more: map<string, Bitmap>): map<string, Bitmap> {
    map f | f in m.Keys + more.Keys :: SortSlotsAt(m, f) + SortSlotsAt(more, f)
  }

  lemma AppendedSlots(m: Slots, more: Slots, k: Key)
    ensures SlotsAt(Appended(m, more), k) == SlotsAt(m, k) + SlotsAt(more, k)
  {
    assert Elements(ListAt(m, k) + ListAt(more, k)) == Elements(ListAt(m, k)) + Elements(ListAt(more, k));
    assert k !in m && k !in more ==> k !in Appended(m, more);
  }

  /** The filter part of the first pass over some items. */
  ghost predicate FiltersGathered(items: seq<Item>, m: Item) {
    && m.inserts.Keys == InsertKeys(items) && m.removes.Keys == RemoveKeys(items)
    && (forall k :: SlotsAt(m.inserts, k) == Inserts(items, k))
    && (forall k :: SlotsAt(m.removes, k) == Removes(items, k))
  }

  ghost predicate OthersGathered(items: seq<Item>, m: Item, alive: Bitmap) {
    && m.sorts.Keys == SortFields(items)
    && (forall f :: f in m.sorts ==> m.sorts[f] == SortSlots(items, f))
    && alive == AliveRemoves(items) && m.fields == Fields(items) && m.buckets == Buckets(items)
    && m.aliveChanged == AnyAlive(items)
  }

  function Combined(m: Item, it: Item): Item {
    Item(Appended(m.inserts, it.inserts), Appended(m.removes, it.removes), Extended(m.sorts, it.sorts), m.aliveRemoves,
         m.fields + it.fields, m.aliveChanged || it.aliveChanged, m.buckets + it.buckets)
  }

  lemma UnionAllOneMore<T, A>(items: seq<T>, n: nat, part: T -> set<A>)
    requires n < |items|
    ensures UnionAll(items[..n + 1], part) == UnionAll(items[..n], part) + part(items[n])
  {
    assert items[..n + 1][..n] == items[..n];
  }

  lemma FiltersOneMore(items: seq<Item>, n: nat, m: Item)
    requires n < |items| && FiltersGathered(items[..n], m)
    ensures FiltersGathered(items[..n + 1], Combined(m, items[n]))
  {
    UnionAllOneMore(items, n, (it: Item) => it.inserts.Keys);
    UnionAllOneMore(items, n, (it: Item) => it.removes.Keys);
    forall k
      ensures SlotsAt(Combined(m, items[n]).inserts, k) == Inserts(items[..n + 1], k)
      ensures SlotsAt(Combined(m, items[n]).removes, k) == Removes(items[..n + 1], k)
    {
      AppendedSlots(m.inserts, items[n].inserts, k);
      AppendedSlots(m.removes, items[n].removes, k);
      UnionAllOneMore(items, n, (it: Item) => SlotsAt(it.inserts, k));
      UnionAllOneMore(items, n, (it: Item) => SlotsAt(it.removes, k));
    }
  }

  lemma OthersOneMore(items: seq<Item>, n: nat, m: Item, alive: Bitmap)
    requires n < |items| && OthersGathered(items[..n], m, alive)
    ensures OthersGathered(items[..n + 1], Combined(m, items[n]), alive + Elements(items[n].aliveRemoves))
  {
    UnionAllOneMore(items, n, (it: Item) => it.sorts.Keys);
    UnionAllOneMore(items, n, (it: Item) => Elements(it.aliveRemoves));
    UnionAllOneMore(items, n, (it: Item) => it.fields);
    UnionAllOneMore(items, n, (it: Item) => it.buckets);
    forall f | f in Combined(m, items[n]).sorts
      ensures Combined(m, items[n]).sorts[f] == SortSlots(items[..n + 1], f)
    {
      SortOneMore(items, n, m.sorts, f);
    }
    AliveOneMore(items, n);
  }

  lemma SortOneMore(items: seq<Item>, n: nat, sorts: map<string, Bitmap>, f: string)
    requires n < |items| && (f in sorts ==> sorts[f] == SortSlots(items[..n], f)) && (f !in sorts ==> f !in SortFields(items[..n]))
    ensures SortSlots(items[..n + 1], f) == SortSlotsAt(sorts, f) + SortSlotsAt(items[n].sorts, f)
  {
    var part := (it: Item) => SortSlotsAt(it.sorts, f);
    UnionAllOneMore(items, n, part);
    if f !in sorts {
      forall x ensures x !in SortSlots(items[..n], f) {
        UnionAllMember(items[..n], part, x);
        UnionAllMember(items[..n], (it: Item) => it.sorts.Keys, f);
      }
      assert SortSlots(items[..n], f) == {};
    }
  }

  lemma AliveOneMore(items: seq<Item>, n: nat)
    requires n < |items|
    ensures AnyAlive(items[..n + 1]) <==> AnyAlive(items[..n]) || items[n].aliveChanged
  {
    assert items[..n + 1] == items[..n] + [items[n]];
    assert items[n] in items[..n + 1];
  }

  // ---- Second pass ----

  method DedupAll(m: Slots) returns (r: Slots)
    ensures r.Keys == m.Keys && AllAscend(r)
    ensures forall k :: SlotsAt(r, k) == SlotsAt(m, k)
  {
    r := m;
    var left := m.Keys;
    while left != {}
      invariant left <= m.Keys == r.Keys
      invariant forall k :: k in m && k !in left ==> Ascends(r[k])
      invariant forall k :: k in m ==> Elements(r[k]) == Elements(m[k])
      decreases |left|
    {
      var k :| k in left;
      var slots := DedupSort(r[k]);
      r := r[k := slots];
      VisitOne(m.Keys, left, k);
      left := left - {k};
    }
  }

  lemma {:induction false} AtMostAsManyElements<T>(s: seq<T>)
    ensures |Elements(s)| <= |s|
  {
    if s != [] {
      AtMostAsManyElements(s[1..]);
      assert Elements(s) == Elements(s[1..]) + {s[0]};
    }
  }

  lemma DistinctAscends(s: seq<U32>)
    requires NonDescending(s) && |Elements(s)| == |s|
    ensures Ascends(s)
  {
    forall i, j | 0 <= i < j < |s| ensures s[i] < s[j] {
      if s[i] == s[j] {
        var without := s[..i] + s[i + 1..];
        assert without[j - 1] == s[j];
        assert Elements(without) == Elements(s) by {
          assert s == s[..i] + [s[i]] + s[i + 1..];
        }
        AtMostAsManyElements(without);
      }
    }
  }

  /** A set of slots as an ascending list. */
  method SortedList(slots: Bitmap) returns (r: seq<U32>)
    ensures Ascends(r) && Elements(r) == slots
  {
    var v: seq<U32> := [];
    var left := slots;
    while left != {}
      invariant left <= slots
      invariant Elements(v) == slots - left && |v| == |slots - left|
      decreases |left|
    {
      var x :| x in left;
      v := Collected(v, slots, left, x);
      VisitOne(slots, left, x);
      left := left - {x};
    }
    assert slots - left == slots;
    r := SortUnstable(v);
    SameMembers(r, v);
    assert |multiset(r)| == |multiset(v)|;
    assert Elements(r) == slots;
    DistinctAscends(r);
  }

  function Collected(v: seq<U32>, slots: Bitmap, left: Bitmap, x: U32): (r: seq<U32>)
    requires x in left && left <= slots
    requires Elements(v) == slots - left && |v| == |slots - left|
    ensures Elements(r) == slots - left + {x} && |r| == |slots - left + {x}|
  {
    assert Elements(v + [x]) == Elements(v) + {x};
    v + [x]
  }

  method Gather(items: seq<Item>) returns (merged: Item, alive: Bitmap)
    ensures FiltersGathered(items, merged) && OthersGathered(items, merged, alive)
  {
    merged, alive := EMPTY_ITEM, {};
    assert items[..0] == [];
    for n := 0 to |items|
      invariant FiltersGathered(items[..n], merged)
      invariant OthersGathered(items[..n], merged, alive)
    {
      FiltersOneMore(items, n, merged);
      OthersOneMore(items, n, merged, alive);
      merged := Combined(merged, items[n]);
      alive := alive + Elements(items[n].aliveRemoves);
    }
    assert items[..|items|] == items;
  }

  // ---- The merged item in plain words ----

  ghost predicate InsertedBy(items: seq<Item>, k: Key, x: U32) {
    exists i :: 0 <= i < |items| && k in items[i].inserts && x in items[i].inserts[k]
  }

  ghost predicate RemovedBy(items: seq<Item>, k: Key, x: U32) {
    exists i :: 0 <= i < |items| && k in items[i].removes && x in items[i].removes[k]
  }

  ghost predicate ResortedBy(items: seq<Item>, f: string, x: U32) {
    exists i :: 0 <= i < |items| && f in items[i].sorts && x in items[i].sorts[f]
  }

  predicate Listed(m: Slots, k: Key, x: U32) {
    k in m && x in m[k]
  }

  /** A slot is listed under a key if some item lists it and none lists the opposite. */
  ghost predicate FiltersInWords(items: seq<Item>, r: Item, k: Key, x: U32) {
    && (Listed(r.inserts, k, x) <==> InsertedBy(items, k, x) && !RemovedBy(items, k, x))
    && (Listed(r.removes, k, x) <==> RemovedBy(items, k, x) && !InsertedBy(items, k, x))
  }

  /** Everything else is there if some item has it. */
  ghost predicate OthersInWords(items: seq<Item>, r: Item, f: string, x: U32) {
    && (f in r.sorts && x in r.sorts[f] <==> ResortedBy(items, f, x))
    && (f in r.sorts <==> exists i :: 0 <= i < |items| && f in items[i].sorts)
    && (f in r.fields <==> exists i :: 0 <= i < |items| && f in items[i].fields)
    && (x in r.aliveRemoves <==> exists i :: 0 <= i < |items| && x in items[i].aliveRemoves)
    && (x in r.buckets <==> exists i :: 0 <= i < |items| && x in items[i].buckets)
    && (r.aliveChanged <==> exists i :: 0 <= i < |items| && items[i].aliveChanged)
  }

  lemma CoalescedFilters(items: seq<Item>, r: Item, k: Key, x: U32)
    requires IsCoalesced(items, r)
    ensures FiltersInWords(items, r, k, x)
  {
    UnionAllMember(items, (it: Item) => SlotsAt(it.inserts, k), x);
    UnionAllMember(items, (it: Item) => SlotsAt(it.removes, k), x);
    assert x in Inserts(items, k) <==> InsertedBy(items, k, x);
    assert x in Removes(items, k) <==> RemovedBy(items, k, x);
    assert Listed(r.inserts, k, x) <==> x in SlotsAt(r.inserts, k);
    assert Listed(r.removes, k, x) <==> x in SlotsAt(r.removes, k);
  }

  lemma CoalescedOthers(items: seq<Item>, r: Item, f: string, x: U32)
    requires OthersCoalesced(items, r)
    ensures OthersInWords(items, r, f, x)
  {
    UnionAllMember(items, (it: Item) => SortSlotsAt(it.sorts, f), x);
    UnionAllMember(items, (it: Item) => it.sorts.Keys, f);
    UnionAllMember(items, (it: Item) => it.fields, f);
    UnionAllMember(items, (it: Item) => Elements(it.aliveRemoves), x);
    UnionAllMember(items, (it: Item) => it.buckets, x);
    assert x in Elements(r.aliveRemoves) <==> x in r.aliveRemoves;
    SortsInWords(items, r, f, x);
    assert r.aliveChanged ==> exists it :: it in items && it.aliveChanged;
  }

  lemma SortsInWords(items: seq<Item>, r: Item, f: string, x: U32)
    requires OthersCoalesced(items, r)
    ensures f in r.sorts && x in r.sorts[f] <==> ResortedBy(items, f, x)
  {
    UnionAllMember(items, (it: Item) => SortSlotsAt(it.sorts, f), x);
    UnionAllMember(items, (it: Item) => it.sorts.Keys, f);
    if i :| 0 <= i < |items| && f in items[i].sorts && x in items[i].sorts[f] {
      assert x in SortSlotsAt(items[i].sorts, f) && f in items[i].sorts.Keys;
    }
    if x in SortSlots(items, f) {
      var i :| 0 <= i < |items| && x in SortSlotsAt(items[i].sorts, f);
      assert f in items[i].sorts && x in items[i].sorts[f];
    }
  }

  method CoalesceWorkItems(items: seq<Item>) returns (merged: Item)
    ensures IsCoalesced(items, merged)
    ensures forall k, x :: FiltersInWords(items, merged, k, x)
    ensures forall f, x :: OthersInWords(items, merged, f, x)
  {
    merged := MergeItems(items);
    forall k, x ensures FiltersInWords(items, merged, k, x) {
      CoalescedFilters(items, merged, k, x);
    }
    forall f, x ensures OthersInWords(items, merged, f, x) {
      CoalescedOthers(items, merged, f, x);
    }
  }

  method MergeItems(items: seq<Item>) returns (merged: Item)
    ensures IsCoalesced(items, merged)
  {
    var gathered, alive := Gather(items);
    var inserts := DedupAll(gathered.inserts);
    var removes := DedupAll(gathered.removes);
    inserts, removes := CancelPairs(inserts, removes);
    var aliveRemoves := SortedList(alive);
    merged := gathered.(inserts := inserts, removes := removes, aliveRemoves := aliveRemoves);
  }
}
