/** The generational document cache: the newest generation first, each with a byte counter. */
module DocCache {
  import opened Base
  import opened DocGenerations
  import opened DocBatches

  class DocCache {
    const maxBytes: nat
    const maxGenerations: nat
    const estimate: Doc -> nat
    var gens: seq<Gen>
    var hits: nat
    var misses: nat
    var evictions: nat

    ghost predicate Ok()
      reads this
    {
      Valid(gens) && |gens| <= Cap(maxGenerations)
    }

    constructor (maxBytes: nat, maxGenerations: nat, estimate: Doc -> nat)
      ensures Ok() && gens == [EMPTY_GEN] && hits == misses == evictions == 0
      ensures this.maxBytes == maxBytes && this.maxGenerations == maxGenerations && this.estimate == estimate
    {
      this.maxBytes, this.maxGenerations, this.estimate := maxBytes, maxGenerations, estimate;
      gens, hits, misses, evictions := [EMPTY_GEN], 0, 0, 0;
    }

    /** Scans from the newest generation; a hit in an older one is promoted. */
    method Get(x: U32) returns (r: Option<Doc>)
      requires Ok()
      modifies this
      ensures Ok() && evictions == old(evictions)
      ensures r == Lookup(old(gens), x) && gens == AfterGet(old(gens), x)
      ensures if r.Some? then hits == old(hits) + 1 && misses == old(misses) else hits == old(hits) && misses == old(misses) + 1
    {
      var i := 0;
      while i < |gens|
        invariant i <= |gens| && unchanged(this)
        invariant forall j :: 0 <= j < i ==> x !in gens[j].entries
      {
        if x in gens[i].entries {
          OnlyAt(gens, x, i);
          LookupAfterGet(gens, x, x);
          var entry := gens[i].entries[x];
          if i > 0 {
            Promote(x, i, entry);
          }
          hits := hits + 1;
          return Some(entry.doc);
        }
        i := i + 1;
      }
      NowhereMeansNone(gens, x);
      misses := misses + 1;
      r := None;
    }

    /** Moves an entry to the current generation. */
    method Promote(x: U32, from: nat, entry: Cached)
      requires Valid(gens) && 0 < from < |gens| && x in gens[from].entries && gens[from].entries[x] == entry
      modifies this`gens
      ensures gens == AfterGet(old(gens), x) && |gens| == |old(gens)| && Valid(gens)
    {
      OnlyAt(gens, x, from);
      LookupAfterGet(gens, x, x);
      InsertWorks(gens, x, entry);
      gens := gens[from := Without(gens[from], x)];
      gens := gens[0 := With(gens[0], x, entry)];
    }

    method Insert(x: U32, doc: Doc)
      requires Ok()
      modifies this`gens
      ensures Ok() && gens == AfterInsert(old(gens), x, Cached(doc, estimate(doc)))
    {
      InsertWorks(gens, x, Cached(doc, estimate(doc)));
      gens := TakenOut(gens, x);
      if gens != [] {
        gens := gens[0 := With(gens[0], x, Cached(doc, estimate(doc)))];
      }
    }

    method InsertBatch(docs: seq<(U32, Doc)>)
      requires Ok()
      modifies this`gens
      ensures Ok() && gens == AfterInsertAll(old(gens), docs, estimate)
      ensures forall x :: Lookup(gens, x) == if LastFor(docs, x).Some? then LastFor(docs, x) else Lookup(old(gens), x)
      ensures forall x :: LastFor(docs, x).Some? ==> x in gens[0].entries
    {
      forall x
        ensures InsertedFor(gens, docs, estimate, x)
        ensures Lookup(AfterInsertAll(gens, docs, estimate), x) == if LastFor(docs, x).Some? then LastFor(docs, x) else Lookup(gens, x)
      {
        InsertAllWorks(gens, docs, estimate, x);
        LookupAfterInsertAll(gens, docs, estimate, x);
      }
      for n := 0 to |docs|
        invariant Ok() && gens == AfterInsertAll(old(gens), docs[..n], estimate)
      {
        Insert(docs[n].0, docs[n].1);
        assert docs[..n + 1][..n] == docs[..n];
      }
      assert docs[..|docs|] == docs;
    }

    method UpdateBatchIfCached(docs: seq<(U32, Doc)>)
      requires Ok()
      modifies this`gens
      ensures Ok() && gens == AfterUpdateAll(old(gens), docs, estimate)
      ensures forall x :: Lookup(gens, x) ==
                if Lookup(old(gens), x).Some? && LastFor(docs, x).Some? then LastFor(docs, x) else Lookup(old(gens), x)
    {
      forall x
        ensures Lookup(AfterUpdateAll(gens, docs, estimate), x) ==
                if Lookup(gens, x).Some? && LastFor(docs, x).Some? then LastFor(docs, x) else Lookup(gens, x)
      {
        LookupAfterUpdateAll(gens, docs, estimate, x);
      }
      for n := 0 to |docs|
        invariant Ok() && gens == AfterUpdateAll(old(gens), docs[..n], estimate)
      {
        UpdateIfCached(docs[n].0, docs[n].1);
        assert docs[..n + 1][..n] == docs[..n];
      }
      assert docs[..|docs|] == docs;
    }

    /** Rewrites the document in place without promoting it. */
    method UpdateIfCached(x: U32, doc: Doc)
      requires Ok()
      modifies this`gens
      ensures Ok() && gens == AfterUpdate(old(gens), x, Cached(doc, estimate(doc)))
    {
      UpdateWorks(gens, x, Cached(doc, estimate(doc)));
      var size := estimate(doc);
      var i := 0;
      while i < |gens|
        invariant i <= |gens| && gens == old(gens)
        invariant forall j :: 0 <= j < i ==> x !in gens[j].entries
      {
        if x in gens[i].entries {
          OnlyAt(gens, x, i);
          var (g, was) := (gens[i], gens[i].entries[x].size);
          var bytes := if size > was then g.bytes + (size - was) else g.bytes - (was - size);
          gens := gens[i := Gen(g.entries[x := Cached(doc, size)], bytes)];
          return;
        }
        i := i + 1;
      }
      NowhereMeansNone(gens, x);
    }

    method Remove(x: U32)
      requires Ok()
      modifies this`gens
      ensures Ok() && gens == AfterRemove(old(gens), x)
    {
      RemoveWorks(gens, x);
      gens := TakenOut(gens, x);
    }

    /** A new current generation; over the cap, the two oldest become one. */
    method PushNewGeneration()
      requires Ok()
      modifies this`gens
      ensures Ok() && gens == AfterPush(old(gens), maxGenerations)
    {
      PushWorks(gens, maxGenerations, 0);
      PushedIsValid(gens, 0);
      var pushed := [EMPTY_GEN] + gens;
      if |pushed| > maxGenerations {
        pushed := MergeOldest(pushed);
      }
      gens := pushed;
    }

    /** Drops the oldest generation unless it is the current one. */
    method DropOldestGeneration() returns (evicted: nat)
      requires Ok()
      modifies this`gens, this`evictions
      ensures Ok() && gens == AfterDrop(old(gens))
      ensures evicted == Count(old(gens)) - Count(gens) && evictions == old(evictions) + evicted
    {
      if |gens| <= 1 {
        return 0;
      }
      evicted := |gens[|gens| - 1].entries|;
      PrefixIsValid(gens, |gens| - 1);
      gens := gens[..|gens| - 1];
      evictions := evictions + evicted;
    }

    method Evict() returns (evicted: nat)
      requires Ok()
      modifies this`gens, this`evictions
      ensures Ok() && gens == AfterEvict(old(gens), maxBytes)
      ensures evicted == Count(old(gens)) - Count(gens) && evictions == old(evictions) + evicted
      ensures |gens| == 1 || TotalBytes(gens) <= maxBytes
    {
      evicted := 0;
      while TotalBytes(gens) > maxBytes
        invariant Ok() && AfterEvict(gens, maxBytes) == AfterEvict(old(gens), maxBytes)
        invariant evicted == Count(old(gens)) - Count(gens) && evictions == old(evictions) + evicted
        decreases |gens|
      {
        if |gens| <= 1 {
          break;
        }
        var n := DropOldestGeneration();
        evicted := evicted + n;
      }
    }

    method Clear()
      modifies this`gens
      ensures Ok() && gens == [EMPTY_GEN]
    {
      gens := [EMPTY_GEN];
      assert Counted(EMPTY_GEN);
    }
  }

  /** One slot of a fetch: the cached document, or the stored one, which then joins the batch. */
  method FetchOne(cache: DocCache, store: map<U32, Doc>, x: U32, missing: Batch) returns (result: Option<Doc>, more: Batch)
    requires cache.Ok()
    modifies cache
    ensures cache.Ok() && cache.gens == AfterGet(old(cache.gens), x) && result == Fetched(old(cache.gens), store, x)
    ensures more == WithMissed(Lookup(old(cache.gens), x), store, missing, x)
  {
    more := missing;
    result := cache.Get(x);
    if result.None? && x in store {
      if LastFor(missing, x).None? {
        more := missing + [(x, store[x])];
      }
      result := Some(store[x]);
    }
  }

  ghost predicate FetchedSoFar(gens: seq<Gen>, store: map<U32, Doc>, slots: seq<U32>, results: seq<Option<Doc>>) {
    |results| == |slots| && forall i :: 0 <= i < |results| ==> results[i] == Fetched(gens, store, slots[i])
  }

  lemma FetchedOneMore(gens: seq<Gen>, store: map<U32, Doc>, front: seq<U32>, x: U32, results: seq<Option<Doc>>)
    requires FetchedSoFar(gens, store, front, results)
    ensures FetchedSoFar(gens, store, front + [x], results + [Fetched(gens, store, x)])
  {
  }

  /** What looking up some slots leaves behind. */
  ghost predicate LookedUp(start: seq<Gen>, store: map<U32, Doc>, slots: seq<U32>, gens: seq<Gen>, results: seq<Option<Doc>>, missing: Batch) {
    gens == AfterGetAll(start, slots) && missing == Missed(start, store, slots) && FetchedSoFar(start, store, slots, results)
  }

  lemma LookedUpOneMore(start: seq<Gen>, store: map<U32, Doc>, front: seq<U32>, x: U32, gens: seq<Gen>, results: seq<Option<Doc>>, missing: Batch)
    requires Valid(start) && LookedUp(start, store, front, gens, results, missing)
    ensures LookedUp(start, store, front + [x], AfterGet(gens, x), results + [Fetched(gens, store, x)], WithMissed(Lookup(gens, x), store, missing, x))
  {
    GetAllWorks(start, front, x);
    OneSlotMore(start, store, front, x);
    FetchedOneMore(start, store, front, x, results);
  }

  method LookUpAll(cache: DocCache, store: map<U32, Doc>, slots: seq<U32>) returns (results: seq<Option<Doc>>, missing: Batch)
    requires cache.Ok()
    modifies cache
    ensures cache.Ok() && LookedUp(old(cache.gens), store, slots, cache.gens, results, missing)
  {
    results, missing := [], [];
    ghost var start := cache.gens;
    for n := 0 to |slots|
      invariant cache.Ok() && LookedUp(start, store, slots[..n], cache.gens, results, missing)
    {
      LookedUpOneMore(start, store, slots[..n], slots[n], cache.gens, results, missing);
      assert slots[..n + 1] == slots[..n] + [slots[n]];
      var result, more := FetchOne(cache, store, slots[n], missing);
      results, missing := results + [result], more;
    }
    assert slots[..|slots|] == slots;
  }

  /** `get_documents`: every slot is looked up, the missing ones are read from the store and cached in one batch. */
  method FetchAll(cache: DocCache, store: map<U32, Doc>, slots: seq<U32>) returns (results: seq<Option<Doc>>)
    requires cache.Ok()
    modifies cache
    ensures cache.Ok() && cache.gens == AfterFetch(old(cache.gens), store, slots, cache.estimate)
    ensures |results| == |slots| && forall i :: 0 <= i < |slots| ==> results[i] == Fetched(old(cache.gens), store, slots[i])
  {
    var missing;
    results, missing := LookUpAll(cache, store, slots);
    cache.InsertBatch(missing);
  }

  /** A cached document, or else the stored one. */
  function Fetched(gens: seq<Gen>, store: map<U32, Doc>, x: U32): Option<Doc> {
    if Lookup(gens, x).Some? then Lookup(gens, x) else if x in store then Some(store[x]) else None
  }

  /** Removes the slot from the first generation that holds it. */
  method TakenOut(gens: seq<Gen>, x: U32) returns (r: seq<Gen>)
    ensures r == AfterRemove(gens, x)
  {
    for i := 0 to |gens|
      invariant forall j :: 0 <= j < i ==> x !in gens[j].entries
    {
      if x in gens[i].entries {
        return gens[i := Gen(gens[i].entries - {x}, gens[i].bytes - gens[i].entries[x].size)];
      }
    }
    NowhereMeansNone(gens, x);
    r := gens;
  }

  method MergeOldest(gens: seq<Gen>) returns (r: seq<Gen>)
    ensures r == MergedOldest(gens)
  {
    if |gens| < 2 {
      return gens;
    }
    var oldest, second := gens[|gens| - 1], gens[|gens| - 2];
    var merged: Gen;
    if |oldest.entries| <= |second.entries| {
      merged := Absorb(second, oldest);
    } else {
      merged := Absorb(oldest, second);
    }
    r := gens[..|gens| - 2] + [merged];
  }

  /** Copies over the entries the larger generation lacks, one at a time. */
  method Absorb(larger: Gen, smaller: Gen) returns (r: Gen)
    ensures r == Absorbed(larger, smaller)
  {
    r := larger;
    var left := smaller.entries.Keys;
    AbsorbNothing(larger, smaller);
    while left != {}
      invariant left <= smaller.entries.Keys
      invariant r == AbsorbedPart(larger, smaller, left)
      decreases |left|
    {
      var x :| x in left;
      AbsorbOneMore(larger, smaller, left, x);
      VisitOne(smaller.entries.Keys, left, x);
      r := CopiedIfMissing(r, x, smaller.entries[x]);
      left := left - {x};
    }
    AbsorbAll(larger, smaller);
  }

  function CopiedIfMissing(g: Gen, x: U32, c: Cached): Gen {
    if x in g.entries then g else With(g, x, c)
  }

  lemma AbsorbAll(larger: Gen, smaller: Gen)
    ensures AbsorbedPart(larger, smaller, {}) == Absorbed(larger, smaller)
  {
    assert smaller.entries - {} == smaller.entries;
  }

  ghost function AbsorbedPart(larger: Gen, smaller: Gen, left: set<U32>): Gen {
    Absorbed(larger, Gen(smaller.entries - left, 0))
  }

  lemma AbsorbNothing(larger: Gen, smaller: Gen)
    ensures AbsorbedPart(larger, smaller, smaller.entries.Keys) == larger
  {
    assert smaller.entries - smaller.entries.Keys == map[];
    assert map[] + larger.entries == larger.entries;
  }

  lemma AbsorbOneMore(larger: Gen, smaller: Gen, left: set<U32>, x: U32)
    requires x in left && left <= smaller.entries.Keys
    ensures AbsorbedPart(larger, smaller, left - {x}) ==
            CopiedIfMissing(AbsorbedPart(larger, smaller, left), x, smaller.entries[x])
  {
    var (part, more) := (AbsorbedPart(larger, smaller, left), AbsorbedPart(larger, smaller, left - {x}));
    MissingOneMore(larger.entries, smaller.entries, left, x);
    var few := smaller.entries - left - larger.entries.Keys;
    if x !in larger.entries {
      SizeWith(few, x, smaller.entries[x]);
      assert more.entries == part.entries[x := smaller.entries[x]];
    } else {
      assert more.entries == part.entries;
    }
  }

  lemma MissingOneMore(larger: Entries, smaller: Entries, left: set<U32>, x: U32)
    requires x in left && left <= smaller.Keys
    ensures var few := smaller - left - larger.Keys;
            && few - {x} == few
            && smaller - (left - {x}) - larger.Keys == if x in larger then few else few[x := smaller[x]]
  {
  }
}
