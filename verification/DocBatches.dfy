/** Batches of documents: what is cached after inserting, rewriting or fetching several at once. */
module DocBatches {
  import opened Base
  import opened DocGenerations

  type Batch = seq<(U32, Doc)>

  /** The document of the last pair for the slot. */
  function LastFor(docs: Batch, x: U32): Option<Doc> {
    if docs == [] then None
    else if docs[|docs| - 1].0 == x then Some(docs[|docs| - 1].1)
    else LastFor(docs[..|docs| - 1], x)
  }

  // ---- Inserting ----

  /** What one slot looks like after the batch: as its last pair says and in the current generation
      only, or untouched. */
  ghost predicate InsertedFor(gens: seq<Gen>, docs: Batch, estimate: Doc -> nat, x: U32) {
    var (r, last) := (AfterInsertAll(gens, docs, estimate), LastFor(docs, x));
    && |r| == |gens| > 0
    && (last.Some? ==> x in r[0].entries && r[0].entries[x] == Cached(last.value, estimate(last.value)))
    && (last.Some? ==> forall i :: 1 <= i < |r| ==> x !in r[i].entries)
    && (last.None? ==> forall i :: 0 <= i < |r| ==> (x in r[i].entries <==> x in gens[i].entries))
    && (last.None? ==> forall i :: 0 <= i < |r| && x in r[i].entries ==> r[i].entries[x] == gens[i].entries[x])
  }

  lemma {:induction false} InsertAllIsValid(gens: seq<Gen>, docs: Batch, estimate: Doc -> nat)
    requires Valid(gens)
    ensures Valid(AfterInsertAll(gens, docs, estimate)) && |AfterInsertAll(gens, docs, estimate)| == |gens|
    decreases |docs|
  {
    if docs != [] {
      var (front, last) := (docs[..|docs| - 1], docs[|docs| - 1]);
      InsertAllIsValid(gens, front, estimate);
      InsertWorks(AfterInsertAll(gens, front, estimate), last.0, Cached(last.1, estimate(last.1)));
    }
  }

  lemma {:induction false} InsertAllWorks(gens: seq<Gen>, docs: Batch, estimate: Doc -> nat, x: U32)
    requires Valid(gens)
    ensures InsertedFor(gens, docs, estimate, x)
    decreases |docs|
  {
    if docs != [] {
      var (front, last) := (docs[..|docs| - 1], docs[|docs| - 1]);
      InsertAllWorks(gens, front, estimate, x);
      InsertAllIsValid(gens, front, estimate);
      InsertWorks(AfterInsertAll(gens, front, estimate), last.0, Cached(last.1, estimate(last.1)));
    }
  }

  /** Every slot of the batch reads as its last pair, every other one as before. */
  lemma LookupAfterInsertAll(gens: seq<Gen>, docs: Batch, estimate: Doc -> nat, x: U32)
    requires Valid(gens)
    ensures Lookup(AfterInsertAll(gens, docs, estimate), x) == if LastFor(docs, x).Some? then LastFor(docs, x) else Lookup(gens, x)
  {
    InsertAllWorks(gens, docs, estimate, x);
    InsertAllIsValid(gens, docs, estimate);
    var r := AfterInsertAll(gens, docs, estimate);
    if LastFor(docs, x).Some? {
      OnlyAt(r, x, 0);
    } else {
      SameLookup(r, gens, x);
    }
  }

  // ---- Rewriting ----

  lemma {:induction false} UpdateAllIsValid(gens: seq<Gen>, docs: Batch, estimate: Doc -> nat)
    requires Valid(gens)
    ensures Valid(AfterUpdateAll(gens, docs, estimate)) && |AfterUpdateAll(gens, docs, estimate)| == |gens|
    ensures forall i :: 0 <= i < |gens| ==> AfterUpdateAll(gens, docs, estimate)[i].entries.Keys == gens[i].entries.Keys
    decreases |docs|
  {
    if docs != [] {
      var (front, last) := (docs[..|docs| - 1], docs[|docs| - 1]);
      UpdateAllIsValid(gens, front, estimate);
      UpdateWorks(AfterUpdateAll(gens, front, estimate), last.0, Cached(last.1, estimate(last.1)));
    }
  }

  /** A cached slot of the batch reads as its last pair and stays where it is; nothing else changes. */
  lemma {:induction false} LookupAfterUpdateAll(gens: seq<Gen>, docs: Batch, estimate: Doc -> nat, x: U32)
    requires Valid(gens)
    ensures Lookup(AfterUpdateAll(gens, docs, estimate), x) ==
            if Lookup(gens, x).Some? && LastFor(docs, x).Some? then LastFor(docs, x) else Lookup(gens, x)
    decreases |docs|
  {
    if docs != [] {
      var (front, last) := (docs[..|docs| - 1], docs[|docs| - 1]);
      LookupAfterUpdateAll(gens, front, estimate, x);
      LookupAfterUpdateAll(gens, front, estimate, last.0);
      UpdateAllIsValid(gens, front, estimate);
      LookupAfterUpdate(AfterUpdateAll(gens, front, estimate), last.0, Cached(last.1, estimate(last.1)), x);
    }
  }

  // ---- Fetching ----

  /** Each slot is looked up in turn; hits in older generations are promoted. */
  function AfterGetAll(gens: seq<Gen>, slots: seq<U32>): seq<Gen> {
    if slots == [] then gens else AfterGet(AfterGetAll(gens, slots[..|slots| - 1]), slots[|slots| - 1])
  }

  /** The documents of the slots that are stored but not cached, each once. */
  function Missed(gens: seq<Gen>, store: map<U32, Doc>, slots: seq<U32>): Batch {
    if slots == [] then []
    else
      WithMissed(Lookup(gens, slots[|slots| - 1]), store, Missed(gens, store, slots[..|slots| - 1]), slots[|slots| - 1])
  }

  lemma OneSlotMore(gens: seq<Gen>, store: map<U32, Doc>, front: seq<U32>, x: U32)
    ensures AfterGetAll(gens, front + [x]) == AfterGet(AfterGetAll(gens, front), x)
    ensures Missed(gens, store, front + [x]) == WithMissed(Lookup(gens, x), store, Missed(gens, store, front), x)
  {
    assert (front + [x])[..|front|] == front;
  }

  /** A slot that was not found joins the batch unless it is there already or not stored. */
  function WithMissed(hit: Option<Doc>, store: map<U32, Doc>, missing: Batch, x: U32): Batch {
    if hit.None? && x in store && LastFor(missing, x).None? then missing + [(x, store[x])] else missing
  }

  lemma LastOfAppended(docs: Batch, x: U32, d: Doc, y: U32)
    ensures LastFor(docs + [(x, d)], y) == if y == x then Some(d) else LastFor(docs, y)
  {
    assert (docs + [(x, d)])[..|docs|] == docs;
  }

  /** The missed documents are the stored ones of the slots that were asked for and not cached. */
  lemma {:induction false} MissedIsStored(gens: seq<Gen>, store: map<U32, Doc>, slots: seq<U32>, x: U32)
    ensures LastFor(Missed(gens, store, slots), x) ==
            if x in slots && Lookup(gens, x).None? && x in store then Some(store[x]) else None
    decreases |slots|
  {
    if slots != [] {
      var (front, last) := (slots[..|slots| - 1], slots[|slots| - 1]);
      MissedIsStored(gens, store, front, x);
      assert slots == front + [last];
      if last in store {
        LastOfAppended(Missed(gens, store, front), last, store[last], x);
      }
    }
  }

  function AfterFetch(gens: seq<Gen>, store: map<U32, Doc>, slots: seq<U32>, estimate: Doc -> nat): seq<Gen> {
    AfterInsertAll(AfterGetAll(gens, slots), Missed(gens, store, slots), estimate)
  }

  lemma {:induction false} GetAllWorks(gens: seq<Gen>, slots: seq<U32>, x: U32)
    requires Valid(gens)
    ensures Valid(AfterGetAll(gens, slots)) && |AfterGetAll(gens, slots)| == |gens| && Lookup(AfterGetAll(gens, slots), x) == Lookup(gens, x)
    decreases |slots|
  {
    if slots != [] {
      var (front, last) := (slots[..|slots| - 1], slots[|slots| - 1]);
      GetAllWorks(gens, front, x);
      LookupAfterGet(AfterGetAll(gens, front), last, x);
      GetKeepsCount(AfterGetAll(gens, front), last);
    }
  }

  lemma GetKeepsCount(gens: seq<Gen>, x: U32)
    requires Valid(gens)
    ensures |AfterGet(gens, x)| == |gens|
  {
    var i := At(gens, x);
    if 0 < i < |gens| {
      InsertWorks(gens, x, gens[i].entries[x]);
    }
  }

  /** After a fetch every slot asked for is cached if it is stored, and nothing else is cached anew. */
  lemma FetchWorks(gens: seq<Gen>, store: map<U32, Doc>, slots: seq<U32>, estimate: Doc -> nat, x: U32)
    requires Valid(gens)
    ensures Valid(AfterFetch(gens, store, slots, estimate)) && |AfterFetch(gens, store, slots, estimate)| == |gens|
    ensures Lookup(AfterFetch(gens, store, slots, estimate), x) ==
            if Lookup(gens, x).Some? then Lookup(gens, x) else if x in slots && x in store then Some(store[x]) else None
  {
    GetAllWorks(gens, slots, x);
    MissedIsStored(gens, store, slots, x);
    InsertAllIsValid(AfterGetAll(gens, slots), Missed(gens, store, slots), estimate);
    LookupAfterInsertAll(AfterGetAll(gens, slots), Missed(gens, store, slots), estimate, x);
  }

  /** A slot that was asked for ends in the current generation or nowhere; others stay where they were. */
  ghost predicate FetchedFor(gens: seq<Gen>, r: seq<Gen>, slots: seq<U32>, x: U32) {
    && |r| == |gens| > 0
    && (x in slots ==> forall i :: 1 <= i < |r| ==> x !in r[i].entries)
    && (x !in slots ==> forall i :: 0 <= i < |r| ==> (x in r[i].entries <==> x in gens[i].entries))
  }

  lemma GetMoves(gens: seq<Gen>, x: U32, y: U32)
    requires Valid(gens)
    ensures var r := AfterGet(gens, x);
            && |r| == |gens|
            && (y == x ==> forall i :: 1 <= i < |r| ==> y !in r[i].entries)
            && (y != x ==> forall i :: 0 <= i < |r| ==> (y in r[i].entries <==> y in gens[i].entries))
  {
    var i := At(gens, x);
    if 0 < i < |gens| {
      InsertWorks(gens, x, gens[i].entries[x]);
    } else if i == 0 && |gens| > 0 {
      OnlyAt(gens, x, 0);
    }
  }

  lemma {:induction false} GetAllMoves(gens: seq<Gen>, slots: seq<U32>, x: U32)
    requires Valid(gens)
    ensures FetchedFor(gens, AfterGetAll(gens, slots), slots, x)
    decreases |slots|
  {
    if slots != [] {
      var (front, last) := (slots[..|slots| - 1], slots[|slots| - 1]);
      assert slots == front + [last];
      GetAllMoves(gens, front, x);
      GetAllWorks(gens, front, x);
      GetMoves(AfterGetAll(gens, front), last, x);
    }
  }

  lemma FetchMoves(gens: seq<Gen>, store: map<U32, Doc>, slots: seq<U32>, estimate: Doc -> nat, x: U32)
    requires Valid(gens)
    ensures FetchedFor(gens, AfterFetch(gens, store, slots, estimate), slots, x)
  {
    GetAllMoves(gens, slots, x);
    GetAllWorks(gens, slots, x);
    MissedIsStored(gens, store, slots, x);
    InsertAllWorks(AfterGetAll(gens, slots), Missed(gens, store, slots), estimate, x);
  }
}
