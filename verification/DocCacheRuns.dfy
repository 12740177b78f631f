/** Runs of the document cache beside the document store. */
module DocCacheRuns {
  import opened Base
  import opened DocGenerations
  import opened DocBatches

  datatype Config = Config(maxBytes: nat, maxGenerations: nat, estimate: Doc -> nat)

  /** `epoch` counts rotations; `touched` is the epoch in which a slot was last inserted or hit. */
  datatype State = State(gens: seq<Gen>, store: map<U32, Doc>, epoch: nat, touched: map<U32, nat>)

  datatype Op =
    | Read(slot: U32)
    | Fetch(slots: seq<U32>)
    | Write(docs: seq<(U32, Doc)>)
    | Edit(slot: U32, doc: Option<Doc>)
    | Rotate
    | Evict
    | Clear

  function Stored(store: map<U32, Doc>, docs: seq<(U32, Doc)>): map<U32, Doc> {
    if docs == [] then store else Stored(store, docs[..|docs| - 1])[docs[|docs| - 1].0 := docs[|docs| - 1].1]
  }

  /** A read takes the cached document, or the stored one and caches it. */
  function AfterRead(cfg: Config, s: State, x: U32): State {
    if Lookup(s.gens, x).Some? then s.(gens := AfterGet(s.gens, x), touched := s.touched[x := s.epoch])
    else if x in s.store then
      s.(gens := AfterInsert(s.gens, x, Cached(s.store[x], cfg.estimate(s.store[x]))), touched := s.touched[x := s.epoch])
    else s
  }

  /** The slots that a fetch finds, cached or stored, count as touched. */
  function AfterFetching(cfg: Config, s: State, slots: seq<U32>): State {
    s.(gens := AfterFetch(s.gens, s.store, slots, cfg.estimate),
       touched := map x | x in s.touched.Keys + Found(s, slots) :: if x in Found(s, slots) then s.epoch else s.touched[x])
  }

  function Found(s: State, slots: seq<U32>): set<U32> {
    set x | x in slots && (Lookup(s.gens, x).Some? || x in s.store)
  }

  ghost function Next(cfg: Config, s: State, op: Op): State {
    match op
    case Read(x) => AfterRead(cfg, s, x)
    case Fetch(slots) => AfterFetching(cfg, s, slots)
    case Write(docs) => s.(gens := AfterUpdateAll(s.gens, docs, cfg.estimate), store := Stored(s.store, docs))
    case Edit(x, doc) => s.(gens := AfterRemove(s.gens, x), store := if doc.Some? then s.store[x := doc.value] else s.store - {x})
    case Rotate => s.(gens := AfterPush(s.gens, cfg.maxGenerations), epoch := s.epoch + 1)
    case Evict => s.(gens := AfterEvict(s.gens, cfg.maxBytes))
    case Clear => s.(gens := [EMPTY_GEN])
  }

  ghost function EndOf(cfg: Config, s: State, ops: seq<Op>): State {
    if ops == [] then s else Next(cfg, EndOf(cfg, s, ops[..|ops| - 1]), ops[|ops| - 1])
  }

  // ---- Invariants ----

  /** Every cached document is the stored one. */
  ghost predicate Coherent(s: State) {
    forall x :: Lookup(s.gens, x).Some? ==> x in s.store && s.store[x] == Lookup(s.gens, x).value
  }

  ghost predicate TouchedBy(s: State, i: nat, x: U32)
    requires i < |s.gens|
  {
    x in s.gens[i].entries ==> x in s.touched && s.touched[x] <= s.epoch && (i > 0 ==> s.touched[x] < s.epoch)
  }

  ghost predicate Fresher(s: State, i: nat, j: nat, x: U32, y: U32)
    requires i < |s.gens| && j < |s.gens|
  {
    x in s.gens[i].entries && y in s.gens[j].entries && x in s.touched && y in s.touched ==> s.touched[x] > s.touched[y]
  }

  /** Entries of a newer generation were touched in a later epoch than those of any older one. */
  ghost predicate Recency(s: State) {
    && (forall i, x :: 0 <= i < |s.gens| ==> TouchedBy(s, i, x))
    && (forall i, j, x, y :: 0 <= i < j < |s.gens| ==> Fresher(s, i, j, x, y))
  }

  ghost predicate Shape(cfg: Config, s: State) {
    Valid(s.gens) && |s.gens| <= Cap(cfg.maxGenerations)
  }

  ghost predicate Inv(cfg: Config, s: State) {
    Shape(cfg, s) && Coherent(s) && Recency(s)
  }

  // ---- Coherence ----

  lemma ReadIsCoherent(cfg: Config, s: State, x: U32)
    requires Shape(cfg, s) && Coherent(s)
    ensures Shape(cfg, AfterRead(cfg, s, x)) && Coherent(AfterRead(cfg, s, x))
  {
    var t := AfterRead(cfg, s, x);
    forall y ensures Lookup(t.gens, y).Some? ==> y in t.store && t.store[y] == Lookup(t.gens, y).value {
      if Lookup(s.gens, x).Some? {
        LookupAfterGet(s.gens, x, y);
      } else if x in s.store {
        LookupAfterInsert(s.gens, x, Cached(s.store[x], cfg.estimate(s.store[x])), y);
      }
    }
    if Lookup(s.gens, x).Some? {
      LookupAfterGet(s.gens, x, x);
      GetKeepsCount(s.gens, x);
    } else if x in s.store {
      InsertWorks(s.gens, x, Cached(s.store[x], cfg.estimate(s.store[x])));
    }
  }

  lemma FetchIsCoherent(cfg: Config, s: State, slots: seq<U32>)
    requires Shape(cfg, s) && Coherent(s)
    ensures Shape(cfg, AfterFetching(cfg, s, slots)) && Coherent(AfterFetching(cfg, s, slots))
  {
    var t := AfterFetching(cfg, s, slots);
    FetchWorks(s.gens, s.store, slots, cfg.estimate, 0);
    forall y ensures Lookup(t.gens, y).Some? ==> y in t.store && t.store[y] == Lookup(t.gens, y).value {
      FetchWorks(s.gens, s.store, slots, cfg.estimate, y);
    }
  }

  lemma {:induction false} WriteIsCoherent(cfg: Config, s: State, docs: seq<(U32, Doc)>)
    requires Shape(cfg, s) && Coherent(s)
    ensures var t := s.(gens := AfterUpdateAll(s.gens, docs, cfg.estimate), store := Stored(s.store, docs));
            Shape(cfg, t) && Coherent(t) && |t.gens| == |s.gens|
    ensures forall i :: 0 <= i < |s.gens| ==> AfterUpdateAll(s.gens, docs, cfg.estimate)[i].entries.Keys == s.gens[i].entries.Keys
    decreases |docs|
  {
    if docs != [] {
      var front := docs[..|docs| - 1];
      WriteIsCoherent(cfg, s, front);
      var last := docs[|docs| - 1];
      WriteOneIsCoherent(AfterUpdateAll(s.gens, front, cfg.estimate), Stored(s.store, front), last.0, Cached(last.1, cfg.estimate(last.1)), s);
    }
  }

  lemma WriteOneIsCoherent(gens: seq<Gen>, store: map<U32, Doc>, x: U32, c: Cached, s: State)
    requires Valid(gens) && Coherent(s.(gens := gens, store := store))
    ensures Valid(AfterUpdate(gens, x, c)) && |AfterUpdate(gens, x, c)| == |gens|
    ensures Coherent(s.(gens := AfterUpdate(gens, x, c), store := store[x := c.doc]))
    ensures forall i :: 0 <= i < |gens| ==> AfterUpdate(gens, x, c)[i].entries.Keys == gens[i].entries.Keys
  {
    UpdateWorks(gens, x, c);
    var t := s.(gens := AfterUpdate(gens, x, c), store := store[x := c.doc]);
    forall y ensures Lookup(t.gens, y).Some? ==> y in t.store && t.store[y] == Lookup(t.gens, y).value {
      LookupAfterUpdate(gens, x, c, y);
      assert Lookup(gens, y).Some? ==> y in store && store[y] == Lookup(gens, y).value by {
        assert s.(gens := gens, store := store).gens == gens;
      }
    }
  }

  lemma EditIsCoherent(cfg: Config, s: State, x: U32, doc: Option<Doc>)
    requires Shape(cfg, s) && Coherent(s)
    ensures Shape(cfg, Next(cfg, s, Edit(x, doc))) && Coherent(Next(cfg, s, Edit(x, doc)))
  {
    RemoveWorks(s.gens, x);
    var t := Next(cfg, s, Edit(x, doc));
    forall y ensures Lookup(t.gens, y).Some? ==> y in t.store && t.store[y] == Lookup(t.gens, y).value {
      LookupAfterRemove(s.gens, x, y);
    }
  }

  lemma RotateIsCoherent(cfg: Config, s: State)
    requires Shape(cfg, s) && Coherent(s)
    ensures Shape(cfg, Next(cfg, s, Rotate)) && Coherent(Next(cfg, s, Rotate))
  {
    var t := Next(cfg, s, Rotate);
    PushWorks(s.gens, cfg.maxGenerations, 0);
    forall y ensures Lookup(t.gens, y).Some? ==> y in t.store && t.store[y] == Lookup(t.gens, y).value {
      PushWorks(s.gens, cfg.maxGenerations, y);
    }
  }

  lemma EvictIsCoherent(cfg: Config, s: State)
    requires Shape(cfg, s) && Coherent(s)
    ensures Shape(cfg, Next(cfg, s, Evict)) && Coherent(Next(cfg, s, Evict))
  {
    var t := Next(cfg, s, Evict);
    var n := |t.gens|;
    EvictWorks(s.gens, cfg.maxBytes);
    PrefixIsValid(s.gens, n);
    forall y ensures Lookup(t.gens, y).Some? ==> y in t.store && t.store[y] == Lookup(t.gens, y).value {
      PrefixLookup(s.gens, n, y);
    }
  }

  lemma {:induction false} StaysCoherent(cfg: Config, s: State, op: Op)
    requires Shape(cfg, s) && Coherent(s)
    ensures Shape(cfg, Next(cfg, s, op)) && Coherent(Next(cfg, s, op))
  {
    match op
    case Read(x) => ReadIsCoherent(cfg, s, x);
    case Fetch(slots) => FetchIsCoherent(cfg, s, slots);
    case Write(docs) => WriteIsCoherent(cfg, s, docs);
    case Edit(x, doc) => EditIsCoherent(cfg, s, x, doc);
    case Rotate => RotateIsCoherent(cfg, s);
    case Evict => EvictIsCoherent(cfg, s);
    case Clear => assert Counted(EMPTY_GEN);
  }

  // ---- Recency ----

  /** Keeping only some entries where they are keeps recency. */
  lemma FewerStayRecent(s: State, t: State)
    requires Recency(s) && |t.gens| <= |s.gens| && t.epoch == s.epoch && t.touched == s.touched
    requires forall i :: 0 <= i < |t.gens| ==> t.gens[i].entries.Keys <= s.gens[i].entries.Keys
    ensures Recency(t)
  {
    forall i, x | 0 <= i < |t.gens| ensures TouchedBy(t, i, x) {
      assert TouchedBy(s, i, x);
    }
    forall i, j, x, y | 0 <= i < j < |t.gens| ensures Fresher(t, i, j, x, y) {
      assert Fresher(s, i, j, x, y);
    }
  }

  /** Bringing one slot to the front, marked with the current epoch, keeps recency. */
  lemma FrontStaysRecent(s: State, t: State, x: U32)
    requires Recency(s) && |t.gens| == |s.gens| > 0 && t.epoch == s.epoch && t.touched == s.touched[x := s.epoch]
    requires t.gens[0].entries.Keys <= s.gens[0].entries.Keys + {x}
    requires forall i :: 1 <= i < |t.gens| ==> t.gens[i].entries.Keys <= s.gens[i].entries.Keys - {x}
    ensures Recency(t)
  {
    forall i, y | 0 <= i < |t.gens| ensures TouchedBy(t, i, y) {
      assert TouchedBy(s, i, y);
    }
    forall i, j, y, z | 0 <= i < j < |t.gens| ensures Fresher(t, i, j, y, z) {
      assert Fresher(s, i, j, y, z) && TouchedBy(s, j, z) && TouchedBy(s, i, y);
    }
  }

  lemma {:induction false} ReadStaysRecent(cfg: Config, s: State, x: U32)
    requires Shape(cfg, s) && Recency(s)
    ensures Recency(AfterRead(cfg, s, x))
  {
    var t := AfterRead(cfg, s, x);
    var i := At(s.gens, x);
    if i < |s.gens| {
      OnlyAt(s.gens, x, i);
      if i > 0 {
        InsertWorks(s.gens, x, s.gens[i].entries[x]);
      }
      FrontStaysRecent(s, t, x);
    } else if x in s.store {
      InsertWorks(s.gens, x, Cached(s.store[x], cfg.estimate(s.store[x])));
      FrontStaysRecent(s, t, x);
    }
  }

  lemma EntryMeansLookup(gens: seq<Gen>, i: nat, x: U32)
    requires Valid(gens) && i < |gens| && x in gens[i].entries
    ensures Lookup(gens, x).Some?
  {
    OnlyAt(gens, x, i);
  }

  /** What holds of one entry after a fetch: it was asked for and is in front, or it has not moved. */
  lemma FetchedEntry(cfg: Config, s: State, slots: seq<U32>, i: nat, x: U32)
    requires Shape(cfg, s) && Recency(s) && i < |AfterFetching(cfg, s, slots).gens| && x in AfterFetching(cfg, s, slots).gens[i].entries
    ensures i < |s.gens| && x in AfterFetching(cfg, s, slots).touched
    ensures if x in slots then i == 0 && AfterFetching(cfg, s, slots).touched[x] == s.epoch
            else x in s.gens[i].entries && x in s.touched && AfterFetching(cfg, s, slots).touched[x] == s.touched[x]
  {
    FetchMoves(s.gens, s.store, slots, cfg.estimate, x);
    FetchWorks(s.gens, s.store, slots, cfg.estimate, x);
    EntryMeansLookup(AfterFetching(cfg, s, slots).gens, i, x);
    if x !in slots {
      assert TouchedBy(s, i, x);
    }
  }

  lemma FetchStaysRecent(cfg: Config, s: State, slots: seq<U32>)
    requires Shape(cfg, s) && Recency(s)
    ensures Recency(AfterFetching(cfg, s, slots))
  {
    var t := AfterFetching(cfg, s, slots);
    forall i, x | 0 <= i < |t.gens| ensures TouchedBy(t, i, x) {
      if x in t.gens[i].entries {
        FetchedEntry(cfg, s, slots, i, x);
        assert i < |s.gens| && TouchedBy(s, i, x);
      }
    }
    forall i, j, x, y | 0 <= i < j < |t.gens| ensures Fresher(t, i, j, x, y) {
      if x in t.gens[i].entries && y in t.gens[j].entries {
        FetchedEntry(cfg, s, slots, i, x);
        FetchedEntry(cfg, s, slots, j, y);
        assert TouchedBy(s, j, y) && Fresher(s, i, j, x, y);
      }
    }
  }

  lemma PushedStaysRecent(s: State, t: State)
    requires Recency(s) && t.gens == [EMPTY_GEN] + s.gens && t.epoch == s.epoch + 1 && t.touched == s.touched
    ensures Recency(t)
  {
    forall i, x | 0 <= i < |t.gens| ensures TouchedBy(t, i, x) {
      assert i > 0 ==> TouchedBy(s, i - 1, x);
    }
    forall i, j, x, y | 0 <= i < j < |t.gens| ensures Fresher(t, i, j, x, y) {
      assert i > 0 ==> Fresher(s, i - 1, j - 1, x, y);
    }
  }

  lemma MergedStaysRecent(s: State, t: State)
    requires Recency(s) && Valid(s.gens) && |s.gens| >= 2
    requires t.gens == MergedOldest(s.gens) && t.epoch == s.epoch && t.touched == s.touched
    ensures Recency(t)
  {
    var n := |s.gens|;
    MergeWorks(s.gens);
    forall i | 0 <= i < n - 1 ensures t.gens[i].entries.Keys <= s.gens[i].entries.Keys + s.gens[i + 1].entries.Keys
                              ensures i < n - 2 ==> t.gens[i].entries.Keys <= s.gens[i].entries.Keys
    {
      assert i < n - 2 ==> t.gens[i] == t.gens[..n - 2][i] == s.gens[i];
    }
    JoinedStaysRecent(s, t);
  }

  /** Entries of the last two generations may end up together. */
  lemma JoinedStaysRecent(s: State, t: State)
    requires Recency(s) && |t.gens| + 1 == |s.gens| && t.epoch == s.epoch && t.touched == s.touched
    requires forall i :: 0 <= i < |t.gens| ==> t.gens[i].entries.Keys <= s.gens[i].entries.Keys + s.gens[i + 1].entries.Keys
    requires forall i :: 0 <= i < |t.gens| - 1 ==> t.gens[i].entries.Keys <= s.gens[i].entries.Keys
    ensures Recency(t)
  {
    forall i, x | 0 <= i < |t.gens| ensures TouchedBy(t, i, x) {
      assert TouchedBy(s, i, x) && TouchedBy(s, i + 1, x);
    }
    forall i, j, x, y | 0 <= i < j < |t.gens| ensures Fresher(t, i, j, x, y) {
      assert Fresher(s, i, j, x, y) && Fresher(s, i, j + 1, x, y);
    }
  }

  function Pushed(s: State): State {
    s.(gens := [EMPTY_GEN] + s.gens, epoch := s.epoch + 1)
  }

  ghost function Joined(s: State): State {
    s.(gens := MergedOldest(s.gens))
  }

  lemma RotatedIs(cfg: Config, s: State)
    ensures Next(cfg, s, Rotate) == if |s.gens| + 1 > cfg.maxGenerations then Joined(Pushed(s)) else Pushed(s)
  {
  }

  lemma RotateStaysRecent(cfg: Config, s: State)
    requires Shape(cfg, s) && Recency(s)
    ensures Recency(Next(cfg, s, Rotate))
  {
    RotatedIs(cfg, s);
    PushedStaysRecent(s, Pushed(s));
    PushedIsValid(s.gens, 0);
    MergedStaysRecent(Pushed(s), Joined(Pushed(s)));
  }

  lemma {:induction false} StaysRecent(cfg: Config, s: State, op: Op)
    requires Inv(cfg, s)
    ensures Recency(Next(cfg, s, op))
  {
    match op
    case Read(x) => ReadStaysRecent(cfg, s, x);
    case Fetch(slots) => FetchStaysRecent(cfg, s, slots);
    case Write(docs) => WriteIsCoherent(cfg, s, docs); FewerStayRecent(s, Next(cfg, s, op));
    case Edit(x, doc) => RemoveWorks(s.gens, x); FewerStayRecent(s, Next(cfg, s, op));
    case Rotate => RotateStaysRecent(cfg, s);
    case Evict => EvictWorks(s.gens, cfg.maxBytes); FewerStayRecent(s, Next(cfg, s, op));
    case Clear => FewerStayRecent(s, Next(cfg, s, op));
  }

  // ---- Whole runs ----

  /** A new cache beside any store. */
  function Fresh(store: map<U32, Doc>): State {
    State([EMPTY_GEN], store, 0, map[])
  }

  lemma FreshHolds(cfg: Config, store: map<U32, Doc>)
    ensures Inv(cfg, Fresh(store))
  {
    assert Counted(EMPTY_GEN);
  }

  lemma {:induction false} RunsKeepInvariant(cfg: Config, s: State, ops: seq<Op>)
    requires Inv(cfg, s)
    ensures Inv(cfg, EndOf(cfg, s, ops))
    decreases |ops|
  {
    if ops != [] {
      RunsKeepInvariant(cfg, s, ops[..|ops| - 1]);
      var t := EndOf(cfg, s, ops[..|ops| - 1]);
      StaysCoherent(cfg, t, ops[|ops| - 1]);
      StaysRecent(cfg, t, ops[|ops| - 1]);
    }
  }

  /** A read at the end of any run answers with what the store holds. */
  lemma ReadsSeeTheStore(cfg: Config, s: State, ops: seq<Op>, x: U32)
    requires Inv(cfg, s)
    ensures var t := EndOf(cfg, s, ops);
            Lookup(t.gens, x).Some? ==> x in t.store && t.store[x] == Lookup(t.gens, x).value
  {
    RunsKeepInvariant(cfg, s, ops);
  }

  /** A fetch at the end of any run answers each slot with what the store holds. */
  lemma FetchesSeeTheStore(cfg: Config, s: State, ops: seq<Op>, x: U32)
    requires Inv(cfg, s)
    ensures var t := EndOf(cfg, s, ops);
            Lookup(Next(cfg, t, Fetch([x])).gens, x) == if x in t.store then Some(t.store[x]) else None
  {
    RunsKeepInvariant(cfg, s, ops);
    var t := EndOf(cfg, s, ops);
    FetchWorks(t.gens, t.store, [x], cfg.estimate, x);
    assert [x][0] == x;
  }

  /** After any run, an eviction drops only entries last touched in a strictly earlier epoch than
      every entry it leaves. */
  lemma {:induction false} EvictsLeastRecentlyUsed(cfg: Config, s: State, ops: seq<Op>, x: U32, y: U32)
    requires Inv(cfg, s)
    requires var t := EndOf(cfg, s, ops);
             Lookup(t.gens, x).Some? && Lookup(Next(cfg, t, Evict).gens, x).None? && Lookup(Next(cfg, t, Evict).gens, y).Some?
    ensures var t := EndOf(cfg, s, ops);
            x in t.touched && y in t.touched && t.touched[x] < t.touched[y]
  {
    RunsKeepInvariant(cfg, s, ops);
    var t := EndOf(cfg, s, ops);
    EvictWorks(t.gens, cfg.maxBytes);
    var n := |AfterEvict(t.gens, cfg.maxBytes)|;
    PrefixLookup(t.gens, n, x);
    PrefixLookup(t.gens, n, y);
    var (i, j) := (At(t.gens, y), At(t.gens, x));
    assert TouchedBy(t, i, y) && TouchedBy(t, j, x) && Fresher(t, i, j, y, x);
  }
}
