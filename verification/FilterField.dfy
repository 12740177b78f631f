/** One filter field: a map from value to versioned bitmap and a side set of the
    values whose bitmaps may carry unmerged diffs. */
module FilterField {
  import opened Base
  import opened VersionedBitmap

  type Bitmaps = map<U64, Versioned>

  // ---- What each operation does to the map ----

  function Entry(m: Bitmaps, value: U64, initial: Versioned): Versioned {
    if value in m then m[value] else initial
  }

  /** A value first seen by an insert: a lazy field must still read the disk for it. */
  function Inserted(lazy: bool): Versioned {
    if lazy then PLACEHOLDER else EMPTY
  }

  function AfterInsert(m: Bitmaps, lazy: bool, value: U64, xs: Bitmap): Bitmaps {
    m[value := Entry(m, value, Inserted(lazy)).Insert(xs)]
  }

  function AfterRemove(m: Bitmaps, value: U64, xs: Bitmap): Bitmaps {
    m[value := Entry(m, value, PLACEHOLDER).Remove(xs)]
  }

  function AfterRemoveFrom(m: Bitmaps, values: set<U64>, x: U32): Bitmaps {
    map v | v in m :: if v in values then m[v].Remove({x}) else m[v]
  }

  function AfterMerge(m: Bitmaps, values: set<U64>): Bitmaps {
    map v | v in m :: if v in values then m[v].Merge() else m[v]
  }

  /** The drained values that could not be merged because their base is not in memory. */
  function Requeued(m: Bitmaps, values: set<U64>): set<U64> {
    set v | v in values && v in m && m[v].IsDirty() && !m[v].loaded
  }

  function AfterLoadOne(m: Bitmaps, disk: map<U64, Bitmap>, value: U64): Bitmaps {
    if value in disk then OrOne(m, value, disk[value])
    else m[value := Entry(m, value, EMPTY).MarkLoaded()]
  }

  function AfterLoad(m: Bitmaps, disk: map<U64, Bitmap>, requested: seq<U64>): Bitmaps {
    if requested == [] then m
    else AfterLoadOne(AfterLoad(m, disk, requested[..|requested| - 1]), disk, requested[|requested| - 1])
  }

  /** Every persisted value is ORed in, then everything in memory counts as loaded. */
  function AfterLoadComplete(m: Bitmaps, disk: map<U64, Bitmap>): Bitmaps {
    map v | v in m.Keys + disk.Keys ::
      if v in disk then Entry(m, v, PLACEHOLDER).LoadBase(disk[v]) else m[v].MarkLoaded()
  }

  function OrOne(m: Bitmaps, value: U64, persisted: Bitmap): Bitmaps {
    m[value := Entry(m, value, PLACEHOLDER).LoadBase(persisted)]
  }

  /** Some persisted values ORed in. */
  function OredIn(m: Bitmaps, disk: map<U64, Bitmap>, values: set<U64>): Bitmaps
    requires values <= disk.Keys
  {
    map v | v in m.Keys + values ::
      if v in values then Entry(m, v, PLACEHOLDER).LoadBase(disk[v]) else m[v]
  }

  function AfterUnload(m: Bitmaps): Bitmaps {
    map v | v in m :: m[v].Unload()
  }

  // ---- The field ----

  /** No value with an unmerged diff is missing from the side set. */
  ghost predicate Tracked(m: Bitmaps, dirty: set<U64>) {
    forall v :: v in m && m[v].IsDirty() ==> v in dirty
  }

  ghost predicate AllValid(m: Bitmaps) {
    forall v :: v in m ==> m[v].Valid()
  }

  class FilterField {
    const lazy: bool
    var bitmaps: Bitmaps
    var dirty: set<U64>

    ghost predicate Valid()
      reads this
    {
      AllValid(bitmaps) && Tracked(bitmaps, dirty)
    }

    constructor (lazy: bool)
      ensures Valid()
      ensures this.lazy == lazy && bitmaps == map[] && dirty == {}
    {
      this.lazy := lazy;
      bitmaps, dirty := map[], {};
    }

    method InsertBulk(value: U64, slots: seq<U32>)
      requires Valid()
      modifies this
      ensures Valid()
      ensures bitmaps == AfterInsert(old(bitmaps), lazy, value, Elements(slots))
      ensures dirty == old(dirty) + {value}
    {
      var vb := Entry(bitmaps, value, Inserted(lazy));
      ghost var start := vb;
      for i := 0 to |slots|
        invariant vb == start.Insert(Elements(slots[..i]))
        invariant bitmaps == old(bitmaps) && dirty == old(dirty)
      {
        vb := vb.Insert({slots[i]});
        assert Elements(slots[..i + 1]) == Elements(slots[..i]) + {slots[i]};
        InsertTwice(start, Elements(slots[..i]), {slots[i]});
      }
      assert slots[..|slots|] == slots;
      bitmaps := bitmaps[value := vb];
      dirty := dirty + {value};
    }

    method RemoveBulk(value: U64, slots: seq<U32>)
      requires Valid()
      modifies this
      ensures Valid()
      ensures bitmaps == AfterRemove(old(bitmaps), value, Elements(slots))
      ensures dirty == old(dirty) + {value}
    {
      var vb := Entry(bitmaps, value, PLACEHOLDER);
      ghost var start := vb;
      for i := 0 to |slots|
        invariant vb == start.Remove(Elements(slots[..i]))
        invariant bitmaps == old(bitmaps) && dirty == old(dirty)
      {
        vb := vb.Remove({slots[i]});
        assert Elements(slots[..i + 1]) == Elements(slots[..i]) + {slots[i]};
        RemoveTwice(start, Elements(slots[..i]), {slots[i]});
      }
      assert slots[..|slots|] == slots;
      bitmaps := bitmaps[value := vb];
      dirty := dirty + {value};
    }

    /** Used by autovac: clears a dead slot from every bitmap in memory. */
    method RemoveFromAll(slot: U32)
      requires Valid()
      modifies this
      ensures Valid()
      ensures bitmaps == AfterRemoveFrom(old(bitmaps), old(bitmaps).Keys, slot)
      ensures dirty == old(dirty) + old(bitmaps).Keys
    {
      ghost var before := bitmaps;
      var touched: set<U64> := {};
      RemoveFromNothing(bitmaps, slot);
      while touched != bitmaps.Keys
        invariant touched <= before.Keys
        invariant bitmaps == AfterRemoveFrom(before, touched, slot)
        invariant dirty == old(dirty)
        decreases |before.Keys - touched|
      {
        ValidAfterRemoveFrom(before, touched, slot);
        var v :| v in bitmaps.Keys - touched;
        RemoveFromOneMore(before, touched, slot, v);
        bitmaps := bitmaps[v := bitmaps[v].Remove({slot})];
        assert before.Keys - (touched + {v}) == before.Keys - touched - {v};
        touched := touched + {v};
      }
      dirty := dirty + touched;
      ValidAfterRemoveFrom(before, before.Keys, slot);
    }

    /** Drains the side set, merges what is loaded and puts the rest back. */
    method MergeDirty()
      requires Valid()
      modifies this
      ensures Valid()
      ensures bitmaps == AfterMerge(old(bitmaps), old(dirty))
      ensures dirty == Requeued(old(bitmaps), old(dirty))
      ensures forall v :: v in dirty <==> v in bitmaps && bitmaps[v].IsDirty()
    {
      ghost var before, drained := bitmaps, dirty;
      var left := dirty;
      var requeue: set<U64> := {};
      dirty := {};
      MergeNothing(before, drained);
      while left != {}
        invariant left <= drained
        invariant bitmaps == AfterMerge(before, drained - left)
        invariant requeue == Requeued(before, drained - left)
        invariant dirty == {}
        decreases |left|
      {
        var value :| value in left;
        MergeOneMore(before, drained, left, value);
        if value in bitmaps {
          var vb := bitmaps[value];
          if vb.IsDirty() {
            if vb.loaded {
              bitmaps := bitmaps[value := vb.Merge()];
            } else {
              requeue := requeue + {value};
            }
          }
        }
        left := left - {value};
      }
      dirty := dirty + requeue;
      assert drained - left == drained;
      ValidAfterMerge(before, drained);
    }

    /** Merges one value and fixes its membership in the side set. */
    method MergeField(value: U64)
      requires Valid()
      modifies this
      ensures Valid()
      ensures bitmaps == AfterMerge(old(bitmaps), {value})
      ensures value in old(bitmaps) ==> dirty == old(dirty) - {value} + Requeued(old(bitmaps), {value})
      ensures value !in old(bitmaps) ==> dirty == old(dirty)
    {
      if value in bitmaps {
        var vb := bitmaps[value];
        if vb.IsDirty() && !vb.loaded {
          dirty := dirty + {value};
        } else {
          bitmaps := bitmaps[value := vb.Merge()];
          dirty := dirty - {value};
        }
      }
      assert bitmaps == AfterMerge(old(bitmaps), {value});
    }

    /** Brings requested values in from disk. */
    method LoadValues(disk: map<U64, Bitmap>, requested: seq<U64>)
      requires Valid()
      modifies this
      ensures Valid()
      ensures bitmaps == AfterLoad(old(bitmaps), disk, requested)
      ensures forall v :: if v in requested then LoadedOver(old(bitmaps), disk, bitmaps, v) else Untouched(old(bitmaps), bitmaps, v)
      ensures dirty == old(dirty)
    {
      forall v
        ensures var r := AfterLoad(bitmaps, disk, requested);
                if v in requested then LoadedOver(bitmaps, disk, r, v) else Untouched(bitmaps, r, v)
      {
        LoadReaches(bitmaps, disk, requested, v);
      }
      for i := 0 to |requested|
        invariant Valid()
        invariant bitmaps == AfterLoad(old(bitmaps), disk, requested[..i])
        invariant dirty == old(dirty)
      {
        bitmaps := AfterLoadOne(bitmaps, disk, requested[i]);
        assert requested[..i + 1][..i] == requested[..i];
      }
      assert requested[..|requested|] == requested;
    }

    /** Brings the whole field in; values mutated while unloaded and absent from disk count as loaded. */
    method LoadFieldComplete(disk: map<U64, Bitmap>)
      requires Valid()
      modifies this
      ensures Valid()
      ensures bitmaps == AfterLoadComplete(old(bitmaps), disk)
      ensures dirty == old(dirty)
    {
      bitmaps := OrPersisted(bitmaps, disk);
      OredInThenMarked(old(bitmaps), disk);
      bitmaps := map v | v in bitmaps :: bitmaps[v].MarkLoaded();
      ValidAfterLoadComplete(old(bitmaps), disk, dirty);
    }

    method ClearBasesAndUnload()
      requires Valid()
      modifies this
      ensures Valid()
      ensures bitmaps == AfterUnload(old(bitmaps))
      ensures dirty == old(dirty)
    {
      bitmaps := AfterUnload(bitmaps);
    }

    /** Idle eviction: forgets a value; it can be read from disk again. */
    method RemoveValue(value: U64)
      requires Valid()
      modifies this
      ensures Valid()
      ensures bitmaps == old(bitmaps) - {value}
      ensures dirty == old(dirty) - {value}
    {
      bitmaps := bitmaps - {value};
      dirty := dirty - {value};
    }
  }

  predicate Untouched(m: Bitmaps, r: Bitmaps, v: U64) {
    (v in r <==> v in m) && (v in m ==> r[v] == m[v])
  }

  /** The value is in memory, its base has the persisted bits, its diff is as it was, and if its base was
      missing it now reads as what is on disk under the diff. */
  predicate LoadedOver(m: Bitmaps, disk: map<U64, Bitmap>, r: Bitmaps, v: U64) {
    var (was, bits) := (Entry(m, v, PLACEHOLDER), if v in disk then disk[v] else {});
    && v in r && r[v].loaded
    && r[v].base == was.base + bits && r[v].sets == was.sets && r[v].clears == was.clears
    && (!was.loaded ==> r[v].Fused() == was.Logical(bits))
  }

  lemma {:induction false} LoadReaches(m: Bitmaps, disk: map<U64, Bitmap>, requested: seq<U64>, v: U64)
    requires AllValid(m)
    ensures var r := AfterLoad(m, disk, requested);
            if v in requested then LoadedOver(m, disk, r, v) else Untouched(m, r, v)
    decreases |requested|
  {
    if requested != [] {
      var (front, last) := (requested[..|requested| - 1], requested[|requested| - 1]);
      LoadReaches(m, disk, front, v);
      assert requested == front + [last];
    }
  }

  method OrPersisted(m: Bitmaps, disk: map<U64, Bitmap>) returns (r: Bitmaps)
    ensures r == OredIn(m, disk, disk.Keys)
  {
    r := m;
    var left := disk.Keys;
    OredInNothing(m, disk);
    while left != {}
      invariant left <= disk.Keys
      invariant r == OredIn(m, disk, disk.Keys - left)
      decreases |left|
    {
      var v :| v in left;
      OredInOneMore(m, disk, left, v);
      r := OrOne(r, v, disk[v]);
      left := left - {v};
    }
    assert disk.Keys - left == disk.Keys;
  }

  lemma OredInNothing(m: Bitmaps, disk: map<U64, Bitmap>)
    ensures OredIn(m, disk, disk.Keys - disk.Keys) == m
  {
  }

  lemma OredInOneMore(m: Bitmaps, disk: map<U64, Bitmap>, left: set<U64>, v: U64)
    requires v in left && left <= disk.Keys
    ensures OredIn(m, disk, disk.Keys - (left - {v})) == OrOne(OredIn(m, disk, disk.Keys - left), v, disk[v])
  {
    assert disk.Keys - (left - {v}) == disk.Keys - left + {v};
  }

  lemma OredInThenMarked(m: Bitmaps, disk: map<U64, Bitmap>)
    ensures var ored := OredIn(m, disk, disk.Keys);
            (map v | v in ored :: ored[v].MarkLoaded()) == AfterLoadComplete(m, disk)
  {
  }

  lemma ValidAfterLoadComplete(m: Bitmaps, disk: map<U64, Bitmap>, dirty: set<U64>)
    requires AllValid(m) && Tracked(m, dirty)
    ensures AllValid(AfterLoadComplete(m, disk)) && Tracked(AfterLoadComplete(m, disk), dirty)
  {
  }

  lemma InsertTwice(v: Versioned, xs: Bitmap, ys: Bitmap)
    ensures v.Insert(xs).Insert(ys) == v.Insert(xs + ys)
  {
  }

  lemma RemoveTwice(v: Versioned, xs: Bitmap, ys: Bitmap)
    ensures v.Remove(xs).Remove(ys) == v.Remove(xs + ys)
  {
  }

  lemma RemoveFromNothing(m: Bitmaps, x: U32)
    ensures AfterRemoveFrom(m, {}, x) == m
  {
  }

  lemma ValidAfterRemoveFrom(m: Bitmaps, values: set<U64>, x: U32)
    requires AllValid(m)
    ensures AllValid(AfterRemoveFrom(m, values, x))
    ensures AfterRemoveFrom(m, values, x).Keys == m.Keys
  {
  }

  lemma RemoveFromOneMore(m: Bitmaps, values: set<U64>, x: U32, v: U64)
    requires v in m && v !in values
    ensures AfterRemoveFrom(m, values + {v}, x) == AfterRemoveFrom(m, values, x)[v := AfterRemoveFrom(m, values, x)[v].Remove({x})]
  {
  }

  lemma MergeNothing(m: Bitmaps, values: set<U64>)
    ensures AfterMerge(m, values - values) == m
    ensures Requeued(m, values - values) == {}
  {
  }

  lemma MergeOneMore(m: Bitmaps, values: set<U64>, left: set<U64>, v: U64)
    requires v in left && left <= values
    ensures var done, now := values - left, values - (left - {v});
            && (v in AfterMerge(m, done) <==> v in m)
            && (v in m ==> AfterMerge(m, done)[v] == m[v])
            && (AfterMerge(m, now) == if v in m && m[v].IsDirty() && m[v].loaded then AfterMerge(m, done)[v := m[v].Merge()] else AfterMerge(m, done))
            && (Requeued(m, now) == if v in m && m[v].IsDirty() && !m[v].loaded then Requeued(m, done) + {v} else Requeued(m, done))
  {
    assert values - (left - {v}) == values - left + {v};
  }

  /** After a merge only values that could not be merged are still dirty. */
  lemma ValidAfterMerge(m: Bitmaps, dirty: set<U64>)
    requires AllValid(m) && Tracked(m, dirty)
    ensures AllValid(AfterMerge(m, dirty)) && Tracked(AfterMerge(m, dirty), Requeued(m, dirty))
  {
    forall v | v in m ensures m[v].Merge().Valid() {
      MergeKeepsContents(m[v], {});
    }
  }
}
