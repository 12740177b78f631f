/** Interleavings on one filter field. Writers change a bitmap under the lock and
    mark the value dirty only after releasing it; mergers drain the dirty set,
    merge under the lock and requeue afterwards; merging or removing one value
    changes the map under the lock and clears its mark afterwards. Query threads
    read persisted values, which the flush thread ORs in later. Values are
    unloaded, persisted and evicted in between. Threads are interleaved step by step.

    Two things must survive every run: no unmerged diff is ever forgotten, and
    the field holds what a fully resident copy would hold. Both fail for some
    interleavings; each step that can break them has its exact condition. */
module FilterRuns {
  import opened Base
  import opened VersionedBitmap
  import opened FilterField

  /** What a thread still has to do to the dirty set. */
  datatype Phase =
    | Idle
    | Marking(values: set<U64>)
    | Drained(values: set<U64>)
    | Requeueing(values: set<U64>)
    | Clearing(value: U64)

  /** Persisted bitmaps a query thread has read and the flush thread has yet to OR in: one value, or
      the whole field. */
  datatype Loading = OneValue(value: U64, data: map<U64, Bitmap>) | WholeField(data: map<U64, Bitmap>)

  /** `resident` is the reference: a copy that never leaves memory and has no diffs. */
  datatype State = State(
    lazy: bool,
    bitmaps: Bitmaps,
    dirty: set<U64>,
    disk: map<U64, Bitmap>,
    loads: seq<Loading>,
    threads: map<nat, Phase>,
    resident: map<U64, Bitmap>)

  datatype Step =
    | Insert(thread: nat, value: U64, slots: Bitmap)
    | Remove(thread: nat, value: U64, slots: Bitmap)
    | RemoveFromAll(thread: nat, slot: U32)
    | Mark(thread: nat)
    | Drain(thread: nat)
    | MergeDrained(thread: nat)
    | Requeue(thread: nat)
    | MergeValue(thread: nat, value: U64)
    | EvictValue(thread: nat, value: U64)
    | ClearMark(thread: nat)
    | Read(value: U64)
    | ReadField
    | ApplyLoad
    | Unload
    | Persist(value: U64)

  function At(m: map<U64, Bitmap>, v: U64): Bitmap {
    if v in m then m[v] else {}
  }

  /** The contents of a value: in memory, or on disk with the pending diff applied. */
  function Contents(s: State, v: U64): Bitmap {
    if v in s.bitmaps then s.bitmaps[v].Logical(At(s.disk, v)) else At(s.disk, v)
  }

  /** Base and disk agree where the diff does not decide, so the base can be dropped. */
  predicate Saved(vb: Versioned, disk: Bitmap) {
    !vb.loaded || disk - vb.sets - vb.clears == vb.base - vb.sets - vb.clears
  }

  predicate IsIdle(s: State, t: nat) {
    t in s.threads && s.threads[t].Idle?
  }

  predicate Enabled(s: State, step: Step) {
    match step
    case Insert(t, _, _) => IsIdle(s, t)
    case Remove(t, _, _) => IsIdle(s, t)
    case RemoveFromAll(t, _) => IsIdle(s, t)
    case Mark(t) => t in s.threads && s.threads[t].Marking?
    case Drain(t) => IsIdle(s, t)
    case MergeDrained(t) => t in s.threads && s.threads[t].Drained?
    case Requeue(t) => t in s.threads && s.threads[t].Requeueing?
    case MergeValue(t, _) => IsIdle(s, t)
    // the sweep looks at the diff, not at the disk
    case EvictValue(t, v) => IsIdle(s, t) && v in s.bitmaps && !s.bitmaps[v].IsDirty()
    case ClearMark(t) => t in s.threads && s.threads[t].Clearing?
    case Read(_) => true
    case ReadField => true
    case ApplyLoad => s.loads != []
    case Unload => true
    case Persist(v) => v in s.bitmaps && s.bitmaps[v].loaded
  }

  function Restricted(disk: map<U64, Bitmap>, v: U64): map<U64, Bitmap> {
    if v in disk then map[v := disk[v]] else map[]
  }

  function AfterLoading(m: Bitmaps, l: Loading): Bitmaps {
    match l
    case OneValue(v, data) => AfterLoadOne(m, data, v)
    case WholeField(data) => AfterLoadComplete(m, data)
  }

  /** What merging one value leaves its thread to do. */
  function AfterMergeValue(m: Bitmaps, v: U64): Phase {
    if v !in m then Idle else if m[v].IsDirty() && !m[v].loaded then Requeueing({v}) else Clearing(v)
  }

  function Apply(s: State, step: Step): State
    requires Enabled(s, step)
  {
    match step
    case Insert(t, v, xs) =>
      s.(bitmaps := AfterInsert(s.bitmaps, s.lazy, v, xs),
         threads := s.threads[t := Marking({v})],
         resident := s.resident[v := At(s.resident, v) + xs])
    case Remove(t, v, xs) =>
      s.(bitmaps := AfterRemove(s.bitmaps, v, xs),
         threads := s.threads[t := Marking({v})],
         resident := s.resident[v := At(s.resident, v) - xs])
    case RemoveFromAll(t, x) =>
      s.(bitmaps := AfterRemoveFrom(s.bitmaps, s.bitmaps.Keys, x),
         threads := s.threads[t := Marking(s.bitmaps.Keys)],
         resident := map v | v in s.resident :: if v in s.bitmaps then s.resident[v] - {x} else s.resident[v])
    case Mark(t) =>
      s.(dirty := s.dirty + s.threads[t].values, threads := s.threads[t := Idle])
    case Drain(t) =>
      s.(dirty := {}, threads := s.threads[t := Drained(s.dirty)])
    case MergeDrained(t) =>
      s.(bitmaps := AfterMerge(s.bitmaps, s.threads[t].values),
         threads := s.threads[t := Requeueing(Requeued(s.bitmaps, s.threads[t].values))])
    case Requeue(t) =>
      s.(dirty := s.dirty + s.threads[t].values, threads := s.threads[t := Idle])
    case MergeValue(t, v) =>
      s.(bitmaps := AfterMerge(s.bitmaps, {v}), threads := s.threads[t := AfterMergeValue(s.bitmaps, v)])
    case EvictValue(t, v) =>
      s.(bitmaps := s.bitmaps - {v}, threads := s.threads[t := Clearing(v)])
    case ClearMark(t) =>
      s.(dirty := s.dirty - {s.threads[t].value}, threads := s.threads[t := Idle])
    case Read(v) => s.(loads := s.loads + [OneValue(v, Restricted(s.disk, v))])
    case ReadField => s.(loads := s.loads + [WholeField(s.disk)])
    case ApplyLoad => s.(bitmaps := AfterLoading(s.bitmaps, s.loads[0]), loads := s.loads[1..])
    case Unload => s.(bitmaps := AfterUnload(s.bitmaps))
    case Persist(v) => s.(disk := s.disk[v := s.bitmaps[v].Fused()])
  }

  // ---- Invariants ----

  predicate Holds(p: Phase, v: U64) {
    match p
    case Idle => false
    case Clearing(_) => false
    case Marking(values) => v in values
    case Drained(values) => v in values
    case Requeueing(values) => v in values
  }

  predicate Held(s: State, v: U64) {
    exists t :: t in s.threads && Holds(s.threads[t], v)
  }

  predicate Unmerged(s: State, v: U64) {
    v in s.bitmaps && s.bitmaps[v].IsDirty()
  }

  /** Every unmerged diff is in the dirty set, a pending mark, a drained batch or a requeue list. */
  ghost predicate NothingForgotten(s: State) {
    forall v :: Unmerged(s, v) ==> v in s.dirty || Held(s, v)
  }

  /** The field holds what the resident copy holds. */
  ghost predicate MatchesResident(s: State) {
    forall v :: Contents(s, v) == At(s.resident, v)
  }

  /** A field that is not lazy keeps everything in memory. */
  ghost predicate ResidencyHolds(s: State) {
    !s.lazy ==> forall v :: v in s.disk ==> v in s.bitmaps || s.disk[v] == {}
  }

  ghost predicate Inv(s: State) {
    AllValid(s.bitmaps) && NothingForgotten(s) && MatchesResident(s) && ResidencyHolds(s)
  }

  ghost predicate Init(s: State) {
    && s.dirty == {} && s.loads == []
    && (forall t :: t in s.threads ==> s.threads[t].Idle?)
    && (forall v :: v in s.bitmaps ==> s.bitmaps[v].Valid() && !s.bitmaps[v].IsDirty())
    && MatchesResident(s)
    && ResidencyHolds(s)
  }

  // ---- The four steps that can break them, and when ----

  /** What was read goes under the diff: over a base in memory it must add nothing, and in place of a
      missing one it must tell what the disk tells, both where the diff does not decide. */
  predicate LoadFitsAt(s: State, v: U64, read: Bitmap) {
    var vb := Entry(s.bitmaps, v, PLACEHOLDER);
    if vb.loaded then read <= vb.base + vb.sets + vb.clears
    else read - vb.sets - vb.clears == At(s.disk, v) - vb.sets - vb.clears
  }

  predicate Concerns(s: State, l: Loading, v: U64) {
    if l.OneValue? then v == l.value else v in l.data || v in s.bitmaps
  }

  ghost predicate LoadFits(s: State, l: Loading) {
    forall v :: Concerns(s, l, v) ==> LoadFitsAt(s, v, At(l.data, v))
  }

  /** The value has no diff by then, or another thread still holds it. */
  predicate ClearFits(s: State, v: U64) {
    Unmerged(s, v) ==> Held(s, v)
  }

  /** The disk holds the value, and a later write will read it from there. */
  predicate EvictFits(s: State, v: U64) {
    Contents(s, v) == At(s.disk, v) && (s.lazy || At(s.disk, v) == {})
  }

  ghost predicate UnloadFits(s: State) {
    forall v :: v in s.bitmaps ==> Saved(s.bitmaps[v], At(s.disk, v))
  }

  ghost predicate Fits(s: State, step: Step)
    requires Enabled(s, step)
  {
    match step
    case ApplyLoad => LoadFits(s, s.loads[0])
    case ClearMark(t) => ClearFits(s, s.threads[t].value)
    case EvictValue(_, v) => EvictFits(s, v)
    case Unload => UnloadFits(s)
    case _ => true
  }

  /** One value under one step: its bitmap stays well formed and tells the resident contents. */
  ghost predicate ValueFaithful(s: State, v: U64) {
    (v in s.bitmaps ==> s.bitmaps[v].Valid()) && Contents(s, v) == At(s.resident, v)
  }

  lemma LoadAt(vb: Versioned, disk: Bitmap, read: Bitmap)
    requires vb.Valid()
    ensures vb.LoadBase(read).Valid()
    ensures vb.LoadBase(read).Logical(disk) == vb.Logical(disk) <==>
            if vb.loaded then read <= vb.base + vb.sets + vb.clears
            else read - vb.sets - vb.clears == disk - vb.sets - vb.clears
  {
    if vb.loaded {
      LoadKeepsContents(vb, read);
    } else {
      UnloadKeepsContents(vb.LoadBase(read), disk);
    }
  }

  lemma ApplyLoadAt(s: State, v: U64)
    requires AllValid(s.bitmaps) && Enabled(s, ApplyLoad)
    ensures v in Apply(s, ApplyLoad).bitmaps ==> Apply(s, ApplyLoad).bitmaps[v].Valid()
    ensures Contents(Apply(s, ApplyLoad), v) == Contents(s, v) <==>
            (Concerns(s, s.loads[0], v) ==> LoadFitsAt(s, v, At(s.loads[0].data, v)))
  {
    var l := s.loads[0];
    if Concerns(s, l, v) {
      var vb := Entry(s.bitmaps, v, PLACEHOLDER);
      LoadAt(vb, At(s.disk, v), At(l.data, v));
      assert Contents(s, v) == vb.Logical(At(s.disk, v));
      LoadedEntry(s.bitmaps, l, v);
    }
  }

  /** Marking loaded is loading nothing. */
  lemma LoadedEntry(m: Bitmaps, l: Loading, v: U64)
    requires AllValid(m) && if l.OneValue? then v == l.value else v in l.data || v in m
    ensures v in AfterLoading(m, l) && AfterLoading(m, l)[v] == Entry(m, v, PLACEHOLDER).LoadBase(At(l.data, v))
  {
    var vb := Entry(m, v, PLACEHOLDER);
    assert vb.base + {} == vb.base;
  }

  /** Applying what was read keeps the contents of the field exactly when it fits at every value it concerns. */
  lemma ApplyLoadExact(s: State)
    requires Inv(s) && Enabled(s, ApplyLoad)
    ensures MatchesResident(Apply(s, ApplyLoad)) <==> LoadFits(s, s.loads[0])
  {
    var s' := Apply(s, ApplyLoad);
    forall v
      ensures Contents(s', v) == At(s'.resident, v) <==>
              (Concerns(s, s.loads[0], v) ==> LoadFitsAt(s, v, At(s.loads[0].data, v)))
    {
      ApplyLoadAt(s, v);
      assert Contents(s, v) == At(s.resident, v);
    }
  }

  /** Clearing a mark late forgets nothing exactly when the value has no diff by then or another thread holds it. */
  lemma ClearMarkExact(s: State, t: nat)
    requires Inv(s) && Enabled(s, ClearMark(t))
    ensures NothingForgotten(Apply(s, ClearMark(t))) <==> ClearFits(s, s.threads[t].value)
  {
    var v := s.threads[t].value;
    var s' := Apply(s, ClearMark(t));
    forall u ensures Held(s', u) <==> Held(s, u) {
      HeldElsewhere(s, t, Idle, u);
      HeldElsewhere(s, t, s.threads[t], u);
      assert s.threads[t := s.threads[t]] == s.threads;
      assert Held(s', u) <==> Held(s.(threads := s.threads[t := Idle]), u);
    }
    assert Unmerged(s', v) <==> Unmerged(s, v);
    forall u ensures u != v && Unmerged(s', u) ==> u in s'.dirty || Held(s', u) {
      assert Unmerged(s', u) <==> Unmerged(s, u);
    }
  }

  /** Evicting a clean value keeps the invariants exactly when the disk holds it and the field will read it back. */
  lemma EvictExact(s: State, t: nat, v: U64)
    requires Inv(s) && Enabled(s, EvictValue(t, v))
    ensures Inv(Apply(s, EvictValue(t, v))) <==> EvictFits(s, v)
  {
    var s' := Apply(s, EvictValue(t, v));
    assert Contents(s, v) == At(s.resident, v) && Contents(s', v) == At(s.disk, v);
    if EvictFits(s, v) {
      StepKeepsInvariant(s, EvictValue(t, v));
    }
  }

  lemma UnloadAt(s: State, v: U64)
    requires AllValid(s.bitmaps)
    ensures Contents(Apply(s, Unload), v) == Contents(s, v) <==> (v in s.bitmaps ==> Saved(s.bitmaps[v], At(s.disk, v)))
  {
    if v in s.bitmaps && s.bitmaps[v].loaded {
      UnloadKeepsContents(s.bitmaps[v], At(s.disk, v));
    }
  }

  /** Dropping the bases keeps the contents of the field exactly when each was saved where its diff does not decide. */
  lemma UnloadExact(s: State)
    requires Inv(s)
    ensures MatchesResident(Apply(s, Unload)) <==> UnloadFits(s)
  {
    var s' := Apply(s, Unload);
    forall v ensures Contents(s', v) == At(s'.resident, v) <==> (v in s.bitmaps ==> Saved(s.bitmaps[v], At(s.disk, v))) {
      UnloadAt(s, v);
      assert Contents(s, v) == At(s.resident, v);
    }
  }

  // ---- Every other step keeps them ----

  lemma InsertIsFaithful(s: State, step: Step, v: U64)
    requires Inv(s) && Enabled(s, step) && step.Insert?
    ensures ValueFaithful(Apply(s, step), v)
  {
    assert Contents(s, v) == At(s.resident, v);
    if v == step.value {
      MutationsActOnContents(Entry(s.bitmaps, v, Inserted(s.lazy)), step.slots, At(s.disk, v));
    }
  }

  lemma RemoveIsFaithful(s: State, step: Step, v: U64)
    requires Inv(s) && Enabled(s, step) && (step.Remove? || step.RemoveFromAll?)
    ensures ValueFaithful(Apply(s, step), v)
  {
    assert Contents(s, v) == At(s.resident, v);
    if step.Remove? {
      if v == step.value {
        MutationsActOnContents(Entry(s.bitmaps, v, PLACEHOLDER), step.slots, At(s.disk, v));
      }
    } else if v in s.bitmaps {
      MutationsActOnContents(s.bitmaps[v], {step.slot}, At(s.disk, v));
    }
  }

  lemma MergeIsFaithful(s: State, step: Step, v: U64)
    requires Inv(s) && Enabled(s, step)
    requires step.MergeDrained? || step.MergeValue?
    ensures ValueFaithful(Apply(s, step), v)
  {
    assert Contents(s, v) == At(s.resident, v);
    if v in s.bitmaps {
      MergeKeepsContents(s.bitmaps[v], At(s.disk, v));
    }
  }

  lemma LoadIsFaithful(s: State, v: U64)
    requires Inv(s) && Enabled(s, ApplyLoad) && LoadFits(s, s.loads[0])
    ensures ValueFaithful(Apply(s, ApplyLoad), v)
  {
    assert Contents(s, v) == At(s.resident, v);
    ApplyLoadAt(s, v);
  }

  lemma UnloadIsFaithful(s: State, step: Step, v: U64)
    requires Inv(s) && Enabled(s, step) && Fits(s, step)
    requires step.Unload? || step.Persist? || step.EvictValue?
    ensures ValueFaithful(Apply(s, step), v)
  {
    assert Contents(s, v) == At(s.resident, v);
    if step.Unload? {
      UnloadAt(s, v);
    }
  }

  lemma ValueStaysFaithful(s: State, step: Step, v: U64)
    requires Inv(s) && Enabled(s, step) && Fits(s, step)
    ensures ValueFaithful(Apply(s, step), v)
  {
    match step
    case Insert(_, _, _) => InsertIsFaithful(s, step, v);
    case Remove(_, _, _) => RemoveIsFaithful(s, step, v);
    case RemoveFromAll(_, _) => RemoveIsFaithful(s, step, v);
    case MergeDrained(_) => MergeIsFaithful(s, step, v);
    case MergeValue(_, _) => MergeIsFaithful(s, step, v);
    case ApplyLoad => LoadIsFaithful(s, v);
    case Unload => UnloadIsFaithful(s, step, v);
    case Persist(_) => UnloadIsFaithful(s, step, v);
    case EvictValue(_, _) => UnloadIsFaithful(s, step, v);
    case _ => assert Contents(s, v) == At(s.resident, v);
  }

  lemma StepIsFaithful(s: State, step: Step)
    requires Inv(s) && Enabled(s, step) && Fits(s, step)
    ensures AllValid(Apply(s, step).bitmaps) && MatchesResident(Apply(s, step))
  {
    var s' := Apply(s, step);
    forall v: U64
      ensures v in s'.bitmaps ==> s'.bitmaps[v].Valid()
      ensures Contents(s', v) == At(s'.resident, v)
    {
      ValueStaysFaithful(s, step, v);
    }
  }

  lemma StepKeepsResidency(s: State, step: Step)
    requires Inv(s) && Enabled(s, step) && Fits(s, step)
    ensures ResidencyHolds(Apply(s, step))
  {
  }

  /** A thread's values that survive a change of another thread's phase. */
  lemma HeldElsewhere(s: State, t: nat, p: Phase, v: U64)
    requires t in s.threads
    ensures Held(s.(threads := s.threads[t := p]), v) <==>
            Holds(p, v) || exists u :: u in s.threads && u != t && Holds(s.threads[u], v)
  {
    var s' := s.(threads := s.threads[t := p]);
    if Holds(p, v) {
      assert t in s'.threads && Holds(s'.threads[t], v);
    }
    forall u | u in s.threads && u != t && Holds(s.threads[u], v) ensures u in s'.threads && Holds(s'.threads[u], v) {
    }
  }

  /** Where a value that was in the dirty set or held goes when a thread moves on. */
  lemma HandOver(s: State, t: nat, p: Phase, dirty: set<U64>, v: U64)
    requires t in s.threads
    requires v in s.dirty ==> v in dirty || Holds(p, v)
    requires Holds(s.threads[t], v) ==> v in dirty || Holds(p, v)
    requires v in s.dirty || Held(s, v)
    ensures v in dirty || Held(s.(dirty := dirty, threads := s.threads[t := p]), v)
  {
    HeldElsewhere(s, t, p, v);
    var s' := s.(dirty := dirty, threads := s.threads[t := p]);
    assert Held(s', v) <==> Held(s.(threads := s.threads[t := p]), v);
  }

  lemma WriterTracks(s: State, step: Step, v: U64)
    requires Inv(s) && Enabled(s, step)
    requires step.Insert? || step.Remove? || step.RemoveFromAll?
    requires Unmerged(Apply(s, step), v)
    ensures var s' := Apply(s, step); v in s'.dirty || Held(s', v)
  {
    var s' := Apply(s, step);
    var t := step.thread;
    if v in s'.threads[t].values {
      assert Holds(s'.threads[t], v);
    } else {
      assert Unmerged(s, v);
      HandOver(s, t, s'.threads[t], s'.dirty, v);
      assert Held(s', v) <==> Held(s.(dirty := s'.dirty, threads := s'.threads), v);
    }
  }

  lemma MarkerTracks(s: State, step: Step, v: U64)
    requires Inv(s) && Enabled(s, step)
    requires step.Mark? || step.Drain? || step.Requeue?
    requires Unmerged(s, v)
    ensures var s' := Apply(s, step); v in s'.dirty || Held(s', v)
  {
    var s' := Apply(s, step);
    HandOver(s, step.thread, s'.threads[step.thread], s'.dirty, v);
  }

  lemma MergerTracks(s: State, step: Step, v: U64)
    requires Inv(s) && Enabled(s, step) && (step.MergeDrained? || step.MergeValue? || step.EvictValue?)
    requires Unmerged(Apply(s, step), v)
    ensures var s' := Apply(s, step); v in s'.dirty || Held(s', v)
  {
    var s' := Apply(s, step);
    MergeKeepsContents(s.bitmaps[v], {});
    assert Unmerged(s, v);
    HandOver(s, step.thread, s'.threads[step.thread], s'.dirty, v);
    assert Held(s', v) <==> Held(s.(dirty := s'.dirty, threads := s'.threads), v);
  }

  lemma OtherStepTracks(s: State, step: Step, v: U64)
    requires Inv(s) && Enabled(s, step)
    requires step.Read? || step.ReadField? || step.ApplyLoad? || step.Unload? || step.Persist?
    requires Unmerged(Apply(s, step), v)
    ensures var s' := Apply(s, step); v in s'.dirty || Held(s', v)
  {
    var s' := Apply(s, step);
    assert Held(s', v) <==> Held(s, v);
    assert Unmerged(s, v);
  }

  lemma StepForgetsNothing(s: State, step: Step)
    requires Inv(s) && Enabled(s, step) && Fits(s, step)
    ensures NothingForgotten(Apply(s, step))
  {
    var s' := Apply(s, step);
    if step.ClearMark? {
      ClearMarkExact(s, step.thread);
    } else {
      forall v | Unmerged(s', v) ensures v in s'.dirty || Held(s', v) {
        if step.Insert? || step.Remove? || step.RemoveFromAll? {
          WriterTracks(s, step, v);
        } else if step.Mark? || step.Drain? || step.Requeue? {
          MarkerTracks(s, step, v);
        } else if step.MergeDrained? || step.MergeValue? || step.EvictValue? {
          MergerTracks(s, step, v);
        } else {
          OtherStepTracks(s, step, v);
        }
      }
    }
  }

  // ---- Whole runs ----

  ghost predicate IsRun(s: State, steps: seq<Step>)
    decreases |steps|
  {
    steps != [] ==> Enabled(s, steps[0]) && IsRun(Apply(s, steps[0]), steps[1..])
  }

  ghost function EndOf(s: State, steps: seq<Step>): State
    requires IsRun(s, steps)
    decreases |steps|
  {
    if steps == [] then s else EndOf(Apply(s, steps[0]), steps[1..])
  }

  ghost predicate AllFit(s: State, steps: seq<Step>)
    requires IsRun(s, steps)
    decreases |steps|
  {
    steps != [] ==> Fits(s, steps[0]) && AllFit(Apply(s, steps[0]), steps[1..])
  }

  lemma InitHolds(s: State)
    requires Init(s)
    ensures Inv(s)
  {
  }

  lemma StepKeepsInvariant(s: State, step: Step)
    requires Inv(s) && Enabled(s, step) && Fits(s, step)
    ensures Inv(Apply(s, step))
  {
    StepIsFaithful(s, step);
    StepKeepsResidency(s, step);
    StepForgetsNothing(s, step);
  }

  /** In every interleaving whose loads, late clears, evictions and unloads fit, no unmerged diff is
      forgotten and every value reads as if resident. */
  lemma {:induction false} RunsKeepInvariant(s: State, steps: seq<Step>)
    requires Inv(s) && IsRun(s, steps) && AllFit(s, steps)
    ensures Inv(EndOf(s, steps))
    decreases |steps|
  {
    if steps != [] {
      StepKeepsInvariant(s, steps[0]);
      RunsKeepInvariant(Apply(s, steps[0]), steps[1..]);
    }
  }

  ghost predicate Quiet(s: State) {
    s.dirty == {} && forall t :: t in s.threads ==> s.threads[t].Idle?
  }

  /** Once every thread is idle and the dirty set is empty, all diffs have been merged. */
  lemma QuietMeansMerged(s: State, steps: seq<Step>)
    requires Init(s) && IsRun(s, steps) && AllFit(s, steps) && Quiet(EndOf(s, steps))
    ensures forall v :: !Unmerged(EndOf(s, steps), v)
  {
    InitHolds(s);
    RunsKeepInvariant(s, steps);
  }
}
