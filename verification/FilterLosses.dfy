/** A discipline under which every load, late clear, eviction and unload fits, and runs without it that
    lose a write or bring removed slots back. */
module FilterLosses {
  import opened Base
  import opened VersionedBitmap
  import opened FilterField
  import opened FilterRuns

  // ---- A discipline under which everything fits ----

  predicate BeingCleared(s: State, v: U64) {
    exists t :: t in s.threads && s.threads[t] == Clearing(v)
  }

  predicate InMemory(s: State, v: U64) {
    v in s.bitmaps && s.bitmaps[v].loaded
  }

  /** No value is written while its mark is being cleared, none is read while it is in memory or an
      earlier read of it is under way, a whole field is read only while none of it is in memory, and
      only saved values of a lazy field leave memory. */
  ghost predicate Orderly(s: State, step: Step) {
    match step
    case Insert(_, v, _) => !BeingCleared(s, v)
    case Remove(_, v, _) => !BeingCleared(s, v)
    case RemoveFromAll(_, _) => forall v :: v in s.bitmaps ==> !BeingCleared(s, v)
    case Read(v) => !InMemory(s, v) && forall i :: 0 <= i < |s.loads| ==> s.loads[i].OneValue? && s.loads[i].value != v
    case ReadField => s.loads == [] && forall v :: !InMemory(s, v)
    case EvictValue(_, v) => s.lazy && Contents(s, v) == At(s.disk, v)
    case Unload => s.lazy && UnloadFits(s)
    case _ => true
  }

  ghost predicate AllOrderly(s: State, steps: seq<Step>)
    requires IsRun(s, steps)
    decreases |steps|
  {
    steps != [] ==> Orderly(s, steps[0]) && AllOrderly(Apply(s, steps[0]), steps[1..])
  }

  /** The read still tells what the disk tells and the value is still out of memory; a field that is
      not lazy may have started an empty one. */
  predicate StillFits(s: State, v: U64, read: Bitmap) {
    if InMemory(s, v) then !s.lazy && read == {} else read == At(s.disk, v)
  }

  predicate Reads(l: Loading, v: U64) {
    l.OneValue? ==> v == l.value
  }

  ghost predicate LoadStillFits(s: State, l: Loading) {
    forall v :: Reads(l, v) ==> StillFits(s, v, At(l.data, v))
  }

  /** A whole field is read alone, and no value twice. */
  ghost predicate ReadsApart(loads: seq<Loading>) {
    forall i, j :: 0 <= i < j < |loads| ==> loads[i].OneValue? && loads[j].OneValue? && loads[i].value != loads[j].value
  }

  ghost predicate LoadsStillFit(s: State) {
    ReadsApart(s.loads) && forall i :: 0 <= i < |s.loads| ==> LoadStillFits(s, s.loads[i])
  }

  ghost predicate ClearedIsClean(s: State) {
    forall v :: BeingCleared(s, v) ==> !Unmerged(s, v)
  }

  lemma StillFitsKept(s: State, step: Step, v: U64, read: Bitmap)
    requires Inv(s) && Enabled(s, step) && Orderly(s, step) && StillFits(s, v, read) && !step.ApplyLoad?
    ensures StillFits(Apply(s, step), v, read)
  {
  }

  lemma OtherLoadLeaves(s: State, v: U64, read: Bitmap)
    requires Enabled(s, ApplyLoad) && StillFits(s, v, read) && s.loads[0].OneValue? && v != s.loads[0].value
    ensures StillFits(Apply(s, ApplyLoad), v, read)
  {
  }

  lemma LoadsKept(s: State, step: Step)
    requires Inv(s) && LoadsStillFit(s) && Enabled(s, step) && Orderly(s, step)
    requires !step.ApplyLoad? && !step.Read? && !step.ReadField?
    ensures LoadsStillFit(Apply(s, step))
  {
    forall i, v | 0 <= i < |s.loads| && Reads(s.loads[i], v) ensures StillFits(Apply(s, step), v, At(s.loads[i].data, v)) {
      StillFitsKept(s, step, v, At(s.loads[i].data, v));
    }
  }

  lemma LoadApplied(s: State)
    requires LoadsStillFit(s) && Enabled(s, ApplyLoad)
    ensures LoadsStillFit(Apply(s, ApplyLoad))
  {
    var s' := Apply(s, ApplyLoad);
    forall i, v | 0 <= i < |s'.loads| && Reads(s'.loads[i], v) ensures StillFits(s', v, At(s'.loads[i].data, v)) {
      assert s'.loads[i] == s.loads[i + 1];
      OtherLoadLeaves(s, v, At(s'.loads[i].data, v));
    }
  }

  lemma ReadAdded(s: State, step: Step)
    requires LoadsStillFit(s) && Enabled(s, step) && Orderly(s, step) && (step.Read? || step.ReadField?)
    ensures LoadsStillFit(Apply(s, step))
  {
    var s' := Apply(s, step);
    forall i, v | 0 <= i < |s'.loads| && Reads(s'.loads[i], v) ensures StillFits(s', v, At(s'.loads[i].data, v)) {
      assert InMemory(s', v) <==> InMemory(s, v);
      if i < |s.loads| {
        assert LoadStillFits(s, s.loads[i]) && s'.loads[i] == s.loads[i];
        assert StillFits(s, v, At(s.loads[i].data, v));
      }
    }
  }

  lemma LoadsStepKeeps(s: State, step: Step)
    requires Inv(s) && LoadsStillFit(s) && Enabled(s, step) && Orderly(s, step)
    ensures LoadsStillFit(Apply(s, step))
  {
    match step
    case ApplyLoad => LoadApplied(s);
    case Read(_) => ReadAdded(s, step);
    case ReadField => ReadAdded(s, step);
    case _ => LoadsKept(s, step);
  }

  lemma CleanStaysClean(s: State, step: Step, v: U64)
    requires Inv(s) && Enabled(s, step) && Orderly(s, step) && !Unmerged(s, v) && BeingCleared(s, v)
    ensures !Unmerged(Apply(s, step), v)
  {
  }

  predicate ChangesThreads(step: Step) {
    !step.Read? && !step.ReadField? && !step.ApplyLoad? && !step.Unload? && !step.Persist?
  }

  lemma StartsClean(s: State, step: Step, v: U64)
    requires Inv(s) && Enabled(s, step) && BeingCleared(Apply(s, step), v)
    ensures BeingCleared(s, v) || !Unmerged(Apply(s, step), v)
  {
    var s' := Apply(s, step);
    var u :| u in s'.threads && s'.threads[u] == Clearing(v);
    if ChangesThreads(step) && u == step.thread {
      MergeLeavesClean(s, step, v);
    } else {
      assert s.threads[u] == Clearing(v);
    }
  }

  lemma MergeLeavesClean(s: State, step: Step, v: U64)
    requires Inv(s) && Enabled(s, step) && ChangesThreads(step) && Apply(s, step).threads[step.thread] == Clearing(v)
    ensures !Unmerged(Apply(s, step), v)
  {
  }

  lemma ClearedStepKeeps(s: State, step: Step)
    requires Inv(s) && ClearedIsClean(s) && Enabled(s, step) && Orderly(s, step)
    ensures ClearedIsClean(Apply(s, step))
  {
    forall v | BeingCleared(Apply(s, step), v) ensures !Unmerged(Apply(s, step), v) {
      StartsClean(s, step, v);
      if BeingCleared(s, v) {
        CleanStaysClean(s, step, v);
      }
    }
  }

  lemma OrderlyStepFits(s: State, step: Step)
    requires Inv(s) && LoadsStillFit(s) && ClearedIsClean(s) && Enabled(s, step) && Orderly(s, step)
    ensures Fits(s, step)
  {
    if step.ApplyLoad? {
      forall v | Concerns(s, s.loads[0], v) ensures LoadFitsAt(s, v, At(s.loads[0].data, v)) {
        assert LoadStillFits(s, s.loads[0]) && Reads(s.loads[0], v);
      }
    } else if step.ClearMark? {
      assert BeingCleared(s, s.threads[step.thread].value);
    }
  }

  lemma {:induction false} OrderlyRunFits(s: State, steps: seq<Step>)
    requires Inv(s) && LoadsStillFit(s) && ClearedIsClean(s) && IsRun(s, steps) && AllOrderly(s, steps)
    ensures AllFit(s, steps)
    decreases |steps|
  {
    if steps != [] {
      OrderlyStepFits(s, steps[0]);
      StepKeepsInvariant(s, steps[0]);
      LoadsStepKeeps(s, steps[0]);
      ClearedStepKeeps(s, steps[0]);
      OrderlyRunFits(Apply(s, steps[0]), steps[1..]);
    }
  }

  /** Every orderly run from the start forgets no diff and reads as if resident. */
  lemma OrderlyRunsAreSafe(s: State, steps: seq<Step>)
    requires Init(s) && IsRun(s, steps) && AllOrderly(s, steps)
    ensures AllFit(s, steps) && Inv(EndOf(s, steps))
  {
    InitHolds(s);
    OrderlyRunFits(s, steps);
    RunsKeepInvariant(s, steps);
  }

  // ---- Runs that lose something ----

  ghost predicate Reaches(s: State, t: State) {
    exists steps :: IsRun(s, steps) && EndOf(s, steps) == t
  }

  lemma {:induction false} RunOneMore(s: State, steps: seq<Step>, step: Step)
    requires IsRun(s, steps) && Enabled(EndOf(s, steps), step)
    ensures IsRun(s, steps + [step]) && EndOf(s, steps + [step]) == Apply(EndOf(s, steps), step)
    decreases |steps|
  {
    if steps == [] {
      assert IsRun(Apply(s, step), []);
      assert ([] + [step])[1..] == [];
    } else {
      RunOneMore(Apply(s, steps[0]), steps[1..], step);
      assert (steps + [step])[1..] == steps[1..] + [step];
    }
  }

  /** One step leads from one state to another. */
  ghost predicate Leads(t: State, step: Step, u: State) {
    Enabled(t, step) && Apply(t, step) == u
  }

  /** No step leaves the region. */
  ghost predicate Closed(r: State -> bool) {
    forall t, step, u :: r(t) && Leads(t, step, u) ==> r(u)
  }

  lemma Then(r: State -> bool, t: State, step: Step, u: State)
    requires Closed(r) && r(t) && Leads(t, step, u)
    ensures r(u)
  {
  }

  lemma ReachesOneMore(s: State, t: State, step: Step, u: State)
    requires Reaches(s, t) && Leads(t, step, u)
    ensures Reaches(s, u)
  {
    var steps :| IsRun(s, steps) && EndOf(s, steps) == t;
    RunOneMore(s, steps, step);
  }

  lemma ReachedIsClosed(s: State)
    ensures Closed(t => Reaches(s, t)) && Reaches(s, s)
  {
    forall t, step, u | Reaches(s, t) && Leads(t, step, u) ensures Reaches(s, u) {
      ReachesOneMore(s, t, step, u);
    }
    assert IsRun(s, []) && EndOf(s, []) == s;
  }

  const IDLE: map<nat, Phase> := map[0 := Idle, 1 := Idle]

  /** Two idle threads; what is persisted is what a resident copy holds. */
  function Start(lazy: bool, disk: map<U64, Bitmap>): State {
    State(lazy, map[], {}, disk, [], IDLE, disk)
  }

  /** The first thread has written one slot and marked the value. */
  function Written(t: State, v: U64, x: U32): State {
    t.(bitmaps := AfterInsert(t.bitmaps, t.lazy, v, {x}), dirty := t.dirty + {v},
       resident := t.resident[v := At(t.resident, v) + {x}])
  }

  lemma ThenWrite(r: State -> bool, t: State, v: U64, x: U32)
    requires Closed(r) && r(t) && IsIdle(t, 0)
    ensures r(Written(t, v, x))
  {
    var u := Written(t, v, x).(dirty := t.dirty, threads := t.threads[0 := Marking({v})]);
    Then(r, t, Insert(0, v, {x}), u);
    assert u.threads[0 := Idle] == t.threads;
    Then(r, u, Mark(0), Written(t, v, x));
  }

  /** The first thread has drained and merged the only value. */
  lemma ThenMergeAll(r: State -> bool, t: State, v: U64, vb: Versioned, u: State)
    requires Closed(r) && r(t) && t.bitmaps == map[v := vb] && vb.loaded && IsIdle(t, 0) && t.dirty == {v}
    requires u == t.(bitmaps := map[v := vb.Merge()], dirty := {})
    ensures r(u)
  {
    var u1 := t.(dirty := {}, threads := t.threads[0 := Drained({v})]);
    Then(r, t, Drain(0), u1);
    var u2 := u1.(bitmaps := u.bitmaps, threads := t.threads[0 := Requeueing({})]);
    assert AfterMerge(t.bitmaps, {v}) == u.bitmaps && Requeued(t.bitmaps, {v}) == {};
    Then(r, u1, MergeDrained(0), u2);
    assert u2.threads[0 := Idle] == t.threads;
    Then(r, u2, Requeue(0), u);
  }

  /** `merge_field` merges a value and clears its mark in a second lock. A write in between is marked
      before the clear and never merged: all threads are idle, nothing is marked, and a diff remains. */
  lemma WriteBetweenIsForgotten(v: U64, x: U32, y: U32) returns (s: State, t: State)
    ensures Init(s) && Reaches(s, t)
    ensures Quiet(t) && Unmerged(t, v)
  {
    s := Start(false, map[]);
    ReachedIsClosed(s);
    t := WrittenBetween(t => Reaches(s, t), s, v, x, y);
  }

  lemma WrittenBetween(r: State -> bool, s: State, v: U64, x: U32, y: U32) returns (t: State)
    requires Closed(r) && r(s) && s == Start(false, map[])
    ensures r(t) && Quiet(t) && Unmerged(t, v)
  {
    var t1 := Written(s, v, x);
    ThenWrite(r, s, v, x);
    var t2 := Apply(t1, MergeValue(1, v));
    Then(r, t1, MergeValue(1, v), t2);
    var t3 := Written(t2, v, y);
    ThenWrite(r, t2, v, y);
    t := Apply(t3, ClearMark(1));
    Then(r, t3, ClearMark(1), t);
    assert y in t.bitmaps[v].sets;
  }

  /** `remove_value` drops a value and clears its mark in a second lock, with the same loss. */
  lemma WriteAfterEvictionIsForgotten(lazy: bool, v: U64, x: U32) returns (s: State, t: State)
    ensures Init(s) && s.lazy == lazy && Reaches(s, t)
    ensures Quiet(t) && Unmerged(t, v)
  {
    s := Start(lazy, map[]).(bitmaps := map[v := EMPTY]);
    assert Contents(s, v) == {};
    ReachedIsClosed(s);
    t := WrittenAfterEviction(t => Reaches(s, t), s, v, x);
  }

  lemma WrittenAfterEviction(r: State -> bool, s: State, v: U64, x: U32) returns (t: State)
    requires Closed(r) && r(s) && s == Start(s.lazy, map[]).(bitmaps := map[v := EMPTY])
    ensures r(t) && Quiet(t) && Unmerged(t, v)
  {
    var t1 := s.(bitmaps := map[], threads := IDLE[1 := Clearing(v)]);
    assert s.bitmaps - {v} == map[];
    Then(r, s, EvictValue(1, v), t1);
    ThenWrite(r, t1, v, x);
    var t2 := Written(t1, v, x);
    t := Apply(t2, ClearMark(1));
    Then(r, t2, ClearMark(1), t);
    assert x in t.bitmaps[v].sets;
  }

  /** Two queries read the same value before either read is applied. The first is applied, the slot is
      removed and merged; the second brings it back. */
  lemma SecondLoadRevives(v: U64, x: U32) returns (s: State, t: State)
    ensures Init(s) && Reaches(s, t)
    ensures Quiet(t) && t.loads == [] && x in Contents(t, v) && x !in At(t.resident, v)
  {
    s := Start(true, map[v := {x}]);
    ReachedIsClosed(s);
    t := RevivedBySecondLoad(t => Reaches(s, t), s, v, x);
  }

  function InBase(x: U32): Versioned {
    Versioned({x}, {}, {}, true)
  }

  lemma RevivedBySecondLoad(r: State -> bool, s: State, v: U64, x: U32) returns (t: State)
    requires Closed(r) && r(s) && s == Start(true, map[v := {x}])
    ensures r(t) && Quiet(t) && t.loads == [] && x in Contents(t, v) && x !in At(t.resident, v)
  {
    var load := OneValue(v, map[v := {x}]);
    var t1 := s.(loads := [load]);
    Then(r, s, Read(v), t1);
    var t2 := s.(loads := [load, load]);
    Then(r, t1, Read(v), t2);
    var t3 := t1.(bitmaps := map[v := InBase(x)]);
    ThenLoad(r, t2, v, x, t3);
    var t4 := t3.(bitmaps := map[v := EMPTY], resident := s.resident[v := {x} - {x}]);
    ThenRemoveAndMerge(r, t3, v, x, t4);
    t := t4.(loads := [], bitmaps := map[v := InBase(x)]);
    ThenLoad(r, t4, v, x, t);
  }

  lemma ThenLoad(r: State -> bool, t: State, v: U64, x: U32, u: State)
    requires Closed(r) && r(t) && (t.bitmaps == map[] || t.bitmaps == map[v := EMPTY])
    requires t.loads != [] && t.loads[0] == OneValue(v, map[v := {x}])
    requires u == t.(loads := t.loads[1..], bitmaps := map[v := InBase(x)])
    ensures r(u)
  {
    assert {} + {x} == {x};
    assert Entry(t.bitmaps, v, PLACEHOLDER).LoadBase({x}) == InBase(x);
    Then(r, t, ApplyLoad, u);
  }

  lemma ThenRemoveAndMerge(r: State -> bool, t: State, v: U64, x: U32, u: State)
    requires Closed(r) && r(t) && t.bitmaps == map[v := InBase(x)] && t.threads == IDLE && t.dirty == {}
    requires u == t.(bitmaps := map[v := EMPTY], resident := t.resident[v := At(t.resident, v) - {x}])
    ensures r(u)
  {
    var removed := Versioned({x}, {}, {x}, true);
    assert InBase(x).Remove({x}) == removed && removed.Merge() == EMPTY;
    var u1 := u.(bitmaps := map[v := removed], threads := IDLE[0 := Marking({v})]);
    assert AfterRemove(t.bitmaps, v, {x}) == u1.bitmaps;
    Then(r, t, Remove(0, v, {x}), u1);
    var u2 := u1.(dirty := {v}, threads := IDLE);
    assert u1.threads[0 := Idle] == IDLE;
    Then(r, u1, Mark(0), u2);
    ThenMergeAll(r, u2, v, removed, u);
  }

  /** The eviction sweep asks whether a value has a diff, not whether it was saved: a write that was
      merged but never persisted is gone, in a lazy field and in an eager one. */
  lemma UnsavedEvictionLoses(lazy: bool, v: U64, x: U32) returns (s: State, t: State)
    ensures Init(s) && s.lazy == lazy && Reaches(s, t)
    ensures Quiet(t) && t.loads == [] && x in At(t.resident, v) && x !in Contents(t, v)
  {
    s := Start(lazy, map[]);
    ReachedIsClosed(s);
    t := EvictedUnsaved(t => Reaches(s, t), s, v, x);
  }

  lemma EvictedUnsaved(r: State -> bool, s: State, v: U64, x: U32) returns (t: State)
    requires Closed(r) && r(s) && s == Start(s.lazy, map[])
    ensures r(t) && Quiet(t) && t.loads == [] && x in At(t.resident, v) && x !in Contents(t, v)
  {
    ThenWrite(r, s, v, x);
    var t1 := Written(s, v, x);
    var inserted := Versioned({}, {x}, {}, !s.lazy);
    assert Inserted(s.lazy).Insert({x}) == inserted;
    var t2 := t1.(loads := [OneValue(v, map[])]);
    Then(r, t1, Read(v), t2);
    var t3 := t1.(bitmaps := map[v := inserted.MarkLoaded()]);
    Then(r, t2, ApplyLoad, t3);
    var t4 := t3.(bitmaps := map[v := inserted.MarkLoaded().Merge()], dirty := {});
    ThenMergeAll(r, t3, v, inserted.MarkLoaded(), t4);
    t := t4.(bitmaps := map[]);
    ThenEvict(r, t4, v, t);
  }

  lemma ThenEvict(r: State -> bool, t: State, v: U64, u: State)
    requires Closed(r) && r(t) && t.threads == IDLE && v in t.bitmaps && !t.bitmaps[v].IsDirty() && t.dirty == {}
    requires u == t.(bitmaps := t.bitmaps - {v})
    ensures r(u)
  {
    var u1 := u.(threads := IDLE[1 := Clearing(v)]);
    Then(r, t, EvictValue(1, v), u1);
    assert u1.threads[1 := Idle] == IDLE;
    Then(r, u1, ClearMark(1), u);
  }

  /** In an eager field even a saved value must not be evicted: the next write starts it empty. */
  lemma EagerEvictionLoses(v: U64, x: U32, y: U32) returns (s: State, t: State)
    requires x != y
    ensures Init(s) && !s.lazy && Reaches(s, t)
    ensures t.loads == [] && x in At(t.resident, v) && x !in Contents(t, v)
  {
    s := Start(false, map[v := {x}]).(bitmaps := map[v := InBase(x)]);
    assert InBase(x).Logical({x}) == {x};
    ReachedIsClosed(s);
    t := WrittenOverEvicted(t => Reaches(s, t), s, v, y);
    assert Contents(t, v) == {y};
  }

  lemma WrittenOverEvicted(r: State -> bool, s: State, v: U64, y: U32) returns (t: State)
    requires Closed(r) && r(s) && !s.lazy && s.threads == IDLE && s.dirty == {} && v in s.bitmaps && !s.bitmaps[v].IsDirty()
    ensures r(t) && t == Written(s.(bitmaps := s.bitmaps - {v}), v, y) && Contents(t, v) == {y}
  {
    var t1 := s.(bitmaps := s.bitmaps - {v});
    ThenEvict(r, s, v, t1);
    ThenWrite(r, t1, v, y);
    t := Written(t1, v, y);
    assert t.bitmaps[v] == EMPTY.Insert({y});
  }
}
