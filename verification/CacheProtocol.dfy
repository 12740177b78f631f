/** The flush thread publishes snapshots and queues work items; the cache worker drains the
    queue, loads whatever snapshot is published by then and re-derives the triggered slots of a
    cached entry. */
module CacheProtocol {
  import opened Base
  import opened Coalesce
  import opened CoalesceMeaning

  type SortValues = map<string, map<U32, nat>>

  datatype Snapshot = Snapshot(filters: map<Key, Bitmap>, sorts: SortValues)

  function Bucket(snap: Snapshot, k: Key): Bitmap {
    if k in snap.filters then snap.filters[k] else {}
  }

  function SortValue(sorts: SortValues, f: string, x: U32): nat {
    if f in sorts && x in sorts[f] then sorts[f][x] else 0
  }

  /** A cached entry: the buckets it reads, the fields its clauses name, its sort field, and its
      test on what a slot holds. */
  datatype Entry = Entry(uses: Key -> bool, named: set<string>, sortField: string, test: (set<Key>, nat) -> bool)

  function HeldKeys(e: Entry, snap: Snapshot, x: U32): set<Key> {
    set k | k in snap.filters && e.uses(k) && x in snap.filters[k]
  }

  /** Membership re-derived from a snapshot's indexes. */
  predicate Belongs(e: Entry, snap: Snapshot, x: U32) {
    e.test(HeldKeys(e, snap, x), SortValue(snap.sorts, e.sortField, x))
  }

  // ---- Steps ----

  datatype Cache = NeedsRebuild | Members(slots: Bitmap)

  /** The worker waits, collects items one by one, holds the merged batch, or holds it together with
      the snapshot it evaluates the batch against. */
  datatype Worker = Idle | Receiving(pending: seq<Item>) | Batched(batch: Item) | Loaded(batch: Item, snap: Snapshot)

  /** The size of the channel and the backlog above which the worker drops what it collected. */
  datatype Limits = Limits(capacity: nat, backlog: nat)

  /** The limits the engine sets; every result here holds for any others too, as far as it says. */
  const ENGINE_LIMITS := Limits(1024, 4096)

  /** Two history variables: `overtaken` says an item was thrown away since the worker loaded its
      snapshot; `forgotten` holds the slots whose trigger a merge cancelled, or that were re-derived
      from an overtaken snapshot, and that have not been re-derived since. */
  datatype State = State(limits: Limits, published: Snapshot, unsent: Option<Item>, queue: seq<Item>, worker: Worker,
                         cache: Cache, overtaken: bool, forgotten: Bitmap)

  datatype Step =
    | Publish(item: Item, sorts: SortValues)
    | Send
    | SendFull
    | Receive
    | DropBacklog
    | Merge(merged: Item)
    | Load
    | Apply(work: Bitmap)
    | Rebuild(slots: Bitmap)

  predicate Operated(it: Item, k: Key, x: U32) {
    x in SlotsAt(it.inserts, k) || x in SlotsAt(it.removes, k)
  }

  ghost predicate Triggered(e: Entry, it: Item, x: U32) {
    x in SortSlotsAt(it.sorts, e.sortField) || exists k :: e.uses(k) && Operated(it, k, x)
  }

  predicate IsEmpty(it: Item) {
    it.inserts == map[] && it.removes == map[] && it.sorts == map[] && it.aliveRemoves == [] && !it.aliveChanged && it.buckets == {}
  }

  /** The flush thread lists the field of every key it touched. */
  ghost predicate ListsItsFields(it: Item) {
    forall k :: k in it.inserts || k in it.removes ==> k.field in it.fields
  }

  ghost predicate SortsChangeOnly(before: SortValues, after: SortValues, it: Item) {
    forall f, x :: x !in SortSlotsAt(it.sorts, f) ==> SortValue(after, f, x) == SortValue(before, f, x)
  }

  function Flush(snap: Snapshot, it: Item, sorts: SortValues): Snapshot {
    Snapshot(map k | k in snap.filters.Keys + it.inserts.Keys + it.removes.Keys :: Flushed(Bucket(snap, k), it, k), sorts)
  }

  /** Whether dropping these items marks the entry for rebuild. */
  ghost predicate DropInvalidates(e: Entry, items: seq<Item>) {
    exists i :: 0 <= i < |items| && (items[i].aliveChanged || items[i].sorts != map[] || items[i].fields * e.named != {})
  }

  function CancelledSlots(e: Entry, items: seq<Item>): Bitmap {
    set k, x | k in InsertKeys(items) && x in Inserts(items, k) && e.uses(k) && x in Removes(items, k) :: x
  }

  /** The limit is tested after every item but the first. */
  predicate OverLimit(limits: Limits, pending: seq<Item>) {
    |pending| > 1 && |pending| > limits.backlog
  }

  ghost predicate Enabled(e: Entry, s: State, step: Step) {
    match step
    case Publish(item, sorts) => s.unsent.None? && ListsItsFields(item) && SortsChangeOnly(s.published.sorts, sorts, item)
    case Send => s.unsent.Some? && |s.queue| < s.limits.capacity
    case SendFull => s.unsent.Some? && |s.queue| >= s.limits.capacity
    case Receive => s.queue != [] && (s.worker.Idle? || (s.worker.Receiving? && !OverLimit(s.limits, s.worker.pending)))
    case DropBacklog => s.worker.Receiving? && OverLimit(s.limits, s.worker.pending)
    // the worker stops collecting only once the channel is empty
    case Merge(merged) =>
      && s.worker.Receiving? && !OverLimit(s.limits, s.worker.pending)
      && s.queue == [] && IsCoalesced(s.worker.pending, merged)
    case Load => s.worker.Batched?
    case Apply(work) => s.worker.Loaded? && forall x :: Triggered(e, s.worker.batch, x) ==> x in work
    case Rebuild(slots) => forall x: U32 :: x in slots <==> Belongs(e, s.published, x)
  }

  /** What the worker has taken out of the channel and not yet applied. */
  function InHand(w: Worker): seq<Item> {
    match w
    case Idle => []
    case Receiving(pending) => pending
    case Batched(batch) => [batch]
    case Loaded(batch, _) => [batch]
  }

  /** Each re-derived slot joins or leaves; the rest stay. */
  function Rederived(e: Entry, cache: Cache, snap: Snapshot, work: Bitmap): Cache {
    if cache.NeedsRebuild? then cache
    else Members(set x | x in cache.slots + work && (if x in work then Belongs(e, snap, x) else x in cache.slots))
  }

  /** Results derived before an item was thrown away reach an entry that was rebuilt after it. */
  predicate Overtakes(s: State, step: Step) {
    step.Apply? && s.overtaken && s.cache.Members?
  }

  ghost function Next(e: Entry, s: State, step: Step): State
    requires Enabled(e, s, step)
  {
    match step
    case Publish(item, sorts) => s.(published := Flush(s.published, item, sorts), unsent := Some(item))
    case Send => s.(queue := s.queue + [s.unsent.value], unsent := None)
    case SendFull => s.(unsent := None, overtaken := s.worker.Loaded?, cache := NeedsRebuild, forgotten := {})
    case Receive => s.(queue := s.queue[1..], worker := Receiving(InHand(s.worker) + [s.queue[0]]))
    case DropBacklog =>
      if DropInvalidates(e, s.worker.pending) then s.(worker := Idle, cache := NeedsRebuild, forgotten := {})
      else s.(worker := Idle)
    case Merge(merged) =>
      s.(worker := if IsEmpty(merged) then Idle else Batched(merged),
         forgotten := s.forgotten + CancelledSlots(e, s.worker.pending))
    case Load => s.(worker := Loaded(s.worker.batch, s.published), overtaken := false)
    case Apply(work) =>
      s.(worker := Idle, overtaken := false, cache := Rederived(e, s.cache, s.worker.snap, work),
         forgotten := if Overtakes(s, step) then s.forgotten + work else s.forgotten - work)
    case Rebuild(slots) => s.(cache := Members(slots), forgotten := {})
  }

  // ---- What every step keeps ----

  ghost predicate SomeTriggers(e: Entry, items: seq<Item>, x: U32) {
    exists i :: 0 <= i < |items| && Triggered(e, items[i], x)
  }

  /** Still on its way to the worker. */
  ghost predicate Queued(e: Entry, s: State, x: U32) {
    (s.unsent.Some? && Triggered(e, s.unsent.value, x)) || SomeTriggers(e, s.queue, x)
  }

  ghost predicate InBatch(e: Entry, s: State, x: U32) {
    SomeTriggers(e, InHand(s.worker), x)
  }

  lemma TriggersOfBoth(e: Entry, a: seq<Item>, b: seq<Item>, x: U32)
    ensures SomeTriggers(e, a + b, x) <==> SomeTriggers(e, a, x) || SomeTriggers(e, b, x)
  {
    if i :| 0 <= i < |a| && Triggered(e, a[i], x) {
      assert (a + b)[i] == a[i];
    }
    if i :| 0 <= i < |b| && Triggered(e, b[i], x) {
      assert (a + b)[|a| + i] == b[i];
    }
  }

  lemma TriggersOfOne(e: Entry, it: Item, x: U32)
    ensures SomeTriggers(e, [it], x) <==> Triggered(e, it, x)
  {
    assert [it][0] == it;
  }

  predicate Stale(e: Entry, s: State, x: U32) {
    s.cache.Members? && (x in s.cache.slots) != Belongs(e, s.published, x)
  }

  ghost predicate StaleIsPending(e: Entry, s: State, x: U32) {
    Stale(e, s, x) ==> Queued(e, s, x) || InBatch(e, s, x) || x in s.forgotten
  }

  /** What the worker loaded lags only where newer items are still on their way, unless one was
      thrown away. */
  ghost predicate LoadedLags(e: Entry, s: State, x: U32) {
    s.worker.Loaded? && Belongs(e, s.worker.snap, x) != Belongs(e, s.published, x) ==> Queued(e, s, x) || s.overtaken
  }

  ghost predicate All(items: seq<Item>, p: Item -> bool) {
    forall i :: 0 <= i < |items| ==> p(items[i])
  }

  /** Every item not yet merged or dropped is of this kind. */
  ghost predicate OnWay(s: State, p: Item -> bool) {
    (s.unsent.Some? ==> p(s.unsent.value)) && All(s.queue, p) && (s.worker.Receiving? ==> All(s.worker.pending, p))
  }

  /** What holds of one slot, whatever happens to the others. */
  ghost predicate SlotInv(e: Entry, s: State, x: U32) {
    StaleIsPending(e, s, x) && LoadedLags(e, s, x)
  }

  ghost predicate Inv(e: Entry, s: State) {
    OnWay(s, ListsItsFields) && forall x :: SlotInv(e, s, x)
  }

  ghost predicate Init(s: State) {
    s.unsent.None? && s.queue == [] && s.worker.Idle? && s.cache.NeedsRebuild? && !s.overtaken && s.forgotten == {}
  }

  /** The clauses of the entry name every field whose buckets it reads. */
  ghost predicate NamesItsFields(e: Entry) {
    forall k :: e.uses(k) ==> k.field in e.named
  }

  lemma UntriggeredIsUnchanged(e: Entry, snap: Snapshot, it: Item, sorts: SortValues, x: U32)
    requires SortsChangeOnly(snap.sorts, sorts, it) && !Triggered(e, it, x)
    ensures Belongs(e, Flush(snap, it, sorts), x) <==> Belongs(e, snap, x)
  {
    forall k | e.uses(k) ensures k in HeldKeys(e, Flush(snap, it, sorts), x) <==> k in HeldKeys(e, snap, x) {
      assert !Operated(it, k, x);
    }
    assert HeldKeys(e, Flush(snap, it, sorts), x) == HeldKeys(e, snap, x);
  }

  lemma PublishKeeps(e: Entry, s: State, item: Item, sorts: SortValues, x: U32)
    requires SlotInv(e, s, x) && Enabled(e, s, Publish(item, sorts))
    ensures SlotInv(e, Next(e, s, Publish(item, sorts)), x)
  {
    if !Triggered(e, item, x) {
      UntriggeredIsUnchanged(e, s.published, item, sorts, x);
      }
  }

  lemma SendKeeps(e: Entry, s: State, x: U32)
    requires SlotInv(e, s, x) && Enabled(e, s, Send)
    ensures SlotInv(e, Next(e, s, Send), x)
  {
    TriggersOfBoth(e, s.queue, [s.unsent.value], x);
    TriggersOfOne(e, s.unsent.value, x);
  }

  lemma ReceiveKeeps(e: Entry, s: State, x: U32)
    requires SlotInv(e, s, x) && Enabled(e, s, Receive)
    ensures SlotInv(e, Next(e, s, Receive), x)
  {
    assert s.queue == [s.queue[0]] + s.queue[1..];
    TriggersOfBoth(e, [s.queue[0]], s.queue[1..], x);
    TriggersOfBoth(e, InHand(s.worker), [s.queue[0]], x);
  }

  lemma UnionHas<A>(items: seq<Item>, i: nat, part: Item -> set<A>, x: A)
    requires i < |items| && x in part(items[i])
    ensures x in UnionAll(items, part)
  {
    UnionAllMember(items, part, x);
  }

  lemma SortTriggerSurvives(e: Entry, items: seq<Item>, merged: Item, i: nat, x: U32)
    requires IsCoalesced(items, merged) && i < |items| && x in SortSlotsAt(items[i].sorts, e.sortField)
    ensures x in SortSlotsAt(merged.sorts, e.sortField)
  {
    var f := e.sortField;
    UnionHas(items, i, (it: Item) => SortSlotsAt(it.sorts, f), x);
    UnionHas(items, i, (it: Item) => it.sorts.Keys, f);
  }

  lemma FilterTriggerSurvives(e: Entry, items: seq<Item>, merged: Item, i: nat, k: Key, x: U32)
    requires IsCoalesced(items, merged) && i < |items| && e.uses(k) && Operated(items[i], k, x)
    ensures Operated(merged, k, x) || x in CancelledSlots(e, items)
  {
    if x in SlotsAt(items[i].inserts, k) {
      UnionHas(items, i, (it: Item) => SlotsAt(it.inserts, k), x);
    } else {
      UnionHas(items, i, (it: Item) => SlotsAt(it.removes, k), x);
    }
    if x in Inserts(items, k) && x in Removes(items, k) {
      InsertedKeyIsListed(items, k, x);
    } else {
      assert KeptAt(k, merged.inserts, Inserts(items, k), Removes(items, k), k in InsertKeys(items), k in RemoveKeys(items));
      assert KeptAt(k, merged.removes, Removes(items, k), Inserts(items, k), k in RemoveKeys(items), k in InsertKeys(items));
    }
  }

  lemma InsertedKeyIsListed(items: seq<Item>, k: Key, x: U32)
    requires x in Inserts(items, k)
    ensures k in InsertKeys(items)
  {
    UnionAllMember(items, (it: Item) => SlotsAt(it.inserts, k), x);
    var i :| 0 <= i < |items| && x in SlotsAt(items[i].inserts, k);
    UnionHas(items, i, (it: Item) => it.inserts.Keys, k);
  }

  /** A trigger survives coalescing unless the same merge cancelled the slot. */
  lemma TriggerSurvives(e: Entry, items: seq<Item>, merged: Item, i: nat, x: U32)
    requires IsCoalesced(items, merged) && i < |items| && Triggered(e, items[i], x)
    ensures Triggered(e, merged, x) || x in CancelledSlots(e, items)
    ensures x in SortSlotsAt(items[i].sorts, e.sortField) ==> Triggered(e, merged, x)
  {
    if x in SortSlotsAt(items[i].sorts, e.sortField) {
      SortTriggerSurvives(e, items, merged, i, x);
    } else {
      var k :| e.uses(k) && Operated(items[i], k, x);
      FilterTriggerSurvives(e, items, merged, i, k, x);
    }
  }

  lemma MergeKeeps(e: Entry, s: State, merged: Item, x: U32)
    requires SlotInv(e, s, x) && Enabled(e, s, Merge(merged))
    ensures SlotInv(e, Next(e, s, Merge(merged)), x)
  {
    TriggersOfOne(e, merged, x);
    if i :| 0 <= i < |s.worker.pending| && Triggered(e, s.worker.pending[i], x) {
      TriggerSurvives(e, s.worker.pending, merged, i, x);
    }
  }

  lemma TriggeredDropInvalidates(e: Entry, items: seq<Item>, i: nat, x: U32)
    requires NamesItsFields(e) && i < |items| && ListsItsFields(items[i]) && Triggered(e, items[i], x)
    ensures DropInvalidates(e, items)
  {
    if x !in SortSlotsAt(items[i].sorts, e.sortField) {
      var k :| e.uses(k) && Operated(items[i], k, x);
      assert k.field in items[i].fields * e.named;
    }
  }

  /** What is thrown away does not concern the slot, or marks the entry for rebuild. */
  ghost predicate DropSpares(e: Entry, items: seq<Item>, x: U32) {
    SomeTriggers(e, items, x) ==> DropInvalidates(e, items)
  }

  /** An entry that names its fields is spared at every slot. */
  lemma NamedIsSpared(e: Entry, items: seq<Item>, x: U32)
    requires NamesItsFields(e) && All(items, ListsItsFields)
    ensures DropSpares(e, items, x)
  {
    if i :| 0 <= i < |items| && Triggered(e, items[i], x) {
      TriggeredDropInvalidates(e, items, i, x);
    }
  }

  lemma DropKeeps(e: Entry, s: State, x: U32)
    requires SlotInv(e, s, x) && Enabled(e, s, DropBacklog) && DropSpares(e, s.worker.pending, x)
    ensures SlotInv(e, Next(e, s, DropBacklog), x)
  {
  }

  lemma ApplyKeeps(e: Entry, s: State, work: Bitmap, x: U32)
    requires SlotInv(e, s, x) && Enabled(e, s, Apply(work))
    ensures SlotInv(e, Next(e, s, Apply(work)), x)
  {
    TriggersOfOne(e, s.worker.batch, x);
  }

  lemma OtherStepKeeps(e: Entry, s: State, step: Step, x: U32)
    requires SlotInv(e, s, x) && Enabled(e, s, step) && (step.SendFull? || step.Load? || step.Rebuild?)
    ensures SlotInv(e, Next(e, s, step), x)
  {
  }

  ghost predicate StepSpares(e: Entry, s: State, step: Step, x: U32)
    requires Enabled(e, s, step)
  {
    step.DropBacklog? ==> DropSpares(e, s.worker.pending, x)
  }

  lemma StepKeepsSlot(e: Entry, s: State, step: Step, x: U32)
    requires SlotInv(e, s, x) && Enabled(e, s, step) && StepSpares(e, s, step, x)
    ensures SlotInv(e, Next(e, s, step), x)
  {
    match step
    case Publish(item, sorts) => PublishKeeps(e, s, item, sorts, x);
    case Send => SendKeeps(e, s, x);
    case Receive => ReceiveKeeps(e, s, x);
    case Merge(merged) => MergeKeeps(e, s, merged, x);
    case DropBacklog => DropKeeps(e, s, x);
    case Apply(work) => ApplyKeeps(e, s, work, x);
    case _ => OtherStepKeeps(e, s, step, x);
  }

  lemma StepOnWay(e: Entry, s: State, step: Step, p: Item -> bool)
    requires OnWay(s, p) && Enabled(e, s, step) && (step.Publish? ==> p(step.item))
    ensures OnWay(Next(e, s, step), p)
  {
  }

  lemma StepKeepsInvariant(e: Entry, s: State, step: Step)
    requires Inv(e, s) && Enabled(e, s, step) && forall x :: StepSpares(e, s, step, x)
    ensures Inv(e, Next(e, s, step))
  {
    StepOnWay(e, s, step, ListsItsFields);
    forall x ensures SlotInv(e, Next(e, s, step), x) {
      StepKeepsSlot(e, s, step, x);
    }
  }

  // ---- Whole runs ----

  ghost predicate IsRun(e: Entry, s: State, steps: seq<Step>)
    decreases |steps|
  {
    steps == [] || (Enabled(e, s, steps[0]) && IsRun(e, Next(e, s, steps[0]), steps[1..]))
  }

  ghost function EndOf(e: Entry, s: State, steps: seq<Step>): State
    requires IsRun(e, s, steps)
    decreases |steps|
  {
    if steps == [] then s else EndOf(e, Next(e, s, steps[0]), steps[1..])
  }

  /** No merge of the run cancels the slot in a bucket the entry reads. */
  ghost predicate NeverCancelled(e: Entry, s: State, steps: seq<Step>, x: U32)
    requires IsRun(e, s, steps)
    decreases |steps|
  {
    steps == [] ||
    ((steps[0].Merge? ==> x !in CancelledSlots(e, s.worker.pending)) && NeverCancelled(e, Next(e, s, steps[0]), steps[1..], x))
  }

  /** No drop of the run throws away a trigger of the slot and leaves the entry valid. */
  ghost predicate NeverDropped(e: Entry, s: State, steps: seq<Step>, x: U32)
    requires IsRun(e, s, steps)
    decreases |steps|
  {
    steps == [] || (StepSpares(e, s, steps[0], x) && NeverDropped(e, Next(e, s, steps[0]), steps[1..], x))
  }

  /** No results for the slot reach an entry rebuilt after an item newer than them was thrown away. */
  ghost predicate NeverOvertaken(e: Entry, s: State, steps: seq<Step>, x: U32)
    requires IsRun(e, s, steps)
    decreases |steps|
  {
    steps == [] ||
    (!(Overtakes(s, steps[0]) && x in steps[0].work) && NeverOvertaken(e, Next(e, s, steps[0]), steps[1..], x))
  }

  lemma {:induction false} SlotNotForgotten(e: Entry, s: State, steps: seq<Step>, x: U32)
    requires IsRun(e, s, steps) && x !in s.forgotten && NeverCancelled(e, s, steps, x) && NeverOvertaken(e, s, steps, x)
    ensures x !in EndOf(e, s, steps).forgotten
    decreases |steps|
  {
    if steps != [] {
      SlotNotForgotten(e, Next(e, s, steps[0]), steps[1..], x);
    }
  }

  ghost predicate Settled(s: State) {
    s.unsent.None? && s.queue == [] && s.worker.Idle?
  }

  /** A stale slot is still on its way, so a settled state is right at it. */
  ghost predicate RightOrPending(e: Entry, t: State, x: U32) {
    && (Stale(e, t, x) ==> Queued(e, t, x) || InBatch(e, t, x))
    && (Settled(t) ==> !Stale(e, t, x))
  }

  lemma {:induction false} RunKeepsSlot(e: Entry, s: State, steps: seq<Step>, x: U32)
    requires SlotInv(e, s, x) && IsRun(e, s, steps) && NeverDropped(e, s, steps, x)
    ensures SlotInv(e, EndOf(e, s, steps), x)
    decreases |steps|
  {
    if steps != [] {
      StepKeepsSlot(e, s, steps[0], x);
      RunKeepsSlot(e, Next(e, s, steps[0]), steps[1..], x);
    }
  }

  /** In every interleaving whose drops spare the entry, a cached slot that disagrees with the published
      snapshot is in the unsent item, a queued item or the worker's hands, or is accounted for as forgotten. */
  lemma {:induction false} RunsKeepInvariant(e: Entry, s: State, steps: seq<Step>)
    requires Inv(e, s) && IsRun(e, s, steps) && forall x :: NeverDropped(e, s, steps, x)
    ensures Inv(e, EndOf(e, s, steps))
    decreases |steps|
  {
    if steps != [] {
      var t := Next(e, s, steps[0]);
      forall x ensures StepSpares(e, s, steps[0], x) && NeverDropped(e, t, steps[1..], x) {
        assert NeverDropped(e, s, steps, x);
      }
      StepKeepsInvariant(e, s, steps[0]);
      RunsKeepInvariant(e, t, steps[1..]);
    }
  }

  /** Slot by slot: one that no merge cancelled, no late result reached and no drop lost is never left
      stale, whatever happened to the others. */
  lemma SlotSettles(e: Entry, s: State, steps: seq<Step>, x: U32)
    requires Init(s) && IsRun(e, s, steps)
    requires NeverCancelled(e, s, steps, x) && NeverOvertaken(e, s, steps, x) && NeverDropped(e, s, steps, x)
    ensures RightOrPending(e, EndOf(e, s, steps), x)
  {
    RunKeepsSlot(e, s, steps, x);
    SlotNotForgotten(e, s, steps, x);
  }

  /** Drops lose nothing of an entry that names its fields. */
  lemma {:induction false} NamedIsNeverDropped(e: Entry, s: State, steps: seq<Step>, x: U32)
    requires IsRun(e, s, steps) && OnWay(s, ListsItsFields) && NamesItsFields(e)
    ensures NeverDropped(e, s, steps, x)
    decreases |steps|
  {
    if steps != [] {
      if steps[0].DropBacklog? {
        NamedIsSpared(e, s.worker.pending, x);
      }
      StepOnWay(e, s, steps[0], ListsItsFields);
      NamedIsNeverDropped(e, Next(e, s, steps[0]), steps[1..], x);
    }
  }

  ghost predicate Agrees(e: Entry, s: State) {
    s.cache.Members? ==> forall x: U32 :: x in s.cache.slots <==> Belongs(e, s.published, x)
  }

  lemma AgreesMeansNotStale(e: Entry, t: State)
    ensures Agrees(e, t) <==> forall x: U32 :: !Stale(e, t, x)
  {
    if t.cache.Members? {
      assert forall x: U32 :: Stale(e, t, x) <==> !(x in t.cache.slots <==> Belongs(e, t.published, x));
    }
  }

  ghost predicate ForgetsNothing(e: Entry, s: State, steps: seq<Step>)
    requires IsRun(e, s, steps)
  {
    forall x :: NeverCancelled(e, s, steps, x) && NeverOvertaken(e, s, steps, x)
  }

  /** When nothing is forgotten and no drop loses anything, a settled worker leaves cache and snapshot in
      agreement. */
  lemma SettledRunsAgree(e: Entry, s: State, steps: seq<Step>)
    requires Init(s) && IsRun(e, s, steps) && ForgetsNothing(e, s, steps) && forall x :: NeverDropped(e, s, steps, x)
    ensures forall x :: RightOrPending(e, EndOf(e, s, steps), x)
    ensures Settled(EndOf(e, s, steps)) ==> Agrees(e, EndOf(e, s, steps))
  {
    var t := EndOf(e, s, steps);
    forall x ensures RightOrPending(e, t, x) && (Settled(t) ==> !Stale(e, t, x)) {
      SlotSettles(e, s, steps, x);
    }
    AgreesMeansNotStale(e, t);
  }

  ghost predicate PublishesOnly(steps: seq<Step>, p: Item -> bool) {
    forall i :: 0 <= i < |steps| && steps[i].Publish? ==> p(steps[i].item)
  }

  // ---- A slot that is spared by every drop ----

  /** No operation on the slot under a key the entry reads but whose field it does not name. */
  ghost predicate LeavesUnnamed(e: Entry, it: Item, x: U32) {
    forall k :: e.uses(k) && k.field !in e.named ==> !Operated(it, k, x)
  }

  lemma UnnamedLeftIsSpared(e: Entry, items: seq<Item>, x: U32)
    requires All(items, ListsItsFields) && All(items, it => LeavesUnnamed(e, it, x))
    ensures DropSpares(e, items, x)
  {
    if i :| 0 <= i < |items| && Triggered(e, items[i], x) {
      if x !in SortSlotsAt(items[i].sorts, e.sortField) {
        var k :| e.uses(k) && Operated(items[i], k, x);
        assert LeavesUnnamed(e, items[i], x) && k.field in items[i].fields * e.named;
      }
    }
  }

  /** It is enough that no published item operates on the slot under such a key. */
  lemma {:induction false} UnnamedLeftIsNeverDropped(e: Entry, s: State, steps: seq<Step>, x: U32)
    requires IsRun(e, s, steps) && OnWay(s, ListsItsFields) && OnWay(s, it => LeavesUnnamed(e, it, x))
    requires PublishesOnly(steps, it => LeavesUnnamed(e, it, x))
    ensures NeverDropped(e, s, steps, x)
    decreases |steps|
  {
    if steps != [] {
      if steps[0].DropBacklog? {
        UnnamedLeftIsSpared(e, s.worker.pending, x);
      }
      StepOnWay(e, s, steps[0], ListsItsFields);
      StepOnWay(e, s, steps[0], it => LeavesUnnamed(e, it, x));
      UnnamedLeftIsNeverDropped(e, Next(e, s, steps[0]), steps[1..], x);
    }
  }

  // ---- Sort triggers need no condition ----

  /** The item does not move the slot in or out of a bucket the entry reads; its sort values may change. */
  ghost predicate FiltersLeave(e: Entry, it: Item, x: U32) {
    forall k :: e.uses(k) ==> !Operated(it, k, x)
  }

  lemma LeftIsNotCancelled(e: Entry, items: seq<Item>, x: U32)
    requires All(items, it => FiltersLeave(e, it, x))
    ensures x !in CancelledSlots(e, items)
  {
    forall k | e.uses(k) ensures x !in Inserts(items, k) {
      LeftIsNotInserted(e, items, k, x);
    }
  }

  lemma LeftIsNotInserted(e: Entry, items: seq<Item>, k: Key, x: U32)
    requires All(items, it => FiltersLeave(e, it, x)) && e.uses(k)
    ensures x !in Inserts(items, k)
  {
    UnionAllMember(items, (it: Item) => SlotsAt(it.inserts, k), x);
    forall i | 0 <= i < |items| ensures x !in SlotsAt(items[i].inserts, k) {
      assert FiltersLeave(e, items[i], x);
      assert !Operated(items[i], k, x);
    }
  }

  lemma {:induction false} OnlySortsNeverCancel(e: Entry, s: State, steps: seq<Step>, x: U32)
    requires IsRun(e, s, steps) && PublishesOnly(steps, it => FiltersLeave(e, it, x)) && OnWay(s, it => FiltersLeave(e, it, x))
    ensures NeverCancelled(e, s, steps, x)
    decreases |steps|
  {
    if steps != [] {
      if steps[0].Merge? {
        LeftIsNotCancelled(e, s.worker.pending, x);
      }
      StepOnWay(e, s, steps[0], it => FiltersLeave(e, it, x));
      OnlySortsNeverCancel(e, Next(e, s, steps[0]), steps[1..], x);
    }
  }

  lemma {:induction false} SentIsNeverOvertaken(e: Entry, s: State, steps: seq<Step>, x: U32)
    requires IsRun(e, s, steps) && SendFull !in steps && !s.overtaken
    ensures NeverOvertaken(e, s, steps, x)
    decreases |steps|
  {
    if steps != [] {
      assert steps[0] in steps;
      SentIsNeverOvertaken(e, Next(e, s, steps[0]), steps[1..], x);
    }
  }

  /** For any entry, filters included and whatever it names, a slot of which only sort values change is
      never cancelled, never lost to a drop, and never left stale unless a late result reaches it: sort
      triggers are only united, and dropping one always marks the entry for rebuild. */
  lemma SortTriggersAreNeverForgotten(e: Entry, s: State, steps: seq<Step>, x: U32)
    requires Init(s) && IsRun(e, s, steps) && PublishesOnly(steps, it => FiltersLeave(e, it, x)) && NeverOvertaken(e, s, steps, x)
    ensures NeverCancelled(e, s, steps, x) && NeverDropped(e, s, steps, x)
    ensures RightOrPending(e, EndOf(e, s, steps), x)
  {
    OnlySortsNeverCancel(e, s, steps, x);
    forall i | 0 <= i < |steps| && steps[i].Publish? ensures LeavesUnnamed(e, steps[i].item, x) {
      assert FiltersLeave(e, steps[i].item, x);
    }
    UnnamedLeftIsNeverDropped(e, s, steps, x);
    SlotSettles(e, s, steps, x);
  }
}
