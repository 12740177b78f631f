/** Exactly when a worker that has emptied the channel, and one that applies late results, bring an
    entry back into agreement. */
module CacheSettling {
  import opened Base
  import opened Coalesce
  import opened CoalesceMeaning
  import opened CacheProtocol

  // ---- Finishing what was collected ----

  /** The worker merges what it collected, loads the snapshot and applies, with nothing in between. */
  ghost function Finished(e: Entry, s: State, merged: Item, work: Bitmap): State
    requires Enabled(e, s, Merge(merged)) && forall x :: Triggered(e, merged, x) ==> x in work
  {
    var t := Next(e, s, Merge(merged));
    if IsEmpty(merged) then t else Next(e, Next(e, t, Load), Apply(work))
  }

  /** A worker about to merge: nothing else is on its way and nothing was forgotten. It re-derives all
      triggered slots, and possibly more; an empty batch re-derives none. */
  ghost predicate Ready(e: Entry, s: State, merged: Item, work: Bitmap) {
    && Inv(e, s) && s.forgotten == {} && s.unsent.None? && s.cache.Members? && Enabled(e, s, Merge(merged))
    && (forall x :: Triggered(e, merged, x) ==> x in work)
    && (IsEmpty(merged) ==> work == {})
  }

  lemma FinishedSlot(e: Entry, s: State, merged: Item, work: Bitmap, x: U32)
    requires Ready(e, s, merged, work)
    ensures Stale(e, Finished(e, s, merged, work), x) <==> Stale(e, s, x) && x !in work
  {
  }

  lemma StaleWasCancelled(e: Entry, s: State, merged: Item, work: Bitmap, x: U32)
    requires Ready(e, s, merged, work) && Stale(e, s, x) && x !in work
    ensures x in CancelledSlots(e, s.worker.pending)
  {
    assert SlotInv(e, s, x);
    var i :| 0 <= i < |s.worker.pending| && Triggered(e, s.worker.pending[i], x);
    TriggerSurvives(e, s.worker.pending, merged, i, x);
  }

  /** For every entry, finishing restores agreement exactly when every slot whose trigger the merge
      cancelled, and that is not re-derived for another reason, was cached rightly before. */
  lemma FinishingAgreesExactly(e: Entry, s: State, merged: Item, work: Bitmap)
    requires Ready(e, s, merged, work)
    ensures Agrees(e, Finished(e, s, merged, work)) <==>
            forall x :: x in CancelledSlots(e, s.worker.pending) && x !in work ==> !Stale(e, s, x)
  {
    var t := Finished(e, s, merged, work);
    forall x ensures Stale(e, t, x) <==> x in CancelledSlots(e, s.worker.pending) && x !in work && Stale(e, s, x) {
      FinishedSlot(e, s, merged, work, x);
      if Stale(e, s, x) && x !in work {
        StaleWasCancelled(e, s, merged, work, x);
      }
    }
    AgreesMeansNotStale(e, t);
  }

  // ---- Late results ----

  /** Applying results leaves every stale slot on its way exactly when each re-derived slot on which the
      loaded snapshot differs from the published one is still on its way. */
  lemma ApplyingAgreesExactly(e: Entry, s: State, work: Bitmap)
    requires Inv(e, s) && s.forgotten == {} && s.cache.Members? && Enabled(e, s, Apply(work))
    ensures (forall x :: Stale(e, Next(e, s, Apply(work)), x) ==> Queued(e, Next(e, s, Apply(work)), x)) <==>
            (forall x :: x in work && Belongs(e, s.worker.snap, x) != Belongs(e, s.published, x) ==> Queued(e, s, x))
  {
    var t := Next(e, s, Apply(work));
    forall x
      ensures (Stale(e, t, x) ==> Queued(e, t, x)) <==>
              (x in work && Belongs(e, s.worker.snap, x) != Belongs(e, s.published, x) ==> Queued(e, s, x))
    {
      assert SlotInv(e, s, x);
      TriggersOfOne(e, s.worker.batch, x);
    }
  }

  /** Dropping what was collected leaves every stale slot on its way exactly when each stale slot that is
      not is spared. */
  lemma DroppingAgreesExactly(e: Entry, s: State)
    requires Inv(e, s) && s.forgotten == {} && s.cache.Members? && Enabled(e, s, DropBacklog)
    ensures (forall x :: Stale(e, Next(e, s, DropBacklog), x) ==> Queued(e, Next(e, s, DropBacklog), x)) <==>
            (forall x :: Stale(e, s, x) && !Queued(e, s, x) ==> DropSpares(e, s.worker.pending, x))
  {
    var t := Next(e, s, DropBacklog);
    forall x
      ensures (Stale(e, t, x) ==> Queued(e, t, x)) <==> (Stale(e, s, x) && !Queued(e, s, x) ==> DropSpares(e, s.worker.pending, x))
    {
      assert SlotInv(e, s, x);
    }
  }

  // ---- What is on its way ends in what is published ----

  /** Everything published and not yet merged or dropped, oldest first. */
  function InFlight(s: State): seq<Item> {
    (if s.worker.Receiving? then s.worker.pending else []) + s.queue + (if s.unsent.Some? then [s.unsent.value] else [])
  }

  /** Replaying what is on its way changes nothing in the published bucket. */
  ghost predicate EndsAsPublished(s: State, k: Key) {
    Replay(Bucket(s.published, k), InFlight(s), k) == Bucket(s.published, k)
  }

  lemma ReplayOneMore(bucket: Bitmap, items: seq<Item>, it: Item, k: Key)
    requires Replay(bucket, items, k) == bucket
    ensures Replay(Flushed(bucket, it, k), items + [it], k) == Flushed(bucket, it, k)
  {
    var after := Flushed(bucket, it, k);
    LastItem(items, it, k, after);
    forall x ensures x in Flushed(Replay(after, items, k), it, k) <==> x in after {
      ReplayMember(bucket, items, k, x);
      ReplayMember(after, items, k, x);
    }
  }

  lemma {:induction false} ReplayInTwo(bucket: Bitmap, a: seq<Item>, b: seq<Item>, k: Key)
    ensures Replay(bucket, a + b, k) == Replay(Replay(bucket, a, k), b, k)
    decreases |b|
  {
    if b == [] {
      assert a + b == a;
    } else {
      var front := b[..|b| - 1];
      assert (a + b)[..|a + b| - 1] == a + front;
      ReplayInTwo(bucket, a, front, k);
    }
  }

  lemma ReplayRest(bucket: Bitmap, a: seq<Item>, b: seq<Item>, k: Key)
    requires Replay(bucket, a + b, k) == bucket
    ensures Replay(bucket, b, k) == bucket
  {
    ReplayInTwo(bucket, a, b, k);
    forall x ensures x in Replay(bucket, b, k) <==> x in bucket {
      ReplayMember(bucket, b, k, x);
      ReplayMember(Replay(bucket, a, k), b, k, x);
    }
  }

  lemma PublishedBucket(snap: Snapshot, it: Item, sorts: SortValues, k: Key)
    ensures Bucket(Flush(snap, it, sorts), k) == Flushed(Bucket(snap, k), it, k)
  {
  }

  lemma InFlightGrows(e: Entry, s: State, step: Step)
    requires Enabled(e, s, step) && step.Publish?
    ensures InFlight(Next(e, s, step)) == InFlight(s) + [step.item]
  {
  }

  lemma InFlightShrinks(e: Entry, s: State, step: Step)
    requires Enabled(e, s, step) && (step.Merge? || step.DropBacklog?)
    ensures InFlight(s) == s.worker.pending + InFlight(Next(e, s, step))
  {
  }

  lemma InFlightMoves(e: Entry, s: State, step: Step)
    requires Enabled(e, s, step) && !(step.Publish? || step.Merge? || step.DropBacklog? || step.SendFull?)
    ensures InFlight(Next(e, s, step)) == InFlight(s)
  {
  }

  lemma StepEndsAsPublished(e: Entry, s: State, step: Step, k: Key)
    requires Enabled(e, s, step) && !step.SendFull? && EndsAsPublished(s, k)
    ensures EndsAsPublished(Next(e, s, step), k)
  {
    if step.Publish? {
      InFlightGrows(e, s, step);
      PublishedBucket(s.published, step.item, step.sorts, k);
      ReplayOneMore(Bucket(s.published, k), InFlight(s), step.item, k);
    } else if step.Merge? || step.DropBacklog? {
      InFlightShrinks(e, s, step);
      ReplayRest(Bucket(s.published, k), s.worker.pending, InFlight(Next(e, s, step)), k);
    } else {
      InFlightMoves(e, s, step);
    }
  }

  /** While every item is sent, the last operation on its way on any slot is what is published. */
  lemma {:induction false} RunEndsAsPublished(e: Entry, s: State, steps: seq<Step>, k: Key)
    requires IsRun(e, s, steps) && SendFull !in steps && EndsAsPublished(s, k)
    ensures EndsAsPublished(EndOf(e, s, steps), k)
    decreases |steps|
  {
    if steps != [] {
      assert steps[0] in steps;
      StepEndsAsPublished(e, s, steps[0], k);
      RunEndsAsPublished(e, Next(e, s, steps[0]), steps[1..], k);
    }
  }

  /** The keys a slot holds after the collected items: by the last operation on it where there is one,
      and as published elsewhere. */
  function HeldByLastOps(e: Entry, snap: Snapshot, items: seq<Item>, x: U32): set<Key> {
    set k | k in snap.filters && e.uses(k) && (if Touched(items, k, x) then EndsInserted(items, k, x) else x in snap.filters[k])
  }

  /** The cached membership of a slot is the one that the last operations on it make. */
  ghost predicate LastOpsHold(e: Entry, s: State, x: U32)
    requires s.cache.Members? && s.worker.Receiving?
  {
    x in s.cache.slots <==>
    e.test(HeldByLastOps(e, s.published, s.worker.pending, x), SortValue(s.published.sorts, e.sortField, x))
  }

  lemma LastOpsArePublished(e: Entry, s: State, x: U32)
    requires s.worker.Receiving? && s.queue == [] && s.unsent.None? && forall k :: EndsAsPublished(s, k)
    ensures HeldByLastOps(e, s.published, s.worker.pending, x) == HeldKeys(e, s.published, x)
  {
    assert InFlight(s) == s.worker.pending;
    forall k | k in s.published.filters
      ensures (if Touched(s.worker.pending, k, x) then EndsInserted(s.worker.pending, k, x) else x in s.published.filters[k])
              <==> x in s.published.filters[k]
    {
      assert EndsAsPublished(s, k);
      ReplayMember(Bucket(s.published, k), s.worker.pending, k, x);
    }
  }

  /** In every run that sends all its items, and for every entry, finishing restores agreement exactly when
      every cancelled slot that is not re-derived for another reason was already cached the way the last
      operations on it leave it. */
  lemma FinishingRunAgreesExactly(e: Entry, s0: State, steps: seq<Step>, merged: Item, work: Bitmap)
    requires Init(s0) && IsRun(e, s0, steps) && SendFull !in steps && Ready(e, EndOf(e, s0, steps), merged, work)
    ensures var s := EndOf(e, s0, steps);
            Agrees(e, Finished(e, s, merged, work)) <==>
            forall x :: x in CancelledSlots(e, s.worker.pending) && x !in work ==> LastOpsHold(e, s, x)
  {
    var s := EndOf(e, s0, steps);
    assert InFlight(s0) == [];
    forall k ensures EndsAsPublished(s, k) {
      RunEndsAsPublished(e, s0, steps, k);
    }
    FinishingAgreesExactly(e, s, merged, work);
    forall x ensures LastOpsHold(e, s, x) <==> !Stale(e, s, x) {
      LastOpsArePublished(e, s, x);
    }
  }

  // ---- One equality clause ----

  /** An entry for one equality clause. */
  function EqualityEntry(k: Key, sortField: string): Entry {
    Entry(o => o == k, {k.field}, sortField, (held, v) => k in held)
  }

  lemma EqualityBelongs(k: Key, f: string, snap: Snapshot, x: U32)
    ensures Belongs(EqualityEntry(k, f), snap, x) <==> x in Bucket(snap, k)
  {
  }

  lemma CoalescedTrigger(k: Key, f: string, items: seq<Item>, merged: Item, x: U32)
    requires IsCoalesced(items, merged)
    ensures Triggered(EqualityEntry(k, f), merged, x) <==>
            x in SortSlots(items, f) || (x in Inserts(items, k)) != (x in Removes(items, k))
  {
    var e := EqualityEntry(k, f);
    assert KeptAt(k, merged.inserts, Inserts(items, k), Removes(items, k), k in InsertKeys(items), k in RemoveKeys(items));
    assert KeptAt(k, merged.removes, Removes(items, k), Inserts(items, k), k in RemoveKeys(items), k in InsertKeys(items));
    assert Operated(merged, k, x) <==> (x in Inserts(items, k)) != (x in Removes(items, k));
    assert Operated(merged, k, x) ==> e.uses(k);
    assert x in SortSlotsAt(merged.sorts, f) <==> x in SortSlots(items, f) by {
      MergedSorts(items, merged, f, x);
    }
  }

  lemma MergedSorts(items: seq<Item>, merged: Item, f: string, x: U32)
    requires IsCoalesced(items, merged)
    ensures x in SortSlotsAt(merged.sorts, f) <==> x in SortSlots(items, f)
  {
    if x in SortSlots(items, f) {
      UnionAllMember(items, (it: Item) => SortSlotsAt(it.sorts, f), x);
      var i :| 0 <= i < |items| && x in SortSlotsAt(items[i].sorts, f);
      UnionHas(items, i, (it: Item) => it.sorts.Keys, f);
    }
  }

  lemma EqualityCancels(k: Key, f: string, items: seq<Item>, x: U32)
    ensures x in CancelledSlots(EqualityEntry(k, f), items) <==> x in Inserts(items, k) && x in Removes(items, k)
  {
    if x in Inserts(items, k) {
      InsertedKeyIsListed(items, k, x);
    }
  }

  /** The cached membership of a slot is what the last collected operation makes it. */
  ghost predicate LastOpHolds(k: Key, s: State, x: U32)
    requires s.cache.Members? && s.worker.Receiving?
  {
    x in s.cache.slots <==> EndsInserted(s.worker.pending, k, x)
  }

  lemma CancelledIsStaleExactly(k: Key, f: string, s: State, x: U32)
    requires s.cache.Members? && s.worker.Receiving? && s.queue == [] && s.unsent.None? && EndsAsPublished(s, k)
    requires x in Inserts(s.worker.pending, k)
    ensures Stale(EqualityEntry(k, f), s, x) <==> !LastOpHolds(k, s, x)
  {
    EqualityBelongs(k, f, s.published, x);
    assert InFlight(s) == s.worker.pending;
    ReplayMember(Bucket(s.published, k), s.worker.pending, k, x);
  }

  /** For one equality clause the slots in question are those both inserted and removed and not re-sorted,
      and the last operation on the one key decides. */
  lemma EqualityFinishesExactly(k: Key, f: string, s0: State, steps: seq<Step>, merged: Item, work: Bitmap)
    requires var e := EqualityEntry(k, f);
             Init(s0) && IsRun(e, s0, steps) && SendFull !in steps && Ready(e, EndOf(e, s0, steps), merged, work) &&
             forall x :: x in work ==> Triggered(e, merged, x)
    ensures var e := EqualityEntry(k, f); var s := EndOf(e, s0, steps); var items := s.worker.pending;
            Agrees(e, Finished(e, s, merged, work)) <==>
            forall x :: x in Inserts(items, k) && x in Removes(items, k) && x !in SortSlots(items, f) ==> LastOpHolds(k, s, x)
  {
    var e := EqualityEntry(k, f);
    var s := EndOf(e, s0, steps);
    assert InFlight(s0) == [];
    RunEndsAsPublished(e, s0, steps, k);
    FinishingAgreesExactly(e, s, merged, work);
    CancelledExactly(k, f, s, merged, work);
  }

  lemma CancelledExactly(k: Key, f: string, s: State, merged: Item, work: Bitmap)
    requires Ready(EqualityEntry(k, f), s, merged, work) && EndsAsPublished(s, k)
    requires forall x :: x in work ==> Triggered(EqualityEntry(k, f), merged, x)
    ensures var e := EqualityEntry(k, f); var items := s.worker.pending;
            (forall x :: x in CancelledSlots(e, items) && x !in work ==> !Stale(e, s, x)) <==>
            (forall x :: x in Inserts(items, k) && x in Removes(items, k) && x !in SortSlots(items, f) ==> LastOpHolds(k, s, x))
  {
    var e := EqualityEntry(k, f);
    var items := s.worker.pending;
    forall x
      ensures (x in CancelledSlots(e, items) && x !in work ==> !Stale(e, s, x)) <==>
              (x in Inserts(items, k) && x in Removes(items, k) && x !in SortSlots(items, f) ==> LastOpHolds(k, s, x))
    {
      EqualityCancels(k, f, items, x);
      CoalescedTrigger(k, f, items, merged, x);
      if x in Inserts(items, k) {
        CancelledIsStaleExactly(k, f, s, x);
      }
    }
  }
}
