/** Runs that end settled and stale, and what they make exact. Every run starts with an empty channel
    and an entry that has yet to be built, and respects the size of the channel and the backlog limit. */
module CacheLosses {
  import opened Base
  import opened Coalesce
  import opened CoalesceMeaning
  import opened CacheProtocol
  import opened CacheSettling

  // ---- Putting runs together ----

  /** Steps that neither merge nor apply cannot forget a slot. */
  predicate IsQuiet(step: Step) {
    !step.Merge? && !step.Apply?
  }

  predicate AllQuiet(steps: seq<Step>) {
    forall i :: 0 <= i < |steps| ==> IsQuiet(steps[i])
  }

  ghost predicate Reaches(e: Entry, s: State, t: State, quiet: bool) {
    exists steps :: IsRun(e, s, steps) && EndOf(e, s, steps) == t && (quiet ==> AllQuiet(steps))
  }

  lemma {:induction false} RunOneMore(e: Entry, s: State, steps: seq<Step>, step: Step)
    requires IsRun(e, s, steps) && Enabled(e, EndOf(e, s, steps), step)
    ensures IsRun(e, s, steps + [step]) && EndOf(e, s, steps + [step]) == Next(e, EndOf(e, s, steps), step)
    decreases |steps|
  {
    if steps == [] {
      assert IsRun(e, Next(e, s, step), []);
      assert ([] + [step])[1..] == [];
    } else {
      RunOneMore(e, Next(e, s, steps[0]), steps[1..], step);
      assert (steps + [step])[1..] == steps[1..] + [step];
    }
  }

  /** One allowed step leads from one state to another. */
  ghost predicate Leads(e: Entry, quiet: bool, t: State, step: Step, u: State) {
    Enabled(e, t, step) && Next(e, t, step) == u && (quiet ==> IsQuiet(step))
  }

  /** No allowed step leaves the region. */
  ghost predicate Closed(e: Entry, quiet: bool, r: State -> bool) {
    forall t, step, u :: r(t) && Leads(e, quiet, t, step, u) ==> r(u)
  }

  lemma Then(e: Entry, quiet: bool, r: State -> bool, t: State, step: Step, u: State)
    requires Closed(e, quiet, r) && r(t) && Leads(e, quiet, t, step, u)
    ensures r(u)
  {
  }

  lemma ReachedIsClosed(e: Entry, s: State, quiet: bool)
    ensures Closed(e, quiet, t => Reaches(e, s, t, quiet)) && Reaches(e, s, s, quiet)
  {
    forall t, step, u | Reaches(e, s, t, quiet) && Leads(e, quiet, t, step, u) ensures Reaches(e, s, u, quiet) {
      ReachesOneMore(e, s, t, quiet, step, u);
    }
    assert IsRun(e, s, []) && EndOf(e, s, []) == s && AllQuiet([]);
  }

  lemma ReachesOneMore(e: Entry, s: State, t: State, quiet: bool, step: Step, u: State)
    requires Reaches(e, s, t, quiet) && Leads(e, quiet, t, step, u)
    ensures Reaches(e, s, u, quiet)
  {
    var steps :| IsRun(e, s, steps) && EndOf(e, s, steps) == t && (quiet ==> AllQuiet(steps));
    RunOneMore(e, s, steps, step);
  }

  lemma {:induction false} QuietForgetsNothing(e: Entry, s: State, steps: seq<Step>, x: U32)
    requires IsRun(e, s, steps) && AllQuiet(steps)
    ensures NeverCancelled(e, s, steps, x) && NeverOvertaken(e, s, steps, x)
    decreases |steps|
  {
    if steps != [] {
      QuietForgetsNothing(e, Next(e, s, steps[0]), steps[1..], x);
    }
  }

  // ---- What the steps of these runs do ----

  /** The snapshot with another bucket under the key. */
  function Put(snap: Snapshot, k: Key, bucket: Bitmap): Snapshot {
    snap.(filters := snap.filters[k := bucket])
  }

  function OpOn(insert: bool, bucket: Bitmap, x: U32): Bitmap {
    if insert then bucket + {x} else bucket - {x}
  }

  /** The snapshot after one operation. */
  function AfterOp(snap: Snapshot, insert: bool, k: Key, x: U32): Snapshot {
    Put(snap, k, OpOn(insert, Bucket(snap, k), x))
  }

  lemma FlushedOp(insert: bool, k: Key, x: U32, bucket: Bitmap, j: Key)
    ensures Flushed(bucket, Op(insert, k, x), j) == if j == k then OpOn(insert, bucket, x) else bucket
  {
    OpSlots(insert, k, x, j);
  }

  lemma FlushOp(snap: Snapshot, insert: bool, k: Key, x: U32)
    ensures Flush(snap, Op(insert, k, x), snap.sorts) == AfterOp(snap, insert, k, x)
  {
    var (a, b) := (Flush(snap, Op(insert, k, x), snap.sorts), AfterOp(snap, insert, k, x));
    assert a.filters.Keys == b.filters.Keys;
    forall j | j in a.filters ensures a.filters[j] == b.filters[j] {
      FlushedOp(insert, k, x, Bucket(snap, j), j);
    }
  }

  lemma ThenPublish(e: Entry, quiet: bool, r: State -> bool, t: State, insert: bool, k: Key, x: U32, u: State)
    requires Closed(e, quiet, r) && r(t) && t.unsent.None?
    requires u == t.(published := AfterOp(t.published, insert, k, x), unsent := Some(Op(insert, k, x)))
    ensures r(u)
  {
    FlushOp(t.published, insert, k, x);
    Then(e, quiet, r, t, Publish(Op(insert, k, x), t.published.sorts), u);
  }

  lemma ThenSend(e: Entry, quiet: bool, r: State -> bool, t: State, u: State)
    requires Closed(e, quiet, r) && r(t) && t.unsent.Some? && |t.queue| < t.limits.capacity
    requires u == t.(queue := t.queue + [t.unsent.value], unsent := None)
    ensures r(u)
  {
    Then(e, quiet, r, t, Send, u);
  }

  /** The only item of an otherwise empty channel is sent and received at once. */
  lemma ThenHandOver(e: Entry, quiet: bool, r: State -> bool, t: State, u: State)
    requires Closed(e, quiet, r) && r(t) && t.unsent.Some? && t.queue == [] && t.limits.capacity >= 1
    requires t.worker.Idle? || (t.worker.Receiving? && !OverLimit(t.limits, t.worker.pending))
    requires u == t.(unsent := None, worker := Receiving(InHand(t.worker) + [t.unsent.value]))
    ensures r(u)
  {
    var sent := t.(queue := [t.unsent.value], unsent := None);
    assert t.queue + [t.unsent.value] == sent.queue && sent.queue[1..] == [];
    ThenSend(e, quiet, r, t, sent);
    Then(e, quiet, r, sent, Receive, u);
  }

  /** An operation is published, sent and received. */
  lemma ThenCollect(e: Entry, quiet: bool, r: State -> bool, t: State, insert: bool, k: Key, x: U32, u: State)
    requires Closed(e, quiet, r) && r(t) && t.unsent.None? && t.queue == [] && t.limits.capacity >= 1
    requires t.worker.Idle? || (t.worker.Receiving? && !OverLimit(t.limits, t.worker.pending))
    requires u == t.(published := AfterOp(t.published, insert, k, x), worker := Receiving(InHand(t.worker) + [Op(insert, k, x)]))
    ensures r(u)
  {
    var published := t.(published := AfterOp(t.published, insert, k, x), unsent := Some(Op(insert, k, x)));
    ThenPublish(e, quiet, r, t, insert, k, x, published);
    ThenHandOver(e, quiet, r, published, u);
  }

  /** Nothing on its way and nothing cached, over any snapshot. */
  function Start(limits: Limits, snap: Snapshot): State {
    State(limits, snap, None, [], Idle, NeedsRebuild, false, {})
  }

  predicate IsSlot(x: int) {
    0 <= x < 0x1_0000_0000
  }

  function MembersOf(e: Entry, snap: Snapshot): Bitmap {
    set x: U32 | IsSlot(x) && Belongs(e, snap, x)
  }

  /** The entry is built first. */
  lemma ReachBuilt(e: Entry, quiet: bool, r: State -> bool, limits: Limits, snap: Snapshot)
    requires Closed(e, quiet, r) && r(Start(limits, snap))
    ensures r(Start(limits, snap).(cache := Members(MembersOf(e, snap))))
  {
    var s := Start(limits, snap);
    forall x: U32 ensures x in MembersOf(e, snap) <==> Belongs(e, snap, x) {
      assert IsSlot(x);
    }
    Then(e, quiet, r, s, Rebuild(MembersOf(e, snap)), s.(cache := Members(MembersOf(e, snap))));
  }

  /** The worker has received one insert. */
  function OneReceived(e: Entry, limits: Limits, snap: Snapshot, k: Key, x: U32): State {
    Start(limits, snap).(published := AfterOp(snap, true, k, x), worker := Receiving([Op(true, k, x)]),
                         cache := Members(MembersOf(e, snap)))
  }

  lemma ReachOneReceived(e: Entry, quiet: bool, r: State -> bool, limits: Limits, snap: Snapshot, k: Key, x: U32)
    requires limits.capacity >= 1 && Closed(e, quiet, r) && r(Start(limits, snap))
    ensures r(OneReceived(e, limits, snap, k, x))
  {
    ReachBuilt(e, quiet, r, limits, snap);
    NothingAdded([Op(true, k, x)]);
    ThenCollect(e, quiet, r, Start(limits, snap).(cache := Members(MembersOf(e, snap))), true, k, x,
                OneReceived(e, limits, snap, k, x));
  }

  // ---- Items on another slot ----

  /** The n-th other item; inserts and removals of one slot take turns. */
  function Pad(o: Key, y: U32, n: nat): Item {
    Op(n % 2 == 0, o, y)
  }

  function Pads(o: Key, y: U32, n: nat): seq<Item> {
    if n == 0 then [] else Pads(o, y, n - 1) + [Pad(o, y, n - 1)]
  }

  function AfterPads(snap: Snapshot, o: Key, y: U32, n: nat): Snapshot {
    if n == 0 then snap else AfterOp(AfterPads(snap, o, y, n - 1), (n - 1) % 2 == 0, o, y)
  }

  lemma {:induction false} PadsCount(o: Key, y: U32, n: nat)
    ensures |Pads(o, y, n)| == n
  {
    if n > 0 {
      PadsCount(o, y, n - 1);
    }
  }

  lemma {:induction false} PadsAre(o: Key, y: U32, n: nat)
    ensures |Pads(o, y, n)| == n
    ensures forall i :: 0 <= i < n ==> Pads(o, y, n)[i] == Pad(o, y, i)
  {
    if n > 0 {
      PadsAre(o, y, n - 1);
    }
  }

  lemma PadDoesNotTrigger(e: Entry, o: Key, y: U32, n: nat, x: U32)
    requires x != y
    ensures !Triggered(e, Pad(o, y, n), x)
  {
    if k :| e.uses(k) && Operated(Pad(o, y, n), k, x) {
      OpSlots(n % 2 == 0, o, y, k);
    }
  }

  /** They change neither another bucket nor another slot. */
  lemma {:induction false} PadsLeave(e: Entry, snap: Snapshot, o: Key, y: U32, n: nat, x: U32)
    requires x != y
    ensures Belongs(e, AfterPads(snap, o, y, n), x) <==> Belongs(e, snap, x)
  {
    if n > 0 {
      var before := AfterPads(snap, o, y, n - 1);
      PadsLeave(e, snap, o, y, n - 1, x);
      PadDoesNotTrigger(e, o, y, n - 1, x);
      FlushOp(before, (n - 1) % 2 == 0, o, y);
      UntriggeredIsUnchanged(e, before, Pad(o, y, n - 1), before.sorts, x);
    }
  }

  lemma {:induction false} PadsLeaveBucket(snap: Snapshot, o: Key, y: U32, n: nat, k: Key)
    requires k != o
    ensures Bucket(AfterPads(snap, o, y, n), k) == Bucket(snap, k)
  {
    if n > 0 {
      PadsLeaveBucket(snap, o, y, n - 1, k);
    }
  }

  lemma QueuePad(e: Entry, quiet: bool, r: State -> bool, t: State, o: Key, y: U32, n: nat, u: State)
    requires Closed(e, quiet, r) && r(t) && t.unsent.None? && |t.queue| < t.limits.capacity
    requires u == t.(published := AfterOp(t.published, n % 2 == 0, o, y), queue := t.queue + [Pad(o, y, n)])
    ensures r(u)
  {
    var published := t.(published := AfterOp(t.published, n % 2 == 0, o, y), unsent := Some(Pad(o, y, n)));
    ThenPublish(e, quiet, r, t, n % 2 == 0, o, y, published);
    ThenSend(e, quiet, r, published, u);
  }

  function Filled(t: State, o: Key, y: U32, n: nat): State {
    t.(published := AfterPads(t.published, o, y, n), queue := Pads(o, y, n))
  }

  lemma OneMoreFits(t: State, o: Key, y: U32, n: nat)
    requires t.unsent.None? && n < t.limits.capacity
    ensures var u := Filled(t, o, y, n);
            && u.unsent.None? && |u.queue| < u.limits.capacity
            && Filled(t, o, y, n + 1) == u.(published := AfterOp(u.published, n % 2 == 0, o, y), queue := u.queue + [Pad(o, y, n)])
  {
    PadsCount(o, y, n);
  }

  /** The channel fills up while the worker is busy. */
  lemma {:induction false} FillQueue(e: Entry, quiet: bool, r: State -> bool, t: State, o: Key, y: U32, n: nat)
    requires Closed(e, quiet, r) && r(t) && t.unsent.None? && t.queue == [] && n <= t.limits.capacity
    ensures r(Filled(t, o, y, n))
    decreases n
  {
    if n == 0 {
      assert Filled(t, o, y, 0) == t;
    } else {
      FillQueue(e, quiet, r, t, o, y, n - 1);
      QueueOneMore(e, quiet, r, t, o, y, n - 1);
    }
  }

  lemma QueueOneMore(e: Entry, quiet: bool, r: State -> bool, t: State, o: Key, y: U32, n: nat)
    requires Closed(e, quiet, r) && r(Filled(t, o, y, n)) && t.unsent.None? && n < t.limits.capacity
    ensures r(Filled(t, o, y, n + 1))
  {
    OneMoreFits(t, o, y, n);
    QueuePad(e, quiet, r, Filled(t, o, y, n), o, y, n, Filled(t, o, y, n + 1));
  }

  /** The worker keeps collecting while more keeps coming. */
  lemma {:induction false} FillPending(e: Entry, quiet: bool, r: State -> bool, t: State, o: Key, y: U32, first: Item, n: nat, u: State)
    requires Closed(e, quiet, r) && r(t) && t.unsent.None? && t.queue == []
    requires t.worker == Receiving([first]) && t.limits.capacity >= 1 && (n <= 1 || n <= t.limits.backlog)
    requires u == t.(published := AfterPads(t.published, o, y, n), worker := Receiving([first] + Pads(o, y, n)))
    ensures r(u)
    decreases n
  {
    if n == 0 {
      NothingAdded([first]);
    } else {
      var front := t.(published := AfterPads(t.published, o, y, n - 1), worker := Receiving([first] + Pads(o, y, n - 1)));
      FillPending(e, quiet, r, t, o, y, first, n - 1, front);
      PadsCount(o, y, n - 1);
      Associates([first], Pads(o, y, n - 1), [Pad(o, y, n - 1)]);
      ThenCollect(e, quiet, r, front, (n - 1) % 2 == 0, o, y, u);
    }
  }

  // ---- A dropped backlog ----

  /** On this snapshot, holding the key or not decides for the slot. */
  predicate Decides(e: Entry, k: Key, snap: Snapshot, x: U32) {
    Belongs(e, AfterOp(snap, true, k, x), x) != Belongs(e, snap, x)
  }

  /** Some snapshot has a slot for which the key decides. */
  ghost predicate Matters(e: Entry, k: Key) {
    exists snap, x :: Decides(e, k, snap, x)
  }

  lemma DropLeavesEntry(e: Entry, k: Key, x: U32, y: U32, n: nat)
    requires k.field !in e.named
    ensures !DropInvalidates(e, [Op(true, k, x)] + Pads(k, y, n))
  {
    PadsAre(k, y, n);
    var items := [Op(true, k, x)] + Pads(k, y, n);
    forall i | 0 <= i < |items| ensures !items[i].aliveChanged && items[i].sorts == map[] && items[i].fields == {k.field} {
      if i > 0 {
        assert items[i] == Pad(k, y, i - 1);
      }
    }
  }

  function OtherSlot(x: U32): U32 {
    if x == 0 then 1 else 0
  }

  /** As many more items as it takes to exceed the limit. */
  function Overflow(limits: Limits): nat {
    if limits.backlog == 0 then 1 else limits.backlog
  }

  lemma DroppedRun(e: Entry, r: State -> bool, limits: Limits, k: Key, snap: Snapshot, x: U32) returns (t: State)
    requires limits.capacity >= 1 && k.field !in e.named && Decides(e, k, snap, x)
    requires Closed(e, true, r) && r(Start(limits, snap))
    ensures r(t)
    ensures Settled(t) && Stale(e, t, x)
  {
    var s, y, n := Start(limits, snap), OtherSlot(x), Overflow(limits);
    var first := OneReceived(e, limits, snap, k, x);
    ReachOneReceived(e, true, r, limits, snap, k, x);
    t := first.(published := AfterPads(first.published, k, y, n), worker := Idle);
    var full := t.(worker := Receiving([Op(true, k, x)] + Pads(k, y, n)));
    FillPending(e, true, r, first, k, y, Op(true, k, x), n, full);
    BacklogDrops(e, r, full, k, x, y, n, t);
    PadsLeave(e, first.published, k, y, n, x);
    assert IsSlot(x);
  }

  /** A backlog that exceeds the limit is dropped. An entry that reads a key whose field it does not name
      stays valid and wrong, though nothing was forgotten on the way. */
  lemma DroppedBacklogIsLost(e: Entry, limits: Limits, k: Key, snap: Snapshot, x: U32) returns (t: State)
    requires limits.capacity >= 1 && k.field !in e.named && Decides(e, k, snap, x)
    ensures Reaches(e, Start(limits, snap), t, true)
    ensures Settled(t) && Stale(e, t, x)
  {
    ReachedIsClosed(e, Start(limits, snap), true);
    t := DroppedRun(e, u => Reaches(e, Start(limits, snap), u, true), limits, k, snap, x);
  }

  lemma BacklogDrops(e: Entry, r: State -> bool, full: State, k: Key, x: U32, y: U32, n: nat, t: State)
    requires k.field !in e.named && Closed(e, true, r) && r(full)
    requires full.worker == Receiving([Op(true, k, x)] + Pads(k, y, n)) && n == Overflow(full.limits) && t == full.(worker := Idle)
    ensures r(t)
  {
    PadsCount(k, y, n);
    DropLeavesEntry(e, k, x, y, n);
    Then(e, true, r, full, DropBacklog, t);
  }

  /** Every settled run with these limits that forgets nothing leaves the entry right. */
  ghost predicate AlwaysSettles(e: Entry, limits: Limits) {
    forall s, steps ::
      Init(s) && s.limits == limits && IsRun(e, s, steps) && ForgetsNothing(e, s, steps) && Settled(EndOf(e, s, steps)) ==>
      Agrees(e, EndOf(e, s, steps))
  }

  lemma NamedAlwaysSettles(e: Entry, limits: Limits)
    requires NamesItsFields(e)
    ensures AlwaysSettles(e, limits)
  {
    forall s, steps
      | Init(s) && s.limits == limits && IsRun(e, s, steps) && ForgetsNothing(e, s, steps) && Settled(EndOf(e, s, steps))
      ensures Agrees(e, EndOf(e, s, steps))
    {
      forall x ensures NeverDropped(e, s, steps, x) {
        NamedIsNeverDropped(e, s, steps, x);
      }
      SettledRunsAgree(e, s, steps);
    }
  }

  lemma UnnamedIsLost(e: Entry, limits: Limits, k: Key)
    requires limits.capacity >= 1 && k.field !in e.named && Matters(e, k)
    ensures !AlwaysSettles(e, limits)
  {
    var snap, x :| Decides(e, k, snap, x);
    var s := Start(limits, snap);
    var t := DroppedBacklogIsLost(e, limits, k, snap, x);
    var steps :| IsRun(e, s, steps) && EndOf(e, s, steps) == t && AllQuiet(steps);
    forall y ensures NeverCancelled(e, s, steps, y) && NeverOvertaken(e, s, steps, y) {
      QuietForgetsNothing(e, s, steps, y);
    }
    AgreesMeansNotStale(e, t);
    assert Init(s) && ForgetsNothing(e, s, steps);
  }

  /** For an entry on which every key it reads has a say somewhere, whatever the limits: all settled runs
      that forget nothing agree if and only if its clauses name every field it reads. */
  lemma SettlesExactlyWhenNamed(e: Entry, limits: Limits)
    requires limits.capacity >= 1 && forall k :: e.uses(k) ==> Matters(e, k)
    ensures AlwaysSettles(e, limits) <==> NamesItsFields(e)
  {
    if NamesItsFields(e) {
      NamedAlwaysSettles(e, limits);
    } else {
      var k :| e.uses(k) && k.field !in e.named;
      UnnamedIsLost(e, limits, k);
    }
  }

  const NOTHING := Snapshot(map[], map[])

  lemma EqualityDecides(k: Key, f: string, named: set<string>, x: U32)
    ensures Decides(EqualityEntry(k, f).(named := named), k, NOTHING, x)
  {
    EqualityBelongs(k, f, NOTHING, x);
    EqualityBelongs(k, f, AfterOp(NOTHING, true, k, x), x);
    var e := EqualityEntry(k, f).(named := named);
    assert HeldKeys(e, NOTHING, x) == {} && k in HeldKeys(e, AfterOp(NOTHING, true, k, x), x);
  }

  /** An entry for one equality clause, whatever fields its key names. */
  lemma EqualitySettlesExactly(k: Key, f: string, named: set<string>, limits: Limits)
    requires limits.capacity >= 1
    ensures AlwaysSettles(EqualityEntry(k, f).(named := named), limits) <==> k.field in named
  {
    var e := EqualityEntry(k, f).(named := named);
    EqualityDecides(k, f, named, 0);
    SettlesExactlyWhenNamed(e, limits);
    assert e.uses(k);
  }

  /** An entry for a conjunction of equalities: none of its keys decides for a slot that holds nothing. */
  function ConjunctionEntry(keys: set<Key>, named: set<string>, f: string): Entry {
    Entry(o => o in keys, named, f, (held, v) => keys <= held)
  }

  /** Every bucket of the keys holds the slot. */
  function Holding(keys: set<Key>, x: U32): Snapshot {
    Snapshot(map k | k in keys :: {x}, map[])
  }

  lemma ConjunctionMatters(keys: set<Key>, named: set<string>, f: string, k: Key)
    requires k in keys
    ensures Matters(ConjunctionEntry(keys, named, f), k)
  {
    var e := ConjunctionEntry(keys, named, f);
    var snap := Holding(keys - {k}, 0);
    assert k !in HeldKeys(e, snap, 0);
    forall j | j in keys ensures j in HeldKeys(e, AfterOp(snap, true, k, 0), 0) {
    }
    assert Decides(e, k, snap, 0);
  }

  /** So a compound entry, which names no field, can be left wrong, and a conjunction is safe exactly when
      all its fields are named. */
  lemma ConjunctionSettlesExactly(keys: set<Key>, named: set<string>, f: string, limits: Limits)
    requires limits.capacity >= 1
    ensures AlwaysSettles(ConjunctionEntry(keys, named, f), limits) <==> forall k :: k in keys ==> k.field in named
  {
    var e := ConjunctionEntry(keys, named, f);
    forall k | e.uses(k) ensures Matters(e, k) {
      ConjunctionMatters(keys, named, f, k);
    }
    SettlesExactlyWhenNamed(e, limits);
  }

  // ---- Merging what these runs collect ----

  lemma LastUnions(items: seq<Item>, it: Item)
    ensures InsertKeys(items + [it]) == InsertKeys(items) + it.inserts.Keys
    ensures RemoveKeys(items + [it]) == RemoveKeys(items) + it.removes.Keys
    ensures SortFields(items + [it]) == SortFields(items) + it.sorts.Keys
    ensures AliveRemoves(items + [it]) == AliveRemoves(items) + Elements(it.aliveRemoves)
    ensures Fields(items + [it]) == Fields(items) + it.fields
    ensures Buckets(items + [it]) == Buckets(items) + it.buckets
  {
    assert (items + [it])[..|items|] == items;
  }

  /** The items only insert and remove this slot under this key. */
  ghost predicate OnlyMove(items: seq<Item>, k: Key, x: U32, inserted: bool, removed: bool) {
    MoveSlots(items, k, x, inserted, removed) && MoveFields(items, k, inserted, removed)
  }

  ghost predicate MoveSlots(items: seq<Item>, k: Key, x: U32, inserted: bool, removed: bool) {
    && (forall j :: Inserts(items, j) == if inserted && j == k then {x} else {})
    && (forall j :: Removes(items, j) == if removed && j == k then {x} else {})
  }

  ghost predicate MoveFields(items: seq<Item>, k: Key, inserted: bool, removed: bool) {
    && InsertKeys(items) == (if inserted then {k} else {})
    && RemoveKeys(items) == (if removed then {k} else {})
    && SortFields(items) == {} && AliveRemoves(items) == {} && Buckets(items) == {}
    && Fields(items) == (if inserted || removed then {k.field} else {})
    && !AnyAlive(items)
  }

  lemma OnlyMoveNothing(k: Key, x: U32)
    ensures OnlyMove([], k, x, false, false)
  {
  }

  lemma MoveSlotsMore(items: seq<Item>, k: Key, x: U32, inserted: bool, removed: bool, insert: bool)
    requires MoveSlots(items, k, x, inserted, removed)
    ensures MoveSlots(items + [Op(insert, k, x)], k, x, inserted || insert, removed || !insert)
  {
    var it := Op(insert, k, x);
    forall j
      ensures Inserts(items + [it], j) == if (inserted || insert) && j == k then {x} else {}
      ensures Removes(items + [it], j) == if (removed || !insert) && j == k then {x} else {}
    {
      LastItem(items, it, j, {});
      OpSlots(insert, k, x, j);
    }
  }

  lemma OnlyMoveMore(items: seq<Item>, k: Key, x: U32, inserted: bool, removed: bool, insert: bool)
    requires OnlyMove(items, k, x, inserted, removed)
    ensures OnlyMove(items + [Op(insert, k, x)], k, x, inserted || insert, removed || !insert)
  {
    MoveSlotsMore(items, k, x, inserted, removed, insert);
    LastUnions(items, Op(insert, k, x));
  }

  /** Nothing is left of an insert and a removal of the same slot. */
  function Leftover(k: Key): Item {
    EMPTY_ITEM.(fields := {k.field})
  }

  lemma OneMerges(items: seq<Item>, k: Key, x: U32)
    requires OnlyMove(items, k, x, true, false)
    ensures IsCoalesced(items, Op(true, k, x)) && !IsEmpty(Op(true, k, x))
  {
    assert k in Op(true, k, x).inserts;
    forall j
      ensures SlotsAt(Op(true, k, x).inserts, j) == Inserts(items, j) && SlotsAt(Op(true, k, x).removes, j) == Removes(items, j)
    {
      OpSlots(true, k, x, j);
    }
  }

  lemma BothMerge(items: seq<Item>, k: Key, x: U32)
    requires OnlyMove(items, k, x, true, true)
    ensures IsCoalesced(items, Leftover(k)) && IsEmpty(Leftover(k))
  {
  }

  lemma OnePadMore(items: seq<Item>, o: Key, y: U32, n: nat, more: seq<Item>)
    requires n >= 1 && OnlyMove(items, o, y, n >= 2, n >= 3) && more == items + [Pad(o, y, n - 1)]
    ensures OnlyMove(more, o, y, n >= 1, n >= 2)
  {
    OnlyMoveMore(items, o, y, n >= 2, n >= 3, (n - 1) % 2 == 0);
  }

  lemma {:induction false} PadsOnlyMove(o: Key, y: U32, n: nat)
    ensures OnlyMove(Pads(o, y, n), o, y, n >= 1, n >= 2)
  {
    if n == 0 {
      OnlyMoveNothing(o, y);
    } else {
      PadsOnlyMove(o, y, n - 1);
      OnePadMore(Pads(o, y, n - 1), o, y, n, Pads(o, y, n));
    }
  }

  lemma NothingCancelled(e: Entry, items: seq<Item>, k: Key, x: U32, inserted: bool, removed: bool)
    requires OnlyMove(items, k, x, inserted, removed) && !(inserted && removed && e.uses(k))
    ensures CancelledSlots(e, items) == {}
  {
  }

  // ---- A worker that loads ahead of its batch ----

  lemma RederivedOne(k: Key, f: string, snap: Snapshot, x: U32, slots: Bitmap)
    requires slots <= {x} && Bucket(snap, k) <= {x}
    ensures Rederived(EqualityEntry(k, f), Members(slots), snap, {x}) == Members(Bucket(snap, k))
    ensures forall y :: Triggered(EqualityEntry(k, f), Op(true, k, x), y) ==> y in {x}
  {
    EqualityBelongs(k, f, snap, x);
    OpSlots(true, k, x, k);
  }

  /** The worker re-derives the one slot of its batch. */
  lemma ThenApply(k: Key, f: string, r: State -> bool, t: State, x: U32, slots: Bitmap, snap: Snapshot, u: State)
    requires Closed(EqualityEntry(k, f), false, r) && r(t) && t.worker == Loaded(Op(true, k, x), snap)
    requires t.cache == Members(slots) && slots <= {x} && Bucket(snap, k) <= {x}
    requires u == t.(worker := Idle, overtaken := false, cache := Members(Bucket(snap, k)),
                     forgotten := if t.overtaken then t.forgotten + {x} else t.forgotten - {x})
    ensures r(u)
  {
    RederivedOne(k, f, snap, x, slots);
    Then(EqualityEntry(k, f), false, r, t, Apply({x}), u);
  }

  lemma NothingBelongs(k: Key, f: string, snap: Snapshot)
    requires Bucket(snap, k) == {}
    ensures MembersOf(EqualityEntry(k, f), snap) == {}
  {
    forall x: U32 ensures !Belongs(EqualityEntry(k, f), snap, x) {
      EqualityBelongs(k, f, snap, x);
    }
  }

  lemma OneInsertMerges(k: Key, x: U32, e: Entry)
    ensures IsCoalesced([Op(true, k, x)], Op(true, k, x)) && !IsEmpty(Op(true, k, x)) && CancelledSlots(e, [Op(true, k, x)]) == {}
  {
    OnlyMoveNothing(k, x);
    OnlyMoveMore([], k, x, false, false, true);
    NothingAdded([Op(true, k, x)]);
    OneMerges([Op(true, k, x)], k, x);
    NothingCancelled(e, [Op(true, k, x)], k, x, true, false);
  }

  /** The first insert, and the snapshot it was published with. */
  function Inserted(k: Key, x: U32): Snapshot {
    AfterOp(NOTHING, true, k, x)
  }

  /** The worker holds the first insert as its batch. */
  function OneBatched(limits: Limits, k: Key, x: U32): State {
    Start(limits, NOTHING).(published := Inserted(k, x), worker := Batched(Op(true, k, x)), cache := Members({}))
  }

  lemma ReachBatched(k: Key, f: string, r: State -> bool, limits: Limits, x: U32)
    requires limits.capacity >= 1 && Closed(EqualityEntry(k, f), false, r) && r(Start(limits, NOTHING))
    ensures r(OneBatched(limits, k, x))
  {
    var e := EqualityEntry(k, f);
    ReachOneReceived(e, false, r, limits, NOTHING, k, x);
    NothingBelongs(k, f, NOTHING);
    OneInsertMerges(k, x, e);
    Then(e, false, r, OneReceived(e, limits, NOTHING, k, x), Merge(Op(true, k, x)), OneBatched(limits, k, x));
  }

  /** The insert and then the removal were published. */
  function Removed(k: Key, x: U32): Snapshot {
    AfterOp(Inserted(k, x), false, k, x)
  }

  lemma RemovedIsEmpty(k: Key, x: U32)
    ensures Bucket(Inserted(k, x), k) == {x} && Bucket(Removed(k, x), k) == {}
  {
  }

  /** The worker has applied the insert from a snapshot that already lacked the slot; only then is
      the removal received. */
  function OneRemoved(limits: Limits, k: Key, x: U32): State {
    Start(limits, NOTHING).(published := Removed(k, x), worker := Receiving([Op(false, k, x)]), cache := Members({}))
  }

  lemma ReachRemoved(k: Key, f: string, r: State -> bool, limits: Limits, x: U32)
    requires limits.capacity >= 1 && Closed(EqualityEntry(k, f), false, r) && r(Start(limits, NOTHING))
    ensures r(OneRemoved(limits, k, x))
  {
    var e, s, s1 := EqualityEntry(k, f), Start(limits, NOTHING), OneBatched(limits, k, x);
    ReachBatched(k, f, r, limits, x);
    RemovedIsEmpty(k, x);
    var s2 := s1.(published := Removed(k, x), unsent := Some(Op(false, k, x)));
    ThenPublish(e, false, r, s1, false, k, x, s2);
    var s3 := s2.(worker := Loaded(Op(true, k, x), Removed(k, x)));
    Then(e, false, r, s2, Load, s3);
    var s4 := s3.(worker := Idle);
    ThenApply(k, f, r, s3, x, {}, Removed(k, x), s4);
    NothingAdded([Op(false, k, x)]);
    ThenHandOver(e, false, r, s4, OneRemoved(limits, k, x));
  }

  lemma AheadRun(k: Key, f: string, r: State -> bool, limits: Limits, x: U32) returns (t: State)
    requires limits.capacity >= 1 && limits.backlog >= 2
    requires Closed(EqualityEntry(k, f), false, r) && r(Start(limits, NOTHING))
    ensures r(t)
    ensures Settled(t) && Stale(EqualityEntry(k, f), t, x)
  {
    var e, s, s1 := EqualityEntry(k, f), Start(limits, NOTHING), OneRemoved(limits, k, x);
    ReachRemoved(k, f, r, limits, x);
    var pair := [Op(false, k, x)] + [Op(true, k, x)];
    var s2 := s1.(published := AfterOp(Removed(k, x), true, k, x), worker := Receiving(pair));
    ThenCollect(e, false, r, s1, true, k, x, s2);
    PairMerges(k, x);
    t := s2.(worker := Idle, forgotten := {} + CancelledSlots(e, pair));
    Then(e, false, r, s2, Merge(Leftover(k)), t);
    EqualityBelongs(k, f, t.published, x);
  }

  /** The worker loads a snapshot ahead of its batch, so the removal and the re-insert that follow
      reach it as a pair that cancels: two changes, and the entry misses the slot for good. */
  lemma LoadedAheadIsLost(k: Key, f: string, limits: Limits, x: U32) returns (t: State)
    requires limits.capacity >= 1 && limits.backlog >= 2
    ensures Reaches(EqualityEntry(k, f), Start(limits, NOTHING), t, false)
    ensures Settled(t) && Stale(EqualityEntry(k, f), t, x)
  {
    var (e, s) := (EqualityEntry(k, f), Start(limits, NOTHING));
    ReachedIsClosed(e, s, false);
    t := AheadRun(k, f, u => Reaches(e, s, u, false), limits, x);
  }

  lemma PairMerges(k: Key, x: U32)
    ensures IsCoalesced([Op(false, k, x)] + [Op(true, k, x)], Leftover(k)) && IsEmpty(Leftover(k))
  {
    OnlyMoveNothing(k, x);
    OnlyMoveMore([], k, x, false, false, false);
    NothingAdded([Op(false, k, x)]);
    OnlyMoveMore([Op(false, k, x)], k, x, false, true, true);
    BothMerge([Op(false, k, x)] + [Op(true, k, x)], k, x);
  }

  // ---- A full channel ----

  function OtherKey(k: Key): Key {
    Key(k.field, if k.value == 0 then 1 else 0)
  }

  /** A removal finds the channel full of items on another key: it is thrown away, and the entry is
      rebuilt from the snapshot that lacks the slot. */
  lemma ThenFailedSend(k: Key, f: string, r: State -> bool, t: State, x: U32, o: Key, y: U32) returns (u: State)
    requires Closed(EqualityEntry(k, f), false, r) && r(t) && t.unsent.None? && t.queue == [] && k != o && Bucket(t.published, k) == {x}
    ensures r(u) && Bucket(u.published, k) == {}
    ensures u == t.(published := u.published, queue := Pads(o, y, t.limits.capacity), overtaken := t.worker.Loaded?,
                    cache := Members({}), forgotten := {})
  {
    var e, n := EqualityEntry(k, f), t.limits.capacity;
    var full := Filled(t, o, y, n);
    FillQueue(e, false, r, t, o, y, n);
    PadsLeaveBucket(t.published, o, y, n, k);
    PadsCount(o, y, n);
    var removed := full.(published := AfterOp(full.published, false, k, x), unsent := Some(Op(false, k, x)));
    ThenPublish(e, false, r, full, false, k, x, removed);
    u := removed.(unsent := None, overtaken := t.worker.Loaded?, cache := Members({}), forgotten := {});
    ThenRebuilt(k, f, r, removed, u);
  }

  lemma ThenRebuilt(k: Key, f: string, r: State -> bool, t: State, u: State)
    requires Closed(EqualityEntry(k, f), false, r) && r(t) && t.unsent.Some? && |t.queue| == t.limits.capacity && Bucket(t.published, k) == {}
    requires u == t.(unsent := None, overtaken := t.worker.Loaded?, cache := Members({}), forgotten := {})
    ensures r(u)
  {
    var e := EqualityEntry(k, f);
    var marked := u.(cache := NeedsRebuild);
    Then(e, false, r, t, SendFull, marked);
    forall z: U32 ensures !Belongs(e, marked.published, z) {
      EqualityBelongs(k, f, marked.published, z);
    }
    Then(e, false, r, marked, Rebuild({}), u);
  }

  /** An idle worker takes everything out of the channel. */
  lemma {:induction false} ReceiveAll(e: Entry, r: State -> bool, t: State, n: nat)
    requires Closed(e, false, r) && r(t) && t.worker.Idle? && 1 <= n <= |t.queue| && (n == 1 || n - 1 <= t.limits.backlog)
    ensures r(t.(queue := t.queue[n..], worker := Receiving(t.queue[..n])))
  {
    if n == 1 {
      assert [] + [t.queue[0]] == t.queue[..1];
      Then(e, false, r, t, Receive, t.(queue := t.queue[1..], worker := Receiving(t.queue[..1])));
    } else {
      ReceiveAll(e, r, t, n - 1);
      var u := t.(queue := t.queue[n - 1..], worker := Receiving(t.queue[..n - 1]));
      assert u.queue[1..] == t.queue[n..] && t.queue[..n - 1] + [u.queue[0]] == t.queue[..n];
      Then(e, false, r, u, Receive, t.(queue := t.queue[n..], worker := Receiving(t.queue[..n])));
    }
  }

  lemma PadsReceived(e: Entry, r: State -> bool, t: State, o: Key, y: U32, n: nat, u: State)
    requires Closed(e, false, r) && r(t) && t.worker.Idle? && t.queue == Pads(o, y, n) && 1 <= n <= t.limits.backlog
    requires u == t.(queue := [], worker := Receiving(Pads(o, y, n)))
    ensures r(u)
  {
    PadsCount(o, y, n);
    ReceiveAll(e, r, t, n);
    assert t.queue[n..] == [] && t.queue[..n] == t.queue;
  }

  lemma PadsMerge(e: Entry, o: Key, y: U32, n: nat)
    requires n >= 2 && !e.uses(o)
    ensures IsCoalesced(Pads(o, y, n), Leftover(o)) && IsEmpty(Leftover(o)) && CancelledSlots(e, Pads(o, y, n)) == {}
  {
    PadsOnlyMove(o, y, n);
    NothingCancelled(e, Pads(o, y, n), o, y, true, true);
    BothMerge(Pads(o, y, n), o, y);
  }

  /** What fills the channel does not concern the entry: finishing it changes nothing cached. */
  lemma PadsFinish(k: Key, f: string, r: State -> bool, t: State, o: Key, y: U32, n: nat, u: State)
    requires Closed(EqualityEntry(k, f), false, r) && r(t) && k != o && t.worker.Idle? && t.cache.Members? && !t.overtaken
    requires t.queue == Pads(o, y, n) && 1 <= n <= t.limits.backlog && u == t.(queue := [])
    ensures r(u)
  {
    var e := EqualityEntry(k, f);
    var received := u.(worker := Receiving(Pads(o, y, n)));
    PadsReceived(e, r, t, o, y, n, received);
    if n >= 2 {
      PadsMerge(e, o, y, n);
      assert t.forgotten + {} == t.forgotten;
      PadsCount(o, y, n);
      Then(e, false, r, received, Merge(Leftover(o)), u);
    } else {
      PadsOnlyMove(o, y, 1);
      NothingCancelled(e, Pads(o, y, 1), o, y, true, false);
      OnePadFinishes(k, f, r, received, o, y);
    }
  }

  lemma OtherKeyDoesNotConcern(k: Key, f: string, o: Key, y: U32, cache: Cache, snap: Snapshot)
    requires k != o && cache.Members?
    ensures forall z :: !Triggered(EqualityEntry(k, f), Op(true, o, y), z)
    ensures Rederived(EqualityEntry(k, f), cache, snap, {}) == cache
  {
    OpSlots(true, o, y, k);
  }

  lemma OnePadMerges(o: Key, y: U32)
    ensures IsCoalesced(Pads(o, y, 1), Op(true, o, y)) && !IsEmpty(Op(true, o, y))
  {
    PadsOnlyMove(o, y, 1);
    OneMerges(Pads(o, y, 1), o, y);
  }

  lemma OnePadFinishes(k: Key, f: string, r: State -> bool, t: State, o: Key, y: U32)
    requires Closed(EqualityEntry(k, f), false, r) && r(t) && k != o && t.cache.Members? && !t.overtaken && t.queue == []
    requires t.worker == Receiving(Pads(o, y, 1)) && CancelledSlots(EqualityEntry(k, f), Pads(o, y, 1)) == {}
    ensures r(t.(worker := Idle))
  {
    var e := EqualityEntry(k, f);
    OnePadMerges(o, y);
    PadsCount(o, y, 1);
    var s1 := t.(worker := Batched(Op(true, o, y)));
    assert t.forgotten + {} == t.forgotten;
    Then(e, false, r, t, Merge(Op(true, o, y)), s1);
    OneBatchFinishes(k, f, r, s1, o, y);
  }

  lemma OneBatchFinishes(k: Key, f: string, r: State -> bool, t: State, o: Key, y: U32)
    requires Closed(EqualityEntry(k, f), false, r) && r(t) && k != o && t.cache.Members? && !t.overtaken
    requires t.worker == Batched(Op(true, o, y))
    ensures r(t.(worker := Idle))
  {
    var e := EqualityEntry(k, f);
    var s1 := t.(worker := Loaded(Op(true, o, y), t.published));
    Then(e, false, r, t, Load, s1);
    OtherKeyDoesNotConcern(k, f, o, y, t.cache, t.published);
    assert t.forgotten - {} == t.forgotten;
    Then(e, false, r, s1, Apply({}), t.(worker := Idle));
  }

  lemma OvertakenRun(k: Key, f: string, r: State -> bool, limits: Limits, x: U32) returns (t: State)
    requires 1 <= limits.capacity <= limits.backlog
    requires Closed(EqualityEntry(k, f), false, r) && r(Start(limits, NOTHING))
    ensures r(t)
    ensures Settled(t) && Stale(EqualityEntry(k, f), t, x)
  {
    var e, s, o, y := EqualityEntry(k, f), Start(limits, NOTHING), OtherKey(k), OtherSlot(x);
    ReachBatched(k, f, r, limits, x);
    RemovedIsEmpty(k, x);
    var s1 := OneBatched(limits, k, x).(worker := Loaded(Op(true, k, x), Inserted(k, x)));
    Then(e, false, r, OneBatched(limits, k, x), Load, s1);
    var s2 := ThenFailedSend(k, f, r, s1, x, o, y);
    var s3 := s2.(worker := Idle, overtaken := false, cache := Members({x}), forgotten := {x});
    ThenApply(k, f, r, s2, x, {}, Inserted(k, x), s3);
    t := s3.(queue := []);
    PadsFinish(k, f, r, s3, o, y, limits.capacity, t);
    EqualityBelongs(k, f, t.published, x);
  }

  /** The channel is full after the worker loaded: the entry is rebuilt from the new snapshot and then
      overwritten with what the older one said, and nothing that is left in the channel repairs it. */
  lemma OvertakenIsLost(k: Key, f: string, limits: Limits, x: U32) returns (t: State)
    requires 1 <= limits.capacity <= limits.backlog
    ensures Reaches(EqualityEntry(k, f), Start(limits, NOTHING), t, false)
    ensures Settled(t) && Stale(EqualityEntry(k, f), t, x)
  {
    var (e, s) := (EqualityEntry(k, f), Start(limits, NOTHING));
    ReachedIsClosed(e, s, false);
    t := OvertakenRun(k, f, u => Reaches(e, s, u, false), limits, x);
  }

  lemma FailedSendRun(k: Key, f: string, r: State -> bool, limits: Limits, x: U32) returns (t: State)
    requires limits.capacity >= 1
    requires Closed(EqualityEntry(k, f), false, r) && r(Start(limits, NOTHING))
    ensures r(t)
    ensures t.unsent.None? && t.forgotten == {} && t.cache.Members? && !Stale(EqualityEntry(k, f), t, x)
    ensures !EndsAsPublished(t, k)
  {
    var e, s, o, y := EqualityEntry(k, f), Start(limits, NOTHING), OtherKey(k), OtherSlot(x);
    ReachOneReceived(e, false, r, limits, NOTHING, k, x);
    RemovedIsEmpty(k, x);
    t := ThenFailedSend(k, f, r, OneReceived(e, limits, NOTHING, k, x), x, o, y);
    EqualityBelongs(k, f, t.published, x);
    OlderInsertIsLast(t, k, x, o, y, limits.capacity);
  }

  /** A removal that found the channel full leaves an older insert on its way: what is in flight no
      longer ends in what is published, although the entry is right. */
  lemma FailedSendLeavesOlder(k: Key, f: string, limits: Limits, x: U32) returns (t: State)
    requires limits.capacity >= 1
    ensures Reaches(EqualityEntry(k, f), Start(limits, NOTHING), t, false)
    ensures t.unsent.None? && t.forgotten == {} && t.cache.Members? && !Stale(EqualityEntry(k, f), t, x)
    ensures !EndsAsPublished(t, k)
  {
    var (e, s) := (EqualityEntry(k, f), Start(limits, NOTHING));
    ReachedIsClosed(e, s, false);
    t := FailedSendRun(k, f, u => Reaches(e, s, u, false), limits, x);
  }

  lemma OlderInsertIsLast(t: State, k: Key, x: U32, o: Key, y: U32, n: nat)
    requires k != o && t.worker == Receiving([Op(true, k, x)]) && t.queue == Pads(o, y, n) && t.unsent.None? && Bucket(t.published, k) == {}
    ensures !EndsAsPublished(t, k)
  {
    assert InFlight(t) == [Op(true, k, x)] + Pads(o, y, n);
    ReplayInTwo({}, [Op(true, k, x)], Pads(o, y, n), k);
    NothingAdded([Op(true, k, x)]);
    LastItem([], Op(true, k, x), k, {});
    OpSlots(true, k, x, k);
    PadsOnlyMove(o, y, n);
    ReplayMember(Replay({}, [Op(true, k, x)], k), Pads(o, y, n), k, x);
  }

  /** All three losses happen with the limits the engine sets. */
  lemma EngineLosesAllThree(k: Key, f: string, x: U32) returns (ahead: State, overtaken: State, dropped: State)
    ensures Init(Start(ENGINE_LIMITS, NOTHING))
    ensures Reaches(EqualityEntry(k, f), Start(ENGINE_LIMITS, NOTHING), ahead, false) && Settled(ahead) && Stale(EqualityEntry(k, f), ahead, x)
    ensures Reaches(EqualityEntry(k, f), Start(ENGINE_LIMITS, NOTHING), overtaken, false) && Settled(overtaken) && Stale(EqualityEntry(k, f), overtaken, x)
    ensures var e := EqualityEntry(k, f).(named := {});
            Reaches(e, Start(ENGINE_LIMITS, NOTHING), dropped, true) && Settled(dropped) && Stale(e, dropped, x)
  {
    ahead := LoadedAheadIsLost(k, f, ENGINE_LIMITS, x);
    overtaken := OvertakenIsLost(k, f, ENGINE_LIMITS, x);
    EqualityDecides(k, f, {}, x);
    dropped := DroppedBacklogIsLost(EqualityEntry(k, f).(named := {}), ENGINE_LIMITS, k, NOTHING, x);
  }
}
