/** The generations of the document cache as values, and what each operation makes of them. */
module DocGenerations {
  import opened Base

  type Doc = map<string, string>

  datatype Cached = Cached(doc: Doc, size: nat)

  type Entries = map<U32, Cached>

  /** One time bucket: its entries and its running byte counter. */
  datatype Gen = Gen(entries: Entries, bytes: int)

  const EMPTY_GEN := Gen(map[], 0)

  // ---- Bytes ----

  ghost function SizeOf(m: Entries): nat
    decreases |m.Keys|
  {
    if m.Keys == {} then 0
    else
      var x :| x in m;
      Smaller(m, x);
      m[x].size + SizeOf(m - {x})
  }

  lemma Smaller(m: Entries, x: U32)
    requires x in m
    ensures (m - {x}).Keys == m.Keys - {x} && |(m - {x}).Keys| < |m.Keys|
  {
    assert (m - {x}).Keys == m.Keys - {x};
  }

  /** The sum does not depend on the order in which entries are counted. */
  lemma {:induction false} SizeWithout(m: Entries, x: U32)
    requires x in m
    ensures SizeOf(m) == m[x].size + SizeOf(m - {x})
    decreases |m.Keys|
  {
    var y :| y in m && SizeOf(m) == m[y].size + SizeOf(m - {y});
    if y != x {
      WithoutBoth(m, x, y);
      SizeWithout(m - {y}, x);
      SizeWithout(m - {x}, y);
    }
  }

  lemma WithoutBoth(m: Entries, x: U32, y: U32)
    requires x in m && y in m && x != y
    ensures x in m - {y} && (m - {y})[x] == m[x] && y in m - {x} && (m - {x})[y] == m[y]
    ensures m - {y} - {x} == m - {x} - {y}
    ensures |(m - {x}).Keys| < |m.Keys| && |(m - {y}).Keys| < |m.Keys|
  {
    Smaller(m, x);
    Smaller(m, y);
  }

  lemma SizeWith(m: Entries, x: U32, c: Cached)
    ensures SizeOf(m[x := c]) == SizeOf(m - {x}) + c.size
  {
    SizeWithout(m[x := c], x);
    assert m[x := c] - {x} == m - {x};
  }

  function TotalBytes(gens: seq<Gen>): int {
    if gens == [] then 0 else gens[0].bytes + TotalBytes(gens[1..])
  }

  lemma {:induction false} TotalReplaced(gens: seq<Gen>, i: nat, g: Gen)
    requires i < |gens|
    ensures TotalBytes(gens[i := g]) == TotalBytes(gens) - gens[i].bytes + g.bytes
  {
    if i > 0 {
      TotalReplaced(gens[1..], i - 1, g);
      assert gens[i := g][1..] == gens[1..][i - 1 := g];
    }
  }

  lemma {:induction false} TotalAppended(a: seq<Gen>, b: seq<Gen>)
    ensures TotalBytes(a + b) == TotalBytes(a) + TotalBytes(b)
  {
    if a == [] {
      assert a + b == b;
    } else {
      TotalAppended(a[1..], b);
      assert (a + b)[1..] == a[1..] + b;
    }
  }

  // ---- Validity ----

  ghost predicate Counted(g: Gen) {
    g.bytes == SizeOf(g.entries)
  }

  ghost predicate Apart(gens: seq<Gen>) {
    forall i, j :: 0 <= i < j < |gens| ==> gens[i].entries.Keys !! gens[j].entries.Keys
  }

  /** One generation at least, exact counters, and no slot in two generations. */
  ghost predicate Valid(gens: seq<Gen>) {
    gens != [] && (forall i :: 0 <= i < |gens| ==> Counted(gens[i])) && Apart(gens)
  }

  // ---- Finding a slot ----

  /** The newest generation that holds the slot, or the number of generations. */
  function At(gens: seq<Gen>, x: U32): (i: nat)
    ensures i <= |gens|
    ensures i < |gens| ==> x in gens[i].entries
    ensures forall j :: 0 <= j < i ==> x !in gens[j].entries
  {
    if gens == [] || x in gens[0].entries then 0
    else
      var i := At(gens[1..], x);
      assert forall j :: 1 <= j < |gens| ==> gens[j] == gens[1..][j - 1];
      i + 1
  }

  function Lookup(gens: seq<Gen>, x: U32): Option<Doc> {
    if At(gens, x) < |gens| then Some(gens[At(gens, x)].entries[x].doc) else None
  }

  lemma OnlyAt(gens: seq<Gen>, x: U32, i: nat)
    requires Apart(gens) && i < |gens| && x in gens[i].entries
    ensures At(gens, x) == i && Lookup(gens, x) == Some(gens[i].entries[x].doc)
    ensures forall j :: 0 <= j < |gens| && j != i ==> x !in gens[j].entries
  {
  }

  lemma NowhereMeansNone(gens: seq<Gen>, x: U32)
    requires forall i :: 0 <= i < |gens| ==> x !in gens[i].entries
    ensures At(gens, x) == |gens| && Lookup(gens, x) == None
  {
  }

  // ---- Operations ----

  function Without(g: Gen, x: U32): Gen {
    if x in g.entries then Gen(g.entries - {x}, g.bytes - g.entries[x].size) else g
  }

  function With(g: Gen, x: U32, c: Cached): Gen {
    Gen(g.entries[x := c], g.bytes + c.size)
  }

  /** The slot taken out of whichever generation holds it. */
  function AfterRemove(gens: seq<Gen>, x: U32): seq<Gen> {
    var i := At(gens, x);
    if i < |gens| then gens[i := Without(gens[i], x)] else gens
  }

  function AfterInsert(gens: seq<Gen>, x: U32, c: Cached): seq<Gen> {
    var cleared := AfterRemove(gens, x);
    if cleared == [] then cleared else cleared[0 := With(cleared[0], x, c)]
  }

  /** A hit in an older generation moves the entry to the current one. */
  function AfterGet(gens: seq<Gen>, x: U32): seq<Gen> {
    var i := At(gens, x);
    if 0 < i < |gens| then AfterInsert(gens, x, gens[i].entries[x]) else gens
  }

  function Rewritten(g: Gen, x: U32, c: Cached): Gen
    requires x in g.entries
  {
    Gen(g.entries[x := c], g.bytes + c.size - g.entries[x].size)
  }

  /** Write-through: rewrites a cached document where it is, skips one that is not cached. */
  function AfterUpdate(gens: seq<Gen>, x: U32, c: Cached): seq<Gen> {
    var i := At(gens, x);
    if i < |gens| then gens[i := Rewritten(gens[i], x, c)] else gens
  }

  function AfterInsertAll(gens: seq<Gen>, docs: seq<(U32, Doc)>, estimate: Doc -> nat): seq<Gen> {
    if docs == [] then gens
    else
      var last := docs[|docs| - 1];
      AfterInsert(AfterInsertAll(gens, docs[..|docs| - 1], estimate), last.0, Cached(last.1, estimate(last.1)))
  }

  function AfterUpdateAll(gens: seq<Gen>, docs: seq<(U32, Doc)>, estimate: Doc -> nat): seq<Gen> {
    if docs == [] then gens
    else
      var last := docs[|docs| - 1];
      AfterUpdate(AfterUpdateAll(gens, docs[..|docs| - 1], estimate), last.0, Cached(last.1, estimate(last.1)))
  }

  /** The entries the larger generation lacks are copied over from the smaller one. */
  ghost function Absorbed(larger: Gen, smaller: Gen): Gen {
    Gen(smaller.entries + larger.entries, larger.bytes + SizeOf(smaller.entries - larger.entries.Keys))
  }

  ghost function MergedOldest(gens: seq<Gen>): seq<Gen> {
    var n := |gens|;
    if n < 2 then gens
    else
      var (second, oldest) := (gens[n - 2], gens[n - 1]);
      gens[..n - 2] + [if |oldest.entries| <= |second.entries| then Absorbed(second, oldest) else Absorbed(oldest, second)]
  }

  ghost function AfterPush(gens: seq<Gen>, maxGenerations: nat): seq<Gen> {
    var pushed := [EMPTY_GEN] + gens;
    if |pushed| > maxGenerations then MergedOldest(pushed) else pushed
  }

  function AfterDrop(gens: seq<Gen>): seq<Gen> {
    if |gens| <= 1 then gens else gens[..|gens| - 1]
  }

  function AfterEvict(gens: seq<Gen>, maxBytes: nat): seq<Gen>
    decreases |gens|
  {
    if TotalBytes(gens) > maxBytes && |gens| > 1 then AfterEvict(AfterDrop(gens), maxBytes) else gens
  }

  function Count(gens: seq<Gen>): nat {
    if gens == [] then 0 else Count(gens[..|gens| - 1]) + |gens[|gens| - 1].entries|
  }

  // ---- Each operation keeps the generations valid ----

  lemma WithoutCounts(g: Gen, x: U32)
    requires Counted(g)
    ensures Counted(Without(g, x)) && Without(g, x).bytes >= 0
  {
    if x in g.entries {
      SizeWithout(g.entries, x);
    }
  }

  lemma WithCounts(g: Gen, x: U32, c: Cached)
    requires Counted(g) && x !in g.entries
    ensures Counted(With(g, x, c))
  {
    SizeWith(g.entries, x, c);
    assert g.entries - {x} == g.entries;
  }

  lemma RewrittenCounts(g: Gen, x: U32, c: Cached)
    requires Counted(g) && x in g.entries
    ensures Counted(Rewritten(g, x, c)) && Rewritten(g, x, c).bytes >= 0
  {
    SizeWithout(g.entries, x);
    SizeWith(g.entries, x, c);
  }

  /** Removing a slot touches that slot and the byte counter of the generation that held it. */
  lemma RemoveWorks(gens: seq<Gen>, x: U32)
    requires Valid(gens)
    ensures Valid(AfterRemove(gens, x)) && |AfterRemove(gens, x)| == |gens|
    ensures forall i :: 0 <= i < |gens| ==> AfterRemove(gens, x)[i].entries == gens[i].entries - {x}
  {
    var i := At(gens, x);
    if i < |gens| {
      WithoutCounts(gens[i], x);
      OnlyAt(gens, x, i);
    }
    forall j | 0 <= j < |gens| ensures AfterRemove(gens, x)[j].entries == gens[j].entries - {x} {
      assert x !in gens[j].entries ==> gens[j].entries - {x} == gens[j].entries;
    }
  }

  lemma InsertWorks(gens: seq<Gen>, x: U32, c: Cached)
    requires Valid(gens)
    ensures Valid(AfterInsert(gens, x, c)) && |AfterInsert(gens, x, c)| == |gens|
    ensures AfterInsert(gens, x, c)[0].entries == gens[0].entries[x := c]
    ensures forall i :: 1 <= i < |gens| ==> AfterInsert(gens, x, c)[i].entries == gens[i].entries - {x}
  {
    var cleared := AfterRemove(gens, x);
    RemoveWorks(gens, x);
    WithCounts(cleared[0], x, c);
    assert (gens[0].entries - {x})[x := c] == gens[0].entries[x := c];
  }

  lemma UpdateWorks(gens: seq<Gen>, x: U32, c: Cached)
    requires Valid(gens)
    ensures Valid(AfterUpdate(gens, x, c)) && |AfterUpdate(gens, x, c)| == |gens|
    ensures forall i :: 0 <= i < |gens| ==>
      AfterUpdate(gens, x, c)[i].entries == if x in gens[i].entries then gens[i].entries[x := c] else gens[i].entries
  {
    var i := At(gens, x);
    if i < |gens| {
      RewrittenCounts(gens[i], x, c);
      OnlyAt(gens, x, i);
    }
  }

  // ---- What each operation does to the logical map ----

  lemma SameLookup(a: seq<Gen>, b: seq<Gen>, y: U32)
    requires |a| == |b|
    requires forall i :: 0 <= i < |a| ==> (y in a[i].entries <==> y in b[i].entries)
    requires forall i :: 0 <= i < |a| && y in a[i].entries ==> a[i].entries[y] == b[i].entries[y]
    ensures At(a, y) == At(b, y) && Lookup(a, y) == Lookup(b, y)
  {
  }

  lemma LookupAfterRemove(gens: seq<Gen>, x: U32, y: U32)
    requires Valid(gens)
    ensures Lookup(AfterRemove(gens, x), y) == if y == x then None else Lookup(gens, y)
  {
    RemoveWorks(gens, x);
    if y == x {
      NowhereMeansNone(AfterRemove(gens, x), x);
    } else {
      SameLookup(AfterRemove(gens, x), gens, y);
    }
  }

  lemma LookupAfterInsert(gens: seq<Gen>, x: U32, c: Cached, y: U32)
    requires Valid(gens)
    ensures Lookup(AfterInsert(gens, x, c), y) == if y == x then Some(c.doc) else Lookup(gens, y)
  {
    InsertWorks(gens, x, c);
    if y == x {
      OnlyAt(AfterInsert(gens, x, c), x, 0);
    } else {
      SameLookup(AfterInsert(gens, x, c), gens, y);
    }
  }

  lemma LookupAfterUpdate(gens: seq<Gen>, x: U32, c: Cached, y: U32)
    requires Valid(gens)
    ensures Lookup(AfterUpdate(gens, x, c), y) == if y == x && Lookup(gens, x).Some? then Some(c.doc) else Lookup(gens, y)
  {
    UpdateWorks(gens, x, c);
    var i := At(gens, x);
    if y == x && i < |gens| {
      OnlyAt(AfterUpdate(gens, x, c), x, i);
    } else {
      SameLookup(AfterUpdate(gens, x, c), gens, y);
    }
  }

  /** Reading never changes the logical map. */
  lemma LookupAfterGet(gens: seq<Gen>, x: U32, y: U32)
    requires Valid(gens)
    ensures Valid(AfterGet(gens, x)) && Lookup(AfterGet(gens, x), y) == Lookup(gens, y)
  {
    var i := At(gens, x);
    if 0 < i < |gens| {
      InsertWorks(gens, x, gens[i].entries[x]);
      LookupAfterInsert(gens, x, gens[i].entries[x], y);
    }
  }

  // ---- Conservation of bytes ----

  lemma RemoveBytes(gens: seq<Gen>, x: U32)
    ensures TotalBytes(AfterRemove(gens, x)) ==
            TotalBytes(gens) - if At(gens, x) < |gens| then gens[At(gens, x)].entries[x].size else 0
  {
    var i := At(gens, x);
    if i < |gens| {
      TotalReplaced(gens, i, Without(gens[i], x));
    }
  }

  lemma InsertBytes(gens: seq<Gen>, x: U32, c: Cached)
    requires gens != []
    ensures TotalBytes(AfterInsert(gens, x, c)) == TotalBytes(AfterRemove(gens, x)) + c.size
  {
    var cleared := AfterRemove(gens, x);
    TotalReplaced(cleared, 0, With(cleared[0], x, c));
  }

  lemma GetBytes(gens: seq<Gen>, x: U32)
    ensures TotalBytes(AfterGet(gens, x)) == TotalBytes(gens)
  {
    var i := At(gens, x);
    if 0 < i < |gens| {
      RemoveBytes(gens, x);
      InsertBytes(gens, x, gens[i].entries[x]);
    }
  }

  // ---- Rotation ----

  lemma {:induction false} SizeOfUnion(a: Entries, b: Entries)
    requires a.Keys !! b.Keys
    ensures SizeOf(a + b) == SizeOf(a) + SizeOf(b)
    decreases |a.Keys|
  {
    if a.Keys == {} {
      assert a + b == b;
    } else {
      var x :| x in a;
      UnionWithout(a, b, x);
      SizeOfUnion(a - {x}, b);
      SizeWithout(a, x);
      SizeWithout(a + b, x);
    }
  }

  lemma UnionWithout(a: Entries, b: Entries, x: U32)
    requires x in a && a.Keys !! b.Keys
    ensures x in a + b && (a + b)[x] == a[x] && (a + b) - {x} == (a - {x}) + b
    ensures (a - {x}).Keys !! b.Keys && |(a - {x}).Keys| < |a.Keys|
  {
    Smaller(a, x);
    TakeFromUnion(a, b, x);
  }

  lemma TakeFromUnion(a: Entries, b: Entries, x: U32)
    requires x !in b
    ensures (a + b) - {x} == (a - {x}) + b
  {
    var (l, r) := ((a + b) - {x}, (a - {x}) + b);
    assert l.Keys == r.Keys;
    assert forall y :: y in l ==> l[y] == r[y];
  }

  lemma AbsorbWorks(larger: Gen, smaller: Gen)
    requires Counted(larger) && Counted(smaller) && larger.entries.Keys !! smaller.entries.Keys
    ensures Counted(Absorbed(larger, smaller))
    ensures Absorbed(larger, smaller).bytes == larger.bytes + smaller.bytes
    ensures Absorbed(larger, smaller).entries.Keys == larger.entries.Keys + smaller.entries.Keys
    ensures Absorbed(larger, smaller).entries == larger.entries + smaller.entries
  {
    assert smaller.entries - larger.entries.Keys == smaller.entries;
    SizeOfUnion(smaller.entries, larger.entries);
    assert smaller.entries + larger.entries == larger.entries + smaller.entries;
  }

  lemma {:induction false} MergeWorks(gens: seq<Gen>)
    requires Valid(gens) && |gens| >= 2
    ensures var n := |gens|; var m := MergedOldest(gens);
            && |m| == n - 1 && m[..n - 2] == gens[..n - 2]
            && Counted(m[n - 2]) && m[n - 2].bytes == gens[n - 2].bytes + gens[n - 1].bytes
            && m[n - 2].entries == gens[n - 2].entries + gens[n - 1].entries
  {
    var n := |gens|;
    assert Counted(gens[n - 2]) && Counted(gens[n - 1]);
    AbsorbWorks(gens[n - 2], gens[n - 1]);
    AbsorbWorks(gens[n - 1], gens[n - 2]);
    assert gens[n - 1].entries + gens[n - 2].entries == gens[n - 2].entries + gens[n - 1].entries;
  }

  lemma MergeKeepsValid(gens: seq<Gen>)
    requires Valid(gens) && |gens| >= 2
    ensures Valid(MergedOldest(gens)) && |MergedOldest(gens)| == |gens| - 1
  {
    MergeWorks(gens);
    var m := MergedOldest(gens);
    assert forall i :: 0 <= i < |m| - 1 ==> m[i] == m[..|m| - 1][i] == gens[i];
  }

  lemma MergedEntry(gens: seq<Gen>, i: nat, y: U32)
    requires Valid(gens) && |gens| >= 2 && i < |gens| && y in gens[i].entries
    ensures var (j, m) := (Min(i, |gens| - 2), MergedOldest(gens));
            j < |m| && y in m[j].entries && m[j].entries[y] == gens[i].entries[y]
  {
    var (n, m) := (|gens|, MergedOldest(gens));
    MergeWorks(gens);
    if i < n - 2 {
      assert m[i] == m[..n - 2][i] == gens[i];
    }
  }

  lemma MergedNowhere(gens: seq<Gen>, y: U32)
    requires Valid(gens) && |gens| >= 2 && forall i :: 0 <= i < |gens| ==> y !in gens[i].entries
    ensures forall i :: 0 <= i < |MergedOldest(gens)| ==> y !in MergedOldest(gens)[i].entries
  {
    var (n, m) := (|gens|, MergedOldest(gens));
    MergeWorks(gens);
    assert forall i :: 0 <= i < n - 2 ==> m[i] == m[..n - 2][i] == gens[i];
  }

  lemma LookupAfterMerge(gens: seq<Gen>, y: U32)
    requires Valid(gens) && |gens| >= 2
    ensures Lookup(MergedOldest(gens), y) == Lookup(gens, y)
  {
    MergeKeepsValid(gens);
    var i := At(gens, y);
    if i < |gens| {
      MergedEntry(gens, i, y);
      OnlyAt(MergedOldest(gens), y, Min(i, |gens| - 2));
    } else {
      MergedNowhere(gens, y);
      NowhereMeansNone(MergedOldest(gens), y);
    }
  }

  lemma LastAndLastTwo(gens: seq<Gen>, m: seq<Gen>)
    requires |gens| >= 2 && m != []
    ensures gens == gens[..|gens| - 2] + [gens[|gens| - 2], gens[|gens| - 1]]
    ensures m == m[..|m| - 1] + [m[|m| - 1]]
  {
  }

  lemma BytesOfTwo(front: seq<Gen>, a: Gen, b: Gen, g: Gen)
    requires g.bytes == a.bytes + b.bytes
    ensures TotalBytes(front + [g]) == TotalBytes(front + [a, b])
  {
    TotalAppended(front, [g]);
    TotalAppended(front, [a, b]);
    assert [g][1..] == [] && [a, b][1..] == [b] && [b][1..] == [];
  }

  /** Two generations replaced by one with the bytes of both. */
  lemma BytesReplaced(gens: seq<Gen>, m: seq<Gen>)
    requires |gens| >= 2 && |m| == |gens| - 1 && m[..|gens| - 2] == gens[..|gens| - 2]
    requires m[|gens| - 2].bytes == gens[|gens| - 2].bytes + gens[|gens| - 1].bytes
    ensures TotalBytes(m) == TotalBytes(gens)
  {
    var n := |gens|;
    LastAndLastTwo(gens, m);
    BytesOfTwo(gens[..n - 2], gens[n - 2], gens[n - 1], m[n - 2]);
  }

  lemma MergeBytes(gens: seq<Gen>)
    requires Valid(gens) && |gens| >= 2
    ensures TotalBytes(MergedOldest(gens)) == TotalBytes(gens)
  {
    MergeWorks(gens);
    BytesReplaced(gens, MergedOldest(gens));
  }

  function Cap(maxGenerations: nat): nat {
    if maxGenerations == 0 then 1 else maxGenerations
  }

  lemma PushedIsValid(gens: seq<Gen>, y: U32)
    requires Valid(gens)
    ensures var pushed := [EMPTY_GEN] + gens;
            Valid(pushed) && Lookup(pushed, y) == Lookup(gens, y) && TotalBytes(pushed) == TotalBytes(gens)
  {
    var pushed := [EMPTY_GEN] + gens;
    assert pushed[1..] == gens;
    assert Counted(EMPTY_GEN);
  }

  /** Rotation keeps the logical map, the total and the cap on generations. */
  lemma PushWorks(gens: seq<Gen>, maxGenerations: nat, y: U32)
    requires Valid(gens) && |gens| <= Cap(maxGenerations)
    ensures Valid(AfterPush(gens, maxGenerations)) && |AfterPush(gens, maxGenerations)| <= Cap(maxGenerations)
    ensures Lookup(AfterPush(gens, maxGenerations), y) == Lookup(gens, y)
    ensures TotalBytes(AfterPush(gens, maxGenerations)) == TotalBytes(gens)
  {
    var pushed := [EMPTY_GEN] + gens;
    PushedIsValid(gens, y);
    if |pushed| > maxGenerations {
      MergeKeepsValid(pushed);
      LookupAfterMerge(pushed, y);
      MergeBytes(pushed);
    }
  }

  /** Rotation puts an empty generation in front and moves every entry one back; where that would be one
      generation too many, the two oldest end up together. */
  lemma PushMoves(gens: seq<Gen>, maxGenerations: nat, i: nat, y: U32)
    requires Valid(gens) && |gens| <= Cap(maxGenerations) && i < |gens| && y in gens[i].entries
    ensures var r := AfterPush(gens, maxGenerations);
            && |r| == Min(|gens| + 1, Cap(maxGenerations)) && (maxGenerations >= 2 ==> r[0] == EMPTY_GEN)
            && y in r[Min(i + 1, |r| - 1)].entries && r[Min(i + 1, |r| - 1)].entries[y] == gens[i].entries[y]
  {
    var pushed := [EMPTY_GEN] + gens;
    PushedIsValid(gens, y);
    assert pushed[i + 1] == gens[i];
    if |pushed| > maxGenerations {
      MergeWorks(pushed);
      MergedEntry(pushed, i + 1, y);
      if |pushed| >= 3 {
        assert MergedOldest(pushed)[0] == MergedOldest(pushed)[..|pushed| - 2][0] == pushed[0];
      }
    }
  }

  // ---- The counters count the logical map ----

  /** Every cached entry, whichever generation holds it. */
  function Everything(gens: seq<Gen>): Entries {
    if gens == [] then map[] else Everything(gens[..|gens| - 1]) + gens[|gens| - 1].entries
  }

  lemma {:induction false} EverythingIsLookup(gens: seq<Gen>, x: U32)
    requires Apart(gens)
    ensures x in Everything(gens) <==> Lookup(gens, x).Some?
    ensures x in Everything(gens) ==> Some(Everything(gens)[x].doc) == Lookup(gens, x)
    decreases |gens|
  {
    if gens != [] {
      var (front, last) := (gens[..|gens| - 1], gens[|gens| - 1]);
      EverythingIsLookup(front, x);
      if x in last.entries {
        OnlyAt(gens, x, |gens| - 1);
      } else if x in Everything(front) {
        assert front[At(front, x)] == gens[At(front, x)];
        OnlyAt(gens, x, At(front, x));
      } else {
        assert forall i :: 0 <= i < |front| ==> gens[i] == front[i];
        NowhereMeansNone(gens, x);
      }
    }
  }

  lemma {:induction false} EverythingIsApart(gens: seq<Gen>, g: Gen)
    requires forall i :: 0 <= i < |gens| ==> gens[i].entries.Keys !! g.entries.Keys
    ensures Everything(gens).Keys !! g.entries.Keys
    decreases |gens|
  {
    if gens != [] {
      EverythingIsApart(gens[..|gens| - 1], g);
    }
  }

  lemma SizesAdd(a: Entries, b: Entries)
    requires a.Keys !! b.Keys
    ensures SizeOf(a + b) == SizeOf(a) + SizeOf(b) && |(a + b).Keys| == |a.Keys| + |b.Keys|
  {
    SizeOfUnion(a, b);
    assert (a + b).Keys == a.Keys + b.Keys;
  }

  /** The totals are those of the logical map. */
  lemma {:induction false} TotalsAreExact(gens: seq<Gen>)
    requires Apart(gens) && forall i :: 0 <= i < |gens| ==> Counted(gens[i])
    ensures TotalBytes(gens) == SizeOf(Everything(gens)) && Count(gens) == |Everything(gens).Keys|
    decreases |gens|
  {
    if gens != [] {
      var (front, last) := (gens[..|gens| - 1], gens[|gens| - 1]);
      assert gens == front + [last] && [last][1..] == [];
      TotalsAreExact(front);
      TotalAppended(front, [last]);
      EverythingIsApart(front, last);
      SizesAdd(Everything(front), last.entries);
    }
  }

  // ---- Eviction ----

  /** Eviction drops whole generations from the old end, no more than the budget asks for, and
      never the current one. */
  lemma {:induction false} EvictWorks(gens: seq<Gen>, maxBytes: nat)
    requires gens != []
    ensures var n := |AfterEvict(gens, maxBytes)|;
            && 1 <= n <= |gens| && AfterEvict(gens, maxBytes) == gens[..n]
            && (n == 1 || TotalBytes(gens[..n]) <= maxBytes)
            && (forall m :: n < m <= |gens| ==> TotalBytes(gens[..m]) > maxBytes)
    decreases |gens|
  {
    assert gens[..|gens|] == gens;
    if TotalBytes(gens) > maxBytes && |gens| > 1 {
      var fewer := AfterDrop(gens);
      EvictWorks(fewer, maxBytes);
      assert forall m :: 0 <= m <= |fewer| ==> fewer[..m] == gens[..m];
    }
  }

  lemma PrefixIsValid(gens: seq<Gen>, n: nat)
    requires Valid(gens) && 1 <= n <= |gens|
    ensures Valid(gens[..n])
  {
  }

  /** What is left after dropping generations still reads the same. */
  lemma {:induction false} PrefixLookup(gens: seq<Gen>, n: nat, y: U32)
    requires Valid(gens) && n <= |gens|
    ensures Lookup(gens[..n], y) == if At(gens, y) < n then Lookup(gens, y) else None
  {
    var i := At(gens, y);
    if i < n {
      OnlyAt(gens[..n], y, i);
    } else {
      NowhereMeansNone(gens[..n], y);
    }
  }
}
