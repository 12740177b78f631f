/** `compute_filters` and its by-reference fast path: clauses are ANDed into one
    accumulator, some in place, some after full evaluation, and the loop stops as
    soon as the accumulator is empty. */
module ComputeFilters {
  import opened Base
  import opened FilterQuery
  import opened Executor
  import opened FilterAnswers

  // ---- The by-reference step ----

  /** Whether a clause can be applied to the accumulator without evaluating it in full. */
  predicate ByRefApplies(s: Snapshot, c: Clause) {
    match c
    case Eq(field, value) =>
      && field != "id" && field in s.fields
      && ResolveKey(s, field, value).Some? && ResolveKey(s, field, value).value in s.fields[field].values
    case NotEq(field, value) =>
      && field != "id" && field in s.fields
      && ResolveKey(s, field, value).Some? && ResolveKey(s, field, value).value in s.fields[field].values
    case In(field, _) => field != "id" && field in s.fields
    case NotIn(field, _) => field != "id" && field in s.fields
    case BucketBitmap(_, _, _) => true
    case Not(_) => true
    case _ => false
  }

  /** What the by-reference step decides for a slot of the accumulator. */
  predicate MatchesByRef(s: Snapshot, c: Clause, x: U32) {
    match c
    case NotEq(field, value) => x !in Hits(s, field, value)
    case NotIn(field, values) => !(exists i :: 0 <= i < |values| && x in Hits(s, field, values[i]))
    case Not(inner) => !MatchesWithin(s, inner, x)
    case _ => Matches(s, c, x)
  }

  /** (acc & v1) | (acc & v2) | ... */
  method AndWithUnion(s: Snapshot, acc: Bitmap, field: string, values: seq<Value>) returns (r: Bitmap)
    ensures forall x :: x in r <==> x in acc && exists i :: 0 <= i < |values| && x in Hits(s, field, values[i])
  {
    r := {};
    for i := 0 to |values|
      invariant forall x :: x in r <==> x in acc && exists j :: 0 <= j < i && x in Hits(s, field, values[j])
    {
      r := r + acc * Hits(s, field, values[i]);
    }
  }

  /** acc - v1 - v2 - ... */
  method AndNotEach(s: Snapshot, acc: Bitmap, field: string, values: seq<Value>) returns (r: Bitmap)
    ensures forall x :: x in r <==> x in acc && !(exists i :: 0 <= i < |values| && x in Hits(s, field, values[i]))
  {
    r := acc;
    for i := 0 to |values|
      invariant forall x :: x in r <==> x in acc && !(exists j :: 0 <= j < i && x in Hits(s, field, values[j]))
    {
      r := r - Hits(s, field, values[i]);
    }
  }

  /** `try_and_by_ref`: none if the clause is not handled here, else the new accumulator or an error. */
  method TryAndByRef(s: Snapshot, acc: Bitmap, c: Clause) returns (r: Option<Answer>)
    ensures r.Some? <==> ByRefApplies(s, c)
    ensures r.Some? && r.value.Ok? ==> forall x :: x in r.value.value <==> x in acc && MatchesByRef(s, c, x)
    ensures r.Some? ==> ErrorOf(r.value) == if c.Not? then ErrorOf(EvaluateWithin(s, c.inner, acc)) else None
    ensures r.Some? && Evaluate(s, c).Ok? ==> r.value.Ok?
  {
    if !ByRefApplies(s, c) {
      return None;
    }
    match c
    case Eq(field, value) => r := Some(Ok(acc * Hits(s, field, value)));
    case NotEq(field, value) => r := Some(Ok(acc - Hits(s, field, value)));
    case In(field, values) =>
      var union := AndWithUnion(s, acc, field, values);
      r := Some(Ok(union));
    case NotIn(field, values) =>
      var rest := AndNotEach(s, acc, field, values);
      r := Some(Ok(rest));
    case BucketBitmap(_, _, bitmap) => r := Some(Ok(acc * bitmap));
    case Not(inner) =>
      var hits := EvaluateWithin(s, inner, acc);
      WithinMeans(s, inner, acc);
      match hits {
        case Ok(h) => r := Some(Ok(acc - h));
        case Err(e) => r := Some(Err(e));
      }
  }

  // ---- The loop ----

  /** What a clause decides for a slot of the accumulator, whichever code runs. */
  predicate MatchesInLoop(s: Snapshot, c: Clause, x: U32) {
    if ByRefApplies(s, c) then MatchesByRef(s, c, x) else Matches(s, c, x)
  }

  /** The accumulator after the first `n` clauses: the first one is always evaluated in full. */
  ghost predicate Kept(s: Snapshot, cs: seq<Clause>, n: nat, x: U32)
    requires n <= |cs|
  {
    && (n > 0 ==> Matches(s, cs[0], x))
    && forall i :: 1 <= i < n ==> MatchesInLoop(s, cs[i], x)
  }

  ghost predicate IsPrefixResult(s: Snapshot, cs: seq<Clause>, n: nat, acc: Option<Bitmap>)
    requires n <= |cs|
  {
    && (acc.Some? <==> n > 0)
    && (acc.Some? ==> forall x :: x in acc.value <==> Kept(s, cs, n, x))
  }

  lemma EmptyPrefixStaysEmpty(s: Snapshot, cs: seq<Clause>, n: nat, m: nat)
    requires 1 <= n <= m <= |cs|
    requires forall x :: !Kept(s, cs, n, x)
    ensures forall x :: !Kept(s, cs, m, x)
  {
    forall x ensures !Kept(s, cs, m, x) {
      assert !Kept(s, cs, n, x);
    }
  }

  lemma PrefixExtends(s: Snapshot, cs: seq<Clause>, n: nat, acc: Option<Bitmap>, acc': Bitmap)
    requires n < |cs|
    requires IsPrefixResult(s, cs, n, acc)
    requires acc.None? ==> forall x :: x in acc' <==> Matches(s, cs[n], x)
    requires acc.Some? ==> forall x :: x in acc' <==> x in acc.value && MatchesInLoop(s, cs[n], x)
    ensures IsPrefixResult(s, cs, n + 1, Some(acc'))
  {
    forall x ensures x in acc' <==> Kept(s, cs, n + 1, x) {
      if acc.Some? {
        assert x in acc.value <==> Kept(s, cs, n, x);
        assert Kept(s, cs, n + 1, x) <==> Kept(s, cs, n, x) && MatchesInLoop(s, cs[n], x);
      }
    }
  }

  /** What the loop returns when it returns a bitmap. */
  ghost predicate IsFilterResult(s: Snapshot, cs: seq<Clause>, r: Bitmap) {
    if cs == [] then r == s.alive
    else forall x :: x in r <==> Kept(s, cs, |cs|, x)
  }

  /** The error a clause raises on an accumulator, whichever code runs. */
  function Failure(s: Snapshot, c: Clause, acc: Option<Bitmap>): Option<Error> {
    if acc.Some? && ByRefApplies(s, c) then if c.Not? then ErrorOf(EvaluateWithin(s, c.inner, acc.value)) else None
    else ErrorOf(Evaluate(s, c))
  }

  /** The loop gets to the clause with something left, and the clause raises the error. */
  ghost predicate FailsAt(s: Snapshot, cs: seq<Clause>, i: nat, e: Error)
    requires i < |cs|
  {
    exists acc :: IsPrefixResult(s, cs, i, acc) && acc != Some({}) && Failure(s, cs[i], acc) == Some(e)
  }

  lemma PrefixIsUnique(s: Snapshot, cs: seq<Clause>, n: nat, a: Option<Bitmap>, b: Option<Bitmap>)
    requires n <= |cs| && IsPrefixResult(s, cs, n, a) && IsPrefixResult(s, cs, n, b)
    ensures a == b
  {
    if a.Some? {
      assert a.value == b.value;
    }
  }

  lemma NoFailureHere(s: Snapshot, cs: seq<Clause>, i: nat, acc: Option<Bitmap>)
    requires i < |cs| && IsPrefixResult(s, cs, i, acc) && (acc == Some({}) || Failure(s, cs[i], acc) == None)
    ensures forall e :: !FailsAt(s, cs, i, e)
  {
    forall b | IsPrefixResult(s, cs, i, b) ensures b == acc {
      PrefixIsUnique(s, cs, i, b, acc);
    }
  }

  lemma NoFailureAfterEmpty(s: Snapshot, cs: seq<Clause>, n: nat)
    requires 1 <= n <= |cs| && forall x :: !Kept(s, cs, n, x)
    ensures IsFilterResult(s, cs, {}) && forall i, e :: n <= i < |cs| ==> !FailsAt(s, cs, i, e)
  {
    EmptyPrefixStaysEmpty(s, cs, n, |cs|);
    forall i, e | n <= i < |cs| ensures !FailsAt(s, cs, i, e) {
      EmptyPrefixStaysEmpty(s, cs, n, i);
      NoFailureHere(s, cs, i, Some({}));
    }
  }

  /** One clause joins the accumulator. */
  method ApplyClause(s: Snapshot, cs: seq<Clause>, i: nat, acc: Option<Bitmap>) returns (r: Answer)
    requires i < |cs| && IsPrefixResult(s, cs, i, acc) && acc != Some({})
    ensures r.Err? ==> FailsAt(s, cs, i, r.error)
    ensures r.Ok? ==> IsPrefixResult(s, cs, i + 1, Some(r.value)) && forall e :: !FailsAt(s, cs, i, e)
  {
    var c := cs[i];
    if acc.Some? {
      var applied := TryAndByRef(s, acc.value, c);
      if applied.Some? {
        r := applied.value;
        if r.Ok? {
          PrefixExtends(s, cs, i, acc, r.value);
          NoFailureHere(s, cs, i, acc);
        }
        return;
      }
    }
    r := Evaluate(s, c);
    EvaluateMeans(s, c);
    if r.Ok? {
      NoFailureHere(s, cs, i, acc);
      r := Ok(if acc.Some? then acc.value * r.value else r.value);
      PrefixExtends(s, cs, i, acc, r.value);
    }
  }

  /** `compute_filters`: a bitmap is always the filter result, even where a clause behind a short circuit
      would err; an error is the one of a clause the loop gets to, and it gets to no other that fails. */
  method ComputeFilters(s: Snapshot, cs: seq<Clause>) returns (r: Answer)
    ensures r.Ok? ==> IsFilterResult(s, cs, r.value) && forall i, e :: 0 <= i < |cs| ==> !FailsAt(s, cs, i, e)
    ensures r.Err? ==> exists i :: 0 <= i < |cs| && FailsAt(s, cs, i, r.error) && forall j, e :: 0 <= j < i ==> !FailsAt(s, cs, j, e)
    ensures (forall c :: c in cs ==> Answerable(s, c)) ==> r.Ok?
  {
    if cs == [] {
      return Ok(s.alive);
    }
    var acc: Option<Bitmap> := None;
    for i := 0 to |cs|
      invariant IsPrefixResult(s, cs, i, acc)
      invariant forall j, e :: 0 <= j < i ==> !FailsAt(s, cs, j, e)
    {
      if acc == Some({}) {
        // skipped: the accumulator is already empty
        NoFailureHere(s, cs, i, acc);
        EmptyPrefixStaysEmpty(s, cs, i, i + 1);
        continue;
      }
      var next := ApplyClause(s, cs, i, acc);
      if next.Err? {
        AnswerableNeverFails(s, cs);
        return next;
      }
      var isFirst := acc.None?;
      acc := Some(next.value);
      if next.value == {} && !isFirst {
        NoFailureAfterEmpty(s, cs, i + 1);
        return Ok({});
      }
    }
    return Ok(acc.value);
  }

  lemma FailureNeedsError(s: Snapshot, c: Clause, acc: Option<Bitmap>)
    requires Evaluate(s, c).Ok?
    ensures Failure(s, c, acc) == None
  {
    if c.Not? && acc.Some? {
      WithinMeans(s, c.inner, acc.value);
    }
  }

  /** Clauses that evaluate without error never make the loop fail. */
  lemma NoErrorsNoFailure(s: Snapshot, cs: seq<Clause>)
    requires AllOk(s, cs)
    ensures forall i, e :: 0 <= i < |cs| ==> !FailsAt(s, cs, i, e)
  {
    forall i, acc | 0 <= i < |cs| ensures Failure(s, cs[i], acc) == None {
      assert cs[i] in cs;
      FailureNeedsError(s, cs[i], acc);
    }
  }

  lemma AnswerableNeverFails(s: Snapshot, cs: seq<Clause>)
    ensures (forall c :: c in cs ==> Answerable(s, c)) ==> forall i, e :: 0 <= i < |cs| ==> !FailsAt(s, cs, i, e)
  {
    if forall c :: c in cs ==> Answerable(s, c) {
      forall c | c in cs ensures Evaluate(s, c).Ok? {
        AnsweredExactly(s, c);
      }
      NoErrorsNoFailure(s, cs);
    }
  }

  /** An error the loop raises is that of some clause in the tree it was working on. */
  lemma FailureIsBlamed(s: Snapshot, cs: seq<Clause>, i: nat, e: Error)
    requires i < |cs| && FailsAt(s, cs, i, e)
    ensures Blamed(s, cs[i], e)
  {
    var acc :| IsPrefixResult(s, cs, i, acc) && acc != Some({}) && Failure(s, cs[i], acc) == Some(e);
    if acc.Some? && ByRefApplies(s, cs[i]) {
      NarrowedRefusalIsBlamed(s, cs[i].inner, acc.value, e);
    } else {
      RefusalIsBlamed(s, cs[i], e);
    }
  }

  // ---- One intersection ----

  /** Every bitmap a clause reads lies within the alive slots. */
  ghost predicate FieldsAlive(s: Snapshot) {
    && (forall f, k :: f in s.fields && k in s.fields[f].values ==> s.fields[f].values[k] <= s.alive)
    && (s.buckets.Some? ==> forall d :: s.buckets.value.snap(d).Some? ==> s.buckets.value.snap(d).value <= s.alive)
  }

  predicate BucketsAlive(s: Snapshot, c: Clause) {
    match c
    case BucketBitmap(_, _, bitmap) => bitmap <= s.alive
    case And(cs) => forall i :: 0 <= i < |cs| ==> BucketsAlive(s, cs[i])
    case Or(cs) => forall i :: 0 <= i < |cs| ==> BucketsAlive(s, cs[i])
    case _ => true
  }

  /** No conjunction on the And/Or spine is empty. */
  predicate NoEmptyAnd(c: Clause) {
    match c
    case And(cs) => cs != [] && forall i :: 0 <= i < |cs| ==> NoEmptyAnd(cs[i])
    case Or(cs) => forall i :: 0 <= i < |cs| ==> NoEmptyAnd(cs[i])
    case _ => true
  }

  /** The by-reference step does not subtract null slots, so the field must have none. */
  predicate NullFree(s: Snapshot, c: Clause) {
    (c.NotEq? || c.NotIn?) && c.field != "id" ==> Stored(s, c.field, NULL_KEY) == {}
  }

  ghost predicate Regular(s: Snapshot, c: Clause) {
    && Evaluate(s, c).Ok?
    && BucketsAlive(s, c)
    && NullFree(s, c)
    && (c.Not? ==> NoEmptyAnd(c.inner))
  }

  ghost predicate RegularQuery(s: Snapshot, cs: seq<Clause>) {
    && "id" !in s.fields
    && FieldsAlive(s)
    && forall c :: c in cs ==> Regular(s, c)
  }

  lemma {:induction false} MatchingSlotsAreAlive(s: Snapshot, c: Clause, x: U32)
    requires FieldsAlive(s)
    requires BucketsAlive(s, c)
    requires Matches(s, c, x)
    ensures x in s.alive
  {
    match c
    case And(cs) => MatchingSlotsAreAlive(s, cs[0], x);
    case Or(cs) =>
      var i :| 0 <= i < |cs| && Matches(s, cs[i], x);
      MatchingSlotsAreAlive(s, cs[i], x);
    case _ =>
  }

  /** Without empty conjunctions and without a field named `id`, narrowing changes no decision. */
  lemma {:induction false} WithinAgrees(s: Snapshot, c: Clause, x: U32)
    requires "id" !in s.fields
    requires NoEmptyAnd(c)
    ensures MatchesWithin(s, c, x) <==> Matches(s, c, x)
  {
    match c
    case And(cs) =>
      forall i | 0 <= i < |cs| ensures MatchesWithin(s, cs[i], x) <==> Matches(s, cs[i], x) {
        WithinAgrees(s, cs[i], x);
      }
    case Or(cs) =>
      forall i | 0 <= i < |cs| ensures MatchesWithin(s, cs[i], x) <==> Matches(s, cs[i], x) {
        WithinAgrees(s, cs[i], x);
      }
    case _ =>
  }

  /** On alive slots every path through the loop decides a regular clause alike. */
  lemma LoopAgrees(s: Snapshot, c: Clause, x: U32)
    requires "id" !in s.fields
    requires Regular(s, c)
    requires x in s.alive
    ensures MatchesInLoop(s, c, x) <==> Matches(s, c, x)
  {
    if c.Not? {
      WithinAgrees(s, c.inner, x);
    }
  }

  /** The result is the intersection of the clause meanings over the alive slots. */
  ghost predicate IsIntersection(s: Snapshot, cs: seq<Clause>, r: Bitmap) {
    forall x :: x in r <==> x in s.alive && forall c :: c in cs ==> Matches(s, c, x)
  }

  lemma KeptMatchesAll(s: Snapshot, cs: seq<Clause>, x: U32)
    requires RegularQuery(s, cs)
    requires cs != []
    ensures Kept(s, cs, |cs|, x) <==> x in s.alive && forall c :: c in cs ==> Matches(s, c, x)
  {
    assert cs[0] in cs;
    if Matches(s, cs[0], x) {
      MatchingSlotsAreAlive(s, cs[0], x);
      forall i | 0 <= i < |cs| ensures MatchesInLoop(s, cs[i], x) <==> Matches(s, cs[i], x) {
        assert cs[i] in cs;
        LoopAgrees(s, cs[i], x);
      }
      if Kept(s, cs, |cs|, x) {
        forall c | c in cs ensures Matches(s, c, x) {
          var i :| 0 <= i < |cs| && cs[i] == c;
        }
      } else {
        var i :| 1 <= i < |cs| && !MatchesInLoop(s, cs[i], x);
        assert cs[i] in cs && !Matches(s, cs[i], x);
      }
    }
  }

  lemma ResultIsIntersection(s: Snapshot, cs: seq<Clause>, r: Bitmap)
    requires RegularQuery(s, cs)
    requires IsFilterResult(s, cs, r)
    ensures IsIntersection(s, cs, r)
  {
    if cs != [] {
      forall x ensures x in r <==> x in s.alive && forall c :: c in cs ==> Matches(s, c, x) {
        KeptMatchesAll(s, cs, x);
      }
    }
  }

  /** Any order of the clauses, in particular the planner's, gives the same bitmap. */
  lemma OrderDoesNotMatter(s: Snapshot, cs: seq<Clause>, ds: seq<Clause>, r: Bitmap, r': Bitmap)
    requires RegularQuery(s, cs)
    requires multiset(cs) == multiset(ds)
    requires IsFilterResult(s, cs, r) && IsFilterResult(s, ds, r')
    ensures r == r'
  {
    forall c ensures c in cs <==> c in ds {
      assert c in cs <==> c in multiset(cs);
      assert c in ds <==> c in multiset(ds);
    }
    ResultIsIntersection(s, cs, r);
    ResultIsIntersection(s, ds, r');
  }

  // ---- What the conditions are for ----

  /** An empty conjunction keeps every candidate when narrowed but matches nothing in full, so
      the two agree only where there is nothing to disagree about. */
  lemma EmptyAndDiffers(s: Snapshot, candidates: Bitmap)
    ensures Narrow(candidates, Evaluate(s, And([]))) == EvaluateWithin(s, And([]), candidates) <==> candidates == {}
  {
    assert Plan(s.estimate, []) == [];
    assert Evaluate(s, And([])) == Ok({});
    assert candidates * {} == {};
    assert EvaluateWithin(s, And([]), candidates) == Ok(candidates);
  }

  /** Applied by reference, a negated equality agrees with its full evaluation exactly when every
      null slot of the accumulator is excluded by the value anyway. */
  lemma NotEqByRefExact(s: Snapshot, acc: Bitmap, field: string, value: Value)
    requires ByRefApplies(s, NotEq(field, value))
    requires acc <= s.alive
    ensures (forall x :: x in acc ==> (MatchesByRef(s, NotEq(field, value), x) <==> Matches(s, NotEq(field, value), x)))
            <==> acc * Stored(s, field, NULL_KEY) <= Hits(s, field, value)
  {
    if acc * Stored(s, field, NULL_KEY) <= Hits(s, field, value) {
    } else {
      var x :| x in acc && x in Stored(s, field, NULL_KEY) && x !in Hits(s, field, value);
      assert MatchesByRef(s, NotEq(field, value), x) && !Matches(s, NotEq(field, value), x);
    }
  }

  lemma NotInAt(s: Snapshot, field: string, values: seq<Value>, x: U32)
    requires field != "id" && x in s.alive
    ensures (MatchesByRef(s, NotIn(field, values), x) <==> Matches(s, NotIn(field, values), x)) <==>
            (x in Stored(s, field, NULL_KEY) ==> x in UnionOfHits(s, field, values))
  {
    assert MatchesByRef(s, NotIn(field, values), x) <==> x !in UnionOfHits(s, field, values);
    assert Matches(s, NotIn(field, values), x) <==> x !in UnionOfHits(s, field, values) && x !in Stored(s, field, NULL_KEY);
  }

  /** The same for a negated membership. */
  lemma NotInByRefExact(s: Snapshot, acc: Bitmap, field: string, values: seq<Value>)
    requires ByRefApplies(s, NotIn(field, values))
    requires acc <= s.alive
    ensures (forall x :: x in acc ==> (MatchesByRef(s, NotIn(field, values), x) <==> Matches(s, NotIn(field, values), x)))
            <==> acc * Stored(s, field, NULL_KEY) <= UnionOfHits(s, field, values)
  {
    forall x | x in acc
      ensures (MatchesByRef(s, NotIn(field, values), x) <==> Matches(s, NotIn(field, values), x)) <==>
              (x in Stored(s, field, NULL_KEY) ==> x in UnionOfHits(s, field, values))
    {
      NotInAt(s, field, values, x);
    }
  }

  lemma KeptByTwo(s: Snapshot, a: Clause, b: Clause, x: U32)
    ensures Kept(s, [a, b], 2, x) <==> Matches(s, a, x) && MatchesInLoop(s, b, x)
  {
    var cs := [a, b];
    assert cs[0] == a && cs[1] == b;
    assert Kept(s, cs, 2, x) ==> MatchesInLoop(s, cs[1], x);
  }

  /** So swapping such a clause with another one changes the answer unless the other clause
      already leaves no null slot that the value would let through. */
  lemma NotEqOrderExact(s: Snapshot, c: Clause, field: string, value: Value, r: Bitmap, r': Bitmap)
    requires ByRefApplies(s, NotEq(field, value))
    requires Evaluate(s, c).Ok?
    requires forall x :: Matches(s, c, x) ==> x in s.alive
    requires forall x :: x in s.alive ==> (MatchesInLoop(s, c, x) <==> Matches(s, c, x))
    requires IsFilterResult(s, [c, NotEq(field, value)], r)
    requires IsFilterResult(s, [NotEq(field, value), c], r')
    ensures r == r' <==> Evaluate(s, c).value * Stored(s, field, NULL_KEY) <= Hits(s, field, value)
  {
    var n := NotEq(field, value);
    EvaluateMeans(s, c);
    forall x ensures x in r <==> Matches(s, c, x) && x !in Hits(s, field, value)
      ensures x in r' <==> Matches(s, c, x) && x !in Hits(s, field, value) && x !in Stored(s, field, NULL_KEY)
    {
      KeptByTwo(s, c, n, x);
      KeptByTwo(s, n, c, x);
    }
  }

  lemma NotInOrderExact(s: Snapshot, c: Clause, field: string, values: seq<Value>, r: Bitmap, r': Bitmap)
    requires ByRefApplies(s, NotIn(field, values))
    requires Evaluate(s, c).Ok?
    requires forall x :: Matches(s, c, x) ==> x in s.alive
    requires forall x :: x in s.alive ==> (MatchesInLoop(s, c, x) <==> Matches(s, c, x))
    requires IsFilterResult(s, [c, NotIn(field, values)], r)
    requires IsFilterResult(s, [NotIn(field, values), c], r')
    ensures r == r' <==> Evaluate(s, c).value * Stored(s, field, NULL_KEY) <= UnionOfHits(s, field, values)
  {
    var n := NotIn(field, values);
    var hits := UnionOfHits(s, field, values);
    EvaluateMeans(s, c);
    forall x ensures x in r <==> Matches(s, c, x) && x !in hits
      ensures x in r' <==> Matches(s, c, x) && x !in hits && x !in Stored(s, field, NULL_KEY)
    {
      KeptByTwo(s, c, n, x);
      KeptByTwo(s, n, c, x);
    }
  }

  /** One slot: it holds 1 in field `a` and null in field `b`, which knows the value 5. */
  function OneNull(x: U32): Snapshot {
    Snapshot({x}, map["a" := Field(map[1 := {x}], None), "b" := Field(map[5 := {}, NULL_KEY := {x}], None)], map[], None, (c: Clause) => 0)
  }

  /** The two orders of the same two clauses give different answers. */
  lemma NotEqOrderMatters(x: U32)
    ensures IsFilterResult(OneNull(x), [Eq("a", Integer(1)), NotEq("b", Integer(5))], {x})
    ensures IsFilterResult(OneNull(x), [NotEq("b", Integer(5)), Eq("a", Integer(1))], {})
  {
    var (s, c, n) := (OneNull(x), Eq("a", Integer(1)), NotEq("b", Integer(5)));
    forall y ensures (Kept(s, [c, n], 2, y) <==> y == x) && !Kept(s, [n, c], 2, y) {
      KeptByTwo(s, c, n, y);
      KeptByTwo(s, n, c, y);
    }
  }

  lemma NotInOrderMatters(x: U32)
    ensures IsFilterResult(OneNull(x), [Eq("a", Integer(1)), NotIn("b", [Integer(5)])], {x})
    ensures IsFilterResult(OneNull(x), [NotIn("b", [Integer(5)]), Eq("a", Integer(1))], {})
  {
    var (s, c, n) := (OneNull(x), Eq("a", Integer(1)), NotIn("b", [Integer(5)]));
    forall y ensures (Kept(s, [c, n], 2, y) <==> y == x) && !Kept(s, [n, c], 2, y) {
      KeptByTwo(s, c, n, y);
      KeptByTwo(s, n, c, y);
    }
  }
}
