/** Evaluating one filter clause: in full, and narrowed to a set of candidates. */
module Executor {
  import opened Base
  import opened FilterQuery

  datatype Error = FieldNotFound(field: string) | InvalidValue(field: string) | QueryTooExpensive(field: string)

  type Answer = Result<Bitmap, Error>

  function ErrorOf(a: Answer): Option<Error> {
    match a
    case Ok(_) => None
    case Err(e) => Some(e)
  }

  // ---- Planning: a stable sort by estimate ----

  function InsertByEstimate(estimate: Clause -> nat, c: Clause, cs: seq<Clause>): (r: seq<Clause>)
    ensures multiset(r) == multiset{c} + multiset(cs)
  {
    if cs == [] || estimate(c) <= estimate(cs[0]) then [c] + cs
    else
      assert cs == [cs[0]] + cs[1..];
      [cs[0]] + InsertByEstimate(estimate, c, cs[1..])
  }

  /** `optimize_and_clause` and the ordering of `plan_query`: cheapest first, nothing lost. */
  function Plan(estimate: Clause -> nat, cs: seq<Clause>): (r: seq<Clause>)
    ensures multiset(r) == multiset(cs)
  {
    if cs == [] then []
    else
      assert cs == [cs[0]] + cs[1..];
      InsertByEstimate(estimate, cs[0], Plan(estimate, cs[1..]))
  }

  lemma PlanHasSameClauses(estimate: Clause -> nat, cs: seq<Clause>)
    ensures forall c :: c in Plan(estimate, cs) <==> c in cs
    ensures |Plan(estimate, cs)| == |cs|
  {
    var r := Plan(estimate, cs);
    assert forall c :: c in r <==> c in multiset(r);
    assert forall c :: c in cs <==> c in multiset(cs);
    assert |multiset(r)| == |r| && |multiset(cs)| == |cs|;
  }

  ghost predicate CheapestFirst(estimate: Clause -> nat, cs: seq<Clause>) {
    forall i, j :: 0 <= i < j < |cs| ==> estimate(cs[i]) <= estimate(cs[j])
  }

  function IfEstimate(estimate: Clause -> nat, n: nat, c: Clause): seq<Clause> {
    if estimate(c) == n then [c] else []
  }

  /** The clauses of one estimate, in their order. */
  function OfEstimate(estimate: Clause -> nat, n: nat, cs: seq<Clause>): seq<Clause> {
    if cs == [] then [] else IfEstimate(estimate, n, cs[0]) + OfEstimate(estimate, n, cs[1..])
  }

  lemma PrependedOfEstimate(estimate: Clause -> nat, c: Clause, cs: seq<Clause>, n: nat)
    ensures OfEstimate(estimate, n, [c] + cs) == IfEstimate(estimate, n, c) + OfEstimate(estimate, n, cs)
  {
    assert ([c] + cs)[1..] == cs;
  }

  lemma PrependedCheapest(estimate: Clause -> nat, c: Clause, cs: seq<Clause>)
    requires CheapestFirst(estimate, cs) && forall d :: d in cs ==> estimate(c) <= estimate(d)
    ensures CheapestFirst(estimate, [c] + cs)
  {
  }

  lemma CheapestOfAll(estimate: Clause -> nat, cs: seq<Clause>)
    requires CheapestFirst(estimate, cs) && cs != []
    ensures CheapestFirst(estimate, cs[1..]) && forall d :: d in cs[1..] ==> estimate(cs[0]) <= estimate(d)
  {
    forall i | 0 <= i < |cs[1..]| ensures estimate(cs[0]) <= estimate(cs[1..][i]) {
      assert cs[1..][i] == cs[i + 1];
    }
  }

  lemma InsertedMembers(estimate: Clause -> nat, c: Clause, cs: seq<Clause>)
    ensures forall d :: d in InsertByEstimate(estimate, c, cs) ==> d == c || d in cs
  {
    forall d | d in InsertByEstimate(estimate, c, cs) ensures d == c || d in cs {
      assert d in multiset(InsertByEstimate(estimate, c, cs));
    }
  }

  lemma {:induction false} InsertedCheapestFirst(estimate: Clause -> nat, c: Clause, cs: seq<Clause>)
    requires CheapestFirst(estimate, cs)
    ensures CheapestFirst(estimate, InsertByEstimate(estimate, c, cs))
  {
    if cs != [] {
      CheapestOfAll(estimate, cs);
      if estimate(c) > estimate(cs[0]) {
        InsertedCheapestFirst(estimate, c, cs[1..]);
        InsertedMembers(estimate, c, cs[1..]);
        PrependedCheapest(estimate, cs[0], InsertByEstimate(estimate, c, cs[1..]));
      } else {
        assert forall d :: d in cs ==> d == cs[0] || d in cs[1..];
        PrependedCheapest(estimate, c, cs);
      }
    }
  }

  lemma EmptyCommutes(a: seq<Clause>, b: seq<Clause>, rest: seq<Clause>)
    requires a == [] || b == []
    ensures a + (b + rest) == b + (a + rest)
  {
    NothingAdded(rest);
    assert [] + (b + rest) == b + rest && [] + (a + rest) == a + rest;
  }

  lemma {:induction false} InsertedIsStable(estimate: Clause -> nat, c: Clause, cs: seq<Clause>, n: nat)
    ensures OfEstimate(estimate, n, InsertByEstimate(estimate, c, cs)) == IfEstimate(estimate, n, c) + OfEstimate(estimate, n, cs)
  {
    if cs == [] || estimate(c) <= estimate(cs[0]) {
      PrependedOfEstimate(estimate, c, cs, n);
    } else {
      InsertedIsStable(estimate, c, cs[1..], n);
      PrependedOfEstimate(estimate, cs[0], InsertByEstimate(estimate, c, cs[1..]), n);
      EmptyCommutes(IfEstimate(estimate, n, cs[0]), IfEstimate(estimate, n, c), OfEstimate(estimate, n, cs[1..]));
    }
  }

  /** The plan goes from the cheapest clause to the dearest and keeps the order of equally cheap ones. */
  lemma {:induction false} PlanIsStable(estimate: Clause -> nat, cs: seq<Clause>, n: nat)
    ensures CheapestFirst(estimate, Plan(estimate, cs)) && OfEstimate(estimate, n, Plan(estimate, cs)) == OfEstimate(estimate, n, cs)
  {
    if cs != [] {
      PlanIsStable(estimate, cs[1..], n);
      InsertedCheapestFirst(estimate, cs[0], Plan(estimate, cs[1..]));
      InsertedIsStable(estimate, cs[0], Plan(estimate, cs[1..]), n);
    }
  }

  // ---- Plain evaluation ----

  function Height(c: Clause): nat
    decreases c, 1
  {
    match c
    case Not(inner) => 1 + Height(inner)
    case And(cs) => 1 + MaxHeight(cs)
    case Or(cs) => 1 + MaxHeight(cs)
    case _ => 0
  }

  function MaxHeight(cs: seq<Clause>): (h: nat)
    ensures forall c :: c in cs ==> Height(c) <= h
    decreases cs, 0
  {
    if cs == [] then 0
    else
      var rest := MaxHeight(cs[1..]);
      assert cs == [cs[0]] + cs[1..];
      if Height(cs[0]) > rest then Height(cs[0]) else rest
  }

  function EvaluateEq(s: Snapshot, field: string, value: Value): Answer {
    if field == "id" then
      if value.Integer? then
        var slot: U32 := value.v % 0x1_0000_0000;
        Ok(if slot in s.alive then {slot} else {})
      else Err(InvalidValue("id"))
    else if field in s.fields then Ok(Hits(s, field, value))
    else Err(FieldNotFound(field))
  }

  function UnionOfHits(s: Snapshot, field: string, values: seq<Value>): (r: Bitmap)
    ensures forall x :: x in r <==> exists i :: 0 <= i < |values| && x in Hits(s, field, values[i])
  {
    if values == [] then {}
    else UnionOfHits(s, field, values[..|values| - 1]) + Hits(s, field, values[|values| - 1])
  }

  function EvaluateIn(s: Snapshot, field: string, values: seq<Value>): Answer {
    if field == "id" then
      Ok(set x | x in s.alive && exists i :: 0 <= i < |values| && values[i].Integer? && x == values[i].v % 0x1_0000_0000)
    else if field in s.fields then Ok(UnionOfHits(s, field, values))
    else Err(FieldNotFound(field))
  }

  /** `range_scan`, tried after bucket snapping. */
  function EvaluateRange(s: Snapshot, op: RangeOp, field: string, value: Value): Answer {
    match Snapped(s, op, field, value)
    case Some(bucket) => Ok(bucket)
    case None =>
      if field !in s.fields then Err(FieldNotFound(field))
      else
        var f := s.fields[field];
        if f.rangeCap.Some? && |f.values| > f.rangeCap.value then Err(QueryTooExpensive(field))
        else
          match DirectKey(value)
          case None => Err(InvalidValue(field))
          case Some(target) => Ok(Scanned(s, op, field, target))
  }

  /** `evaluate_clause` */
  function Evaluate(s: Snapshot, c: Clause): Answer
    decreases Height(c), 1, 0
  {
    match c
    case Eq(field, value) => EvaluateEq(s, field, value)
    case NotEq(field, value) =>
      (match EvaluateEq(s, field, value)
       case Ok(hits) => Ok(s.alive - hits - Stored(s, field, NULL_KEY))
       case Err(e) => Err(e))
    case In(field, values) => EvaluateIn(s, field, values)
    case NotIn(field, values) =>
      (match EvaluateIn(s, field, values)
       case Ok(hits) => Ok(s.alive - hits - Stored(s, field, NULL_KEY))
       case Err(e) => Err(e))
    case Range(op, field, value) => EvaluateRange(s, op, field, value)
    case Not(inner) =>
      (match Evaluate(s, inner)
       case Ok(hits) => Ok(s.alive - hits)
       case Err(e) => Err(e))
    case And(cs) =>
      PlanHasSameClauses(s.estimate, cs);
      (match EvaluateEach(s, Plan(s.estimate, cs), Height(c), false)
       case Ok(bitmaps) => Ok(IntersectionOf(bitmaps))
       case Err(e) => Err(e))
    case Or(cs) =>
      (match EvaluateEach(s, cs, Height(c), true)
       case Ok(bitmaps) => Ok(UnionOf(bitmaps))
       case Err(e) => Err(e))
    case IsNull(field) => if field in s.fields then Ok(Stored(s, field, NULL_KEY)) else Err(FieldNotFound(field))
    case IsNotNull(field) =>
      if field in s.fields then Ok(s.alive - Stored(s, field, NULL_KEY)) else Err(FieldNotFound(field))
    case BucketBitmap(_, _, bitmap) => Ok(bitmap)
  }

  /** A child of `Or`: equality and membership read the stored bitmaps directly. */
  function EvaluateOrChild(s: Snapshot, c: Clause): (r: Answer)
    ensures r == Evaluate(s, c)
    decreases Height(c), 2, 0
  {
    if c.Eq? && c.field != "id" && c.field in s.fields then Ok(Hits(s, c.field, c.value))
    else if c.In? && c.field != "id" && c.field in s.fields then Ok(UnionOfHits(s, c.field, c.values))
    else Evaluate(s, c)
  }

  /** Evaluates clauses in order, up to the first error. */
  function EvaluateEach(s: Snapshot, cs: seq<Clause>, h: nat, inOr: bool): (r: Result<seq<Bitmap>, Error>)
    requires forall c :: c in cs ==> Height(c) < h
    ensures r.Ok? ==> |r.value| == |cs|
    decreases h, 0, |cs|
  {
    if cs == [] then Ok([])
    else
      match if inOr then EvaluateOrChild(s, cs[0]) else Evaluate(s, cs[0])
      case Err(e) => Err(e)
      case Ok(first) =>
        match EvaluateEach(s, cs[1..], h, inOr)
        case Err(e) => Err(e)
        case Ok(rest) => Ok([first] + rest)
  }

  function IntersectionOf(bitmaps: seq<Bitmap>): (r: Bitmap)
    ensures forall x :: x in r <==> bitmaps != [] && forall i :: 0 <= i < |bitmaps| ==> x in bitmaps[i]
  {
    if bitmaps == [] then {}
    else if |bitmaps| == 1 then bitmaps[0]
    else
      var n := |bitmaps| - 1;
      IntersectionOf(bitmaps[..n]) * bitmaps[n]
  }

  function UnionOf(bitmaps: seq<Bitmap>): (r: Bitmap)
    ensures forall x :: x in r <==> exists i :: 0 <= i < |bitmaps| && x in bitmaps[i]
  {
    if bitmaps == [] then {}
    else
      var n := |bitmaps| - 1;
      UnionOf(bitmaps[..n]) + bitmaps[n]
  }

  lemma {:induction false} EachIsEvaluated(s: Snapshot, cs: seq<Clause>, h: nat, inOr: bool)
    requires forall c :: c in cs ==> Height(c) < h
    ensures EvaluateEach(s, cs, h, inOr).Ok? <==> forall i :: 0 <= i < |cs| ==> Evaluate(s, cs[i]).Ok?
    ensures EvaluateEach(s, cs, h, inOr).Ok? ==>
              forall i :: 0 <= i < |cs| ==> Evaluate(s, cs[i]) == Ok(EvaluateEach(s, cs, h, inOr).value[i])
    decreases |cs|
  {
    if cs != [] {
      assert forall i :: 0 <= i < |cs[1..]| ==> cs[1..][i] == cs[i + 1];
      EachIsEvaluated(s, cs[1..], h, inOr);
    }
  }

  /** A clause list succeeds when every clause does. */
  ghost predicate AllOk(s: Snapshot, cs: seq<Clause>) {
    forall c :: c in cs ==> Evaluate(s, c).Ok?
  }

  lemma AllOkByIndex(s: Snapshot, cs: seq<Clause>)
    ensures AllOk(s, cs) <==> forall i :: 0 <= i < |cs| ==> Evaluate(s, cs[i]).Ok?
  {
    assert forall i :: 0 <= i < |cs| ==> cs[i] in cs;
  }

  /** A conjunction or disjunction succeeds exactly when its children do, whatever the order. */
  lemma AndOk(s: Snapshot, cs: seq<Clause>)
    ensures Evaluate(s, And(cs)).Ok? <==> AllOk(s, cs)
  {
    var planned := Plan(s.estimate, cs);
    PlanHasSameClauses(s.estimate, cs);
    assert AllOk(s, planned) <==> AllOk(s, cs);
    AllOkByIndex(s, planned);
    EachIsEvaluated(s, planned, Height(And(cs)), false);
  }

  lemma OrOk(s: Snapshot, cs: seq<Clause>)
    ensures Evaluate(s, Or(cs)).Ok? <==> AllOk(s, cs)
  {
    AllOkByIndex(s, cs);
    EachIsEvaluated(s, cs, Height(Or(cs)), true);
  }

  /** An answer is the set of the slots that match. */
  ghost predicate Denotes(s: Snapshot, c: Clause, a: Answer) {
    a.Ok? ==> forall x :: x in a.value <==> Matches(s, c, x)
  }

  lemma AndMeans(s: Snapshot, cs: seq<Clause>)
    requires forall c :: c in cs ==> Denotes(s, c, Evaluate(s, c))
    ensures Denotes(s, And(cs), Evaluate(s, And(cs)))
  {
    var planned := Plan(s.estimate, cs);
    PlanHasSameClauses(s.estimate, cs);
    EachIsEvaluated(s, planned, Height(And(cs)), false);
    var each := EvaluateEach(s, planned, Height(And(cs)), false);
    if each.Ok? {
      forall x ensures x in IntersectionOf(each.value) <==> Matches(s, And(cs), x) {
        assert forall i :: 0 <= i < |planned| ==>
          (planned[i] in cs && (x in each.value[i] <==> Matches(s, planned[i], x)));
        assert MatchesAll(s, cs, x) <==> forall i :: 0 <= i < |planned| ==> Matches(s, planned[i], x) by {
          SameMembersMatchAll(s, cs, planned, x);
        }
      }
    }
  }

  lemma SameMembersMatchAll(s: Snapshot, cs: seq<Clause>, ds: seq<Clause>, x: U32)
    requires forall c :: c in cs <==> c in ds
    ensures MatchesAll(s, cs, x) <==> MatchesAll(s, ds, x)
  {
    assert forall i :: 0 <= i < |cs| ==> cs[i] in ds;
    assert forall i :: 0 <= i < |ds| ==> ds[i] in cs;
  }

  lemma OrMeans(s: Snapshot, cs: seq<Clause>)
    requires forall c :: c in cs ==> Denotes(s, c, Evaluate(s, c))
    ensures Denotes(s, Or(cs), Evaluate(s, Or(cs)))
  {
    EachIsEvaluated(s, cs, Height(Or(cs)), true);
    var each := EvaluateEach(s, cs, Height(Or(cs)), true);
    if each.Ok? {
      forall x ensures x in UnionOf(each.value) <==> Matches(s, Or(cs), x) {
        assert forall i :: 0 <= i < |cs| ==> cs[i] in cs && (x in each.value[i] <==> Matches(s, cs[i], x));
      }
    }
  }

  /** Whatever plain evaluation returns is exactly the set of matching slots. */
  lemma {:induction false} EvaluateMeans(s: Snapshot, c: Clause)
    ensures Denotes(s, c, Evaluate(s, c))
    decreases Height(c)
  {
    match c
    case Not(inner) => EvaluateMeans(s, inner);
    case And(cs) =>
      forall d | d in cs ensures Denotes(s, d, Evaluate(s, d)) {
        EvaluateMeans(s, d);
      }
      AndMeans(s, cs);
    case Or(cs) =>
      forall d | d in cs ensures Denotes(s, d, Evaluate(s, d)) {
        EvaluateMeans(s, d);
      }
      OrMeans(s, cs);
    case _ =>
  }

  // ---- Evaluation narrowed to candidates ----

  function Narrow(candidates: Bitmap, a: Answer): Answer {
    match a
    case Ok(full) => Ok(candidates * full)
    case Err(e) => Err(e)
  }

  /** `evaluate_clause_with_candidates` */
  function EvaluateWithin(s: Snapshot, c: Clause, candidates: Bitmap): Answer
    decreases c, 1
  {
    match c
    case Eq(field, value) =>
      if field in s.fields then Ok(candidates * Hits(s, field, value)) else Narrow(candidates, Evaluate(s, c))
    case In(field, values) =>
      if field in s.fields then Ok(candidates * UnionOfHits(s, field, values)) else Narrow(candidates, Evaluate(s, c))
    case And(cs) => WithinAll(s, cs, candidates)
    case Or(cs) => WithinAny(s, cs, candidates)
    case _ => Narrow(candidates, Evaluate(s, c))
  }

  /** Narrows by each clause in turn and stops early on the empty set. */
  function WithinAll(s: Snapshot, cs: seq<Clause>, candidates: Bitmap): Answer
    decreases cs, 0
  {
    if cs == [] then Ok(candidates)
    else
      match EvaluateWithin(s, cs[0], candidates)
      case Err(e) => Err(e)
      case Ok(r) => if r == {} then Ok({}) else WithinAll(s, cs[1..], r)
  }

  function WithinAny(s: Snapshot, cs: seq<Clause>, candidates: Bitmap): Answer
    decreases cs, 0
  {
    if cs == [] then Ok({})
    else
      match EvaluateWithin(s, cs[0], candidates)
      case Err(e) => Err(e)
      case Ok(first) =>
        match WithinAny(s, cs[1..], candidates)
        case Err(e) => Err(e)
        case Ok(rest) => Ok(first + rest)
  }

  /** What the narrowed evaluation decides for one slot. It differs from `Matches` in two ways: an
      empty conjunction holds, and a filter field named `id` is read as a field. */
  predicate MatchesWithin(s: Snapshot, c: Clause, x: U32) {
    match c
    case Eq(field, value) => if field in s.fields then x in Hits(s, field, value) else Matches(s, c, x)
    case In(field, values) =>
      if field in s.fields then exists i :: 0 <= i < |values| && x in Hits(s, field, values[i])
      else Matches(s, c, x)
    case And(cs) => forall i :: 0 <= i < |cs| ==> MatchesWithin(s, cs[i], x)
    case Or(cs) => exists i :: 0 <= i < |cs| && MatchesWithin(s, cs[i], x)
    case _ => Matches(s, c, x)
  }

  ghost predicate DenotesWithin(s: Snapshot, c: Clause, candidates: Bitmap, a: Answer) {
    a.Ok? ==> forall x :: x in a.value <==> x in candidates && MatchesWithin(s, c, x)
  }

  lemma {:induction false} WithinAllMeans(s: Snapshot, cs: seq<Clause>, candidates: Bitmap)
    ensures AllOk(s, cs) ==> WithinAll(s, cs, candidates).Ok?
    ensures WithinAll(s, cs, candidates).Ok? ==>
              forall x :: x in WithinAll(s, cs, candidates).value <==>
                          x in candidates && forall i :: 0 <= i < |cs| ==> MatchesWithin(s, cs[i], x)
    decreases cs, 0
  {
    if cs != [] {
      WithinMeans(s, cs[0], candidates);
      var first := EvaluateWithin(s, cs[0], candidates);
      if first.Ok? {
        assert forall i :: 0 <= i < |cs| - 1 ==> cs[1..][i] == cs[i + 1];
        if first.value != {} {
          WithinAllMeans(s, cs[1..], first.value);
        }
        forall x ensures (forall i :: 0 <= i < |cs| ==> MatchesWithin(s, cs[i], x)) <==>
                         MatchesWithin(s, cs[0], x) && forall i :: 0 <= i < |cs| - 1 ==> MatchesWithin(s, cs[1..][i], x)
        {
          assert forall i :: 1 <= i < |cs| ==> cs[i] == cs[1..][i - 1];
        }
      }
    }
  }

  lemma {:induction false} WithinAnyMeans(s: Snapshot, cs: seq<Clause>, candidates: Bitmap)
    ensures AllOk(s, cs) ==> WithinAny(s, cs, candidates).Ok?
    ensures WithinAny(s, cs, candidates).Ok? ==>
              forall x :: x in WithinAny(s, cs, candidates).value <==>
                          x in candidates && exists i :: 0 <= i < |cs| && MatchesWithin(s, cs[i], x)
    decreases cs, 0
  {
    if cs != [] {
      WithinMeans(s, cs[0], candidates);
      assert forall i :: 0 <= i < |cs| - 1 ==> cs[1..][i] == cs[i + 1];
      WithinAnyMeans(s, cs[1..], candidates);
      forall x ensures (exists i :: 0 <= i < |cs| && MatchesWithin(s, cs[i], x)) <==>
                       MatchesWithin(s, cs[0], x) || exists i :: 0 <= i < |cs| - 1 && MatchesWithin(s, cs[1..][i], x)
      {
        assert forall i :: 1 <= i < |cs| ==> cs[i] == cs[1..][i - 1];
      }
    }
  }

  /** Whatever narrowed evaluation returns is exactly the candidates that `MatchesWithin` accepts, at
      any depth, despite early exits and even where full evaluation would err. It succeeds wherever
      full evaluation does. */
  lemma {:induction false} WithinMeans(s: Snapshot, c: Clause, candidates: Bitmap)
    ensures DenotesWithin(s, c, candidates, EvaluateWithin(s, c, candidates))
    ensures Evaluate(s, c).Ok? ==> EvaluateWithin(s, c, candidates).Ok?
    decreases c, 1
  {
    EvaluateMeans(s, c);
    match c
    case And(cs) =>
      AndOk(s, cs);
      WithinAllMeans(s, cs, candidates);
    case Or(cs) =>
      OrOk(s, cs);
      WithinAnyMeans(s, cs, candidates);
    case _ =>
  }
}
