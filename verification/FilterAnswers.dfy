/** Which clauses are answered, and what the others are refused with. */
module FilterAnswers {
  import opened Base
  import opened FilterQuery
  import opened Executor

  // ---- Literals, buckets and caps ----

  /** A literal that is its own key. */
  predicate IsKey(v: Value) {
    v.Integer? || v.Bool?
  }

  /** The point in time a literal names, in seconds; a negative one lies far ahead. */
  function SecondsNamed(v: Value): nat
    requires IsKey(v)
  {
    var ts: nat := match v {
      case Integer(n) => if n < 0 then n + 0x1_0000_0000_0000_0000 else n
      case Bool(b) => if b then 1 else 0
    };
    if ts <= 100_000_000_000 then ts else ts / 1000
  }

  /** A time bucket stands in for the scan, or the whole index does. */
  predicate BucketAnswers(s: Snapshot, op: RangeOp, field: string, v: Value) {
    && s.buckets.Some? && s.buckets.value.field == field && IsKey(v)
    && var (now, at) := (s.buckets.value.now, SecondsNamed(v));
       ((op.Lt? || op.Lte?) && now <= at) || s.buckets.value.snap(if at < now then now - at else 0).Some?
  }

  /** Too many distinct values to go through. */
  predicate OverCap(f: Field) {
    match f.rangeCap
    case None => false
    case Some(cap) => cap < |f.values|
  }

  // ---- Which trees are answered ----

  predicate Answerable(s: Snapshot, c: Clause) {
    match c
    case Eq(field, v) => if field == "id" then v.Integer? else field in s.fields
    case NotEq(field, v) => if field == "id" then v.Integer? else field in s.fields
    case In(field, _) => field == "id" || field in s.fields
    case NotIn(field, _) => field == "id" || field in s.fields
    case Range(op, field, v) => BucketAnswers(s, op, field, v) || (field in s.fields && !OverCap(s.fields[field]) && IsKey(v))
    case Not(inner) => Answerable(s, inner)
    case And(cs) => forall i :: 0 <= i < |cs| ==> Answerable(s, cs[i])
    case Or(cs) => forall i :: 0 <= i < |cs| ==> Answerable(s, cs[i])
    case IsNull(field) => field in s.fields
    case IsNotNull(field) => field in s.fields
    case BucketBitmap(_, _, _) => true
  }

  lemma SecondsAreNamed(v: Value)
    requires IsKey(v)
    ensures Seconds(DirectKey(v).value) == SecondsNamed(v)
  {
    if v.Integer? && v.v < 0 {
      assert v.v % 0x1_0000_0000_0000_0000 == v.v + 0x1_0000_0000_0000_0000;
    }
  }

  lemma BucketAnswersExactly(s: Snapshot, op: RangeOp, field: string, v: Value)
    ensures BucketAnswers(s, op, field, v) <==> Snapped(s, op, field, v).Some?
  {
    if IsKey(v) {
      SecondsAreNamed(v);
    }
  }

  /** Clause trees of any depth are answered exactly when their fields are known, their literals are of
      the right kind and no scan goes over its cap. */
  lemma {:induction false} AnsweredExactly(s: Snapshot, c: Clause)
    ensures Evaluate(s, c).Ok? <==> Answerable(s, c)
  {
    match c
    case Range(op, field, v) => BucketAnswersExactly(s, op, field, v);
    case Not(inner) => AnsweredExactly(s, inner);
    case And(cs) => EachAnsweredExactly(s, cs); AndOk(s, cs);
    case Or(cs) => EachAnsweredExactly(s, cs); OrOk(s, cs);
    case _ =>
  }

  lemma {:induction false} EachAnsweredExactly(s: Snapshot, cs: seq<Clause>)
    ensures AllOk(s, cs) <==> forall i :: 0 <= i < |cs| ==> Answerable(s, cs[i])
  {
    forall i | 0 <= i < |cs| ensures Evaluate(s, cs[i]).Ok? <==> Answerable(s, cs[i]) {
      AnsweredExactly(s, cs[i]);
    }
    AllOkByIndex(s, cs);
  }

  // ---- What refusals say ----

  /** The error of a clause without children. */
  function LeafRefusal(s: Snapshot, c: Clause): Option<Error> {
    match c
    case Eq(field, v) => if field == "id" then (if v.Integer? then None else Some(InvalidValue("id"))) else Unknown(s, field)
    case NotEq(field, v) => if field == "id" then (if v.Integer? then None else Some(InvalidValue("id"))) else Unknown(s, field)
    case In(field, _) => if field == "id" then None else Unknown(s, field)
    case NotIn(field, _) => if field == "id" then None else Unknown(s, field)
    case Range(op, field, v) =>
      if BucketAnswers(s, op, field, v) then None
      else if field !in s.fields then Some(FieldNotFound(field))
      else if OverCap(s.fields[field]) then Some(QueryTooExpensive(field))
      else if IsKey(v) then None
      else Some(InvalidValue(field))
    case IsNull(field) => Unknown(s, field)
    case IsNotNull(field) => Unknown(s, field)
    case _ => None
  }

  function Unknown(s: Snapshot, field: string): Option<Error> {
    if field in s.fields then None else Some(FieldNotFound(field))
  }

  /** The error comes from a clause without children somewhere in the tree. */
  predicate Blamed(s: Snapshot, c: Clause, e: Error) {
    match c
    case Not(inner) => Blamed(s, inner, e)
    case And(cs) => exists i :: 0 <= i < |cs| && Blamed(s, cs[i], e)
    case Or(cs) => exists i :: 0 <= i < |cs| && Blamed(s, cs[i], e)
    case _ => LeafRefusal(s, c) == Some(e)
  }

  lemma LeafRefusedExactly(s: Snapshot, c: Clause)
    requires !c.Not? && !c.And? && !c.Or?
    ensures LeafRefusal(s, c) == ErrorOf(Evaluate(s, c))
  {
    if c.Range? {
      BucketAnswersExactly(s, c.op, c.field, c.value);
    }
  }

  lemma {:induction false} FirstErrorIsAnError(s: Snapshot, cs: seq<Clause>, h: nat, inOr: bool)
    requires forall c :: c in cs ==> Height(c) < h
    ensures var r := EvaluateEach(s, cs, h, inOr);
            r.Err? ==> exists i :: 0 <= i < |cs| && Evaluate(s, cs[i]) == Err(r.error) && forall j :: 0 <= j < i ==> Evaluate(s, cs[j]).Ok?
    decreases |cs|
  {
    if cs != [] && Evaluate(s, cs[0]).Ok? && EvaluateEach(s, cs, h, inOr).Err? {
      FirstErrorIsAnError(s, cs[1..], h, inOr);
      var e := EvaluateEach(s, cs, h, inOr).error;
      var i :| 0 <= i < |cs[1..]| && Evaluate(s, cs[1..][i]) == Err(e) && forall j :: 0 <= j < i ==> Evaluate(s, cs[1..][j]).Ok?;
      assert forall j :: 1 <= j < |cs| ==> cs[j] == cs[1..][j - 1];
      assert Evaluate(s, cs[i + 1]) == Err(e);
    }
  }

  /** Evaluation in full fails with the error of a clause somewhere in the tree. */
  lemma {:induction false} RefusalIsBlamed(s: Snapshot, c: Clause, e: Error)
    requires Evaluate(s, c) == Err(e)
    ensures Blamed(s, c, e)
    decreases Height(c)
  {
    match c
    case Not(inner) => RefusalIsBlamed(s, inner, e);
    case And(cs) =>
      PlanHasSameClauses(s.estimate, cs);
      var planned := Plan(s.estimate, cs);
      FirstErrorIsAnError(s, planned, Height(c), false);
      var i :| 0 <= i < |planned| && Evaluate(s, planned[i]) == Err(e);
      assert planned[i] in cs;
      RefusalIsBlamed(s, planned[i], e);
      var k :| 0 <= k < |cs| && cs[k] == planned[i];
    case Or(cs) =>
      FirstErrorIsAnError(s, cs, Height(c), true);
      var i :| 0 <= i < |cs| && Evaluate(s, cs[i]) == Err(e);
      assert cs[i] in cs;
      RefusalIsBlamed(s, cs[i], e);
    case _ => LeafRefusedExactly(s, c);
  }

  /** So does evaluation narrowed to candidates. */
  lemma {:induction false} NarrowedRefusalIsBlamed(s: Snapshot, c: Clause, candidates: Bitmap, e: Error)
    requires EvaluateWithin(s, c, candidates) == Err(e)
    ensures Blamed(s, c, e)
    decreases c, 1
  {
    match c
    case And(cs) => var i := BlamedInAll(s, cs, candidates, e);
    case Or(cs) => var i := BlamedInAny(s, cs, candidates, e);
    case _ => RefusalIsBlamed(s, c, e);
  }

  lemma {:induction false} BlamedInAll(s: Snapshot, cs: seq<Clause>, candidates: Bitmap, e: Error) returns (i: nat)
    requires WithinAll(s, cs, candidates) == Err(e)
    ensures i < |cs| && Blamed(s, cs[i], e)
    decreases cs, 0
  {
    var first := EvaluateWithin(s, cs[0], candidates);
    if first.Err? {
      NarrowedRefusalIsBlamed(s, cs[0], candidates, e);
      i := 0;
    } else {
      i := BlamedInAll(s, cs[1..], first.value, e);
      i := i + 1;
    }
  }

  lemma {:induction false} BlamedInAny(s: Snapshot, cs: seq<Clause>, candidates: Bitmap, e: Error) returns (i: nat)
    requires WithinAny(s, cs, candidates) == Err(e)
    ensures i < |cs| && Blamed(s, cs[i], e)
    decreases cs, 0
  {
    if EvaluateWithin(s, cs[0], candidates).Err? {
      NarrowedRefusalIsBlamed(s, cs[0], candidates, e);
      i := 0;
    } else {
      i := BlamedInAny(s, cs[1..], candidates, e);
      i := i + 1;
    }
  }

  // ---- Ordinary queries ----

  /** A filter field without a cap on scans. */
  predicate IsOpen(s: Snapshot, field: string) {
    field != "id" && field in s.fields && s.fields[field].rangeCap.None?
  }

  /** Every field is known and uncapped, and every literal of a range is an integer or a boolean. */
  predicate Ordinary(s: Snapshot, c: Clause) {
    match c
    case Eq(field, _) => IsOpen(s, field)
    case NotEq(field, _) => IsOpen(s, field)
    case In(field, _) => IsOpen(s, field)
    case NotIn(field, _) => IsOpen(s, field)
    case Range(_, field, v) => IsOpen(s, field) && (v.Integer? || v.Bool?)
    case Not(inner) => Ordinary(s, inner)
    case And(cs) => forall i :: 0 <= i < |cs| ==> Ordinary(s, cs[i])
    case Or(cs) => forall i :: 0 <= i < |cs| ==> Ordinary(s, cs[i])
    case IsNull(field) => IsOpen(s, field)
    case IsNotNull(field) => IsOpen(s, field)
    case BucketBitmap(_, _, _) => true
  }

  lemma {:induction false} OrdinaryIsAnswerable(s: Snapshot, c: Clause)
    requires Ordinary(s, c)
    ensures Answerable(s, c)
  {
    match c
    case Not(inner) => OrdinaryIsAnswerable(s, inner);
    case And(cs) =>
      forall i | 0 <= i < |cs| ensures Answerable(s, cs[i]) {
        OrdinaryIsAnswerable(s, cs[i]);
      }
    case Or(cs) =>
      forall i | 0 <= i < |cs| ensures Answerable(s, cs[i]) {
        OrdinaryIsAnswerable(s, cs[i]);
      }
    case _ =>
  }

  /** A tree of any depth over known, uncapped fields is always answered. */
  lemma OrdinaryIsAnswered(s: Snapshot, c: Clause)
    requires Ordinary(s, c)
    ensures Evaluate(s, c).Ok?
  {
    OrdinaryIsAnswerable(s, c);
    AnsweredExactly(s, c);
  }
}
