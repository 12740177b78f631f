/** Filters seen from the documents: what an index over documents answers, and where keys
    blur what documents hold. */
module DocumentFilter {
  import opened Base
  import opened FilterQuery
  import opened Executor
  import opened FilterAnswers
  import opened ComputeFilters

  // ---- Documents and their index ----

  datatype Kind = Integers | Booleans | Strings

  /** What a document holds field by field, and the fields in which it is null. */
  datatype Document = Document(values: map<string, set<Value>>, nulls: set<string>)

  type Documents = map<U32, Document>

  function Held(d: Document, field: string): set<Value> {
    if field in d.values then d.values[field] else {}
  }

  /** The key a value is filed under: two's complement, 0 and 1, or the name's number. */
  function FiledUnder(names: map<(string, string), U64>, field: string, v: Value): Option<U64> {
    match v
    case Integer(n) => Some(if n < 0 then n + 0x1_0000_0000_0000_0000 else n)
    case Bool(b) => Some(if b then 1 else 0)
    case Str(t) => if (field, t) in names then Some(names[(field, t)]) else None
    case Float(_) => None
  }

  predicate HasKey(names: map<(string, string), U64>, d: Document, field: string, key: U64) {
    || (key == 0xFFFF_FFFF_FFFF_FFFF && field in d.nulls)
    || exists v :: v in Held(d, field) && FiledUnder(names, field, v) == Some(key)
  }

  predicate FiledRight(s: Snapshot, docs: Documents, field: string, key: U64, x: U32) {
    field in s.fields ==> (x in Stored(s, field, key) <==> x in docs && HasKey(s.names, docs[x], field, key))
  }

  /** The snapshot is the index of the documents. */
  ghost predicate Indexes(s: Snapshot, docs: Documents) {
    s.alive == docs.Keys && "id" !in s.fields && forall field, key, x :: FiledRight(s, docs, field, key, x)
  }

  /** A value of the kind whose key means nothing else: -1 is filed where nulls are. */
  predicate Admits(kind: Kind, v: Value) {
    match kind
    case Integers => v.Integer? && v.v != -1
    case Booleans => v.Bool?
    case Strings => v.Str?
  }

  predicate TypedIn(schema: map<string, Kind>, names: map<(string, string), U64>, d: Document, field: string, v: Value) {
    v in Held(d, field) ==> field in schema && Admits(schema[field], v) && FiledUnder(names, field, v).Some?
  }

  /** Fields hold values of their kind, every name has a number, and no two names of a field share one. */
  ghost predicate WellTyped(schema: map<string, Kind>, names: map<(string, string), U64>, docs: Documents) {
    && (forall x, field, v :: x in docs ==> TypedIn(schema, names, docs[x], field, v))
    && (forall p, q :: p in names && q in names && p.0 == q.0 && names[p] == names[q] ==> p == q)
    && (forall p :: p in names ==> names[p] != 0xFFFF_FFFF_FFFF_FFFF)
  }

  // ---- What a filter asks of a document ----

  predicate InOrder(op: RangeOp, m: int, n: int) {
    match op
    case Gt => m > n
    case Gte => m >= n
    case Lt => m < n
    case Lte => m <= n
  }

  predicate Satisfies(x: U32, d: Document, c: Clause) {
    match c
    case Eq(field, v) => if field == "id" then v.Integer? && v.v == x else v in Held(d, field)
    case NotEq(field, v) => if field == "id" then v.Integer? && v.v != x else v !in Held(d, field) && field !in d.nulls
    case In(field, vs) => if field == "id" then Integer(x) in vs else exists v :: v in vs && v in Held(d, field)
    case NotIn(field, vs) => if field == "id" then Integer(x) !in vs else (forall v :: v in vs ==> v !in Held(d, field)) && field !in d.nulls
    case Range(op, field, v) => v.Integer? && exists n: I64 :: Integer(n) in Held(d, field) && InOrder(op, n, v.v)
    case Not(inner) => !Satisfies(x, d, inner)
    case And(cs) => cs != [] && forall i :: 0 <= i < |cs| ==> Satisfies(x, d, cs[i])
    case Or(cs) => exists i :: 0 <= i < |cs| && Satisfies(x, d, cs[i])
    case IsNull(field) => field in d.nulls
    case IsNotNull(field) => field !in d.nulls
    case BucketBitmap(_, _, bitmap) => x in bitmap
  }

  /** A literal that fits the field it is compared with; an `id` is a slot number. */
  predicate Fits(schema: map<string, Kind>, s: Snapshot, field: string, v: Value) {
    if field == "id" then v.Integer? && 0 <= v.v < 0x1_0000_0000 else field in s.fields && field in schema && Admits(schema[field], v)
  }

  /** All the integers in the field have the sign of the bound. */
  ghost predicate SameSign(docs: Documents, field: string, bound: int) {
    forall x, n: I64 :: x in docs && Integer(n) in Held(docs[x], field) ==> (n < 0 <==> bound < 0)
  }

  ghost predicate Speaks(schema: map<string, Kind>, s: Snapshot, docs: Documents, c: Clause) {
    match c
    case Eq(field, v) => Fits(schema, s, field, v)
    case NotEq(field, v) => Fits(schema, s, field, v)
    case In(field, vs) => (field == "id" || field in s.fields) && forall i :: 0 <= i < |vs| ==> Fits(schema, s, field, vs[i])
    case NotIn(field, vs) => (field == "id" || field in s.fields) && forall i :: 0 <= i < |vs| ==> Fits(schema, s, field, vs[i])
    case Range(op, field, v) =>
      && field in s.fields && field in schema && schema[field].Integers? && v.Integer? && SameSign(docs, field, v.v)
      && (s.buckets.Some? ==> s.buckets.value.field != field)
    case Not(inner) => Speaks(schema, s, docs, inner)
    case And(cs) => forall i :: 0 <= i < |cs| ==> Speaks(schema, s, docs, cs[i])
    case Or(cs) => forall i :: 0 <= i < |cs| ==> Speaks(schema, s, docs, cs[i])
    case IsNull(field) => field in s.fields
    case IsNotNull(field) => field in s.fields
    case BucketBitmap(_, _, bitmap) => bitmap <= s.alive
  }

  // ---- Keys of one kind tell values apart ----

  lemma KeysTellValues(names: map<(string, string), U64>, kind: Kind, field: string, v: Value, w: Value)
    requires Admits(kind, v) && Admits(kind, w) && FiledUnder(names, field, v).Some?
    requires forall p, q :: p in names && q in names && p.0 == q.0 && names[p] == names[q] ==> p == q
    ensures FiledUnder(names, field, v) == FiledUnder(names, field, w) <==> v == w
  {
  }

  lemma ResolvesToFiled(s: Snapshot, field: string, v: Value)
    ensures ResolveKey(s, field, v) == FiledUnder(s.names, field, v)
  {
  }

  lemma KeyIsNoNull(names: map<(string, string), U64>, kind: Kind, field: string, v: Value)
    requires Admits(kind, v) && forall p :: p in names ==> names[p] != 0xFFFF_FFFF_FFFF_FFFF
    ensures FiledUnder(names, field, v) != Some(0xFFFF_FFFF_FFFF_FFFF)
  {
  }

  /** A literal hits exactly the documents that hold it. */
  lemma HitsAreHolders(schema: map<string, Kind>, s: Snapshot, docs: Documents, field: string, v: Value, x: U32)
    requires Indexes(s, docs) && WellTyped(schema, s.names, docs) && field != "id" && Fits(schema, s, field, v)
    ensures x in Hits(s, field, v) <==> x in docs && v in Held(docs[x], field)
  {
    ResolvesToFiled(s, field, v);
    var key := FiledUnder(s.names, field, v);
    if key.Some? {
      assert FiledRight(s, docs, field, key.value, x);
      if x in docs {
        HasKeyMeansHolds(schema, s.names, docs, field, v, x);
      }
    } else if x in docs && v in Held(docs[x], field) {
      HeldIsTyped(schema, s.names, docs, x, field, v);
    }
  }

  lemma HasKeyMeansHolds(schema: map<string, Kind>, names: map<(string, string), U64>, docs: Documents, field: string, v: Value, x: U32)
    requires WellTyped(schema, names, docs) && field in schema && Admits(schema[field], v) && FiledUnder(names, field, v).Some? && x in docs
    ensures HasKey(names, docs[x], field, FiledUnder(names, field, v).value) <==> v in Held(docs[x], field)
  {
    KeyIsNoNull(names, schema[field], field, v);
    if w :| w in Held(docs[x], field) && FiledUnder(names, field, w) == FiledUnder(names, field, v) {
      HeldIsTyped(schema, names, docs, x, field, w);
      KeysTellValues(names, schema[field], field, w, v);
    }
  }

  lemma HeldIsTyped(schema: map<string, Kind>, names: map<(string, string), U64>, docs: Documents, x: U32, field: string, v: Value)
    requires WellTyped(schema, names, docs) && x in docs && v in Held(docs[x], field)
    ensures field in schema && Admits(schema[field], v) && FiledUnder(names, field, v).Some?
  {
    assert TypedIn(schema, names, docs[x], field, v);
  }

  lemma NullsAreNull(schema: map<string, Kind>, s: Snapshot, docs: Documents, field: string, x: U32)
    requires Indexes(s, docs) && WellTyped(schema, s.names, docs) && field in s.fields
    ensures x in Stored(s, field, NULL_KEY) <==> x in docs && field in docs[x].nulls
  {
    assert FiledRight(s, docs, field, NULL_KEY, x);
    if x in docs {
      forall v | v in Held(docs[x], field) ensures FiledUnder(s.names, field, v) != Some(0xFFFF_FFFF_FFFF_FFFF) {
        HeldIsTyped(schema, s.names, docs, x, field, v);
        KeyIsNoNull(s.names, schema[field], field, v);
      }
    }
  }

  // ---- Ranges ----

  /** Two integers compare like their keys exactly when they have the same sign. */
  lemma KeysCompareExactly(op: RangeOp, m: I64, n: I64)
    ensures (Compares(op, DirectKey(Integer(m)).value, DirectKey(Integer(n)).value) <==> InOrder(op, m, n)) <==> (m < 0 <==> n < 0)
  {
    assert m % 0x1_0000_0000_0000_0000 == if m < 0 then m + 0x1_0000_0000_0000_0000 else m;
    assert n % 0x1_0000_0000_0000_0000 == if n < 0 then n + 0x1_0000_0000_0000_0000 else n;
  }

  lemma ScanFindsKey(s: Snapshot, op: RangeOp, field: string, target: U64, x: U32)
    ensures x in Scanned(s, op, field, target) <==>
            exists key: U64 :: key != NULL_KEY && Compares(op, key, target) && x in Stored(s, field, key)
  {
    if x in Scanned(s, op, field, target) {
      var key :| key in s.fields[field].values && key != NULL_KEY && Compares(op, key, target) && x in s.fields[field].values[key];
      assert x in Stored(s, field, key);
    }
  }

  lemma ScannedHolds(schema: map<string, Kind>, s: Snapshot, docs: Documents, op: RangeOp, field: string, b: I64, x: U32, key: U64) returns (n: I64)
    requires Indexes(s, docs) && WellTyped(schema, s.names, docs)
    requires field in s.fields && field in schema && schema[field].Integers? && SameSign(docs, field, b)
    requires key != NULL_KEY && Compares(op, key, DirectKey(Integer(b)).value) && x in Stored(s, field, key)
    ensures x in docs && Integer(n) in Held(docs[x], field) && InOrder(op, n, b)
  {
    assert FiledRight(s, docs, field, key, x);
    var v :| v in Held(docs[x], field) && FiledUnder(s.names, field, v) == Some(key);
    HeldIsTyped(schema, s.names, docs, x, field, v);
    n := v.v;
    ResolvesToFiled(s, field, v);
    KeysCompareExactly(op, n, b);
    assert Integer(n) in Held(docs[x], field);
  }

  lemma HolderIsScanned(schema: map<string, Kind>, s: Snapshot, docs: Documents, op: RangeOp, field: string, b: I64, x: U32, n: I64) returns (key: U64)
    requires Indexes(s, docs) && WellTyped(schema, s.names, docs)
    requires field in s.fields && field in schema && schema[field].Integers? && SameSign(docs, field, b)
    requires x in docs && Integer(n) in Held(docs[x], field) && InOrder(op, n, b)
    ensures key != NULL_KEY && Compares(op, key, DirectKey(Integer(b)).value) && x in Stored(s, field, key)
  {
    HeldIsTyped(schema, s.names, docs, x, field, Integer(n));
    KeysCompareExactly(op, n, b);
    KeyIsNoNull(s.names, schema[field], field, Integer(n));
    ResolvesToFiled(s, field, Integer(n));
    key := DirectKey(Integer(n)).value;
    assert FiledRight(s, docs, field, key, x) && HasKey(s.names, docs[x], field, key);
  }

  /** A scan finds exactly the documents that hold an integer on the right side of the bound. */
  lemma ScanFindsHolders(schema: map<string, Kind>, s: Snapshot, docs: Documents, op: RangeOp, field: string, b: I64, x: U32)
    requires Indexes(s, docs) && WellTyped(schema, s.names, docs)
    requires field in s.fields && field in schema && schema[field].Integers? && SameSign(docs, field, b)
    ensures x in Scanned(s, op, field, DirectKey(Integer(b)).value) <==>
            x in docs && exists n: I64 :: Integer(n) in Held(docs[x], field) && InOrder(op, n, b)
  {
    var target := DirectKey(Integer(b)).value;
    ScanFindsKey(s, op, field, target, x);
    if key: U64 :| key != NULL_KEY && Compares(op, key, target) && x in Stored(s, field, key) {
      var n := ScannedHolds(schema, s, docs, op, field, b, x, key);
    }
    if x in docs {
      if n: I64 :| Integer(n) in Held(docs[x], field) && InOrder(op, n, b) {
        var key := HolderIsScanned(schema, s, docs, op, field, b, x, n);
      }
    }
  }

  // ---- Whole trees ----

  lemma ListHitsHolders(schema: map<string, Kind>, s: Snapshot, docs: Documents, field: string, vs: seq<Value>, x: U32)
    requires Indexes(s, docs) && WellTyped(schema, s.names, docs) && field != "id"
    requires forall i :: 0 <= i < |vs| ==> Fits(schema, s, field, vs[i])
    ensures (exists i :: 0 <= i < |vs| && MatchesValue(s, field, vs[i], x)) <==> x in docs && exists v :: v in vs && v in Held(docs[x], field)
  {
    forall i | 0 <= i < |vs| ensures MatchesValue(s, field, vs[i], x) <==> x in docs && vs[i] in Held(docs[x], field) {
      HitsAreHolders(schema, s, docs, field, vs[i], x);
    }
    if x in docs {
      if v :| v in vs && v in Held(docs[x], field) {
        var i :| 0 <= i < |vs| && vs[i] == v;
        assert MatchesValue(s, field, vs[i], x);
      }
    }
  }

  lemma IdListNamesSlots(schema: map<string, Kind>, s: Snapshot, docs: Documents, vs: seq<Value>, x: U32)
    requires Indexes(s, docs) && forall i :: 0 <= i < |vs| ==> Fits(schema, s, "id", vs[i])
    ensures (exists i :: 0 <= i < |vs| && MatchesValue(s, "id", vs[i], x)) <==> x in docs && Integer(x) in vs
  {
    forall i | 0 <= i < |vs| ensures MatchesValue(s, "id", vs[i], x) <==> x in docs && vs[i] == Integer(x) {
      assert vs[i].v % 0x1_0000_0000 == vs[i].v;
    }
  }

  lemma LeafAsksDocuments(schema: map<string, Kind>, s: Snapshot, docs: Documents, c: Clause, x: U32)
    requires Indexes(s, docs) && WellTyped(schema, s.names, docs) && Speaks(schema, s, docs, c) && !c.Not? && !c.And? && !c.Or?
    ensures Matches(s, c, x) <==> x in docs && Satisfies(x, docs[x], c)
  {
    match c
    case Eq(field, v) => ValueAsksDocuments(schema, s, docs, field, v, x);
    case NotEq(field, v) => ValueAsksDocuments(schema, s, docs, field, v, x); NullAsksDocuments(schema, s, docs, field, x);
    case In(field, vs) =>
      if field == "id" { IdListNamesSlots(schema, s, docs, vs, x); } else { ListHitsHolders(schema, s, docs, field, vs, x); }
    case NotIn(field, vs) =>
      NullAsksDocuments(schema, s, docs, field, x);
      if field == "id" { IdListNamesSlots(schema, s, docs, vs, x); } else { ListHitsHolders(schema, s, docs, field, vs, x); }
    case Range(op, field, v) => ScanFindsHolders(schema, s, docs, op, field, v.v, x);
    case IsNull(field) => NullAsksDocuments(schema, s, docs, field, x);
    case IsNotNull(field) => NullAsksDocuments(schema, s, docs, field, x);
    case BucketBitmap(_, _, _) =>
  }

  lemma ValueAsksDocuments(schema: map<string, Kind>, s: Snapshot, docs: Documents, field: string, v: Value, x: U32)
    requires Indexes(s, docs) && WellTyped(schema, s.names, docs) && Fits(schema, s, field, v)
    ensures MatchesValue(s, field, v, x) <==> x in docs && if field == "id" then v.v == x else v in Held(docs[x], field)
  {
    if field == "id" {
      assert v.v % 0x1_0000_0000 == v.v;
    } else {
      HitsAreHolders(schema, s, docs, field, v, x);
    }
  }

  lemma NullAsksDocuments(schema: map<string, Kind>, s: Snapshot, docs: Documents, field: string, x: U32)
    requires Indexes(s, docs) && WellTyped(schema, s.names, docs) && (field == "id" || field in s.fields)
    ensures x in Stored(s, field, NULL_KEY) <==> field != "id" && x in docs && field in docs[x].nulls
  {
    if field != "id" {
      NullsAreNull(schema, s, docs, field, x);
    }
  }

  /** Over an index of documents a clause tree of any depth matches exactly the documents that satisfy it. */
  lemma {:induction false} MatchesAsksDocuments(schema: map<string, Kind>, s: Snapshot, docs: Documents, c: Clause, x: U32)
    requires Indexes(s, docs) && WellTyped(schema, s.names, docs) && Speaks(schema, s, docs, c)
    ensures Matches(s, c, x) <==> x in docs && Satisfies(x, docs[x], c)
  {
    match c
    case Not(inner) => MatchesAsksDocuments(schema, s, docs, inner, x);
    case And(cs) =>
      forall i | 0 <= i < |cs| ensures Matches(s, cs[i], x) <==> x in docs && Satisfies(x, docs[x], cs[i]) {
        MatchesAsksDocuments(schema, s, docs, cs[i], x);
      }
      assert cs != [] && MatchesAll(s, cs, x) ==> Matches(s, cs[0], x);
    case Or(cs) =>
      forall i | 0 <= i < |cs| ensures Matches(s, cs[i], x) <==> x in docs && Satisfies(x, docs[x], cs[i]) {
        MatchesAsksDocuments(schema, s, docs, cs[i], x);
      }
    case _ => LeafAsksDocuments(schema, s, docs, c, x);
  }

  // ---- Whole queries ----

  /** What keeps every way of evaluating a clause in agreement: no empty conjunction under a negation,
      and no null in a field that is negated directly. */
  ghost predicate Orderly(s: Snapshot, docs: Documents, c: Clause) {
    && (c.Not? ==> NoEmptyAnd(c.inner))
    && ((c.NotEq? || c.NotIn?) && c.field != "id" ==> forall x :: x in docs ==> c.field !in docs[x].nulls)
  }

  predicate NeverCapped(s: Snapshot) {
    forall field :: field in s.fields ==> s.fields[field].rangeCap.None?
  }

  lemma IndexedIsAlive(s: Snapshot, docs: Documents)
    requires Indexes(s, docs)
    ensures forall f, k :: f in s.fields && k in s.fields[f].values ==> s.fields[f].values[k] <= s.alive
  {
    forall f, k, x | f in s.fields && k in s.fields[f].values && x in s.fields[f].values[k] ensures x in s.alive {
      assert FiledRight(s, docs, f, k, x) && x in Stored(s, f, k);
    }
  }

  lemma {:induction false} SpokenIsAnswerable(schema: map<string, Kind>, s: Snapshot, docs: Documents, c: Clause)
    requires NeverCapped(s) && Speaks(schema, s, docs, c)
    ensures Answerable(s, c) && BucketsAlive(s, c)
  {
    match c
    case Not(inner) => SpokenIsAnswerable(schema, s, docs, inner);
    case And(cs) =>
      forall i | 0 <= i < |cs| ensures Answerable(s, cs[i]) && BucketsAlive(s, cs[i]) {
        SpokenIsAnswerable(schema, s, docs, cs[i]);
      }
    case Or(cs) =>
      forall i | 0 <= i < |cs| ensures Answerable(s, cs[i]) && BucketsAlive(s, cs[i]) {
        SpokenIsAnswerable(schema, s, docs, cs[i]);
      }
    case _ =>
  }

  lemma SpokenIsRegular(schema: map<string, Kind>, s: Snapshot, docs: Documents, c: Clause)
    requires Indexes(s, docs) && WellTyped(schema, s.names, docs) && NeverCapped(s)
    requires Speaks(schema, s, docs, c) && Orderly(s, docs, c)
    ensures Regular(s, c)
  {
    SpokenIsAnswerable(schema, s, docs, c);
    AnsweredExactly(s, c);
    if (c.NotEq? || c.NotIn?) && c.field != "id" {
      forall x ensures x !in Stored(s, c.field, NULL_KEY) {
        NullAsksDocuments(schema, s, docs, c.field, x);
      }
    }
  }

  ghost predicate AsksAll(x: U32, d: Document, cs: seq<Clause>) {
    forall c :: c in cs ==> Satisfies(x, d, c)
  }

  /** The first two steps of `execute`: plan the clauses, then compute their bitmap. Over an index of
      documents that bitmap holds exactly the documents that satisfy every clause. */
  method FilterDocuments(ghost schema: map<string, Kind>, s: Snapshot, ghost docs: Documents, cs: seq<Clause>) returns (r: Answer)
    requires Indexes(s, docs) && WellTyped(schema, s.names, docs) && NeverCapped(s)
    requires s.buckets.Some? ==> forall d :: s.buckets.value.snap(d).Some? ==> s.buckets.value.snap(d).value <= s.alive
    requires forall c :: c in cs ==> Speaks(schema, s, docs, c) && Orderly(s, docs, c)
    ensures r.Ok? && forall x :: x in r.value <==> x in docs && AsksAll(x, docs[x], cs)
  {
    var planned := Plan(s.estimate, cs);
    PlanHasSameClauses(s.estimate, cs);
    IndexedIsAlive(s, docs);
    forall c | c in planned ensures Answerable(s, c) && Regular(s, c) {
      SpokenIsAnswerable(schema, s, docs, c);
      SpokenIsRegular(schema, s, docs, c);
    }
    r := ComputeFilters.ComputeFilters(s, planned);
    ResultIsIntersection(s, planned, r.value);
    forall x ensures x in r.value <==> x in docs && AsksAll(x, docs[x], cs) {
      forall c | c in cs ensures Matches(s, c, x) <==> x in docs && Satisfies(x, docs[x], c) {
        MatchesAsksDocuments(schema, s, docs, c, x);
      }
      assert forall c :: c in cs <==> c in planned;
    }
  }

  // ---- Where keys blur documents ----

  /** The key of -1 is the key of null: asking for -1 also brings every document that is null there. */
  lemma MinusOneIsNull(s: Snapshot, docs: Documents, field: string, x: U32)
    requires Indexes(s, docs) && field in s.fields
    ensures Matches(s, Eq(field, Integer(-1)), x) <==> Matches(s, IsNull(field), x)
    ensures x in docs && field in docs[x].nulls ==> Matches(s, Eq(field, Integer(-1)), x)
  {
    assert DirectKey(Integer(-1)) == Some(NULL_KEY);
    assert FiledRight(s, docs, field, NULL_KEY, x);
  }

  /** An id is cut to 32 bits: a number that is no slot finds the slot it wraps to. */
  lemma IdWraps(s: Snapshot, n: I64, x: U32)
    ensures Matches(s, Eq("id", Integer(n)), x) <==> x in s.alive && (n - x) % 0x1_0000_0000 == 0
  {
  }
}
