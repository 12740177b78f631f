/** Which clause trees a cache key tells apart: negations at any depth, and `And` and `Or` over clauses
    whose texts do not hold the separator. */
module CacheKeyTrees {
  import opened Base
  import opened Decimals
  import opened FilterQuery
  import opened Sorting
  import opened CacheKey
  import opened CacheKeyMeaning

  // ---- Negations of flat clauses ----

  predicate IsSimple(bk: Buckets, c: Clause) {
    if c.Not? then IsSimple(bk, c.inner) else IsFlat(bk, c)
  }

  lemma NotOpTells(a: string, b: string)
    requires "not(" + (a + ")") == "not(" + (b + ")")
    ensures a == b
  {
    SameFirst("not(", a + ")", "not(", b + ")");
    assert |a + ")"| == |b + ")"|;
    SameFirst(a, ")", b, ")");
  }

  /** Negations with the same form negate clauses with the same form. */
  lemma SameInner(pf: Floats, c: Clause, d: Clause)
    requires c.Not? && d.Not? && FromFilter(pf, c) == FromFilter(pf, d)
    ensures FromFilter(pf, c.inner) == FromFilter(pf, d.inner)
  {
    NotOpTells(FromFilter(pf, c.inner).op, FromFilter(pf, d.inner).op);
  }

  lemma {:induction false} SimpleMatchAlike(pf: Floats, bk: Buckets, s: Snapshot, c: Clause, d: Clause, x: U32)
    requires IsSimple(bk, c) && IsSimple(bk, d) && FromFilter(pf, c) == FromFilter(pf, d)
    ensures Matches(s, c, x) <==> Matches(s, d, x)
  {
    OpTells(pf, c);
    OpTells(pf, d);
    if c.Not? {
      SameInner(pf, c, d);
      SimpleMatchAlike(pf, bk, s, c.inner, d.inner, x);
    } else {
      SameFormSameMeaning(pf, bk, s, c, d, x);
    }
  }

  // ---- Texts of simple clauses ----

  predicate ClearField(field: string, separator: char) {
    Free(field, ':') && Free(field, separator)
  }

  /** Neither the field nor a value of the clause holds the separator, and the field no colon. */
  predicate Clear(pf: Floats, c: Clause, separator: char) {
    match c
    case Eq(field, v) => ClearField(field, separator) && Free(ValueText(pf, v), separator)
    case NotEq(field, v) => ClearField(field, separator) && Free(ValueText(pf, v), separator)
    case In(field, vs) => ClearField(field, separator) && forall i :: 0 <= i < |vs| ==> Free(ValueText(pf, vs[i]), separator)
    case NotIn(field, vs) => ClearField(field, separator) && forall i :: 0 <= i < |vs| ==> Free(ValueText(pf, vs[i]), separator)
    case Range(_, field, v) => ClearField(field, separator) && Free(ValueText(pf, v), separator)
    case IsNull(field) => ClearField(field, separator)
    case IsNotNull(field) => ClearField(field, separator)
    case BucketBitmap(field, name, _) => ClearField(field, separator) && Free(name, separator)
    case Not(inner) => Clear(pf, inner, separator)
    case _ => false
  }

  predicate ClearForm(k: Canonical, separator: char) {
    Free(k.field, ':') && Free(k.field, separator) && Free(k.op, ':') && Free(k.op, separator) && Free(k.repr, separator)
  }

  lemma JoinedIsFree(a: string, b: string, c: char)
    requires Free(a, c) && Free(b, c)
    ensures Free(a + b, c)
  {
  }

  lemma {:induction false} ListIsFree(parts: seq<string>, c: char)
    requires c != ',' && forall i :: 0 <= i < |parts| ==> Free(parts[i], c)
    ensures Free(Join(parts, ","), c)
    decreases |parts|
  {
    if |parts| > 1 {
      ListIsFree(parts[1..], c);
      JoinedIsFree(",", Join(parts[1..], ","), c);
      JoinedIsFree(parts[0], "," + Join(parts[1..], ","), c);
    }
  }

  lemma ListTextIsFree(pf: Floats, vs: seq<Value>, c: char)
    requires c != ',' && forall i :: 0 <= i < |vs| ==> Free(ValueText(pf, vs[i]), c)
    ensures Free(ListText(pf, vs), c)
  {
    StringsAreOrdered();
    SortSorts(Texts(pf, vs), StringLe);
    var ts := Sort(Texts(pf, vs), StringLe);
    forall i | 0 <= i < |ts| ensures Free(ts[i], c) {
      assert ts[i] in multiset(Texts(pf, vs));
      var j :| 0 <= j < |vs| && Texts(pf, vs)[j] == ts[i];
      MapAt(v => ValueText(pf, v), vs, j);
    }
    ListIsFree(ts, c);
  }

  predicate IsLetters(op: string) {
    forall i :: 0 <= i < |op| ==> 'a' <= op[i] <= 'z'
  }

  lemma RangeNameIsLetters(op: RangeOp)
    ensures IsLetters(RangeName(op))
  {
  }

  lemma FlatOpIsLetters(pf: Floats, bk: Buckets, c: Clause)
    requires IsFlat(bk, c)
    ensures IsLetters(FromFilter(pf, c).op)
  {
    if c.Range? {
      RangeNameIsLetters(c.op);
    }
  }

  lemma FlatHasClearForm(pf: Floats, bk: Buckets, c: Clause, separator: char)
    requires IsFlat(bk, c) && Clear(pf, c, separator) && (separator == '+' || separator == '|')
    ensures ClearForm(FromFilter(pf, c), separator)
  {
    FlatOpIsLetters(pf, bk, c);
    if c.In? || c.NotIn? {
      ListTextIsFree(pf, c.values, separator);
    }
  }

  lemma NotIsFree(op: string, c: char)
    requires Free(op, c) && (c == ':' || c == '+' || c == '|')
    ensures Free("not(" + (op + ")"), c)
  {
    JoinedIsFree(op, ")", c);
    JoinedIsFree("not(", op + ")", c);
  }

  lemma {:induction false} ClearHasClearForm(pf: Floats, bk: Buckets, c: Clause, separator: char)
    requires IsSimple(bk, c) && Clear(pf, c, separator) && (separator == '+' || separator == '|')
    ensures ClearForm(FromFilter(pf, c), separator)
  {
    if c.Not? {
      ClearHasClearForm(pf, bk, c.inner, separator);
      NotIsFree(FromFilter(pf, c.inner).op, separator);
      NotIsFree(FromFilter(pf, c.inner).op, ':');
    } else {
      FlatHasClearForm(pf, bk, c, separator);
    }
  }

  /** `field:op:value` has one reading. */
  lemma PartTells(a: Canonical, b: Canonical)
    requires Free(a.field, ':') && Free(a.op, ':') && Free(b.field, ':') && Free(b.op, ':') && PartText(a) == PartText(b)
    ensures a == b
  {
    var (x, y) := (":" + (a.op + (":" + a.repr)), ":" + (b.op + (":" + b.repr)));
    FoundAfter(a.field, x, ':');
    FoundAfter(b.field, y, ':');
    SameFirst(a.field, x, b.field, y);
    SameFirst(":", a.op + (":" + a.repr), ":", b.op + (":" + b.repr));
    FoundAfter(a.op, ":" + a.repr, ':');
    FoundAfter(b.op, ":" + b.repr, ':');
    SameFirst(a.op, ":" + a.repr, b.op, ":" + b.repr);
    SameFirst(":", a.repr, ":", b.repr);
  }

  lemma PartIsSeparable(k: Canonical, separator: char)
    requires ClearForm(k, separator) && separator != ':'
    ensures Separable(PartText(k), separator)
  {
    JoinedIsFree(":", k.repr, separator);
    JoinedIsFree(k.op, ":" + k.repr, separator);
    JoinedIsFree(":", k.op + (":" + k.repr), separator);
    JoinedIsFree(k.field, ":" + (k.op + (":" + k.repr)), separator);
  }

  // ---- Conjunctions and disjunctions ----

  predicate AllClear(pf: Floats, bk: Buckets, cs: seq<Clause>, separator: char) {
    forall i :: 0 <= i < |cs| ==> IsSimple(bk, cs[i]) && Clear(pf, cs[i], separator)
  }

  /** A flat clause, an `And` or `Or` over clear simple ones, or a negation of such a tree. */
  predicate IsTree(pf: Floats, bk: Buckets, c: Clause) {
    match c
    case Not(inner) => IsTree(pf, bk, inner)
    case And(cs) => AllClear(pf, bk, cs, '+')
    case Or(cs) => AllClear(pf, bk, cs, '|')
    case _ => IsFlat(bk, c)
  }

  lemma PartAt(pf: Floats, cs: seq<Clause>, i: nat)
    requires i < |cs|
    ensures Parts(pf, cs)[i] == PartText(FromFilter(pf, cs[i]))
  {
    PartsAreMapped(pf, cs);
    MapAt(c => PartText(FromFilter(pf, c)), cs, i);
  }

  lemma PartsAreSeparable(pf: Floats, bk: Buckets, cs: seq<Clause>, separator: char)
    requires AllClear(pf, bk, cs, separator) && (separator == '+' || separator == '|')
    ensures AllSeparable(Sort(Parts(pf, cs), StringLe), separator)
  {
    StringsAreOrdered();
    SortSorts(Parts(pf, cs), StringLe);
    var ps := Sort(Parts(pf, cs), StringLe);
    forall i | 0 <= i < |ps| ensures Separable(ps[i], separator) {
      assert ps[i] in multiset(Parts(pf, cs));
      var j :| 0 <= j < |cs| && Parts(pf, cs)[j] == ps[i];
      PartAt(pf, cs, j);
      ClearHasClearForm(pf, bk, cs[j], separator);
      PartIsSeparable(FromFilter(pf, cs[j]), separator);
    }
  }

  lemma SameJoinSameParts(pf: Floats, bk: Buckets, cs: seq<Clause>, ds: seq<Clause>, separator: char)
    requires AllClear(pf, bk, cs, separator) && AllClear(pf, bk, ds, separator) && (separator == '+' || separator == '|')
    requires Join(Sort(Parts(pf, cs), StringLe), [separator]) == Join(Sort(Parts(pf, ds), StringLe), [separator])
    ensures multiset(Parts(pf, cs)) == multiset(Parts(pf, ds))
  {
    PartsAreSeparable(pf, bk, cs, separator);
    PartsAreSeparable(pf, bk, ds, separator);
    JoinTells(Sort(Parts(pf, cs), StringLe), Sort(Parts(pf, ds), StringLe), separator);
    StringsAreOrdered();
    SortForgetsOrder(Parts(pf, cs), Parts(pf, ds), StringLe);
  }

  /** Every child of one has a child of the other with the same meaning. */
  lemma ChildHasTwin(pf: Floats, bk: Buckets, s: Snapshot, cs: seq<Clause>, ds: seq<Clause>, separator: char, i: nat, x: U32) returns (j: nat)
    requires AllClear(pf, bk, cs, separator) && AllClear(pf, bk, ds, separator) && (separator == '+' || separator == '|')
    requires multiset(Parts(pf, cs)) == multiset(Parts(pf, ds)) && i < |cs|
    ensures j < |ds| && (Matches(s, cs[i], x) <==> Matches(s, ds[j], x))
  {
    PartAt(pf, cs, i);
    assert Parts(pf, cs)[i] in multiset(Parts(pf, ds));
    j :| 0 <= j < |ds| && Parts(pf, ds)[j] == Parts(pf, cs)[i];
    PartAt(pf, ds, j);
    ClearHasClearForm(pf, bk, cs[i], separator);
    ClearHasClearForm(pf, bk, ds[j], separator);
    PartTells(FromFilter(pf, cs[i]), FromFilter(pf, ds[j]));
    SimpleMatchAlike(pf, bk, s, cs[i], ds[j], x);
  }

  lemma AllFollows(pf: Floats, bk: Buckets, s: Snapshot, cs: seq<Clause>, ds: seq<Clause>, x: U32)
    requires AllClear(pf, bk, cs, '+') && AllClear(pf, bk, ds, '+') && multiset(Parts(pf, cs)) == multiset(Parts(pf, ds))
    requires Matches(s, And(ds), x)
    ensures Matches(s, And(cs), x)
  {
    assert |multiset(Parts(pf, cs))| == |multiset(Parts(pf, ds))|;
    forall i | 0 <= i < |cs| ensures Matches(s, cs[i], x) {
      var j := ChildHasTwin(pf, bk, s, cs, ds, '+', i, x);
    }
  }

  lemma AnyFollows(pf: Floats, bk: Buckets, s: Snapshot, cs: seq<Clause>, ds: seq<Clause>, x: U32)
    requires AllClear(pf, bk, cs, '|') && AllClear(pf, bk, ds, '|') && multiset(Parts(pf, cs)) == multiset(Parts(pf, ds))
    requires Matches(s, Or(cs), x)
    ensures Matches(s, Or(ds), x)
  {
    var i :| 0 <= i < |cs| && Matches(s, cs[i], x);
    var j := ChildHasTwin(pf, bk, s, cs, ds, '|', i, x);
  }

  lemma AndsMatchAlike(pf: Floats, bk: Buckets, s: Snapshot, cs: seq<Clause>, ds: seq<Clause>, x: U32)
    requires AllClear(pf, bk, cs, '+') && AllClear(pf, bk, ds, '+') && FromFilter(pf, And(cs)) == FromFilter(pf, And(ds))
    ensures Matches(s, And(cs), x) <==> Matches(s, And(ds), x)
  {
    SameJoinSameParts(pf, bk, cs, ds, '+');
    if Matches(s, And(ds), x) {
      AllFollows(pf, bk, s, cs, ds, x);
    }
    if Matches(s, And(cs), x) {
      AllFollows(pf, bk, s, ds, cs, x);
    }
  }

  lemma OrsMatchAlike(pf: Floats, bk: Buckets, s: Snapshot, cs: seq<Clause>, ds: seq<Clause>, x: U32)
    requires AllClear(pf, bk, cs, '|') && AllClear(pf, bk, ds, '|') && FromFilter(pf, Or(cs)) == FromFilter(pf, Or(ds))
    ensures Matches(s, Or(cs), x) <==> Matches(s, Or(ds), x)
  {
    SameJoinSameParts(pf, bk, cs, ds, '|');
    if Matches(s, Or(ds), x) {
      AnyFollows(pf, bk, s, ds, cs, x);
    }
    if Matches(s, Or(cs), x) {
      AnyFollows(pf, bk, s, cs, ds, x);
    }
  }

  /** Trees with the same canonical form mean the same. */
  lemma {:induction false} TreesMatchAlike(pf: Floats, bk: Buckets, s: Snapshot, c: Clause, d: Clause, x: U32)
    requires IsTree(pf, bk, c) && IsTree(pf, bk, d) && FromFilter(pf, c) == FromFilter(pf, d)
    ensures Matches(s, c, x) <==> Matches(s, d, x)
  {
    OpTells(pf, c);
    OpTells(pf, d);
    if c.Not? {
      SameInner(pf, c, d);
      TreesMatchAlike(pf, bk, s, c.inner, d.inner, x);
    } else if c.And? {
      AndsMatchAlike(pf, bk, s, c.clauses, d.clauses, x);
    } else if c.Or? {
      OrsMatchAlike(pf, bk, s, c.clauses, d.clauses, x);
    } else {
      SameFormSameMeaning(pf, bk, s, c, d, x);
    }
  }

  // ---- Whole filters ----

  /** A top-level `And` is taken apart, so it must not be empty. */
  predicate IsFilter(pf: Floats, bk: Buckets, c: Clause) {
    if c.And? then c.clauses != [] && forall i :: 0 <= i < |c.clauses| ==> IsTree(pf, bk, c.clauses[i]) else IsTree(pf, bk, c)
  }

  function Expanded(cs: seq<Clause>): seq<Clause> {
    if cs == [] then [] else (if cs[0].And? then cs[0].clauses else [cs[0]]) + Expanded(cs[1..])
  }

  lemma {:induction false} ExpandedIsFlattened(pf: Floats, cs: seq<Clause>)
    ensures Flattened(pf, cs) == Map(c => FromFilter(pf, c), Expanded(cs))
  {
    if cs != [] {
      var f := c => FromFilter(pf, c);
      ExpandedIsFlattened(pf, cs[1..]);
      MapJoined(f, if cs[0].And? then cs[0].clauses else [cs[0]], Expanded(cs[1..]));
    }
  }

  lemma {:induction false} ExpandedTrees(pf: Floats, bk: Buckets, cs: seq<Clause>)
    requires forall i :: 0 <= i < |cs| ==> IsFilter(pf, bk, cs[i])
    ensures forall i :: 0 <= i < |Expanded(cs)| ==> IsTree(pf, bk, Expanded(cs)[i])
  {
    if cs != [] {
      ExpandedTrees(pf, bk, cs[1..]);
    }
  }

  lemma MatchesBoth(s: Snapshot, a: seq<Clause>, b: seq<Clause>, x: U32)
    ensures MatchesAll(s, a + b, x) <==> MatchesAll(s, a, x) && MatchesAll(s, b, x)
  {
    assert forall i :: 0 <= i < |a| ==> (a + b)[i] == a[i];
    assert forall i :: 0 <= i < |b| ==> (a + b)[|a| + i] == b[i];
  }

  lemma MatchesOne(s: Snapshot, c: Clause, x: U32)
    ensures MatchesAll(s, [c], x) <==> Matches(s, c, x)
  {
    assert [c][0] == c;
  }

  lemma {:induction false} ExpandedMeansTheSame(pf: Floats, bk: Buckets, s: Snapshot, cs: seq<Clause>, x: U32)
    requires forall i :: 0 <= i < |cs| ==> IsFilter(pf, bk, cs[i])
    ensures MatchesAll(s, cs, x) <==> MatchesAll(s, Expanded(cs), x)
  {
    if cs != [] {
      var (first, rest) := (if cs[0].And? then cs[0].clauses else [cs[0]], cs[1..]);
      ExpandedMeansTheSame(pf, bk, s, rest, x);
      MatchesBoth(s, first, Expanded(rest), x);
      MatchesBoth(s, [cs[0]], rest, x);
      assert cs == [cs[0]] + rest;
      MatchesOne(s, cs[0], x);
    }
  }

  /** Every clause of one list has a counterpart with the same form in the other. */
  lemma Counterpart(pf: Floats, cs: seq<Clause>, ds: seq<Clause>, i: nat) returns (j: nat)
    requires multiset(Map(c => FromFilter(pf, c), cs)) == multiset(Map(c => FromFilter(pf, c), ds)) && i < |cs|
    ensures j < |ds| && FromFilter(pf, cs[i]) == FromFilter(pf, ds[j])
  {
    var f := c => FromFilter(pf, c);
    MapAt(f, cs, i);
    assert Map(f, cs)[i] in multiset(Map(f, ds));
    j :| 0 <= j < |ds| && Map(f, ds)[j] == Map(f, cs)[i];
    MapAt(f, ds, j);
  }

  lemma {:induction false} MatchFollows(pf: Floats, bk: Buckets, s: Snapshot, cs: seq<Clause>, ds: seq<Clause>, x: U32)
    requires (forall i :: 0 <= i < |cs| ==> IsTree(pf, bk, cs[i])) && (forall i :: 0 <= i < |ds| ==> IsTree(pf, bk, ds[i]))
    requires multiset(Map(c => FromFilter(pf, c), cs)) == multiset(Map(c => FromFilter(pf, c), ds))
    requires MatchesAll(s, ds, x)
    ensures MatchesAll(s, cs, x)
  {
    forall i | 0 <= i < |cs| ensures Matches(s, cs[i], x) {
      var j := Counterpart(pf, cs, ds, i);
      TreesMatchAlike(pf, bk, s, cs[i], ds[j], x);
    }
  }

  /** For filters made of such trees, equal keys mean equal answers in every snapshot. */
  lemma {:induction false} EqualKeysMeanTheSame(pf: Floats, bk: Buckets, s: Snapshot, cs: seq<Clause>, ds: seq<Clause>, x: U32)
    requires (forall i :: 0 <= i < |cs| ==> IsFilter(pf, bk, cs[i])) && (forall i :: 0 <= i < |ds| ==> IsFilter(pf, bk, ds[i]))
    requires KeyOf(pf, cs) == KeyOf(pf, ds)
    ensures MatchesAll(s, cs, x) <==> MatchesAll(s, ds, x)
  {
    KeysAreOrdered();
    SortForgetsOrder(Flattened(pf, cs), Flattened(pf, ds), KeyLe);
    ExpandedIsFlattened(pf, cs);
    ExpandedIsFlattened(pf, ds);
    ExpandedTrees(pf, bk, cs);
    ExpandedTrees(pf, bk, ds);
    ExpandedMeansTheSame(pf, bk, s, cs, x);
    ExpandedMeansTheSame(pf, bk, s, ds, x);
    if MatchesAll(s, Expanded(ds), x) {
      MatchFollows(pf, bk, s, Expanded(cs), Expanded(ds), x);
    }
    if MatchesAll(s, Expanded(cs), x) {
      MatchFollows(pf, bk, s, Expanded(ds), Expanded(cs), x);
    }
  }

  // ---- A clause and its negation ----

  lemma OneElement(k: Canonical)
    ensures Sort([k], KeyLe) == [k]
  {
    assert [k][1..] == [];
  }

  lemma FlattenedOne(pf: Floats, c: Clause)
    ensures Flattened(pf, [c]) == Group(pf, c)
  {
    assert [c][1..] == [] && Flattened(pf, []) == [];
    NothingAdded(Group(pf, c));
  }

  lemma KeyOfOne(pf: Floats, c: Clause)
    requires !c.And?
    ensures KeyOf(pf, [c]) == [FromFilter(pf, c)]
  {
    FlattenedOne(pf, c);
    OneElement(FromFilter(pf, c));
  }

  lemma KeyOfAnd(pf: Floats, cs: seq<Clause>)
    ensures multiset(KeyOf(pf, [And(cs)])) == multiset(Map(c => FromFilter(pf, c), cs))
  {
    FlattenedOne(pf, And(cs));
    KeysAreOrdered();
    SortSorts(Flattened(pf, [And(cs)]), KeyLe);
  }

  /** The negation of an `And` spells out its child, so its text is longer than the child's. */
  lemma NegatedAndIsLonger(pf: Floats, c: Clause)
    ensures FromFilter(pf, Not(And([c]))) != FromFilter(pf, c)
  {
    var k := FromFilter(pf, c);
    assert [c][1..] == [] && Parts(pf, []) == [];
    assert Parts(pf, [c]) == [PartText(k)];
    assert Sort([PartText(k)], StringLe) == [PartText(k)] by {
      assert [PartText(k)][1..] == [];
    }
    assert FromFilter(pf, Not(And([c]))).repr == PartText(k);
    assert |PartText(k)| > |k.repr|;
  }

  /** No clause at all, of any depth and with any texts, shares its key with its negation. */
  lemma NegationHasItsOwnKey(pf: Floats, c: Clause)
    ensures KeyOf(pf, [c]) != KeyOf(pf, [Not(c)])
  {
    KeyOfOne(pf, Not(c));
    if c.And? {
      KeyOfAnd(pf, c.clauses);
      NegationIsNoChild(pf, c.clauses, FromFilter(pf, Not(c)));
    } else {
      KeyOfOne(pf, c);
      assert |FromFilter(pf, Not(c)).op| > |FromFilter(pf, c).op|;
    }
  }

  lemma NegationIsNoChild(pf: Floats, cs: seq<Clause>, k: Canonical)
    requires k == FromFilter(pf, Not(And(cs)))
    ensures multiset([k]) != multiset(Map(c => FromFilter(pf, c), cs))
  {
    var f := c => FromFilter(pf, c);
    if |cs| == 1 {
      NegatedAndIsLonger(pf, cs[0]);
      assert cs == [cs[0]];
      MapAt(f, cs, 0);
      assert Map(f, cs)[0] in multiset(Map(f, cs));
    } else {
      assert |multiset([k])| != |multiset(Map(f, cs))|;
    }
  }
}
