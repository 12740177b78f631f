/** What a cache key forgets and what it keeps. */
module CacheKeyMeaning {
  import opened Base
  import opened Decimals
  import opened FilterQuery
  import opened Sorting
  import opened CacheKey

  type Floats = U64 -> string

  // ---- Clause order does not matter at any depth ----

  /** The second clause is the first with the children of `And` and `Or` in any order, at any depth. */
  ghost predicate Rearranged(c: Clause, d: Clause)
    decreases c, 1
  {
    match c
    case Not(inner) => d.Not? && Rearranged(inner, d.inner)
    case And(cs) => d.And? && ListRearranged(cs, d.clauses)
    case Or(cs) => d.Or? && ListRearranged(cs, d.clauses)
    case _ => c == d
  }

  /** First put the clauses in another order, then rearrange each. */
  ghost predicate ListRearranged(cs: seq<Clause>, ds: seq<Clause>)
    decreases cs, 0
  {
    exists order: seq<Clause> ::
      && multiset(order) == multiset(cs) && |order| == |ds|
      && forall i :: 0 <= i < |ds| ==> order[i] in cs && Rearranged(order[i], ds[i])
  }

  lemma {:induction false} SameCanonical(pf: Floats, c: Clause, d: Clause)
    requires Rearranged(c, d)
    ensures FromFilter(pf, c) == FromFilter(pf, d)
    decreases c, 1
  {
    match c
    case Not(inner) => SameCanonical(pf, inner, d.inner);
    case And(cs) => SameParts(pf, cs, d.clauses);
    case Or(cs) => SameParts(pf, cs, d.clauses);
    case _ =>
  }

  lemma {:induction false} SameParts(pf: Floats, cs: seq<Clause>, ds: seq<Clause>)
    requires ListRearranged(cs, ds)
    ensures Sort(Parts(pf, cs), StringLe) == Sort(Parts(pf, ds), StringLe)
    decreases cs, 0
  {
    var order: seq<Clause> :|
      && multiset(order) == multiset(cs) && |order| == |ds|
      && forall i :: 0 <= i < |ds| ==> order[i] in cs && Rearranged(order[i], ds[i]);
    forall i | 0 <= i < |ds| ensures FromFilter(pf, order[i]) == FromFilter(pf, ds[i]) {
      SameCanonical(pf, order[i], ds[i]);
    }
    PartsFollow(pf, cs, order, ds);
  }

  lemma {:induction false} PartsFollow(pf: Floats, cs: seq<Clause>, order: seq<Clause>, ds: seq<Clause>)
    requires multiset(order) == multiset(cs) && |order| == |ds|
    requires forall i :: 0 <= i < |ds| ==> FromFilter(pf, order[i]) == FromFilter(pf, ds[i])
    ensures Sort(Parts(pf, cs), StringLe) == Sort(Parts(pf, ds), StringLe)
  {
    var f := c => PartText(FromFilter(pf, c));
    PartsAreMapped(pf, cs);
    PartsAreMapped(pf, ds);
    MapRearranged(f, order, cs);
    SameImages(f, order, ds);
    StringsAreOrdered();
    SortForgetsOrder(Parts(pf, cs), Parts(pf, ds), StringLe);
  }

  lemma SameImages<A, B>(f: A -> B, a: seq<A>, b: seq<A>)
    requires |a| == |b| && forall i :: 0 <= i < |a| ==> f(a[i]) == f(b[i])
    ensures Map(f, a) == Map(f, b)
  {
    forall i | 0 <= i < |a| ensures Map(f, a)[i] == Map(f, b)[i] {
      MapAt(f, a, i);
      MapAt(f, b, i);
    }
  }

  // ---- Top-level clauses ----

  lemma SameChildren(pf: Floats, cs: seq<Clause>, ds: seq<Clause>)
    requires ListRearranged(cs, ds)
    ensures multiset(Map(inner => FromFilter(pf, inner), cs)) == multiset(Map(inner => FromFilter(pf, inner), ds))
  {
    var order: seq<Clause> :|
      && multiset(order) == multiset(cs) && |order| == |ds|
      && forall i :: 0 <= i < |ds| ==> order[i] in cs && Rearranged(order[i], ds[i]);
    forall i | 0 <= i < |ds| ensures FromFilter(pf, order[i]) == FromFilter(pf, ds[i]) {
      SameCanonical(pf, order[i], ds[i]);
    }
    ImagesFollow(inner => FromFilter(pf, inner), cs, order, ds);
  }

  lemma {:induction false} ImagesFollow<A, B>(f: A -> B, a: seq<A>, order: seq<A>, b: seq<A>)
    requires multiset(order) == multiset(a) && |order| == |b| && forall i :: 0 <= i < |b| ==> f(order[i]) == f(b[i])
    ensures multiset(Map(f, a)) == multiset(Map(f, b))
  {
    MapRearranged(f, order, a);
    SameImages(f, order, b);
  }

  lemma {:induction false} SameGroup(pf: Floats, c: Clause, d: Clause)
    requires Rearranged(c, d)
    ensures multiset(Group(pf, c)) == multiset(Group(pf, d))
  {
    if c.And? {
      SameChildren(pf, c.clauses, d.clauses);
    } else {
      SameCanonical(pf, c, d);
    }
  }

  lemma {:induction false} FlattenedJoined(pf: Floats, a: seq<Clause>, b: seq<Clause>)
    ensures Flattened(pf, a + b) == Flattened(pf, a) + Flattened(pf, b)
  {
    if a == [] {
      assert a + b == b;
    } else {
      FlattenedJoined(pf, a[1..], b);
      assert (a + b)[1..] == a[1..] + b;
      Associates(Group(pf, a[0]), Flattened(pf, a[1..]), Flattened(pf, b));
    }
  }

  lemma {:induction false} FlattenedPulledOut(pf: Floats, s: seq<Clause>, k: nat)
    requires k < |s|
    ensures multiset(Flattened(pf, s)) == multiset(Flattened(pf, s[..k] + s[k + 1..])) + multiset(Group(pf, s[k]))
  {
    PulledOut(s, k);
    FlattenedJoined(pf, s[..k], s[k + 1..]);
    FlattenedJoined(pf, s[..k], [s[k]] + s[k + 1..]);
    assert ([s[k]] + s[k + 1..])[1..] == s[k + 1..];
  }

  lemma {:induction false} FlattenedRearranged(pf: Floats, a: seq<Clause>, b: seq<Clause>)
    requires multiset(a) == multiset(b)
    ensures multiset(Flattened(pf, a)) == multiset(Flattened(pf, b))
    decreases |a|
  {
    assert |multiset(a)| == |multiset(b)|;
    if a != [] {
      assert a[0] in multiset(b);
      var k :| 0 <= k < |b| && b[k] == a[0];
      SameRest(a, b, k);
      FlattenedRearranged(pf, a[1..], b[..k] + b[k + 1..]);
      FlattenedPulledOut(pf, b, k);
    }
  }

  lemma {:induction false} FlattenedFollows(pf: Floats, a: seq<Clause>, b: seq<Clause>)
    requires |a| == |b| && forall i :: 0 <= i < |a| ==> Rearranged(a[i], b[i])
    ensures multiset(Flattened(pf, a)) == multiset(Flattened(pf, b))
    decreases |a|
  {
    if a != [] {
      SameGroup(pf, a[0], b[0]);
      FlattenedFollows(pf, a[1..], b[1..]);
    }
  }

  /** Keys are unchanged by permuting the top-level clauses or the children of any nested `And` or `Or`. */
  lemma {:induction false} KeyIgnoresOrder(pf: Floats, cs: seq<Clause>, ds: seq<Clause>)
    requires ListRearranged(cs, ds)
    ensures KeyOf(pf, cs) == KeyOf(pf, ds)
  {
    var order: seq<Clause> :|
      && multiset(order) == multiset(cs) && |order| == |ds|
      && forall i :: 0 <= i < |ds| ==> order[i] in cs && Rearranged(order[i], ds[i]);
    FlattenedRearranged(pf, order, cs);
    FlattenedFollows(pf, order, ds);
    KeysAreOrdered();
    SortForgetsOrder(Flattened(pf, cs), Flattened(pf, ds), KeyLe);
  }

  // ---- Flat clauses keep their meaning ----

  /** A number, a boolean, or a string that is the text of neither. */
  predicate Plain(v: Value) {
    v.Integer? || v.Bool? || (v.Str? && !IsI64Text(v.s) && v.s != "true" && v.s != "false")
  }

  /** In a list, strings must also be told from their neighbours. */
  predicate PlainInList(v: Value) {
    Plain(v) && (v.Str? ==> Separable(v.s, ','))
  }

  /** What the named buckets hold. */
  type Buckets = (string, string) -> Bitmap

  predicate IsFlat(bk: Buckets, c: Clause) {
    match c
    case Eq(_, v) => Plain(v)
    case NotEq(_, v) => Plain(v)
    case In(_, vs) => forall i :: 0 <= i < |vs| ==> PlainInList(vs[i])
    case NotIn(_, vs) => forall i :: 0 <= i < |vs| ==> PlainInList(vs[i])
    case Range(_, _, v) => Plain(v)
    case IsNull(_) => true
    case IsNotNull(_) => true
    case BucketBitmap(field, name, bitmap) => bitmap == bk(field, name)
    case _ => false
  }

  lemma PlainTextTells(pf: Floats, v: Value, w: Value)
    requires Plain(v) && Plain(w) && ValueText(pf, v) == ValueText(pf, w)
    ensures v == w
  {
    PlainTextStarts(pf, v);
    PlainTextStarts(pf, w);
    if v.Integer? && w.Integer? {
      SignedIsInjective(v.v, w.v);
    }
  }

  /** A number reads as one and starts with a digit or a sign, a boolean starts with its letter. */
  lemma PlainTextStarts(pf: Floats, v: Value)
    requires Plain(v)
    ensures v.Integer? ==> var t := ValueText(pf, v); IsI64Text(t) && Separable(t, ',') && (IsDigit(t[0]) || t[0] == '-')
    ensures v.Bool? ==> var t := ValueText(pf, v); Separable(t, ',') && t[0] == if v.b then 't' else 'f'
  {
    if v.Integer? {
      var n: int := v.v;
      DecimalIsDigits(if n < 0 then -n else n);
      SignedIsInteger(v.v);
    }
  }

  predicate Free(s: string, c: char) {
    forall i :: 0 <= i < |s| ==> s[i] != c
  }

  /** The text is told from its neighbours in a list with this separator. */
  predicate Separable(s: string, separator: char) {
    s != "" && Free(s, separator)
  }

  predicate AllSeparable(parts: seq<string>, separator: char) {
    forall i :: 0 <= i < |parts| ==> Separable(parts[i], separator)
  }

  function FirstOf(s: string, c: char): nat {
    if s == "" || s[0] == c then 0 else 1 + FirstOf(s[1..], c)
  }

  lemma {:induction false} FoundAfter(piece: string, tail: string, c: char)
    requires Free(piece, c) && (tail == "" || tail[0] == c)
    ensures FirstOf(piece + tail, c) == |piece|
    decreases |piece|
  {
    if piece == "" {
      assert piece + tail == tail;
    } else {
      FoundAfter(piece[1..], tail, c);
      assert (piece + tail)[1..] == piece[1..] + tail;
    }
  }

  /** What follows the first part of a list. */
  function Rest(parts: seq<string>, c: char): string
    requires parts != []
  {
    if |parts| == 1 then "" else [c] + Join(parts[1..], [c])
  }

  lemma JoinSplits(parts: seq<string>, c: char)
    requires parts != [] && Separable(parts[0], c)
    ensures Join(parts, [c]) == parts[0] + Rest(parts, c) && FirstOf(Join(parts, [c]), c) == |parts[0]|
  {
    assert parts[0] + "" == parts[0];
    FoundAfter(parts[0], Rest(parts, c), c);
  }

  lemma SameFirst(a: string, x: string, b: string, y: string)
    requires a + x == b + y && |a| == |b|
    ensures a == b && x == y
  {
    assert a == (a + x)[..|a|] && b == (b + y)[..|b|];
    assert x == (a + x)[|a|..] && y == (b + y)[|b|..];
  }

  /** A list of separable texts has one reading. */
  lemma {:induction false} JoinTells(a: seq<string>, b: seq<string>, c: char)
    requires AllSeparable(a, c) && AllSeparable(b, c) && Join(a, [c]) == Join(b, [c])
    ensures a == b
    decreases |a|
  {
    if a != [] {
      JoinSplits(a, c);
    }
    if b != [] {
      JoinSplits(b, c);
    }
    if a != [] && b != [] {
      SameFirst(a[0], Rest(a, c), b[0], Rest(b, c));
      if |a| > 1 && |b| > 1 {
        var (x, y) := (a[1..], b[1..]);
        SameFirst([c], Join(x, [c]), [c], Join(y, [c]));
        JoinTells(x, y, c);
        HeadAndTail(a, b);
      }
    }
  }

  lemma HeadAndTail(a: seq<string>, b: seq<string>)
    requires a != [] && b != [] && a[0] == b[0] && a[1..] == b[1..]
    ensures a == b
  {
    assert a == [a[0]] + a[1..] && b == [b[0]] + b[1..];
  }

  lemma TextsSeparable(pf: Floats, vs: seq<Value>)
    requires forall i :: 0 <= i < |vs| ==> PlainInList(vs[i])
    ensures AllSeparable(Sort(Texts(pf, vs), StringLe), ',')
  {
    StringsAreOrdered();
    SortSorts(Texts(pf, vs), StringLe);
    var ts := Sort(Texts(pf, vs), StringLe);
    forall i | 0 <= i < |ts| ensures Separable(ts[i], ',') {
      assert ts[i] in multiset(Texts(pf, vs));
      var j :| 0 <= j < |vs| && Texts(pf, vs)[j] == ts[i];
      MapAt(v => ValueText(pf, v), vs, j);
      PlainTextStarts(pf, vs[j]);
    }
  }

  /** Lists with the same text hold the same values. */
  lemma ListTextTells(pf: Floats, vs: seq<Value>, ws: seq<Value>, v: Value)
    requires (forall i :: 0 <= i < |vs| ==> PlainInList(vs[i])) && (forall i :: 0 <= i < |ws| ==> PlainInList(ws[i]))
    requires ListText(pf, vs) == ListText(pf, ws) && v in vs
    ensures v in ws
  {
    TextsSeparable(pf, vs);
    TextsSeparable(pf, ws);
    assert "," == [','];
    JoinTells(Sort(Texts(pf, vs), StringLe), Sort(Texts(pf, ws), StringLe), ',');
    StringsAreOrdered();
    SortForgetsOrder(Texts(pf, vs), Texts(pf, ws), StringLe);
    TextFound(pf, vs, ws, v);
  }

  lemma TextFound(pf: Floats, vs: seq<Value>, ws: seq<Value>, v: Value)
    requires (forall i :: 0 <= i < |ws| ==> Plain(ws[i])) && Plain(v)
    requires multiset(Texts(pf, vs)) == multiset(Texts(pf, ws)) && v in vs
    ensures v in ws
  {
    var f := v => ValueText(pf, v);
    var i :| 0 <= i < |vs| && vs[i] == v;
    MapAt(f, vs, i);
    assert Texts(pf, vs)[i] in multiset(Texts(pf, ws));
    var j :| 0 <= j < |ws| && Texts(pf, ws)[j] == Texts(pf, vs)[i];
    MapAt(f, ws, j);
    PlainTextTells(pf, ws[j], v);
  }

  function Kind(c: Clause): nat {
    match c
    case Eq(_, _) => 0
    case NotEq(_, _) => 1
    case In(_, _) => 2
    case NotIn(_, _) => 3
    case Range(op, _, _) => (match op case Gt => 4 case Gte => 5 case Lt => 6 case Lte => 7)
    case IsNull(_) => 8
    case IsNotNull(_) => 9
    case BucketBitmap(_, _, _) => 10
    case And(_) => 11
    case Or(_) => 12
    case Not(_) => 13
  }

  function KindOf(op: string): nat {
    if op == "eq" then 0 else if op == "neq" then 1 else if op == "in" then 2 else if op == "notin" then 3
    else if op == "gt" then 4 else if op == "gte" then 5 else if op == "lt" then 6 else if op == "lte" then 7
    else if op == "isnull" then 8 else if op == "isnotnull" then 9 else if op == "bucket" then 10
    else if op == "and" then 11 else if op == "or" then 12 else 13
  }

  lemma NotIsItsOwnKind(inner: string)
    ensures KindOf("not(" + (inner + ")")) == 13
  {
    var op := "not(" + (inner + ")");
    assert op[0] == 'n' && op[1] == 'o' && op[2] == 't' && op[3] == '(' && |op| >= 5;
  }

  /** The operator name of a canonical clause tells what kind of clause it came from. */
  lemma OpTells(pf: Floats, c: Clause)
    ensures KindOf(FromFilter(pf, c).op) == Kind(c)
  {
    if c.Not? {
      NotIsItsOwnKind(FromFilter(pf, c.inner).op);
    }
  }

  lemma SameValuesMatch(s: Snapshot, field: string, vs: seq<Value>, ws: seq<Value>, x: U32)
    requires forall v :: v in vs ==> v in ws
    requires exists i :: 0 <= i < |vs| && MatchesValue(s, field, vs[i], x)
    ensures exists i :: 0 <= i < |ws| && MatchesValue(s, field, ws[i], x)
  {
    var i :| 0 <= i < |vs| && MatchesValue(s, field, vs[i], x);
    assert vs[i] in ws;
  }

  lemma ListsMatchAlike(pf: Floats, s: Snapshot, field: string, vs: seq<Value>, ws: seq<Value>, x: U32)
    requires (forall i :: 0 <= i < |vs| ==> PlainInList(vs[i])) && (forall i :: 0 <= i < |ws| ==> PlainInList(ws[i]))
    requires ListText(pf, vs) == ListText(pf, ws)
    ensures (exists i :: 0 <= i < |vs| && MatchesValue(s, field, vs[i], x)) <==>
            (exists i :: 0 <= i < |ws| && MatchesValue(s, field, ws[i], x))
  {
    forall v | v in vs ensures v in ws {
      ListTextTells(pf, vs, ws, v);
    }
    forall v | v in ws ensures v in vs {
      ListTextTells(pf, ws, vs, v);
    }
    if exists i :: 0 <= i < |vs| && MatchesValue(s, field, vs[i], x) {
      SameValuesMatch(s, field, vs, ws, x);
    }
    if exists i :: 0 <= i < |ws| && MatchesValue(s, field, ws[i], x) {
      SameValuesMatch(s, field, ws, vs, x);
    }
  }

  /** Flat clauses with the same canonical form mean the same. */
  lemma SameFormSameMeaning(pf: Floats, bk: Buckets, s: Snapshot, c: Clause, d: Clause, x: U32)
    requires IsFlat(bk, c) && IsFlat(bk, d) && FromFilter(pf, c) == FromFilter(pf, d)
    ensures Matches(s, c, x) <==> Matches(s, d, x)
  {
    OpTells(pf, c);
    OpTells(pf, d);
    if c.In? || c.NotIn? {
      ListsMatchAlike(pf, s, c.field, c.values, d.values, x);
    } else if c.Eq? || c.NotEq? || c.Range? {
      PlainTextTells(pf, c.value, d.value);
    }
  }
}
