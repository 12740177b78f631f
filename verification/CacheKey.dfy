/** Canonical cache keys for filter clauses. */
module CacheKey {
  import opened Base
  import opened Decimals
  import opened FilterQuery
  import opened Sorting

  datatype Canonical = Canonical(field: string, op: string, repr: string)

  type Key = seq<Canonical>

  // ---- The order of strings and of key parts ----

  predicate StringLe(a: string, b: string) {
    a == "" || (b != "" && (a[0] < b[0] || (a[0] == b[0] && StringLe(a[1..], b[1..]))))
  }

  lemma {:induction false} StringsCompare(a: string, b: string)
    ensures StringLe(a, b) || StringLe(b, a)
    ensures StringLe(a, b) && StringLe(b, a) ==> a == b
  {
    if a != "" && b != "" && a[0] == b[0] {
      StringsCompare(a[1..], b[1..]);
      assert a == [a[0]] + a[1..] && b == [b[0]] + b[1..];
    }
  }

  lemma {:induction false} StringsChain(a: string, b: string, c: string)
    requires StringLe(a, b) && StringLe(b, c)
    ensures StringLe(a, c)
  {
    if a != "" && a[0] == b[0] == c[0] {
      StringsChain(a[1..], b[1..], c[1..]);
    }
  }

  lemma StringsAreOrdered()
    ensures IsTotalOrder(StringLe)
  {
    forall a, b ensures (StringLe(a, b) || StringLe(b, a)) && (StringLe(a, b) && StringLe(b, a) ==> a == b) {
      StringsCompare(a, b);
    }
    forall a, b, c | StringLe(a, b) && StringLe(b, c) ensures StringLe(a, c) {
      StringsChain(a, b, c);
    }
  }

  /** Field first, then operator, then value. */
  predicate KeyLe(a: Canonical, b: Canonical) {
    if a.field != b.field then StringLe(a.field, b.field)
    else if a.op != b.op then StringLe(a.op, b.op)
    else StringLe(a.repr, b.repr)
  }

  lemma KeysCompare(a: Canonical, b: Canonical)
    ensures KeyLe(a, b) || KeyLe(b, a)
    ensures KeyLe(a, b) && KeyLe(b, a) ==> a == b
  {
    StringsCompare(a.field, b.field);
    StringsCompare(a.op, b.op);
    StringsCompare(a.repr, b.repr);
  }

  lemma KeysChain(a: Canonical, b: Canonical, c: Canonical)
    requires KeyLe(a, b) && KeyLe(b, c)
    ensures KeyLe(a, c)
  {
    if a.field != b.field && b.field != c.field {
      StringsChain(a.field, b.field, c.field);
      StringsCompare(a.field, b.field);
    } else if a.field == b.field == c.field && a.op != b.op && b.op != c.op {
      StringsChain(a.op, b.op, c.op);
      StringsCompare(a.op, b.op);
    } else if a.field == b.field == c.field && a.op == b.op == c.op {
      StringsChain(a.repr, b.repr, c.repr);
    }
  }

  lemma KeysAreOrdered()
    ensures IsTotalOrder(KeyLe)
  {
    forall a, b ensures (KeyLe(a, b) || KeyLe(b, a)) && (KeyLe(a, b) && KeyLe(b, a) ==> a == b) {
      KeysCompare(a, b);
    }
    forall a, b, c | KeyLe(a, b) && KeyLe(b, c) ensures KeyLe(a, c) {
      KeysChain(a, b, c);
    }
  }

  // ---- Canonical clauses ----

  /** `printFloat` is the text of a float's bits, which the key only copies. */
  function ValueText(printFloat: U64 -> string, v: Value): string {
    match v
    case Integer(i) => Signed(i)
    case Float(bits) => printFloat(bits)
    case Bool(b) => if b then "true" else "false"
    case Str(s) => s
  }

  function Join(parts: seq<string>, separator: string): string {
    if parts == [] then "" else if |parts| == 1 then parts[0] else parts[0] + (separator + Join(parts[1..], separator))
  }

  function Texts(pf: U64 -> string, values: seq<Value>): seq<string> {
    Map(v => ValueText(pf, v), values)
  }

  function ListText(pf: U64 -> string, values: seq<Value>): string {
    Join(Sort(Texts(pf, values), StringLe), ",")
  }

  function RangeName(op: RangeOp): string {
    match op
    case Gt => "gt"
    case Gte => "gte"
    case Lt => "lt"
    case Lte => "lte"
  }

  function PartText(k: Canonical): string {
    k.field + (":" + (k.op + (":" + k.repr)))
  }

  function FromFilter(pf: U64 -> string, c: Clause): Canonical
    decreases c, 1
  {
    match c
    case Eq(field, value) => Canonical(field, "eq", ValueText(pf, value))
    case NotEq(field, value) => Canonical(field, "neq", ValueText(pf, value))
    case In(field, values) => Canonical(field, "in", ListText(pf, values))
    case NotIn(field, values) => Canonical(field, "notin", ListText(pf, values))
    case Range(op, field, value) => Canonical(field, RangeName(op), ValueText(pf, value))
    case BucketBitmap(field, name, _) => Canonical(field, "bucket", name)
    case Not(inner) =>
      var k := FromFilter(pf, inner);
      Canonical(k.field, "not(" + (k.op + ")"), k.repr)
    case And(cs) => Canonical("", "and", Join(Sort(Parts(pf, cs), StringLe), "+"))
    case Or(cs) => Canonical("", "or", Join(Sort(Parts(pf, cs), StringLe), "|"))
    case IsNull(field) => Canonical(field, "isnull", "")
    case IsNotNull(field) => Canonical(field, "isnotnull", "")
  }

  function Parts(pf: U64 -> string, cs: seq<Clause>): (r: seq<string>)
    ensures |r| == |cs|
    decreases cs, 0
  {
    if cs == [] then [] else [PartText(FromFilter(pf, cs[0]))] + Parts(pf, cs[1..])
  }

  lemma {:induction false} PartsAreMapped(pf: U64 -> string, cs: seq<Clause>)
    ensures Parts(pf, cs) == Map(c => PartText(FromFilter(pf, c)), cs)
  {
    if cs != [] {
      PartsAreMapped(pf, cs[1..]);
    }
  }

  /** The parts one top-level clause adds; a top-level `And` adds its children. */
  function Group(pf: U64 -> string, c: Clause): Key {
    if c.And? then Map(inner => FromFilter(pf, inner), c.clauses) else [FromFilter(pf, c)]
  }

  function Flattened(pf: U64 -> string, cs: seq<Clause>): Key {
    if cs == [] then [] else Group(pf, cs[0]) + Flattened(pf, cs[1..])
  }

  function KeyOf(pf: U64 -> string, cs: seq<Clause>): Key {
    Sort(Flattened(pf, cs), KeyLe)
  }

  lemma {:induction false} FlattenedOneMore(pf: U64 -> string, cs: seq<Clause>, c: Clause)
    ensures Flattened(pf, cs + [c]) == Flattened(pf, cs) + Group(pf, c)
  {
    if cs == [] {
      assert (cs + [c])[1..] == [];
      NothingAdded(Group(pf, c));
    } else {
      FlattenedOneMore(pf, cs[1..], c);
      assert (cs + [c])[1..] == cs[1..] + [c];
      Associates(Group(pf, cs[0]), Flattened(pf, cs[1..]), Group(pf, c));
    }
  }

  method AppendGroup(pf: U64 -> string, parts: Key, inner: seq<Clause>) returns (r: Key)
    ensures r == parts + Map(c => FromFilter(pf, c), inner)
  {
    r := parts;
    var f := c => FromFilter(pf, c);
    for j := 0 to |inner|
      invariant r == parts + Map(f, inner[..j])
    {
      MapJoined(f, inner[..j], [inner[j]]);
      assert inner[..j + 1] == inner[..j] + [inner[j]];
      r := r + [FromFilter(pf, inner[j])];
    }
    assert inner[..|inner|] == inner;
  }

  method Collect(pf: U64 -> string, clauses: seq<Clause>) returns (parts: Key)
    ensures parts == Flattened(pf, clauses)
  {
    parts := [];
    for i := 0 to |clauses|
      invariant parts == Flattened(pf, clauses[..i])
    {
      FlattenedOneMore(pf, clauses[..i], clauses[i]);
      assert clauses[..i + 1] == clauses[..i] + [clauses[i]];
      if clauses[i].And? {
        parts := AppendGroup(pf, parts, clauses[i].clauses);
      } else {
        parts := parts + [FromFilter(pf, clauses[i])];
      }
    }
    assert clauses[..|clauses|] == clauses;
  }

  /** Collects the parts clause by clause, then sorts them. */
  method Canonicalize(pf: U64 -> string, clauses: seq<Clause>) returns (key: Key)
    ensures key == KeyOf(pf, clauses)
    ensures IsSorted(key, KeyLe) && multiset(key) == multiset(Flattened(pf, clauses))
  {
    var parts := Collect(pf, clauses);
    KeysAreOrdered();
    SortSorts(parts, KeyLe);
    key := Sort(parts, KeyLe);
  }
}
