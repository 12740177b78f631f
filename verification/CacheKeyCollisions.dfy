/** Different filters that share a cache key, each with a snapshot that tells them apart. */
module CacheKeyCollisions {
  import opened Base
  import opened Decimals
  import opened FilterQuery
  import opened Sorting
  import opened CacheKey
  import opened CacheKeyMeaning
  import opened CacheKeyTrees

  // ---- Texts that stand for two values ----

  function OneField(field: string, key: U64, names: map<(string, string), U64>, slots: Bitmap): Snapshot {
    Snapshot(slots, map[field := Field(map[key := slots], None)], names, None, c => 0)
  }

  /** Two different values with the same text share a key, and some snapshot tells them apart: a number
      or boolean is stored under its own key, a string only under a name. */
  lemma SameTextDiffers(pf: Floats, field: string, v: Value, t: string, x: U32)
    requires field != "id" && (v.Integer? || v.Bool?) && t == ValueText(pf, v)
    ensures KeyOf(pf, [Eq(field, v)]) == KeyOf(pf, [Eq(field, Str(t))])
    ensures MatchesAll(OneField(field, DirectKey(v).value, map[], {x}), [Eq(field, v)], x)
    ensures !MatchesAll(OneField(field, DirectKey(v).value, map[], {x}), [Eq(field, Str(t))], x)
  {
    var s := OneField(field, DirectKey(v).value, map[], {x});
    assert FromFilter(pf, Eq(field, v)) == FromFilter(pf, Eq(field, Str(t)));
    assert Flattened(pf, [Eq(field, v)]) == Flattened(pf, [Eq(field, Str(t))]);
    MatchesOne(s, Eq(field, v), x);
    MatchesOne(s, Eq(field, Str(t)), x);
  }

  /** The clause lists share a key, and some snapshot tells them apart. */
  ghost predicate Collide(pf: Floats, cs: seq<Clause>, ds: seq<Clause>) {
    KeyOf(pf, cs) == KeyOf(pf, ds) && exists s, x :: MatchesAll(s, cs, x) != MatchesAll(s, ds, x)
  }

  lemma PlainDoesNotCollide(pf: Floats, field: string, v: Value, t: string)
    requires (v.Integer? || v.Bool?) && Plain(Str(t))
    ensures !Collide(pf, [Eq(field, v)], [Eq(field, Str(t))])
  {
    if KeyOf(pf, [Eq(field, v)]) == KeyOf(pf, [Eq(field, Str(t))]) {
      forall s, x ensures MatchesAll(s, [Eq(field, v)], x) == MatchesAll(s, [Eq(field, Str(t))], x) {
        EqualKeysMeanTheSame(pf, (f, n) => {}, s, [Eq(field, v)], [Eq(field, Str(t))], x);
      }
    }
  }

  /** A string collides with a number or a boolean exactly when it is the text of one. */
  lemma StringsCollideExactly(pf: Floats, field: string, t: string)
    requires field != "id"
    ensures (exists v: Value :: (v.Integer? || v.Bool?) && Collide(pf, [Eq(field, v)], [Eq(field, Str(t))])) <==> !Plain(Str(t))
  {
    IntegerTextsExact(t);
    if Plain(Str(t)) {
      forall v: Value | v.Integer? || v.Bool? ensures !Collide(pf, [Eq(field, v)], [Eq(field, Str(t))]) {
        PlainDoesNotCollide(pf, field, v, t);
      }
    } else {
      var v := OtherReading(t);
      SameTextDiffers(pf, field, v, t, 0);
      assert Collide(pf, [Eq(field, v)], [Eq(field, Str(t))]);
    }
  }

  lemma OtherReading(t: string) returns (v: Value)
    requires !Plain(Str(t))
    ensures (v.Integer? || v.Bool?) && forall pf: Floats :: ValueText(pf, v) == t
  {
    if IsI64Text(t) {
      IntegerTextsExact(t);
      var n: I64 :| t == Signed(n);
      v := Integer(n);
    } else {
      v := Bool(t == "true");
    }
  }

  /** A string with a comma in it is not told from two strings. */
  lemma CommasCollide(pf: Floats, field: string, x: U32)
    requires field != "id"
    ensures KeyOf(pf, [In(field, [Str("a"), Str("b")])]) == KeyOf(pf, [In(field, [Str("a,b")])])
    ensures MatchesAll(OneField(field, 1, map[(field, "a") := 1], {x}), [In(field, [Str("a"), Str("b")])], x)
    ensures !MatchesAll(OneField(field, 1, map[(field, "a") := 1], {x}), [In(field, [Str("a,b")])], x)
  {
    var two := [Str("a"), Str("b")];
    var one := [Str("a,b")];
    assert Texts(pf, one) == ["a,b"] by {
      assert one[1..] == [];
    }
    assert Texts(pf, two) == ["a", "b"] by {
      assert two[1..] == [Str("b")] && two[1..][1..] == [];
    }
    SortedTwo();
    assert ListText(pf, two) == ListText(pf, one);
    assert Flattened(pf, [In(field, two)]) == Flattened(pf, [In(field, one)]);
    CommasDiffer(field, x, two, one);
  }

  lemma CommasDiffer(field: string, x: U32, two: seq<Value>, one: seq<Value>)
    requires field != "id" && two == [Str("a"), Str("b")] && one == [Str("a,b")]
    ensures MatchesAll(OneField(field, 1, map[(field, "a") := 1], {x}), [In(field, two)], x)
    ensures !MatchesAll(OneField(field, 1, map[(field, "a") := 1], {x}), [In(field, one)], x)
  {
    var s := OneField(field, 1, map[(field, "a") := 1], {x});
    MatchesOne(s, In(field, two), x);
    MatchesOne(s, In(field, one), x);
    assert MatchesValue(s, field, two[0], x);
    assert "a" != "a,b" by {
      assert |"a"| != |"a,b"|;
    }
    assert !MatchesValue(s, field, one[0], x);
  }

  /** The empty list of values is not told from the list of the empty string. */
  lemma EmptyListCollides(pf: Floats, field: string, x: U32)
    requires field != "id"
    ensures KeyOf(pf, [In(field, [])]) == KeyOf(pf, [In(field, [Str("")])])
    ensures !MatchesAll(OneField(field, 1, map[(field, "") := 1], {x}), [In(field, [])], x)
    ensures MatchesAll(OneField(field, 1, map[(field, "") := 1], {x}), [In(field, [Str("")])], x)
  {
    var s := OneField(field, 1, map[(field, "") := 1], {x});
    var one := [Str("")];
    assert Texts(pf, one) == [""] by {
      assert one[1..] == [];
    }
    assert [""][1..] == [];
    assert ListText(pf, one) == "" == ListText(pf, []);
    assert Flattened(pf, [In(field, [])]) == Flattened(pf, [In(field, one)]);
    MatchesOne(s, In(field, []), x);
    MatchesOne(s, In(field, one), x);
    assert MatchesValue(s, field, one[0], x);
  }

  /** Without any string: an empty conjunction adds nothing to the key but matches nothing, where no
      clause at all matches everything. */
  lemma EmptyAndCollides(pf: Floats, s: Snapshot, x: U32)
    ensures KeyOf(pf, [And([])]) == KeyOf(pf, [])
    ensures MatchesAll(s, [], x) && !MatchesAll(s, [And([])], x)
  {
    assert [And([])][1..] == [];
    assert Flattened(pf, [And([])]) == [];
    MatchesOne(s, And([]), x);
  }

  lemma SortedTwo()
    ensures Join(Sort(["a", "b"], StringLe), ",") == "a,b" == Join(Sort(["a,b"], StringLe), ",")
  {
    assert ["a", "b"][1..] == ["b"] && ["b"][1..] == [] && ["a,b"][1..] == [];
    assert Sort(["b"], StringLe) == ["b"];
    assert StringLe("a", "b");
    assert Sort(["a", "b"], StringLe) == ["a", "b"];
    assert Sort(["a,b"], StringLe) == ["a,b"];
    assert Join(["b"], ",") == "b";
  }

  /** A float that prints like an integer shares its key, but is no key of any value. */
  lemma FloatsCollide(pf: Floats, field: string, bits: U64, n: I64, x: U32)
    requires field != "id" && pf(bits) == Signed(n)
    ensures KeyOf(pf, [Eq(field, Float(bits))]) == KeyOf(pf, [Eq(field, Integer(n))])
    ensures MatchesAll(OneField(field, DirectKey(Integer(n)).value, map[], {x}), [Eq(field, Integer(n))], x)
    ensures !MatchesAll(OneField(field, DirectKey(Integer(n)).value, map[], {x}), [Eq(field, Float(bits))], x)
  {
    var s := OneField(field, DirectKey(Integer(n)).value, map[], {x});
    assert FromFilter(pf, Eq(field, Float(bits))) == FromFilter(pf, Eq(field, Integer(n)));
    assert Flattened(pf, [Eq(field, Float(bits))]) == Flattened(pf, [Eq(field, Integer(n))]);
    MatchesOne(s, Eq(field, Float(bits)), x);
    MatchesOne(s, Eq(field, Integer(n)), x);
  }

  // ---- Nesting is not written down ----

  lemma SortedOne(p: string)
    ensures Sort([p], StringLe) == [p]
  {
    assert [p][1..] == [];
  }

  lemma SortedPair(p: string, q: string)
    requires StringLe(p, q)
    ensures Sort([p, q], StringLe) == [p, q] && forall c :: Join([p, q], c) == p + (c + q)
  {
    assert [p, q][1..] == [q] && [q][1..] == [];
    SortedOne(q);
  }

  lemma PartsOfOne(pf: Floats, c: Clause)
    ensures Parts(pf, [c]) == [PartText(FromFilter(pf, c))]
  {
    assert [c][1..] == [];
  }

  lemma PartsOfTwo(pf: Floats, c: Clause, d: Clause)
    ensures Parts(pf, [c, d]) == [PartText(FromFilter(pf, c)), PartText(FromFilter(pf, d))]
  {
    assert [c, d][1..] == [d];
    PartsOfOne(pf, d);
  }

  lemma OneChild(pf: Floats, c: Clause)
    ensures FromFilter(pf, And([c])) == Canonical("", "and", PartText(FromFilter(pf, c)))
    ensures FromFilter(pf, Or([c])) == Canonical("", "or", PartText(FromFilter(pf, c)))
  {
    PartsOfOne(pf, c);
    SortedOne(PartText(FromFilter(pf, c)));
  }

  lemma TwoChildren(pf: Floats, c: Clause, d: Clause)
    requires StringLe(PartText(FromFilter(pf, c)), PartText(FromFilter(pf, d)))
    ensures var (p, q) := (PartText(FromFilter(pf, c)), PartText(FromFilter(pf, d)));
            && FromFilter(pf, And([c, d])) == Canonical("", "and", p + ("+" + q))
            && FromFilter(pf, Or([c, d])) == Canonical("", "or", p + ("|" + q))
  {
    PartsOfTwo(pf, c, d);
    SortedPair(PartText(FromFilter(pf, c)), PartText(FromFilter(pf, d)));
  }

  lemma AndPart(t: string)
    ensures PartText(Canonical("", "and", t)) == ":and:" + t
  {
  }

  lemma OrPart(t: string)
    ensures PartText(Canonical("", "or", t)) == ":or:" + t
  {
  }

  /** `a or (b and c)`, with `a` under brackets that change nothing. */
  function Loose(a: Clause, b: Clause, c: Clause): Clause {
    Or([And([Or([a])]), And([b, c])])
  }

  /** `(a or b) and c`, likewise. */
  function Tight(a: Clause, b: Clause, c: Clause): Clause {
    Or([And([Or([a, And([b])]), c])])
  }

  lemma BeforeColon(s: string, t: string)
    requires s != "" && t != "" && s[0] < t[0]
    ensures StringLe(s, t)
  {
  }

  lemma AndBeforeLetter(p: string, q: string)
    requires q != "" && ':' < q[0]
    ensures StringLe(":and:" + (":or:" + p), ":and:" + q)
  {
    var (a, b) := (":and:" + (":or:" + p), ":and:" + q);
    assert a[..5] == ":and:" && b[..5] == ":and:" && a[5..] == ":or:" + p && b[5..] == q;
    SharedPrefix(a, b, 5);
  }

  lemma {:induction false} SharedPrefix(a: string, b: string, n: nat)
    requires n <= |a| && n <= |b| && a[..n] == b[..n] && StringLe(a[n..], b[n..])
    ensures StringLe(a, b)
    decreases n
  {
    if n == 0 {
      assert a[0..] == a && b[0..] == b;
    } else {
      assert a[0] == a[..n][0] && b[0] == b[..n][0];
      assert a[1..][..n - 1] == a[..n][1..] && b[1..][..n - 1] == b[..n][1..];
      assert a[1..][n - 1..] == a[n..] && b[1..][n - 1..] == b[n..];
      SharedPrefix(a[1..], b[1..], n - 1);
    }
  }

  lemma LooseText(pf: Floats, a: Clause, b: Clause, c: Clause, p: string, q: string, r: string)
    requires p == PartText(FromFilter(pf, a)) && q == PartText(FromFilter(pf, b)) && r == PartText(FromFilter(pf, c))
    requires StringLe(q, r) && q != "" && ':' < q[0]
    ensures FromFilter(pf, Loose(a, b, c)) == Canonical("", "or", (":and:" + (":or:" + p)) + ("|" + (":and:" + (q + ("+" + r)))))
  {
    OneChild(pf, a);
    OrPart(p);
    OneChild(pf, Or([a]));
    AndPart(":or:" + p);
    TwoChildren(pf, b, c);
    AndPart(q + ("+" + r));
    AndBeforeLetter(p, q + ("+" + r));
    TwoChildren(pf, And([Or([a])]), And([b, c]));
  }

  lemma TightText(pf: Floats, a: Clause, b: Clause, c: Clause, p: string, q: string, r: string)
    requires p == PartText(FromFilter(pf, a)) && q == PartText(FromFilter(pf, b)) && r == PartText(FromFilter(pf, c))
    requires p != "" && p[0] < ':' && r != "" && ':' < r[0]
    ensures FromFilter(pf, Tight(a, b, c)) == Canonical("", "or", ":and:" + ((":or:" + (p + ("|" + (":and:" + q)))) + ("+" + r)))
  {
    OneChild(pf, b);
    AndPart(q);
    BeforeColon(p, ":and:" + q);
    TwoChildren(pf, a, And([b]));
    var t := p + ("|" + (":and:" + q));
    OrPart(t);
    BeforeColon(":or:" + t, r);
    TwoChildren(pf, Or([a, And([b])]), c);
    AndPart((":or:" + t) + ("+" + r));
    OneChild(pf, And([Or([a, And([b])]), c]));
  }

  lemma SameText(p: string, q: string, r: string)
    ensures (":and:" + (":or:" + p)) + ("|" + (":and:" + (q + ("+" + r)))) == ":and:" + ((":or:" + (p + ("|" + (":and:" + q)))) + ("+" + r))
  {
    Associates(":and:", q, "+" + r);
    Associates("|", ":and:" + q, "+" + r);
    Associates(p, "|" + (":and:" + q), "+" + r);
    Associates(":or:", p + ("|" + (":and:" + q)), "+" + r);
    Associates(":or:", p, "|" + ((":and:" + q) + ("+" + r)));
    Associates(":and:", ":or:" + p, "|" + (":and:" + (q + ("+" + r))));
  }

  /** Keys do not say where an inner `And` or `Or` ends: `a or (b and c)` shares its key with
      `(a or b) and c` wherever `a` sorts before a colon and `b` and `c` after it, in that order. */
  lemma NestingShares(pf: Floats, a: Clause, b: Clause, c: Clause)
    requires var (p, q, r) := (PartText(FromFilter(pf, a)), PartText(FromFilter(pf, b)), PartText(FromFilter(pf, c)));
             p[0] < ':' && ':' < q[0] && ':' < r[0] && StringLe(q, r)
    ensures KeyOf(pf, [Loose(a, b, c)]) == KeyOf(pf, [Tight(a, b, c)])
  {
    var (p, q, r) := (PartText(FromFilter(pf, a)), PartText(FromFilter(pf, b)), PartText(FromFilter(pf, c)));
    LooseText(pf, a, b, c, p, q, r);
    TightText(pf, a, b, c, p, q, r);
    SameText(p, q, r);
    KeyOfOne(pf, Loose(a, b, c));
    KeyOfOne(pf, Tight(a, b, c));
  }

  lemma LooseMeans(s: Snapshot, a: Clause, b: Clause, c: Clause, x: U32)
    ensures Matches(s, a, x) ==> Matches(s, Loose(a, b, c), x)
  {
    if Matches(s, a, x) {
      assert [a][0] == a && Matches(s, Or([a]), x);
      assert [Or([a])][0] == Or([a]) && Matches(s, And([Or([a])]), x);
      assert Loose(a, b, c).clauses[0] == And([Or([a])]);
    }
  }

  lemma TightMeans(s: Snapshot, a: Clause, b: Clause, c: Clause, x: U32)
    ensures !Matches(s, c, x) ==> !Matches(s, Tight(a, b, c), x)
  {
    var both := [Or([a, And([b])]), c];
    if !Matches(s, c, x) {
      assert both[1] == c && !MatchesAll(s, both, x) && !Matches(s, And(both), x);
    }
  }

  lemma LeafStarts(pf: Floats, field: string, v: Value)
    requires field != ""
    ensures PartText(FromFilter(pf, Eq(field, v)))[0] == field[0]
  {
  }

  lemma NestedEqualitiesShare(pf: Floats, f: string, g: string, h: string, a: Clause, b: Clause, c: Clause)
    requires f != "" && g != "" && h != "" && f[0] < ':' < g[0] < h[0]
    requires a == Eq(f, Integer(1)) && b == Eq(g, Integer(1)) && c == Eq(h, Integer(1))
    ensures KeyOf(pf, [Loose(a, b, c)]) == KeyOf(pf, [Tight(a, b, c)])
  {
    LeafStarts(pf, f, Integer(1));
    LeafStarts(pf, g, Integer(1));
    LeafStarts(pf, h, Integer(1));
    BeforeColon(PartText(FromFilter(pf, b)), PartText(FromFilter(pf, c)));
    NestingShares(pf, a, b, c);
  }

  lemma HoldsOnly(f: string, h: string, x: U32)
    requires f != h && f != "id" && h != "id"
    ensures Matches(OneField(f, 1, map[], {x}), Eq(f, Integer(1)), x) && !Matches(OneField(f, 1, map[], {x}), Eq(h, Integer(1)), x)
  {
  }

  /** Three equalities over integers, and one slot that holds the first. */
  lemma NestingCollides(pf: Floats, f: string, g: string, h: string, x: U32)
    requires f != "" && g != "" && h != "" && f[0] < ':' < g[0] < h[0] && h != "id"
    ensures var (a, b, c, s) := (Eq(f, Integer(1)), Eq(g, Integer(1)), Eq(h, Integer(1)), OneField(f, 1, map[], {x}));
            && KeyOf(pf, [Loose(a, b, c)]) == KeyOf(pf, [Tight(a, b, c)])
            && MatchesAll(s, [Loose(a, b, c)], x) && !MatchesAll(s, [Tight(a, b, c)], x)
  {
    var (a, b, c, s) := (Eq(f, Integer(1)), Eq(g, Integer(1)), Eq(h, Integer(1)), OneField(f, 1, map[], {x}));
    NestedEqualitiesShare(pf, f, g, h, a, b, c);
    HoldsOnly(f, h, x);
    LooseMeans(s, a, b, c, x);
    TightMeans(s, a, b, c, x);
    MatchesOne(s, Loose(a, b, c), x);
    MatchesOne(s, Tight(a, b, c), x);
  }
}
