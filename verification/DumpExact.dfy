/** Only canonical expressions survive printing and parsing. */
module DumpExact {
  import opened Base
  import opened Decimals
  import opened DumpExpression
  import opened DumpLexer

  // ---- A printed expression is a flat list of items and operators ----

  predicate IsBinary(e: Expr) {
    e.Eq? || e.NotEq? || e.And? || e.Or?
  }

  function OpOf(e: Expr): Token
    requires IsBinary(e)
  {
    if e.Eq? then EqEq else if e.NotEq? then Differs else if e.And? then AndAnd else OrOr
  }

  /** The operands in the order in which they are printed. */
  function Items(e: Expr): (r: seq<Expr>)
    ensures r != [] && (!IsBinary(e) ==> r == [e])
  {
    if IsBinary(e) then Items(e.l) + Items(e.r) else [e]
  }

  function Ops(e: Expr): (r: Tokens)
    ensures |r| + 1 == |Items(e)|
  {
    if IsBinary(e) then Ops(e.l) + ([OpOf(e)] + Ops(e.r)) else []
  }

  predicate IsBinaryOp(t: Token) {
    t.EqEq? || t.Differs? || t.AndAnd? || t.OrOr?
  }

  /** How deep bitfields nest. */
  function Depth(e: Expr): nat {
    if e.Bitfield? then 1 + Depth(e.expr) else if IsBinary(e) then Larger(Depth(e.l), Depth(e.r)) else 0
  }

  function Larger(a: nat, b: nat): nat {
    if a < b then b else a
  }

  /** Printable operands at most `n` bitfields deep, with binary operators between them. */
  predicate Listed(items: seq<Expr>, ops: Tokens, n: nat) {
    && |items| == |ops| + 1
    && Printable(items[0]) && !IsBinary(items[0]) && Depth(items[0]) <= n
    && (ops != [] ==> IsBinaryOp(ops[0]) && Listed(items[1..], ops[1..], n))
  }

  function Flat(items: seq<Expr>, ops: Tokens): Tokens
    requires |items| == |ops| + 1
  {
    if ops == [] then TokensOf(items[0]) else TokensOf(items[0]) + ([ops[0]] + Flat(items[1..], ops[1..]))
  }

  lemma {:induction false} FlatJoined(a: seq<Expr>, p: Tokens, op: Token, b: seq<Expr>, q: Tokens)
    requires |a| == |p| + 1 && |b| == |q| + 1
    ensures Flat(a + b, p + ([op] + q)) == Flat(a, p) + ([op] + Flat(b, q))
    decreases |a|
  {
    var (items, ops) := (a + b, p + ([op] + q));
    if p == [] {
      assert items[1..] == b && ops[0] == op && ops[1..] == q;
    } else {
      FlatJoined(a[1..], p[1..], op, b, q);
      assert items[1..] == a[1..] + b && ops[1..] == p[1..] + ([op] + q);
      Regroup(TokensOf(a[0]), p[0], Flat(a[1..], p[1..]), [op] + Flat(b, q));
    }
  }

  lemma BinaryTokens(e: Expr)
    requires IsBinary(e)
    ensures TokensOf(e) == TokensOf(e.l) + ([OpOf(e)] + TokensOf(e.r))
  {
  }

  lemma JoinedIsFlat(l: Tokens, a: seq<Expr>, p: Tokens, op: Token, r: Tokens, b: seq<Expr>, q: Tokens, items: seq<Expr>, ops: Tokens)
    requires |a| == |p| + 1 && |b| == |q| + 1 && l == Flat(a, p) && r == Flat(b, q)
    requires items == a + b && ops == p + ([op] + q)
    ensures l + ([op] + r) == Flat(items, ops)
  {
    FlatJoined(a, p, op, b, q);
  }

  lemma {:induction false} PrintedIsFlat(e: Expr)
    ensures TokensOf(e) == Flat(Items(e), Ops(e))
  {
    if IsBinary(e) {
      PrintedIsFlat(e.l);
      PrintedIsFlat(e.r);
      BinaryTokens(e);
      JoinedIsFlat(TokensOf(e.l), Items(e.l), Ops(e.l), OpOf(e), TokensOf(e.r), Items(e.r), Ops(e.r), Items(e), Ops(e));
    }
  }

  lemma {:induction false} ListedJoined(a: seq<Expr>, p: Tokens, op: Token, b: seq<Expr>, q: Tokens, n: nat)
    requires Listed(a, p, n) && IsBinaryOp(op) && Listed(b, q, n)
    ensures Listed(a + b, p + ([op] + q), n)
    decreases |a|
  {
    var (items, ops) := (a + b, p + ([op] + q));
    if p == [] {
      assert items[1..] == b && ops[0] == op && ops[1..] == q;
    } else {
      assert items[1..] == a[1..] + b && ops[1..] == p[1..] + ([op] + q);
      ListedJoined(a[1..], p[1..], op, b, q, n);
    }
  }

  lemma {:induction false} ItemsAreListed(e: Expr, n: nat)
    requires Printable(e) && Depth(e) <= n
    ensures Listed(Items(e), Ops(e), n)
  {
    if IsBinary(e) {
      ItemsAreListed(e.l, n);
      ItemsAreListed(e.r, n);
      ListedJoined(Items(e.l), Ops(e.l), OpOf(e), Items(e.r), Ops(e.r), n);
    }
  }

  lemma {:induction false} ListedFrom(items: seq<Expr>, ops: Tokens, n: nat, k: nat)
    requires Listed(items, ops, n) && 1 <= k < |items|
    ensures Listed(items[k..], ops[k..], n) && IsBinaryOp(ops[k - 1])
    decreases k
  {
    if k > 1 {
      ListedFrom(items[1..], ops[1..], n, k - 1);
      assert items[1..][k - 1..] == items[k..] && ops[1..][k - 1..] == ops[k..];
    }
  }

  // ---- What may follow, and what an item may turn into ----

  /** Either the list goes on or ends, or its last item is shifted inside parentheses. */
  datatype Tail = Plain(rest: Tokens) | Shifted(shift: U32, rest: Tokens)

  predicate StartsBinary(ts: Tokens) {
    ts != [] && IsBinaryOp(ts[0])
  }

  predicate Follows(t: Tail) {
    t.Plain? ==> t.rest == [] || StartsBinary(t.rest)
  }

  /** The tail of a whole list. */
  predicate Closes(t: Tail) {
    t.Plain? ==> t.rest == []
  }

  function TailTokens(t: Tail): Tokens {
    if t.Plain? then t.rest else [ShiftRight] + ([Int(t.shift)] + ([RParen] + t.rest))
  }

  /** What is left of the tail once the last item has taken its shift. */
  function Left(t: Tail): Tokens {
    if t.Plain? then t.rest else [RParen] + t.rest
  }

  /** An item reads as itself only if it is canonical, and never if it is shifted. */
  predicate ReadsAsItem(i: Expr, x: Expr, shifted: bool) {
    if shifted then x.Bitfield? && !i.Bitfield? && (x.expr == i ==> IsAtom(i))
    else !IsBinary(x) && (x == i ==> IsBitwise(i))
  }

  lemma LeafReads(i: Expr, tail: Tokens)
    requires Printable(i) && !IsBinary(i) && !i.Bitfield? && !StartsWith(tail, LParen)
    ensures var r := ParseAtom(TokensOf(i) + tail);
            r.Some? ==> r.value.1 == tail && !IsBinary(r.value.0) && !r.value.0.Bitfield? && (r.value.0 == i ==> IsAtom(i))
  {
    var ts := TokensOf(i) + tail;
    if i.Max? {
      AfterTwo(Ident("max"), LParen, ColumnTokens(i.cols), tail);
      if i.cols != [] {
        ParsesColumns(i.cols, tail);
      }
    } else {
      assert ts[1..] == tail;
    }
  }

  lemma LeafItemReads(i: Expr, t: Tail)
    requires Printable(i) && !IsBinary(i) && !i.Bitfield? && Follows(t)
    ensures var r := ParseBitwise(TokensOf(i) + TailTokens(t));
            r.Some? ==> r.value.1 == Left(t) && ReadsAsItem(i, r.value.0, t.Shifted?)
  {
    var ts := TokensOf(i) + TailTokens(t);
    LeafReads(i, TailTokens(t));
    var a := ParseAtom(ts);
    if a.Some? {
      if t.Plain? {
        ShiftOfAtom(ts, a.value.0, t.rest);
        BitwiseOfShift(ts, a.value.0, t.rest);
      } else {
        assert TailTokens(t)[1..] == [Int(t.shift)] + ([RParen] + t.rest);
        ParsesNumber(t.shift, [RParen] + t.rest);
        ShiftOfAtoms(ts, a.value.0, TailTokens(t), t.shift, Left(t));
        BitwiseOfShift(ts, Bitfield(a.value.0, t.shift, NO_MASK), Left(t));
      }
    }
  }

  /** What `(x >> s)` reads as is either a shift of something else than `x`, or of an atom. */
  predicate ReadsAsGroup(x: Expr, g: Expr) {
    (g.Bitfield? && g.expr == x ==> IsAtom(x)) && (!g.Bitfield? ==> g != x)
  }

  lemma MaskedReads(ts: Tokens, g: Expr, mask: U64, t: Tail)
    requires ParseAtom(ts) == Some((g, [Ampersand] + ([Int(mask)] + TailTokens(t)))) && mask < 0x8000_0000_0000_0000 && Follows(t)
    ensures t.Shifted? ==> ParseBitwise(ts) == None
    ensures t.Plain? ==> ParseBitwise(ts) == Some((if g.Bitfield? then g.(mask := mask) else Bitfield(g, 0, mask), t.rest))
  {
    var masked := [Int(mask)] + TailTokens(t);
    ShiftOfAtom(ts, g, [Ampersand] + masked);
    assert ([Ampersand] + masked)[1..] == masked;
    ParsesNumber(mask, TailTokens(t));
    if t.Plain? {
      ShiftOfAtom(masked, IntLit(mask), t.rest);
    } else {
      assert TailTokens(t)[1..] == [Int(t.shift)] + ([RParen] + t.rest);
      ParsesNumber(t.shift, [RParen] + t.rest);
      ShiftOfAtoms(masked, IntLit(mask), TailTokens(t), t.shift, Left(t));
    }
  }

  // ---- What a whole list reads as ----

  predicate ClosedList(items: seq<Expr>, ops: Tokens, t: Tail, n: nat) {
    Listed(items, ops, n) && Closes(t)
  }

  /** What is left once the first `k` items have been read. */
  function RestOf(items: seq<Expr>, ops: Tokens, k: nat, t: Tail): Tokens
    requires |items| == |ops| + 1 && 1 <= k <= |items|
    decreases k
  {
    if k > 1 then RestOf(items[1..], ops[1..], k - 1, t)
    else if ops == [] then Left(t) else [ops[0]] + (Flat(items[1..], ops[1..]) + TailTokens(t))
  }

  lemma {:induction false} RestIs(items: seq<Expr>, ops: Tokens, k: nat, t: Tail)
    requires |items| == |ops| + 1 && 1 <= k <= |items|
    ensures RestOf(items, ops, k, t) == if k == |items| then Left(t) else [ops[k - 1]] + (Flat(items[k..], ops[k..]) + TailTokens(t))
    decreases k
  {
    if k > 1 {
      RestIs(items[1..], ops[1..], k - 1, t);
      assert k < |items| ==> items[1..][k - 1..] == items[k..] && ops[1..][k - 1..] == ops[k..];
    }
  }

  /** Item by item, and the last of the whole list may have been shifted. */
  predicate Aligned(got: seq<Expr>, items: seq<Expr>, k: nat, t: Tail)
    requires k <= |items|
    decreases k
  {
    |got| == k && (k > 0 ==> ReadsAsItem(items[0], got[0], t.Shifted? && |items| == 1) && Aligned(got[1..], items[1..], k - 1, t))
  }

  lemma {:induction false} AlignedAt(got: seq<Expr>, items: seq<Expr>, k: nat, t: Tail, i: nat)
    requires k <= |items| && Aligned(got, items, k, t) && i < k
    ensures ReadsAsItem(items[i], got[i], t.Shifted? && i == |items| - 1)
    decreases k
  {
    if i > 0 {
      AlignedAt(got[1..], items[1..], k - 1, t, i - 1);
    }
  }

  /** The trees that a level of the parser builds, whatever their items. */
  predicate ItemShape(e: Expr) {
    !IsBinary(e)
  }

  predicate ComparisonShape(e: Expr) {
    !IsBinary(e) || ((e.Eq? || e.NotEq?) && !IsBinary(e.l) && !IsBinary(e.r))
  }

  predicate ConjunctionShape(e: Expr) {
    if e.And? then ConjunctionShape(e.l) && ComparisonShape(e.r) else ComparisonShape(e)
  }

  predicate DisjunctionShape(e: Expr) {
    if e.Or? then DisjunctionShape(e.l) && ConjunctionShape(e.r) else ConjunctionShape(e)
  }

  /** The tree spells out the first items and the tokens go on behind them. */
  ghost predicate Stands(shape: Expr -> bool, items: seq<Expr>, ops: Tokens, t: Tail, e: Expr, ts: Tokens)
    requires |items| == |ops| + 1
  {
    var k := |Items(e)|;
    shape(e) && k <= |items| && Aligned(Items(e), items, k, t) && ts == RestOf(items, ops, k, t)
  }

  /** A level of the parser that starts at the first item stops behind the items of the tree it reads. */
  ghost predicate Reads(shape: Expr -> bool, items: seq<Expr>, ops: Tokens, t: Tail, r: Parsed)
    requires |items| == |ops| + 1
  {
    r.Some? ==> Stands(shape, items, ops, t, r.value.0, r.value.1)
  }

  lemma {:induction false} ItemReads(i: Expr, t: Tail, n: nat)
    requires Printable(i) && !IsBinary(i) && Depth(i) <= n && Follows(t)
    ensures var r := ParseBitwise(TokensOf(i) + TailTokens(t));
            r.Some? ==> r.value.1 == Left(t) && ReadsAsItem(i, r.value.0, t.Shifted?)
    decreases n, 0
  {
    if i.Bitfield? {
      var ts := TokensOf(i) + TailTokens(t);
      BitfieldTokens(i.expr, i.shift, i.mask, TailTokens(t));
      GroupReads(i.expr, i.shift, [Ampersand] + ([Int(i.mask)] + TailTokens(t)), n - 1);
      var g := ParseAtom(ts);
      if g.Some? {
        MaskedReads(ts, g.value.0, i.mask, t);
      }
    } else {
      LeafItemReads(i, t);
    }
  }

  lemma {:induction false} GroupReads(x: Expr, shift: U32, rest: Tokens, n: nat)
    requires Printable(x) && Depth(x) <= n
    ensures var r := ParseAtom([LParen] + (TokensOf(x) + ([ShiftRight] + ([Int(shift)] + ([RParen] + rest)))));
            r.Some? ==> r.value.1 == rest && ReadsAsGroup(x, r.value.0)
    decreases n, 8
  {
    var t := Shifted(shift, rest);
    PrintedIsFlat(x);
    ItemsAreListed(x, n);
    OrReads(Items(x), Ops(x), t, n);
    GroupOfList(x, t, n);
  }

  lemma GroupOfList(x: Expr, t: Tail, n: nat)
    requires Listed(Items(x), Ops(x), n) && t.Shifted?
    requires Reads(DisjunctionShape, Items(x), Ops(x), t, ParseOr(TokensOf(x) + TailTokens(t)))
    ensures var r := ParseAtom([LParen] + (TokensOf(x) + TailTokens(t)));
            r.Some? ==> r.value.1 == t.rest && ReadsAsGroup(x, r.value.0)
  {
    var inner := TokensOf(x) + TailTokens(t);
    var r := ParseOr(inner);
    AtomOfGroup(inner, r);
    if r.Some? {
      GroupCloses(Items(x), Ops(x), |Items(r.value.0)|, t, n);
      if |Items(r.value.0)| == |Items(x)| {
        GroupOfAligned(x, r.value.0, t);
      }
    }
  }

  lemma AtomOfGroup(inner: Tokens, e: Parsed)
    requires e == ParseOr(inner)
    ensures ParseAtom([LParen] + inner) ==
            if e.Some? && StartsWith(e.value.1, RParen) then Some((e.value.0, e.value.1[1..])) else None
  {
    assert ([LParen] + inner)[1..] == inner;
  }

  lemma GroupCloses(items: seq<Expr>, ops: Tokens, k: nat, t: Tail, n: nat)
    requires Listed(items, ops, n) && t.Shifted? && 1 <= k <= |items|
    ensures var rest := RestOf(items, ops, k, t);
            if k == |items| then StartsWith(rest, RParen) && rest[1..] == t.rest else !StartsWith(rest, RParen)
  {
    RestIs(items, ops, k, t);
    if k < |items| {
      ListedFrom(items, ops, n, k);
    }
  }

  lemma GroupOfAligned(x: Expr, g: Expr, t: Tail)
    requires t.Shifted? && Aligned(Items(g), Items(x), |Items(x)|, t)
    ensures ReadsAsGroup(x, g)
  {
    var last := |Items(x)| - 1;
    AlignedAt(Items(g), Items(x), last + 1, t, last);
  }

  lemma FirstOfList(items: seq<Expr>, ops: Tokens, tail: Tokens)
    requires |items| == |ops| + 1 && ops != []
    ensures Flat(items, ops) + tail == TokensOf(items[0]) + ([ops[0]] + (Flat(items[1..], ops[1..]) + tail))
  {
    Regroup(TokensOf(items[0]), ops[0], Flat(items[1..], ops[1..]), tail);
  }

  lemma {:induction false} BitwiseReads(items: seq<Expr>, ops: Tokens, t: Tail, n: nat)
    requires ClosedList(items, ops, t, n)
    ensures var r := ParseBitwise(Flat(items, ops) + TailTokens(t));
            r.Some? ==> r.value.1 == RestOf(items, ops, 1, t) && ReadsAsItem(items[0], r.value.0, t.Shifted? && |items| == 1)
    decreases n, 1
  {
    if ops == [] {
      ItemReads(items[0], t, n);
    } else {
      FirstOfList(items, ops, TailTokens(t));
      ItemReads(items[0], Plain(RestOf(items, ops, 1, t)), n);
    }
  }

  // ---- The levels of the parser, each on top of the one below ----

  lemma {:induction false} RestContinues(items: seq<Expr>, ops: Tokens, k: nat, j: nat, t: Tail)
    requires |items| == |ops| + 1 && 1 <= k < |items| && 1 <= j <= |items| - k
    ensures RestOf(items[k..], ops[k..], j, t) == RestOf(items, ops, k + j, t)
    decreases k
  {
    if k > 1 {
      RestContinues(items[1..], ops[1..], k - 1, j, t);
      assert items[1..][k - 1..] == items[k..] && ops[1..][k - 1..] == ops[k..];
    }
  }

  lemma {:induction false} AlignedJoined(a: seq<Expr>, b: seq<Expr>, items: seq<Expr>, k: nat, j: nat, t: Tail)
    requires k < |items| && j <= |items| - k && Aligned(a, items, k, t) && Aligned(b, items[k..], j, t)
    ensures Aligned(a + b, items, k + j, t)
    decreases k
  {
    if k == 0 {
      assert a + b == b;
    } else {
      assert items[1..][k - 1..] == items[k..] && (a + b)[1..] == a[1..] + b;
      AlignedJoined(a[1..], b, items[1..], k - 1, j, t);
    }
  }

  lemma RestCloses(items: seq<Expr>, ops: Tokens, k: nat, t: Tail, n: nat)
    requires ClosedList(items, ops, t, n) && 1 <= k < |items|
    ensures ClosedList(items[k..], ops[k..], t, n)
    ensures RestOf(items, ops, k, t) == [ops[k - 1]] + (Flat(items[k..], ops[k..]) + TailTokens(t))
  {
    ListedFrom(items, ops, n, k);
    RestIs(items, ops, k, t);
  }

  lemma ItemsJoined(a: seq<Expr>, b: seq<Expr>, items: seq<Expr>, ops: Tokens, k: nat, m: nat, t: Tail)
    requires |items| == |ops| + 1 && 1 <= k < |items| && Aligned(a, items, k, t)
    requires 1 <= m <= |items| - k && Aligned(b, items[k..], m, t)
    ensures Aligned(a + b, items, k + m, t) && RestOf(items[k..], ops[k..], m, t) == RestOf(items, ops, k + m, t)
  {
    RestContinues(items, ops, k, m, t);
    AlignedJoined(a, b, items, k, m, t);
  }

  /** A right operand read from the rest of the list extends what was read. */
  lemma Extends(shape: Expr -> bool, lower: Expr -> bool, left: seq<Expr>, r: Parsed, e: Expr, items: seq<Expr>, ops: Tokens, t: Tail)
    requires |items| == |ops| + 1 && 1 <= |left| < |items| && Aligned(left, items, |left|, t)
    requires Reads(lower, items[|left|..], ops[|left|..], t, r) && r.Some?
    requires Items(e) == left + Items(r.value.0) && shape(e)
    ensures Stands(shape, items, ops, t, e, r.value.1)
  {
    ItemsJoined(left, Items(r.value.0), items, ops, |left|, |Items(r.value.0)|, t);
  }

  lemma OneItem(items: seq<Expr>, ops: Tokens, e: Expr, t: Tail)
    requires |items| == |ops| + 1 && ReadsAsItem(items[0], e, t.Shifted? && |items| == 1)
    ensures Items(e) == [e] && Aligned([e], items, 1, t) && !IsBinary(e)
  {
  }

  lemma ComparisonOfTwo(ts: Tokens, l: Expr, rest: Tokens, e: Parsed)
    requires ParseBitwise(ts) == Some((l, rest)) && rest != [] && (rest[0].EqEq? || rest[0].Differs?)
    requires e == ParseBitwise(rest[1..])
    ensures ParseComparison(ts) ==
            if e.None? then None else Some((if rest[0].EqEq? then Eq(l, e.value.0) else NotEq(l, e.value.0), e.value.1))
  {
  }

  lemma {:induction false} ComparisonReads(items: seq<Expr>, ops: Tokens, t: Tail, n: nat)
    requires ClosedList(items, ops, t, n)
    ensures Reads(ComparisonShape, items, ops, t, ParseComparison(Flat(items, ops) + TailTokens(t)))
    decreases n, 3
  {
    var ts := Flat(items, ops) + TailTokens(t);
    BitwiseReads(items, ops, t, n);
    var l := ParseBitwise(ts);
    if l.Some? {
      OneItem(items, ops, l.value.0, t);
      if ops != [] && (ops[0].EqEq? || ops[0].Differs?) {
        SecondOperandReads(ts, l.value.0, items, ops, t, n);
      } else {
        ComparisonOfBitwise(ts, l.value.0, l.value.1);
      }
    }
  }

  lemma {:induction false} SecondOperandReads(ts: Tokens, l: Expr, items: seq<Expr>, ops: Tokens, t: Tail, n: nat)
    requires ClosedList(items, ops, t, n) && ops != [] && (ops[0].EqEq? || ops[0].Differs?)
    requires ParseBitwise(ts) == Some((l, RestOf(items, ops, 1, t))) && Items(l) == [l] && Aligned([l], items, 1, t) && !IsBinary(l)
    ensures Reads(ComparisonShape, items, ops, t, ParseComparison(ts))
    decreases n, 2
  {
    RestCloses(items, ops, 1, t, n);
    BitwiseReads(items[1..], ops[1..], t, n);
    var rest := RestOf(items, ops, 1, t);
    assert rest[1..] == Flat(items[1..], ops[1..]) + TailTokens(t);
    var x := ParseBitwise(rest[1..]);
    ComparisonOfTwo(ts, l, rest, x);
    if x.Some? {
      OneItem(items[1..], ops[1..], x.value.0, t);
      var e := if ops[0].EqEq? then Eq(l, x.value.0) else NotEq(l, x.value.0);
      Extends(ComparisonShape, ItemShape, [l], x, e, items, ops, t);
    }
  }

  lemma RestStarts(items: seq<Expr>, ops: Tokens, k: nat, t: Tail, op: Token)
    requires |items| == |ops| + 1 && Closes(t) && 1 <= k <= |items| && (op.AndAnd? || op.OrOr?)
    ensures StartsWith(RestOf(items, ops, k, t), op) <==> k < |items| && ops[k - 1] == op
  {
    RestIs(items, ops, k, t);
  }

  /** One more operand keeps what holds of the tree and the tokens behind it. */
  ghost predicate KeptByAnd(holds: (Expr, Tokens) -> bool) {
    forall l, ts :: holds(l, ts) && StartsWith(ts, AndAnd) && ParseComparison(ts[1..]).Some? ==>
      holds(And(l, ParseComparison(ts[1..]).value.0), ParseComparison(ts[1..]).value.1)
  }

  lemma {:induction false} AndLoopKeeps(holds: (Expr, Tokens) -> bool, left: Expr, ts: Tokens)
    requires KeptByAnd(holds) && holds(left, ts)
    ensures AndLoop(left, ts).Some? ==> holds(AndLoop(left, ts).value.0, AndLoop(left, ts).value.1)
    decreases |ts|
  {
    if StartsWith(ts, AndAnd) {
      var r := ParseComparison(ts[1..]);
      if r.Some? {
        AndLoopKeeps(holds, And(left, r.value.0), r.value.1);
      }
    }
  }

  lemma {:induction false} AndStepStands(l: Expr, ts: Tokens, items: seq<Expr>, ops: Tokens, t: Tail, n: nat)
    requires ClosedList(items, ops, t, n) && Stands(ConjunctionShape, items, ops, t, l, ts) && StartsWith(ts, AndAnd) && ParseComparison(ts[1..]).Some?
    ensures Stands(ConjunctionShape, items, ops, t, And(l, ParseComparison(ts[1..]).value.0), ParseComparison(ts[1..]).value.1)
    decreases n, 4
  {
    var k := |Items(l)|;
    RestStarts(items, ops, k, t, AndAnd);
    RestCloses(items, ops, k, t, n);
    assert ts[1..] == Flat(items[k..], ops[k..]) + TailTokens(t);
    ComparisonReads(items[k..], ops[k..], t, n);
    var r := ParseComparison(ts[1..]);
    Extends(ConjunctionShape, ComparisonShape, Items(l), r, And(l, r.value.0), items, ops, t);
  }

  lemma {:induction false} AndReads(items: seq<Expr>, ops: Tokens, t: Tail, n: nat)
    requires ClosedList(items, ops, t, n)
    ensures Reads(ConjunctionShape, items, ops, t, ParseAnd(Flat(items, ops) + TailTokens(t)))
    decreases n, 5
  {
    ComparisonReads(items, ops, t, n);
    var l := ParseComparison(Flat(items, ops) + TailTokens(t));
    if l.Some? {
      var holds := (e: Expr, ts: Tokens) => Stands(ConjunctionShape, items, ops, t, e, ts);
      forall e, ts | holds(e, ts) && StartsWith(ts, AndAnd) && ParseComparison(ts[1..]).Some?
        ensures holds(And(e, ParseComparison(ts[1..]).value.0), ParseComparison(ts[1..]).value.1)
      {
        AndStepStands(e, ts, items, ops, t, n);
      }
      AndLoopKeeps(holds, l.value.0, l.value.1);
    }
  }

  /** One more operand keeps what holds of the tree and the tokens behind it. */
  ghost predicate KeptByOr(holds: (Expr, Tokens) -> bool) {
    forall l, ts :: holds(l, ts) && StartsWith(ts, OrOr) && ParseAnd(ts[1..]).Some? ==>
      holds(Or(l, ParseAnd(ts[1..]).value.0), ParseAnd(ts[1..]).value.1)
  }

  lemma {:induction false} OrLoopKeeps(holds: (Expr, Tokens) -> bool, left: Expr, ts: Tokens)
    requires KeptByOr(holds) && holds(left, ts)
    ensures OrLoop(left, ts).Some? ==> holds(OrLoop(left, ts).value.0, OrLoop(left, ts).value.1)
    decreases |ts|
  {
    if StartsWith(ts, OrOr) {
      var r := ParseAnd(ts[1..]);
      if r.Some? {
        OrLoopKeeps(holds, Or(left, r.value.0), r.value.1);
      }
    }
  }

  lemma {:induction false} OrStepStands(l: Expr, ts: Tokens, items: seq<Expr>, ops: Tokens, t: Tail, n: nat)
    requires ClosedList(items, ops, t, n) && Stands(DisjunctionShape, items, ops, t, l, ts) && StartsWith(ts, OrOr) && ParseAnd(ts[1..]).Some?
    ensures Stands(DisjunctionShape, items, ops, t, Or(l, ParseAnd(ts[1..]).value.0), ParseAnd(ts[1..]).value.1)
    decreases n, 6
  {
    var k := |Items(l)|;
    RestStarts(items, ops, k, t, OrOr);
    RestCloses(items, ops, k, t, n);
    assert ts[1..] == Flat(items[k..], ops[k..]) + TailTokens(t);
    AndReads(items[k..], ops[k..], t, n);
    var r := ParseAnd(ts[1..]);
    Extends(DisjunctionShape, ConjunctionShape, Items(l), r, Or(l, r.value.0), items, ops, t);
  }

  lemma {:induction false} OrReads(items: seq<Expr>, ops: Tokens, t: Tail, n: nat)
    requires ClosedList(items, ops, t, n)
    ensures Reads(DisjunctionShape, items, ops, t, ParseOr(Flat(items, ops) + TailTokens(t)))
    decreases n, 7
  {
    AndReads(items, ops, t, n);
    var l := ParseAnd(Flat(items, ops) + TailTokens(t));
    if l.Some? {
      var holds := (e: Expr, ts: Tokens) => Stands(DisjunctionShape, items, ops, t, e, ts);
      forall e, ts | holds(e, ts) && StartsWith(ts, OrOr) && ParseAnd(ts[1..]).Some?
        ensures holds(Or(e, ParseAnd(ts[1..]).value.0), ParseAnd(ts[1..]).value.1)
      {
        OrStepStands(e, ts, items, ops, t, n);
      }
      OrLoopKeeps(holds, l.value.0, l.value.1);
    }
  }

  // ---- Reading back the same tree ----

  predicate AllBitwise(items: seq<Expr>) {
    forall i :: 0 <= i < |items| ==> IsBitwise(items[i])
  }

  lemma ShapedComparison(e: Expr)
    requires ComparisonShape(e) && AllBitwise(Items(e))
    ensures IsComparison(e)
  {
    if IsBinary(e) {
      assert IsBitwise(Items(e)[0]) && IsBitwise(Items(e)[1]);
    } else {
      assert IsBitwise(Items(e)[0]);
    }
  }

  lemma BothBitwise(a: seq<Expr>, b: seq<Expr>)
    requires AllBitwise(a + b)
    ensures AllBitwise(a) && AllBitwise(b)
  {
    assert forall i :: 0 <= i < |a| ==> a[i] == (a + b)[i];
    assert forall i :: 0 <= i < |b| ==> b[i] == (a + b)[|a| + i];
  }

  lemma {:induction false} ShapedConjunction(e: Expr)
    requires ConjunctionShape(e) && AllBitwise(Items(e))
    ensures IsConjunction(e)
  {
    if e.And? {
      BothBitwise(Items(e.l), Items(e.r));
      ShapedConjunction(e.l);
      ShapedComparison(e.r);
    } else {
      ShapedComparison(e);
    }
  }

  lemma {:induction false} ShapedDisjunction(e: Expr)
    requires DisjunctionShape(e) && AllBitwise(Items(e))
    ensures Canonical(e)
  {
    if e.Or? {
      BothBitwise(Items(e.l), Items(e.r));
      ShapedDisjunction(e.l);
      ShapedConjunction(e.r);
    } else {
      ShapedConjunction(e);
    }
  }

  lemma AlignedWithItself(items: seq<Expr>)
    requires Aligned(items, items, |items|, Plain([]))
    ensures AllBitwise(items)
  {
    forall i | 0 <= i < |items| ensures IsBitwise(items[i]) {
      AlignedAt(items, items, |items|, Plain([]), i);
    }
  }

  /** Tokens parse back to the printable expression they came from only if it is canonical. */
  lemma {:induction false} ParseBackIsCanonical(e: Expr)
    requires Printable(e) && ParseOr(TokensOf(e)) == Some((e, []))
    ensures Canonical(e)
  {
    var t := Plain([]);
    PrintedIsFlat(e);
    ItemsAreListed(e, Depth(e));
    NothingAdded(TokensOf(e));
    OrReads(Items(e), Ops(e), t, Depth(e));
    AlignedWithItself(Items(e));
    ShapedDisjunction(e);
  }

  // ---- The leaves of a parsed expression come from tokens ----

  predicate KnownToken(t: Token) {
    match t
    case Ident(name) => IsName(name)
    case Int(n) => 0 <= n < 0x8000_0000_0000_0000
    case Str(s) => forall i :: 0 <= i < |s| ==> s[i] != '\''
    case _ => true
  }

  predicate AllKnown(ts: Tokens) {
    forall i :: 0 <= i < |ts| ==> KnownToken(ts[i])
  }

  lemma FirstTokenIsKnown(s: string)
    requires s != "" && FirstToken(s).Some?
    ensures KnownToken(FirstToken(s).value.0)
  {
    SpanHolds(IsWordChar, s);
    SpanHolds(NotQuote, s[1..]);
  }

  lemma {:induction false} LexedIsKnown(s: string)
    requires Lex(s).Some?
    ensures AllKnown(Lex(s).value)
    decreases |s|
  {
    if s != "" {
      if IsBlank(s[0]) {
        LexedIsKnown(s[1..]);
      } else {
        FirstTokenIsKnown(s);
        LexedIsKnown(s[FirstToken(s).value.1..]);
      }
    }
  }

  ghost predicate KnownResult(r: Parsed) {
    r.Some? ==> Known(r.value.0) && AllKnown(r.value.1)
  }

  lemma {:induction false} OrIsKnown(ts: Tokens)
    requires AllKnown(ts)
    ensures KnownResult(ParseOr(ts))
    decreases |ts|, 6
  {
    AndIsKnown(ts);
    var l := ParseAnd(ts);
    if l.Some? {
      OrLoopIsKnown(l.value.0, l.value.1);
    }
  }

  lemma {:induction false} OrLoopIsKnown(left: Expr, ts: Tokens)
    requires Known(left) && AllKnown(ts)
    ensures KnownResult(OrLoop(left, ts))
    decreases |ts|, 0
  {
    if StartsWith(ts, OrOr) {
      AndIsKnown(ts[1..]);
      var r := ParseAnd(ts[1..]);
      if r.Some? {
        OrLoopIsKnown(Or(left, r.value.0), r.value.1);
      }
    }
  }

  lemma {:induction false} AndIsKnown(ts: Tokens)
    requires AllKnown(ts)
    ensures KnownResult(ParseAnd(ts))
    decreases |ts|, 5
  {
    ComparisonIsKnown(ts);
    var l := ParseComparison(ts);
    if l.Some? {
      AndLoopIsKnown(l.value.0, l.value.1);
    }
  }

  lemma {:induction false} AndLoopIsKnown(left: Expr, ts: Tokens)
    requires Known(left) && AllKnown(ts)
    ensures KnownResult(AndLoop(left, ts))
    decreases |ts|, 0
  {
    if StartsWith(ts, AndAnd) {
      ComparisonIsKnown(ts[1..]);
      var r := ParseComparison(ts[1..]);
      if r.Some? {
        AndLoopIsKnown(And(left, r.value.0), r.value.1);
      }
    }
  }

  lemma {:induction false} ComparisonIsKnown(ts: Tokens)
    requires AllKnown(ts)
    ensures KnownResult(ParseComparison(ts))
    decreases |ts|, 4
  {
    BitwiseIsKnown(ts);
    var l := ParseBitwise(ts);
    if l.Some? && l.value.1 != [] {
      BitwiseIsKnown(l.value.1[1..]);
    }
  }

  lemma {:induction false} BitwiseIsKnown(ts: Tokens)
    requires AllKnown(ts)
    ensures KnownResult(ParseBitwise(ts))
    decreases |ts|, 3
  {
    ShiftIsKnown(ts);
    var l := ParseShift(ts);
    if l.Some? && l.value.1 != [] {
      ShiftIsKnown(l.value.1[1..]);
    }
  }

  lemma {:induction false} ShiftIsKnown(ts: Tokens)
    requires AllKnown(ts)
    ensures KnownResult(ParseShift(ts))
    decreases |ts|, 2
  {
    AtomIsKnown(ts);
    var l := ParseAtom(ts);
    if l.Some? && l.value.1 != [] {
      AtomIsKnown(l.value.1[1..]);
    }
  }

  lemma {:induction false} AtomIsKnown(ts: Tokens)
    requires AllKnown(ts)
    ensures KnownResult(ParseAtom(ts))
    decreases |ts|, 1
  {
    if ts != [] {
      assert KnownToken(ts[0]);
      match ts[0]
      case LParen =>
        OrIsKnown(ts[1..]);
      case Ident(name) =>
        if |ts| >= 2 {
          ColumnsAreKnown(ts[2..]);
        }
      case _ =>
    }
  }

  lemma {:induction false} ColumnsAreKnown(ts: Tokens)
    requires AllKnown(ts)
    ensures MaxColumns(ts).Some? ==> Known(Max(MaxColumns(ts).value.0)) && AllKnown(MaxColumns(ts).value.1)
    decreases |ts|, 0
  {
    if |ts| >= 2 && ts[0].Ident? {
      assert KnownToken(ts[0]);
      if ts[1] == Comma {
        ColumnsAreKnown(ts[2..]);
      }
    }
  }

  // ---- A mask of 2^63 or more does not tokenize ----

  ghost predicate Fails(lex: Lexer, piece: string) {
    forall tail :: EndsWord(tail) ==> lex(piece + tail) == None
  }

  lemma FailsFirst(lex: Lexer, a: string, b: string)
    requires Fails(lex, a) && b != "" && !IsWordChar(b[0])
    ensures Fails(lex, a + b)
  {
    forall tail | EndsWord(tail) ensures lex((a + b) + tail) == None {
      Associates(a, b, tail);
    }
  }

  lemma FailsAfterAlways(lex: Lexer, a: string, ats: Tokens, b: string)
    requires Always(lex, a, ats) && Fails(lex, b)
    ensures Fails(lex, a + b)
  {
    forall tail | EndsWord(tail) ensures lex((a + b) + tail) == None {
      Associates(a, b, tail);
    }
  }

  lemma FailsAfter(lex: Lexer, a: string, ats: Tokens, b: string)
    requires Yields(lex, a, ats) && Fails(lex, b) && b != "" && !IsWordChar(b[0])
    ensures Fails(lex, a + b)
  {
    forall tail | EndsWord(tail) ensures lex((a + b) + tail) == None {
      Associates(a, b, tail);
    }
  }

  lemma LargeNumberIsNoToken(n: nat, tail: string)
    requires n >= 0x8000_0000_0000_0000 && EndsWord(tail)
    ensures Decimal(n) + tail != "" && IsDigit((Decimal(n) + tail)[0]) && FirstToken(Decimal(n) + tail) == None
  {
    DecimalIsDigits(n);
    SpanOfPiece(IsDigit, Decimal(n), tail);
    assert (Decimal(n) + tail)[..|Decimal(n)|] == Decimal(n);
  }

  lemma NoTokenFails(text: string)
    requires text != "" && !IsBlank(text[0]) && FirstToken(text) == None
    ensures Lex(text) == None
  {
  }

  lemma LargeNumberFails(n: nat)
    requires n >= 0x8000_0000_0000_0000
    ensures Fails(Lex, Decimal(n))
  {
    forall tail | EndsWord(tail) ensures Lex(Decimal(n) + tail) == None {
      LargeNumberIsNoToken(n, tail);
      NoTokenFails(Decimal(n) + tail);
    }
  }

  lemma RightFails(l: string, lts: Tokens, op: Token, r: string)
    requires Yields(Lex, l, lts) && Fails(Lex, r) && IsOperator(op)
    ensures Fails(Lex, l + (Spaced(op) + r))
  {
    Operator(op);
    FailsAfterAlways(Lex, Spaced(op), [op], r);
    FailsAfter(Lex, l, lts, Spaced(op) + r);
  }

  lemma LargeMaskTextFails(shift: U32, mask: nat)
    requires mask >= 0x8000_0000_0000_0000
    ensures Fails(Lex, Decimal(shift) + (")" + (Spaced(Ampersand) + Decimal(mask))))
  {
    Marked(RParen);
    Operator(Ampersand);
    Number(shift);
    LargeNumberFails(mask);
    var masked := Spaced(Ampersand) + Decimal(mask);
    FailsAfterAlways(Lex, Spaced(Ampersand), [Ampersand], Decimal(mask));
    FailsAfterAlways(Lex, ")", [RParen], masked);
    FailsAfter(Lex, Decimal(shift), [Int(shift)], ")" + masked);
  }

  lemma ShiftedFails(a: string, ats: Tokens, shifted: string)
    requires Yields(Lex, a, ats) && Fails(Lex, shifted)
    ensures Fails(Lex, "(" + (a + (Spaced(ShiftRight) + shifted)))
  {
    Marked(LParen);
    RightFails(a, ats, ShiftRight, shifted);
    FailsAfterAlways(Lex, "(", [LParen], a + (Spaced(ShiftRight) + shifted));
  }

  lemma GroupFails(a: string, rest: string)
    requires Fails(Lex, a)
    ensures Fails(Lex, "(" + (a + (Spaced(ShiftRight) + rest)))
  {
    Marked(LParen);
    FailsFirst(Lex, a, Spaced(ShiftRight) + rest);
    FailsAfterAlways(Lex, "(", [LParen], a + (Spaced(ShiftRight) + rest));
  }

  lemma {:induction false} BinaryFails(l: Expr, op: Token, r: Expr)
    requires IsOperator(op)
    requires Fails(Lex, Print(l)) || (Printable(l) && Fails(Lex, Print(r)))
    ensures Fails(Lex, Print(l) + (Spaced(op) + Print(r)))
  {
    if Printable(l) && Fails(Lex, Print(r)) {
      PrintYields(l);
      RightFails(Print(l), TokensOf(l), op, Print(r));
    } else {
      FailsFirst(Lex, Print(l), Spaced(op) + Print(r));
    }
  }

  lemma {:induction false} PrintFails(e: Expr)
    requires Known(e) && !Printable(e)
    ensures Fails(Lex, Print(e))
  {
    if IsBinary(e) {
      if Printable(e.l) {
        PrintFails(e.r);
      } else {
        PrintFails(e.l);
      }
      BinaryFails(e.l, OpOf(e), e.r);
    } else {
      var shifted := Decimal(e.shift) + (")" + (Spaced(Ampersand) + Decimal(e.mask)));
      if Printable(e.expr) {
        PrintYields(e.expr);
        LargeMaskTextFails(e.shift, e.mask);
        ShiftedFails(Print(e.expr), TokensOf(e.expr), shifted);
      } else {
        PrintFails(e.expr);
        GroupFails(Print(e.expr), shifted);
      }
    }
  }

  // ---- Exactly the canonical expressions survive ----

  lemma ParsedFrom(text: string, e: Expr)
    requires Tight(text) && ParseExpression(text) == Some(e)
    ensures Lex(text).Some? && ParseOr(Lex(text).value) == Some((e, []))
  {
  }

  lemma ParsedIsKnown(text: string, e: Expr)
    requires ParseExpression(text) == Some(e)
    ensures Known(e)
  {
    var trimmed := TrimEnd(TrimStart(text));
    LexedIsKnown(trimmed);
    OrIsKnown(Lex(trimmed).value);
  }

  lemma FailsAlone(text: string)
    requires Fails(Lex, text)
    ensures Lex(text) == None
  {
    assert EndsWord("");
    NothingAdded(text);
    assert Lex(text + "") == None;
  }

  /** Printing and parsing gives the same tree exactly for the canonical expressions. */
  lemma {:induction false} RoundTripIffCanonical(e: Expr)
    ensures ParseExpression(Print(e)) == Some(e) <==> Canonical(e)
  {
    if Canonical(e) {
      PrintParsesBack(e);
    } else if ParseExpression(Print(e)) == Some(e) {
      ParsedIsKnown(Print(e), e);
      PrintIsTight(e);
      ParsedFrom(Print(e), e);
      if Printable(e) {
        PrintYields(e);
        LexesTo(Print(e), TokensOf(e));
        ParseBackIsCanonical(e);
      } else {
        PrintFails(e);
        FailsAlone(Print(e));
      }
    }
  }

  /** A shift without a mask is given the full mask, and its printed form does not parse at all. */
  lemma UnmaskedShiftIsLost(name: string, shift: U32)
    requires IsName(name) && !IsKeyword(name)
    ensures ParseOr([Ident(name), ShiftRight, Int(shift)]) == Some((Bitfield(Column(name), shift, NO_MASK), []))
    ensures ParseExpression(Print(Bitfield(Column(name), shift, NO_MASK))) == None
  {
    var e := Bitfield(Column(name), shift, NO_MASK);
    var ts := [Ident(name), ShiftRight, Int(shift)];
    assert ts[1..] == [ShiftRight, Int(shift)] && ts[1..][1..] == [Int(shift)] + [];
    ParsesNumber(shift, []);
    ShiftOfAtoms(ts, Column(name), ts[1..], shift, []);
    OrOfShift(ts, e, []);
    PrintIsTight(e);
    PrintFails(e);
    FailsAlone(Print(e));
  }
}
