/** In dump-filter expressions `=` and `==` are one operator. */
module DumpEquals {
  import opened Base
  import opened Decimals
  import opened DumpExpression
  import opened DumpLexer

  function AsDouble(t: Token): Token {
    if t.EqSign? then EqEq else t
  }

  /** Every `=` written as `==`. */
  function Doubled(ts: Tokens): (r: Tokens)
    ensures |r| == |ts| && forall i :: 0 <= i < |r| ==> r[i] == AsDouble(ts[i])
  {
    seq(|ts|, i requires 0 <= i < |ts| => AsDouble(ts[i]))
  }

  function DoubledRest(r: Parsed): Parsed {
    match r
    case None => None
    case Some((e, rest)) => Some((e, Doubled(rest)))
  }

  lemma DoubledTail(ts: Tokens)
    requires ts != []
    ensures Doubled(ts)[1..] == Doubled(ts[1..])
  {
  }

  /** Only comparison signs are affected. */
  lemma StartIsKept(ts: Tokens, t: Token)
    requires !t.EqEq? && !t.EqSign?
    ensures StartsWith(Doubled(ts), t) <==> StartsWith(ts, t)
  {
  }

  lemma EqualsStart(ts: Tokens)
    ensures StartsWith(Doubled(ts), EqEq) <==> StartsWith(ts, EqEq) || StartsWith(ts, EqSign)
    ensures !StartsWith(Doubled(ts), EqSign)
  {
  }

  // ---- Every level of the parser ----

  lemma {:induction false} OrDoubles(ts: Tokens)
    ensures ParseOr(Doubled(ts)) == DoubledRest(ParseOr(ts))
    decreases |ts|, 6
  {
    AndDoubles(ts);
    var l := ParseAnd(ts);
    if l.Some? {
      OrLoopDoubles(l.value.0, l.value.1);
    }
  }

  lemma {:induction false} OrLoopDoubles(left: Expr, ts: Tokens)
    ensures OrLoop(left, Doubled(ts)) == DoubledRest(OrLoop(left, ts))
    decreases |ts|, 0
  {
    StartIsKept(ts, OrOr);
    if StartsWith(ts, OrOr) {
      DoubledTail(ts);
      AndDoubles(ts[1..]);
      var r := ParseAnd(ts[1..]);
      if r.Some? {
        OrLoopDoubles(Or(left, r.value.0), r.value.1);
      }
    }
  }

  lemma {:induction false} AndDoubles(ts: Tokens)
    ensures ParseAnd(Doubled(ts)) == DoubledRest(ParseAnd(ts))
    decreases |ts|, 5
  {
    ComparisonDoubles(ts);
    var l := ParseComparison(ts);
    if l.Some? {
      AndLoopDoubles(l.value.0, l.value.1);
    }
  }

  lemma {:induction false} AndLoopDoubles(left: Expr, ts: Tokens)
    ensures AndLoop(left, Doubled(ts)) == DoubledRest(AndLoop(left, ts))
    decreases |ts|, 0
  {
    StartIsKept(ts, AndAnd);
    if StartsWith(ts, AndAnd) {
      DoubledTail(ts);
      ComparisonDoubles(ts[1..]);
      var r := ParseComparison(ts[1..]);
      if r.Some? {
        AndLoopDoubles(And(left, r.value.0), r.value.1);
      }
    }
  }

  lemma {:induction false} ComparisonDoubles(ts: Tokens)
    ensures ParseComparison(Doubled(ts)) == DoubledRest(ParseComparison(ts))
    decreases |ts|, 4
  {
    BitwiseDoubles(ts);
    var l := ParseBitwise(ts);
    if l.Some? {
      EqualsStart(l.value.1);
      StartIsKept(l.value.1, Differs);
      if l.value.1 != [] {
        DoubledTail(l.value.1);
        BitwiseDoubles(l.value.1[1..]);
      }
    }
  }

  lemma {:induction false} BitwiseDoubles(ts: Tokens)
    ensures ParseBitwise(Doubled(ts)) == DoubledRest(ParseBitwise(ts))
    decreases |ts|, 3
  {
    ShiftDoubles(ts);
    var l := ParseShift(ts);
    if l.Some? {
      StartIsKept(l.value.1, Ampersand);
      if l.value.1 != [] {
        DoubledTail(l.value.1);
        ShiftDoubles(l.value.1[1..]);
      }
    }
  }

  lemma {:induction false} ShiftDoubles(ts: Tokens)
    ensures ParseShift(Doubled(ts)) == DoubledRest(ParseShift(ts))
    decreases |ts|, 2
  {
    AtomDoubles(ts);
    var l := ParseAtom(ts);
    if l.Some? {
      StartIsKept(l.value.1, ShiftRight);
      if l.value.1 != [] {
        DoubledTail(l.value.1);
        AtomDoubles(l.value.1[1..]);
      }
    }
  }

  lemma {:induction false} AtomDoubles(ts: Tokens)
    ensures ParseAtom(Doubled(ts)) == DoubledRest(ParseAtom(ts))
    decreases |ts|, 1
  {
    if ts != [] {
      DoubledTail(ts);
      if ts[0].LParen? {
        OrDoubles(ts[1..]);
        var e := ParseOr(ts[1..]);
        if e.Some? {
          StartIsKept(e.value.1, RParen);
          if e.value.1 != [] {
            DoubledTail(e.value.1);
          }
        }
      } else if ts[0].Ident? && |ts| >= 2 {
        StartIsKept(ts[1..], LParen);
        DoubledTail(ts[1..]);
        ColumnsDouble(ts[2..]);
      }
    }
  }

  lemma {:induction false} ColumnsDouble(ts: Tokens)
    ensures MaxColumns(Doubled(ts)) == match MaxColumns(ts) { case None => None case Some((cols, rest)) => Some((cols, Doubled(rest))) }
    decreases |ts|, 0
  {
    if |ts| >= 2 {
      assert Doubled(ts)[2..] == Doubled(ts[2..]);
      ColumnsDouble(ts[2..]);
    }
  }

  // ---- Texts ----

  /** Texts whose tokens differ only in how equality is written parse alike. */
  lemma TextsParseAlike(a: string, b: string, ts: Tokens, us: Tokens)
    requires Lex(TrimEnd(TrimStart(a))) == Some(ts) && Lex(TrimEnd(TrimStart(b))) == Some(us) && Doubled(ts) == Doubled(us)
    requires TrimEnd(TrimStart(a)) != "" && TrimEnd(TrimStart(b)) != ""
    ensures ParseExpression(a) == ParseExpression(b)
  {
    OrDoubles(ts);
    OrDoubles(us);
  }

  /** An expression written with `=` throughout. */
  function PrintSingle(e: Expr): string {
    match e
    case Eq(l, r) => PrintSingle(l) + (Spaced(EqSign) + PrintSingle(r))
    case NotEq(l, r) => PrintSingle(l) + (Spaced(Differs) + PrintSingle(r))
    case And(l, r) => PrintSingle(l) + (Spaced(AndAnd) + PrintSingle(r))
    case Or(l, r) => PrintSingle(l) + (Spaced(OrOr) + PrintSingle(r))
    case _ => Print(e)
  }

  function TokensSingle(e: Expr): Tokens {
    match e
    case Eq(l, r) => TokensSingle(l) + ([EqSign] + TokensSingle(r))
    case NotEq(l, r) => TokensSingle(l) + ([Differs] + TokensSingle(r))
    case And(l, r) => TokensSingle(l) + ([AndAnd] + TokensSingle(r))
    case Or(l, r) => TokensSingle(l) + ([OrOr] + TokensSingle(r))
    case _ => TokensOf(e)
  }

  lemma DoubledBoth(a: Tokens, op: Token, b: Tokens)
    ensures Doubled(a + ([op] + b)) == Doubled(a) + ([AsDouble(op)] + Doubled(b))
  {
  }

  lemma {:induction false} ColumnsHaveNone(cols: seq<string>)
    ensures Doubled(ColumnTokens(cols)) == ColumnTokens(cols)
  {
    if |cols| > 1 {
      ColumnsHaveNone(cols[1..]);
    }
  }

  lemma DoubledGroup(a: Tokens, shift: U32, mask: U64)
    requires Doubled(a) == a
    ensures var ts := [LParen] + (a + [ShiftRight, Int(shift), RParen, Ampersand, Int(mask)]); Doubled(ts) == ts
  {
    var ts := [LParen] + (a + [ShiftRight, Int(shift), RParen, Ampersand, Int(mask)]);
    forall i | 0 <= i < |ts| ensures Doubled(ts)[i] == ts[i] {
      if 1 <= i <= |a| {
        assert ts[i] == a[i - 1] == Doubled(a)[i - 1];
      }
    }
  }

  lemma {:induction false} PrintedHasNone(e: Expr)
    ensures Doubled(TokensOf(e)) == TokensOf(e)
  {
    match e
    case Max(cols) => ColumnsHaveNone(cols);
    case Bitfield(a, shift, mask) => PrintedHasNone(a); DoubledGroup(TokensOf(a), shift, mask);
    case Eq(l, r) => PrintedHasNone(l); PrintedHasNone(r); DoubledBoth(TokensOf(l), EqEq, TokensOf(r));
    case NotEq(l, r) => PrintedHasNone(l); PrintedHasNone(r); DoubledBoth(TokensOf(l), Differs, TokensOf(r));
    case And(l, r) => PrintedHasNone(l); PrintedHasNone(r); DoubledBoth(TokensOf(l), AndAnd, TokensOf(r));
    case Or(l, r) => PrintedHasNone(l); PrintedHasNone(r); DoubledBoth(TokensOf(l), OrOr, TokensOf(r));
    case _ =>
  }

  lemma {:induction false} SingleDoubles(e: Expr)
    ensures Doubled(TokensSingle(e)) == TokensOf(e)
  {
    match e
    case Eq(l, r) => SingleDoubles(l); SingleDoubles(r); DoubledBoth(TokensSingle(l), EqSign, TokensSingle(r));
    case NotEq(l, r) => SingleDoubles(l); SingleDoubles(r); DoubledBoth(TokensSingle(l), Differs, TokensSingle(r));
    case And(l, r) => SingleDoubles(l); SingleDoubles(r); DoubledBoth(TokensSingle(l), AndAnd, TokensSingle(r));
    case Or(l, r) => SingleDoubles(l); SingleDoubles(r); DoubledBoth(TokensSingle(l), OrOr, TokensSingle(r));
    case _ => PrintedHasNone(e);
  }

  lemma {:induction false} SingleYields(e: Expr)
    requires Printable(e)
    ensures Yields(Lex, PrintSingle(e), TokensSingle(e))
  {
    match e
    case Eq(l, r) => SingleYields(l); SingleYields(r); Binary(PrintSingle(l), TokensSingle(l), EqSign, PrintSingle(r), TokensSingle(r));
    case NotEq(l, r) => SingleYields(l); SingleYields(r); Binary(PrintSingle(l), TokensSingle(l), Differs, PrintSingle(r), TokensSingle(r));
    case And(l, r) => SingleYields(l); SingleYields(r); Binary(PrintSingle(l), TokensSingle(l), AndAnd, PrintSingle(r), TokensSingle(r));
    case Or(l, r) => SingleYields(l); SingleYields(r); Binary(PrintSingle(l), TokensSingle(l), OrOr, PrintSingle(r), TokensSingle(r));
    case _ => PrintYields(e);
  }

  lemma {:induction false} SingleIsTight(e: Expr)
    requires Known(e)
    ensures Tight(PrintSingle(e))
  {
    match e
    case Eq(l, r) => SingleIsTight(l); SingleIsTight(r); TightAround(PrintSingle(l), Spaced(EqSign), PrintSingle(r));
    case NotEq(l, r) => SingleIsTight(l); SingleIsTight(r); TightAround(PrintSingle(l), Spaced(Differs), PrintSingle(r));
    case And(l, r) => SingleIsTight(l); SingleIsTight(r); TightAround(PrintSingle(l), Spaced(AndAnd), PrintSingle(r));
    case Or(l, r) => SingleIsTight(l); SingleIsTight(r); TightAround(PrintSingle(l), Spaced(OrOr), PrintSingle(r));
    case _ => PrintIsTight(e);
  }

  /** Written with `=`, a canonical expression parses to the same tree as written with `==`. */
  lemma SingleParsesBack(e: Expr)
    requires Canonical(e)
    ensures ParseExpression(PrintSingle(e)) == Some(e)
  {
    CanonicalIsPrintable(e);
    PrintableIsKnown(e);
    SingleYields(e);
    SingleIsTight(e);
    LexesTo(PrintSingle(e), TokensSingle(e));
    SingleDoubles(e);
    OrDoubles(TokensSingle(e));
    TokensParseBack(e);
    NothingLeft(ParseOr(TokensSingle(e)), e);
    ParsesTo(PrintSingle(e), TokensSingle(e), e);
  }

  lemma NothingLeft(r: Parsed, e: Expr)
    requires DoubledRest(r) == Some((e, []))
    ensures r == Some((e, []))
  {
  }
}
