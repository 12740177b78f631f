/** The text of dump-filter expressions: printing, tokenizing, and the round trip. */
module DumpLexer {
  import opened Base
  import opened Decimals
  import opened DumpExpression

  // ---- Printing ----

  predicate IsOperator(t: Token) {
    t.EqEq? || t.EqSign? || t.Differs? || t.AndAnd? || t.OrOr? || t.ShiftRight? || t.Ampersand?
  }

  function Symbol(t: Token): string
    requires IsOperator(t)
  {
    match t
    case EqEq => "=="
    case EqSign => "="
    case Differs => "!="
    case AndAnd => "&&"
    case OrOr => "||"
    case ShiftRight => ">>"
    case Ampersand => "&"
  }

  function Spaced(op: Token): string
    requires IsOperator(op)
  {
    " " + (Symbol(op) + " ")
  }

  function Joined(cols: seq<string>): string {
    if cols == [] then "" else if |cols| == 1 then cols[0] else cols[0] + (", " + Joined(cols[1..]))
  }

  function Print(e: Expr): string {
    match e
    case Column(name) => name
    case IntLit(n) => Signed(n)
    case StrLit(s) => "'" + (s + "'")
    case BoolLit(b) => if b then "true" else "false"
    case NullLit => "null"
    case LookupKey => "lookup_key"
    case Max(cols) => "max" + ("(" + (Joined(cols) + ")"))
    case Bitfield(a, shift, mask) => "(" + (Print(a) + (Spaced(ShiftRight) + (Decimal(shift) + (")" + (Spaced(Ampersand) + Decimal(mask))))))
    case Eq(l, r) => Print(l) + (Spaced(EqEq) + Print(r))
    case NotEq(l, r) => Print(l) + (Spaced(Differs) + Print(r))
    case And(l, r) => Print(l) + (Spaced(AndAnd) + Print(r))
    case Or(l, r) => Print(l) + (Spaced(OrOr) + Print(r))
  }

  // ---- Tokenizing ----

  predicate IsBlank(c: char) {
    c == ' ' || c == '\t' || c == '\n' || c == '\r'
  }

  predicate IsWordChar(c: char) {
    IsLetter(c) || IsDigit(c)
  }

  predicate NotQuote(c: char) {
    c != '\''
  }

  /** The length of the longest prefix of such characters. */
  function Span(p: char -> bool, s: string): (n: nat)
    ensures n <= |s|
  {
    if s == "" || !p(s[0]) then 0 else 1 + Span(p, s[1..])
  }

  lemma {:induction false} SpanHolds(p: char -> bool, s: string)
    ensures forall i :: 0 <= i < Span(p, s) ==> p(s[i])
    ensures Span(p, s) < |s| ==> !p(s[Span(p, s)])
  {
    if s != "" && p(s[0]) {
      SpanHolds(p, s[1..]);
    }
  }

  predicate Doubled(s: string, c: char)
    requires s != ""
  {
    |s| > 1 && s[1] == c
  }

  /** The token at the start of the text and its length; None is an error. */
  function FirstToken(s: string): (r: Option<(Token, nat)>)
    requires s != ""
    ensures r.Some? ==> 1 <= r.value.1 <= |s|
  {
    var c := s[0];
    if c == '(' then Some((LParen, 1))
    else if c == ')' then Some((RParen, 1))
    else if c == ',' then Some((Comma, 1))
    else if c == '>' then if Doubled(s, '>') then Some((ShiftRight, 2)) else None
    else if c == '&' then if Doubled(s, '&') then Some((AndAnd, 2)) else Some((Ampersand, 1))
    else if c == '=' then if Doubled(s, '=') then Some((EqEq, 2)) else Some((EqSign, 1))
    else if c == '!' then if Doubled(s, '=') then Some((Differs, 2)) else None
    else if c == '|' then if Doubled(s, '|') then Some((OrOr, 2)) else None
    else if c == '\'' then
      var n := 1 + Span(NotQuote, s[1..]);
      if n == |s| then None else Some((Str(s[1..n]), n + 1))
    else if IsDigit(c) then
      var n := Span(IsDigit, s);
      SpanHolds(IsDigit, s);
      if ValueOf(s[..n]) < 0x8000_0000_0000_0000 then Some((Int(ValueOf(s[..n])), n)) else None
    else if IsLetter(c) then
      var n := Span(IsWordChar, s);
      Some((Ident(s[..n]), n))
    else None
  }

  function Lex(s: string): Option<Tokens>
    decreases |s|
  {
    if s == "" then Some([])
    else if IsBlank(s[0]) then Lex(s[1..])
    else
      var t :- FirstToken(s);
      var rest :- Lex(s[t.1..]);
      Some([t.0] + rest)
  }

  function Added(ts: Tokens, rest: Option<Tokens>): Option<Tokens> {
    if rest.Some? then Some(ts + rest.value) else None
  }

  lemma AddedTwice(a: Tokens, b: Tokens, rest: Option<Tokens>)
    ensures Added(a, Added(b, rest)) == Added(a + b, rest)
  {
    if rest.Some? {
      Associates(a, b, rest.value);
    }
  }

  /** Counts characters of one kind from a position on. */
  method SpanFrom(p: char -> bool, input: string, start: nat) returns (end: nat)
    requires start <= |input|
    ensures end == start + Span(p, input[start..]) <= |input|
  {
    end := start;
    while end < |input| && p(input[end])
      invariant start <= end <= |input|
      invariant start + Span(p, input[start..]) == end + Span(p, input[end..])
    {
      assert input[end..][1..] == input[end + 1..];
      end := end + 1;
    }
  }

  method QuotedToken(text: string) returns (r: Option<(Token, nat)>)
    requires text != "" && text[0] == '\''
    ensures r == FirstToken(text)
  {
    var end := SpanFrom(NotQuote, text, 1);
    r := if end >= |text| then None else Some((Str(text[1..end]), end + 1));
  }

  method NumberToken(text: string) returns (r: Option<(Token, nat)>)
    requires text != "" && IsDigit(text[0])
    ensures r == FirstToken(text)
  {
    assert text[0..] == text;
    var end := SpanFrom(IsDigit, text, 0);
    SpanHolds(IsDigit, text);
    var value := ValueOf(text[..end]);
    r := if value < 0x8000_0000_0000_0000 then Some((Int(value), end)) else None;
  }

  method WordToken(text: string) returns (r: Option<(Token, nat)>)
    requires text != "" && IsLetter(text[0])
    ensures r == FirstToken(text)
  {
    assert text[0..] == text;
    var end := SpanFrom(IsWordChar, text, 0);
    r := Some((Ident(text[..end]), end));
  }

  /** The whole text lexes as the tokens so far and then the rest. */
  ghost predicate LexedSoFar(whole: Option<Tokens>, tokens: Tokens, rest: string) {
    whole == Added(tokens, Lex(rest))
  }

  lemma LexNothing(text: string)
    ensures LexedSoFar(Lex(text), [], text)
  {
    if Lex(text).Some? {
      NothingAdded(Lex(text).value);
    }
  }

  lemma LexBlank(whole: Option<Tokens>, tokens: Tokens, text: string, rest: string)
    requires LexedSoFar(whole, tokens, text) && text != "" && IsBlank(text[0]) && rest == text[1..]
    ensures LexedSoFar(whole, tokens, rest)
  {
  }

  lemma LexOneMore(whole: Option<Tokens>, tokens: Tokens, text: string, t: Token, n: nat, rest: string)
    requires LexedSoFar(whole, tokens, text) && text != "" && !IsBlank(text[0]) && FirstToken(text) == Some((t, n))
    requires rest == text[n..]
    ensures LexedSoFar(whole, tokens + [t], rest)
  {
    AddedTwice(tokens, [t], Lex(text[n..]));
  }

  lemma LexFails(whole: Option<Tokens>, tokens: Tokens, text: string)
    requires LexedSoFar(whole, tokens, text) && text != "" && !IsBlank(text[0]) && FirstToken(text).None?
    ensures whole == None
  {
  }

  lemma LexDone(whole: Option<Tokens>, tokens: Tokens)
    requires LexedSoFar(whole, tokens, "")
    ensures whole == Some(tokens)
  {
    NothingAdded(tokens);
  }

  /** One turn of the tokenizer's loop: skips a blank or takes a token. */
  method TokenizeStep(ghost whole: Option<Tokens>, text: string, tokens: Tokens) returns (r: Option<(Tokens, nat)>)
    requires text != "" && LexedSoFar(whole, tokens, text)
    ensures r.None? ==> whole == None
    ensures r.Some? ==> 1 <= r.value.1 <= |text| && LexedSoFar(whole, r.value.0, text[r.value.1..])
  {
    if IsBlank(text[0]) {
      LexBlank(whole, tokens, text, text[1..]);
      return Some((tokens, 1));
    }
    var t := NextToken(text);
    if t.None? {
      LexFails(whole, tokens, text);
      return None;
    }
    LexOneMore(whole, tokens, text, t.value.0, t.value.1, text[t.value.1..]);
    r := Some((tokens + [t.value.0], t.value.1));
  }

  method Tokenize(input: string) returns (r: Option<Tokens>)
    ensures r == Lex(input)
  {
    var tokens: Tokens := [];
    var rest := input;
    LexNothing(input);
    while rest != ""
      invariant LexedSoFar(Lex(input), tokens, rest)
      decreases |rest|
    {
      var step :- TokenizeStep(Lex(input), rest, tokens);
      tokens, rest := step.0, rest[step.1..];
    }
    LexDone(Lex(input), tokens);
    r := Some(tokens);
  }

  method NextToken(text: string) returns (r: Option<(Token, nat)>)
    requires text != ""
    ensures r == FirstToken(text)
  {
    if text[0] == '\'' {
      r := QuotedToken(text);
    } else if IsDigit(text[0]) {
      r := NumberToken(text);
    } else if IsLetter(text[0]) {
      r := WordToken(text);
    } else {
      r := FirstToken(text);
    }
  }

  // ---- What a piece of text contributes ----

  type Lexer = string -> Option<Tokens>

  /** Whatever follows, the piece reads as these tokens. */
  ghost predicate Always(lex: Lexer, piece: string, ts: Tokens) {
    forall tail :: lex(piece + tail) == Added(ts, lex(tail))
  }

  /** The text does not run a preceding word or number on. */
  predicate EndsWord(tail: string) {
    tail == "" || !IsWordChar(tail[0])
  }

  /** The piece reads as these tokens unless what follows runs it on. */
  ghost predicate Yields(lex: Lexer, piece: string, ts: Tokens) {
    forall tail :: EndsWord(tail) ==> lex(piece + tail) == Added(ts, lex(tail))
  }

  lemma Sequence(lex: Lexer, a: string, ats: Tokens, b: string, bts: Tokens, tail: string)
    requires lex(a + (b + tail)) == Added(ats, lex(b + tail)) && lex(b + tail) == Added(bts, lex(tail))
    ensures lex((a + b) + tail) == Added(ats + bts, lex(tail))
  {
    Associates(a, b, tail);
    AddedTwice(ats, bts, lex(tail));
  }

  lemma AlwaysThen(lex: Lexer, a: string, ats: Tokens, b: string, bts: Tokens)
    requires Always(lex, a, ats) && Yields(lex, b, bts)
    ensures Yields(lex, a + b, ats + bts)
  {
    forall tail | EndsWord(tail) ensures lex((a + b) + tail) == Added(ats + bts, lex(tail)) {
      Sequence(lex, a, ats, b, bts, tail);
    }
  }

  lemma YieldsThen(lex: Lexer, a: string, ats: Tokens, b: string, bts: Tokens)
    requires Yields(lex, a, ats) && Yields(lex, b, bts) && b != "" && !IsWordChar(b[0])
    ensures Yields(lex, a + b, ats + bts)
  {
    forall tail | EndsWord(tail) ensures lex((a + b) + tail) == Added(ats + bts, lex(tail)) {
      Sequence(lex, a, ats, b, bts, tail);
    }
  }

  lemma AlwaysBoth(lex: Lexer, a: string, ats: Tokens, b: string, bts: Tokens)
    requires Always(lex, a, ats) && Always(lex, b, bts)
    ensures Always(lex, a + b, ats + bts)
  {
    forall tail ensures lex((a + b) + tail) == Added(ats + bts, lex(tail)) {
      Sequence(lex, a, ats, b, bts, tail);
    }
  }

  // ---- Pieces ----

  lemma OneToken(piece: string, t: Token, tail: string)
    requires piece != "" && !IsBlank(piece[0]) && FirstToken(piece + tail) == Some((t, |piece|))
    ensures Lex(piece + tail) == Added([t], Lex(tail))
  {
    assert (piece + tail)[|piece|..] == tail;
  }

  lemma Blank()
    ensures Always(Lex, " ", [])
  {
    forall tail: string ensures Lex(" " + tail) == Added([], Lex(tail)) {
      assert (" " + tail)[1..] == tail;
      if Lex(tail).Some? {
        NothingAdded(Lex(tail).value);
      }
    }
  }

  lemma {:induction false} SpanOfPiece(p: char -> bool, piece: string, tail: string)
    requires forall i :: 0 <= i < |piece| ==> p(piece[i])
    requires tail == "" || !p(tail[0])
    ensures Span(p, piece + tail) == |piece|
    decreases |piece|
  {
    if piece == "" {
      assert piece + tail == tail;
    } else {
      SpanOfPiece(p, piece[1..], tail);
      assert (piece + tail)[1..] == piece[1..] + tail;
    }
  }

  lemma Name(name: string)
    requires IsName(name)
    ensures Yields(Lex, name, [Ident(name)])
  {
    forall tail | EndsWord(tail) ensures Lex(name + tail) == Added([Ident(name)], Lex(tail)) {
      NameIsToken(name, tail);
      OneToken(name, Ident(name), tail);
    }
  }

  lemma NameIsToken(name: string, tail: string)
    requires IsName(name) && EndsWord(tail)
    ensures FirstToken(name + tail) == Some((Ident(name), |name|))
  {
    SpanOfPiece(IsWordChar, name, tail);
    assert (name + tail)[..|name|] == name;
  }

  lemma {:induction false} NumberIsToken(n: nat, tail: string)
    requires n < 0x8000_0000_0000_0000 && EndsWord(tail)
    ensures Decimal(n) != "" && FirstToken(Decimal(n) + tail) == Some((Int(n), |Decimal(n)|))
    ensures IsDigit(Decimal(n)[0])
  {
    DecimalIsDigits(n);
    SpanOfPiece(IsDigit, Decimal(n), tail);
    assert (Decimal(n) + tail)[..|Decimal(n)|] == Decimal(n);
  }

  lemma Number(n: nat)
    requires n < 0x8000_0000_0000_0000
    ensures Yields(Lex, Decimal(n), [Int(n)])
  {
    forall tail | EndsWord(tail) ensures Lex(Decimal(n) + tail) == Added([Int(n)], Lex(tail)) {
      NumberIsToken(n, tail);
      OneToken(Decimal(n), Int(n), tail);
    }
  }

  lemma Quoted(s: string)
    requires forall i :: 0 <= i < |s| ==> s[i] != '\''
    ensures Yields(Lex, "'" + (s + "'"), [Str(s)])
  {
    var piece := "'" + (s + "'");
    forall tail: string ensures Lex(piece + tail) == Added([Str(s)], Lex(tail)) {
      var text := piece + tail;
      assert text[1..] == s + ("'" + tail);
      SpanOfPiece(NotQuote, s, "'" + tail);
      assert text[1..1 + |s|] == s;
      OneToken(piece, Str(s), tail);
    }
  }

  function Mark(t: Token): string
    requires t.LParen? || t.RParen? || t.Comma?
  {
    if t.LParen? then "(" else if t.RParen? then ")" else ","
  }

  lemma Marked(t: Token)
    requires t.LParen? || t.RParen? || t.Comma?
    ensures Always(Lex, Mark(t), [t])
  {
    forall tail: string ensures Lex(Mark(t) + tail) == Added([t], Lex(tail)) {
      OneToken(Mark(t), t, tail);
    }
  }

  lemma SymbolIsToken(op: Token, tail: string)
    requires IsOperator(op)
    ensures FirstToken(Symbol(op) + (" " + tail)) == Some((op, |Symbol(op)|))
  {
  }

  lemma SkipsBlank(tail: string)
    ensures Lex(" " + tail) == Lex(tail)
  {
    assert (" " + tail)[1..] == tail;
  }

  /** An operator before a blank is told from every longer one. */
  lemma BeforeBlank(op: Token)
    requires IsOperator(op)
    ensures Always(Lex, Symbol(op) + " ", [op])
  {
    forall tail: string ensures Lex((Symbol(op) + " ") + tail) == Added([op], Lex(tail)) {
      Associates(Symbol(op), " ", tail);
      SkipsBlank(tail);
      SymbolIsToken(op, tail);
      OneToken(Symbol(op), op, " " + tail);
    }
  }

  lemma Operator(op: Token)
    requires IsOperator(op)
    ensures Always(Lex, Spaced(op), [op])
  {
    Blank();
    BeforeBlank(op);
    AlwaysBoth(Lex, " ", [], Symbol(op) + " ", [op]);
    NothingAdded([op]);
  }

  // ---- Printing then tokenizing ----

  /** Every leaf is one the tokenizer knows. */
  predicate Printable(e: Expr) {
    match e
    case Column(name) => IsName(name)
    case IntLit(n) => 0 <= n < 0x8000_0000_0000_0000
    case StrLit(s) => forall i :: 0 <= i < |s| ==> s[i] != '\''
    case BoolLit(_) => true
    case NullLit => true
    case LookupKey => true
    case Max(cols) => forall i :: 0 <= i < |cols| ==> IsName(cols[i])
    case Bitfield(a, _, mask) => Printable(a) && mask < 0x8000_0000_0000_0000
    case Eq(l, r) => Printable(l) && Printable(r)
    case NotEq(l, r) => Printable(l) && Printable(r)
    case And(l, r) => Printable(l) && Printable(r)
    case Or(l, r) => Printable(l) && Printable(r)
  }

  /** The same, whatever the masks. */
  predicate Known(e: Expr) {
    match e
    case Bitfield(a, _, _) => Known(a)
    case Eq(l, r) => Known(l) && Known(r)
    case NotEq(l, r) => Known(l) && Known(r)
    case And(l, r) => Known(l) && Known(r)
    case Or(l, r) => Known(l) && Known(r)
    case _ => Printable(e)
  }

  lemma {:induction false} PrintableIsKnown(e: Expr)
    requires Printable(e)
    ensures Known(e)
  {
    match e
    case Bitfield(a, _, _) => PrintableIsKnown(a);
    case Eq(l, r) => PrintableIsKnown(l); PrintableIsKnown(r);
    case NotEq(l, r) => PrintableIsKnown(l); PrintableIsKnown(r);
    case And(l, r) => PrintableIsKnown(l); PrintableIsKnown(r);
    case Or(l, r) => PrintableIsKnown(l); PrintableIsKnown(r);
    case _ =>
  }

  lemma ComparisonIsPrintable(e: Expr)
    requires IsComparison(e)
    ensures Printable(e)
  {
  }

  lemma {:induction false} ConjunctionIsPrintable(e: Expr)
    requires IsConjunction(e)
    ensures Printable(e)
  {
    if e.And? {
      ConjunctionIsPrintable(e.l);
      ComparisonIsPrintable(e.r);
    } else {
      ComparisonIsPrintable(e);
    }
  }

  lemma {:induction false} CanonicalIsPrintable(e: Expr)
    requires Canonical(e)
    ensures Printable(e)
  {
    if e.Or? {
      CanonicalIsPrintable(e.l);
      ConjunctionIsPrintable(e.r);
    } else {
      ConjunctionIsPrintable(e);
    }
  }

  lemma AlwaysYields(lex: Lexer, piece: string, ts: Tokens)
    requires Always(lex, piece, ts)
    ensures Yields(lex, piece, ts)
  {
  }

  lemma ColumnsText(cols: seq<string>)
    requires |cols| >= 2
    ensures Joined(cols) + ")" == cols[0] + (", " + (Joined(cols[1..]) + ")"))
  {
    Regrouped(cols[0], ", ", Joined(cols[1..]), ")");
  }

  lemma Regrouped(a: string, b: string, c: string, d: string)
    ensures (a + (b + c)) + d == a + (b + (c + d))
  {
  }

  lemma {:induction false} Columns(cols: seq<string>)
    requires forall i :: 0 <= i < |cols| ==> IsName(cols[i])
    ensures Yields(Lex, Joined(cols) + ")", ColumnTokens(cols))
    decreases |cols|
  {
    if |cols| >= 2 {
      Columns(cols[1..]);
      Name(cols[0]);
      CommaAndBlank();
      ColumnsText(cols);
      CommaThen(Lex, cols[0], Joined(cols[1..]) + ")", ColumnTokens(cols[1..]));
    } else {
      LastColumn(cols);
    }
  }

  lemma LastColumn(cols: seq<string>)
    requires |cols| <= 1 && forall i :: 0 <= i < |cols| ==> IsName(cols[i])
    ensures Yields(Lex, Joined(cols) + ")", ColumnTokens(cols))
  {
    Marked(RParen);
    AlwaysYields(Lex, ")", [RParen]);
    if cols == [] {
      NothingAdded(")");
    } else {
      Name(cols[0]);
      YieldsThen(Lex, cols[0], [Ident(cols[0])], ")", [RParen]);
      assert [Ident(cols[0])] + [RParen] == ColumnTokens(cols);
    }
  }

  lemma CommaAndBlank()
    ensures Always(Lex, ", ", [Comma])
  {
    Marked(Comma);
    Blank();
    AlwaysBoth(Lex, ",", [Comma], " ", []);
    NothingAdded([Comma]);
    assert "," + " " == ", ";
  }

  lemma CommaThen(lex: Lexer, name: string, more: string, ts: Tokens)
    requires Yields(lex, name, [Ident(name)]) && Yields(lex, more, ts) && Always(lex, ", ", [Comma])
    ensures Yields(lex, name + (", " + more), [Ident(name)] + ([Comma] + ts))
  {
    AlwaysThen(lex, ", ", [Comma], more, ts);
    YieldsThen(lex, name, [Ident(name)], ", " + more, [Comma] + ts);
  }

  lemma CallThen(lex: Lexer, name: string, list: string, ts: Tokens)
    requires Yields(lex, name, [Ident(name)]) && Always(lex, "(", [LParen]) && Yields(lex, list, ts)
    ensures Yields(lex, name + ("(" + list), [Ident(name)] + ([LParen] + ts))
  {
    AlwaysThen(lex, "(", [LParen], list, ts);
    YieldsThen(lex, name, [Ident(name)], "(" + list, [LParen] + ts);
  }

  lemma MaxCall()
    ensures Yields(Lex, "max", [Ident("max")]) && Always(Lex, "(", [LParen])
  {
    assert IsName("max");
    Name("max");
    Marked(LParen);
  }

  lemma MaxText(cols: seq<string>, name: string, list: string)
    requires name == "max" && list == Joined(cols) + ")"
    ensures Print(Max(cols)) == name + ("(" + list) && TokensOf(Max(cols)) == [Ident(name)] + ([LParen] + ColumnTokens(cols))
  {
  }

  lemma Maximum(cols: seq<string>)
    requires forall i :: 0 <= i < |cols| ==> IsName(cols[i])
    ensures Yields(Lex, Print(Max(cols)), TokensOf(Max(cols)))
  {
    Columns(cols);
    MaxCall();
    MaxText(cols, "max", Joined(cols) + ")");
    CallThen(Lex, "max", Joined(cols) + ")", ColumnTokens(cols));
  }

  lemma Binary(l: string, lts: Tokens, op: Token, r: string, rts: Tokens)
    requires Yields(Lex, l, lts) && Yields(Lex, r, rts) && IsOperator(op)
    ensures Yields(Lex, l + (Spaced(op) + r), lts + ([op] + rts))
  {
    Operator(op);
    AlwaysThen(Lex, Spaced(op), [op], r, rts);
    YieldsThen(Lex, l, lts, Spaced(op) + r, [op] + rts);
  }

  /** `(a >> shift) & mask` */
  lemma Masked(a: string, ats: Tokens, shift: U32, mask: nat)
    requires Yields(Lex, a, ats) && mask < 0x8000_0000_0000_0000
    ensures Yields(Lex, "(" + (a + (Spaced(ShiftRight) + (Decimal(shift) + (")" + (Spaced(Ampersand) + Decimal(mask)))))),
                   [LParen] + (ats + ([ShiftRight] + ([Int(shift)] + ([RParen] + ([Ampersand] + [Int(mask)]))))))
  {
    Marked(LParen);
    Marked(RParen);
    Operator(Ampersand);
    Number(mask);
    var masked := Spaced(Ampersand) + Decimal(mask);
    AlwaysThen(Lex, Spaced(Ampersand), [Ampersand], Decimal(mask), [Int(mask)]);
    AlwaysThen(Lex, ")", [RParen], masked, [Ampersand] + [Int(mask)]);
    Number(shift);
    var ts := [RParen] + ([Ampersand] + [Int(mask)]);
    YieldsThen(Lex, Decimal(shift), [Int(shift)], ")" + masked, ts);
    var shifted := Decimal(shift) + (")" + masked);
    Binary(a, ats, ShiftRight, shifted, [Int(shift)] + ts);
    AlwaysThen(Lex, "(", [LParen], a + (Spaced(ShiftRight) + shifted), ats + ([ShiftRight] + ([Int(shift)] + ts)));
  }

  lemma BitfieldTokenList(a: Expr, shift: U32, mask: U64)
    ensures TokensOf(Bitfield(a, shift, mask)) ==
            [LParen] + (TokensOf(a) + ([ShiftRight] + ([Int(shift)] + ([RParen] + ([Ampersand] + [Int(mask)])))))
  {
    assert [ShiftRight, Int(shift), RParen, Ampersand, Int(mask)] ==
           [ShiftRight] + ([Int(shift)] + ([RParen] + ([Ampersand] + [Int(mask)])));
  }

  lemma LeafYields(e: Expr)
    requires Printable(e) && !e.Bitfield? && !e.Eq? && !e.NotEq? && !e.And? && !e.Or?
    ensures Yields(Lex, Print(e), TokensOf(e))
  {
    match e
    case Column(name) => Name(name);
    case IntLit(n) => Number(n);
    case StrLit(s) => Quoted(s);
    case BoolLit(b) => Name(if b then "true" else "false");
    case NullLit => Name("null");
    case LookupKey => Name("lookup_key");
    case Max(cols) => Maximum(cols);
  }

  /** Tokenizing what was printed gives the expression's tokens. */
  lemma {:induction false} PrintYields(e: Expr)
    requires Printable(e)
    ensures Yields(Lex, Print(e), TokensOf(e))
  {
    match e
    case Bitfield(a, shift, mask) =>
      PrintYields(a);
      Masked(Print(a), TokensOf(a), shift, mask);
      BitfieldTokenList(a, shift, mask);
    case Eq(l, r) => PrintYields(l); PrintYields(r); Binary(Print(l), TokensOf(l), EqEq, Print(r), TokensOf(r));
    case NotEq(l, r) => PrintYields(l); PrintYields(r); Binary(Print(l), TokensOf(l), Differs, Print(r), TokensOf(r));
    case And(l, r) => PrintYields(l); PrintYields(r); Binary(Print(l), TokensOf(l), AndAnd, Print(r), TokensOf(r));
    case Or(l, r) => PrintYields(l); PrintYields(r); Binary(Print(l), TokensOf(l), OrOr, Print(r), TokensOf(r));
    case _ => LeafYields(e);
  }

  // ---- The whole round trip ----

  function TrimStart(s: string): string {
    if s != "" && IsBlank(s[0]) then TrimStart(s[1..]) else s
  }

  function TrimEnd(s: string): string {
    if s != "" && IsBlank(s[|s| - 1]) then TrimEnd(s[..|s| - 1]) else s
  }

  function ParseExpression(input: string): Option<Expr> {
    var text := TrimEnd(TrimStart(input));
    if text == "" then None
    else
      var ts :- Lex(text);
      var e :- ParseOr(ts);
      if e.1 == [] then Some(e.0) else None
  }

  method Parse(input: string) returns (r: Option<Expr>)
    ensures r == ParseExpression(input)
  {
    var text := TrimEnd(TrimStart(input));
    if text == "" {
      return None;
    }
    var ts :- Tokenize(text);
    var e :- ParseOrTokens(ts);
    r := if e.1 == [] then Some(e.0) else None;
  }

  /** The text neither starts nor ends with a blank. */
  predicate Tight(s: string) {
    s != "" && !IsBlank(s[0]) && !IsBlank(s[|s| - 1])
  }

  lemma TightAround(a: string, middle: string, b: string)
    requires Tight(a) && Tight(b)
    ensures Tight(a + (middle + b))
  {
  }

  lemma {:induction false} PrintIsTight(e: Expr)
    requires Known(e)
    ensures Tight(Print(e))
  {
    match e
    case IntLit(n) => DecimalIsDigits(n);
    case Bitfield(a, shift, mask) => DecimalIsDigits(mask);
    case Eq(l, r) => PrintIsTight(l); PrintIsTight(r); TightAround(Print(l), Spaced(EqEq), Print(r));
    case NotEq(l, r) => PrintIsTight(l); PrintIsTight(r); TightAround(Print(l), Spaced(Differs), Print(r));
    case And(l, r) => PrintIsTight(l); PrintIsTight(r); TightAround(Print(l), Spaced(AndAnd), Print(r));
    case Or(l, r) => PrintIsTight(l); PrintIsTight(r); TightAround(Print(l), Spaced(OrOr), Print(r));
    case _ =>
  }

  lemma LexesTo(text: string, ts: Tokens)
    requires Yields(Lex, text, ts)
    ensures Lex(text) == Some(ts)
  {
    assert EndsWord("");
    NothingAdded(text);
    assert Lex(text + "") == Added(ts, Lex(""));
    NothingAdded(ts);
  }

  lemma ParsesTo(text: string, ts: Tokens, e: Expr)
    requires Tight(text) && Lex(text) == Some(ts) && ParseOr(ts) == Some((e, []))
    ensures ParseExpression(text) == Some(e)
  {
  }

  /** Printing a canonical expression and parsing the text gives the same tree. */
  lemma {:induction false} PrintParsesBack(e: Expr)
    requires Canonical(e)
    ensures ParseExpression(Print(e)) == Some(e)
  {
    CanonicalIsPrintable(e);
    PrintableIsKnown(e);
    PrintIsTight(e);
    PrintYields(e);
    LexesTo(Print(e), TokensOf(e));
    TokensParseBack(e);
    ParsesTo(Print(e), TokensOf(e), e);
  }
}
