/** How dump-filter tokens are spelled, and that the tokenizer accepts exactly what they spell. */
module DumpSpelling {
  import opened Base
  import opened Decimals
  import opened DumpExpression
  import opened DumpLexer
  import opened DumpGrammar

  // ---- Spelling ----

  /** Numbers are digits below 2^63, leading zeros allowed; strings stand in single quotes without any inside. */
  predicate Spells(text: string, t: Token) {
    match t
    case Ident(name) => text == name && IsName(name)
    case Int(n) => IsDigits(text) && ValueOf(text) == n < 0x8000_0000_0000_0000
    case Str(s) => text == "'" + (s + "'") && forall i :: 0 <= i < |s| ==> s[i] != '\''
    case LParen => text == "("
    case RParen => text == ")"
    case Comma => text == ","
    case ShiftRight => text == ">>"
    case Ampersand => text == "&"
    case EqEq => text == "=="
    case EqSign => text == "="
    case Differs => text == "!="
    case AndAnd => text == "&&"
    case OrOr => text == "||"
  }

  /** The next character would belong to the token. */
  predicate RunsOn(t: Token, rest: string) {
    && rest != ""
    && match t
       case Ident(_) => IsLetter(rest[0]) || IsDigit(rest[0])
       case Int(_) => IsDigit(rest[0])
       case Ampersand => rest[0] == '&'
       case EqSign => rest[0] == '='
       case _ => false
  }

  /** A text is blanks and spelled tokens in a row. */
  datatype Piece = Gap(blank: char) | Spelled(token: Token, text: string)

  function TextOf(ps: seq<Piece>): string {
    if ps == [] then "" else (match ps[0] case Gap(c) => [c] case Spelled(_, text) => text) + TextOf(ps[1..])
  }

  function TokensIn(ps: seq<Piece>): Tokens {
    if ps == [] then [] else (match ps[0] case Gap(_) => [] case Spelled(t, _) => [t]) + TokensIn(ps[1..])
  }

  predicate WellSpelled(ps: seq<Piece>) {
    ps != [] ==>
      && WellSpelled(ps[1..])
      && match ps[0]
         case Gap(c) => c == ' ' || c == '\t' || c == '\n' || c == '\r'
         case Spelled(t, text) => Spells(text, t) && !RunsOn(t, TextOf(ps[1..]))
  }

  // ---- One token ----

  lemma WordIsFirst(name: string, rest: string)
    requires IsName(name) && !RunsOn(Ident(name), rest)
    ensures FirstToken(name + rest) == Some((Ident(name), |name|))
  {
    NameIsToken(name, rest);
  }

  lemma DigitsAreFirst(s: string, n: nat)
    requires s != "" && IsDigit(s[0]) && n == Span(IsDigit, s) && IsDigits(s[..n]) && ValueOf(s[..n]) < 0x8000_0000_0000_0000
    ensures FirstToken(s) == Some((Int(ValueOf(s[..n])), n))
  {
  }

  lemma NumberIsFirst(text: string, rest: string)
    requires IsDigits(text) && ValueOf(text) < 0x8000_0000_0000_0000 && !(rest != "" && IsDigit(rest[0]))
    ensures FirstToken(text + rest) == Some((Int(ValueOf(text)), |text|))
  {
    SpanOfPiece(IsDigit, text, rest);
    assert (text + rest)[..|text|] == text;
    DigitsAreFirst(text + rest, |text|);
  }

  lemma StringIsFirst(s: string, text: string, rest: string)
    requires text == "'" + (s + "'") && forall i :: 0 <= i < |s| ==> s[i] != '\''
    ensures FirstToken(text + rest) == Some((Str(s), |text|))
  {
    var whole := text + rest;
    assert whole[1..] == s + ("'" + rest);
    SpanOfPiece(NotQuote, s, "'" + rest);
    assert whole[1..1 + |s|] == s;
  }

  lemma SignIsFirst(t: Token, text: string, rest: string)
    requires Spells(text, t) && !RunsOn(t, rest) && !t.Ident? && !t.Int? && !t.Str?
    ensures FirstToken(text + rest) == Some((t, |text|))
  {
  }

  lemma SpelledIsFirst(t: Token, text: string, rest: string)
    requires Spells(text, t) && !RunsOn(t, rest)
    ensures text != "" && !IsBlank(text[0]) && FirstToken(text + rest) == Some((t, |text|))
  {
    match t
    case Ident(name) => WordIsFirst(name, rest);
    case Int(_) => NumberIsFirst(text, rest);
    case Str(s) => StringIsFirst(s, text, rest);
    case _ => SignIsFirst(t, text, rest);
  }

  lemma SpanStops(p: char -> bool, s: string, rest: string)
    requires rest == s[Span(p, s)..]
    ensures rest != "" ==> !p(rest[0])
  {
    SpanHolds(p, s);
  }

  lemma WordIsSpelled(s: string)
    requires s != "" && IsLetter(s[0])
    ensures var n := Span(IsWordChar, s); Spells(s[..n], Ident(s[..n])) && !RunsOn(Ident(s[..n]), s[n..])
  {
    SpanHolds(IsWordChar, s);
    SpanStops(IsWordChar, s, s[Span(IsWordChar, s)..]);
  }

  lemma NumberIsSpelled(s: string)
    requires s != "" && IsDigit(s[0])
    ensures var n := Span(IsDigit, s); IsDigits(s[..n]) && !RunsOn(Int(0), s[n..])
  {
    SpanHolds(IsDigit, s);
    SpanStops(IsDigit, s, s[Span(IsDigit, s)..]);
  }

  lemma StringIsSpelled(s: string)
    requires s != "" && s[0] == '\'' && 1 + Span(NotQuote, s[1..]) < |s|
    ensures var n := 1 + Span(NotQuote, s[1..]); Spells(s[..n + 1], Str(s[1..n]))
  {
    var n := 1 + Span(NotQuote, s[1..]);
    SpanHolds(NotQuote, s[1..]);
    assert s[..n + 1] == "'" + (s[1..n] + "'");
    assert forall i :: 0 <= i < n - 1 ==> s[1..n][i] == s[1..][i];
  }

  /** Whatever the tokenizer takes is spelled right and does not run on. */
  lemma FirstIsSpelled(s: string)
    requires s != "" && FirstToken(s).Some?
    ensures var (t, n) := FirstToken(s).value; Spells(s[..n], t) && !RunsOn(t, s[n..])
  {
    if s[0] == '\'' {
      StringIsSpelled(s);
    } else if IsDigit(s[0]) {
      NumberIsSpelled(s);
    } else if IsLetter(s[0]) {
      WordIsSpelled(s);
    } else {
      SignIsSpelled(s);
    }
  }

  lemma SignIsSpelled(s: string)
    requires s != "" && FirstToken(s).Some? && s[0] != '\'' && !IsDigit(s[0]) && !IsLetter(s[0])
    ensures var (t, n) := FirstToken(s).value; Spells(s[..n], t) && !RunsOn(t, s[n..])
  {
    var n := FirstToken(s).value.1;
    assert n == 1 ==> s[..1] == [s[0]];
    assert n == 2 ==> s[..2] == [s[0], s[1]];
  }

  // ---- Whole texts ----

  lemma {:induction false} SpelledLexes(ps: seq<Piece>)
    requires WellSpelled(ps)
    ensures Lex(TextOf(ps)) == Some(TokensIn(ps))
  {
    if ps != [] {
      SpelledLexes(ps[1..]);
      var rest := TextOf(ps[1..]);
      match ps[0]
      case Gap(c) =>
        assert ([c] + rest)[1..] == rest;
        NothingAdded(TokensIn(ps[1..]));
      case Spelled(t, text) =>
        SpelledIsFirst(t, text, rest);
        OneToken(text, t, rest);
    }
  }

  lemma GapFirst(c: char, more: seq<Piece>)
    requires WellSpelled(more) && IsBlank(c)
    ensures var ps := [Gap(c)] + more; WellSpelled(ps) && TextOf(ps) == [c] + TextOf(more) && TokensIn(ps) == TokensIn(more)
  {
    assert ([Gap(c)] + more)[1..] == more;
    NothingAdded(TokensIn(more));
  }

  lemma TokenFirst(t: Token, text: string, more: seq<Piece>)
    requires WellSpelled(more) && Spells(text, t) && !RunsOn(t, TextOf(more))
    ensures var ps := [Spelled(t, text)] + more; WellSpelled(ps) && TextOf(ps) == text + TextOf(more) && TokensIn(ps) == [t] + TokensIn(more)
  {
    assert ([Spelled(t, text)] + more)[1..] == more;
  }

  lemma CutIn(s: string, n: nat)
    requires n <= |s|
    ensures s[..n] + s[n..] == s
  {
  }

  lemma {:induction false} LexedIsSpelled(s: string) returns (ps: seq<Piece>)
    requires Lex(s).Some?
    ensures WellSpelled(ps) && TextOf(ps) == s && TokensIn(ps) == Lex(s).value
    decreases |s|
  {
    if s == "" {
      ps := [];
    } else if IsBlank(s[0]) {
      var more := LexedIsSpelled(s[1..]);
      GapFirst(s[0], more);
      CutIn(s, 1);
      ps := [Gap(s[0])] + more;
    } else {
      var first := FirstToken(s).value;
      FirstIsSpelled(s);
      var more := LexedIsSpelled(s[first.1..]);
      TokenFirst(first.0, s[..first.1], more);
      CutIn(s, first.1);
      ps := [Spelled(first.0, s[..first.1])] + more;
    }
  }

  ghost predicate SpelledAs(s: string, ts: Tokens) {
    exists ps :: WellSpelled(ps) && TextOf(ps) == s && TokensIn(ps) == ts
  }

  /** A text has these tokens exactly when it spells them with blanks anywhere between and no token running
      on into the next. */
  lemma LexesExactly(s: string, ts: Tokens)
    ensures Lex(s) == Some(ts) <==> SpelledAs(s, ts)
  {
    if Lex(s) == Some(ts) {
      var ps := LexedIsSpelled(s);
    }
    if ps :| WellSpelled(ps) && TextOf(ps) == s && TokensIn(ps) == ts {
      SpelledLexes(ps);
    }
  }

  /** An input parses to an expression exactly when, blanks around it aside, it spells tokens that the grammar
      writes for that expression. */
  lemma TextParsesExactly(input: string, e: Expr)
    ensures ParseExpression(input) == Some(e) <==> exists ts :: SpelledAs(TrimEnd(TrimStart(input)), ts) && WrittenAs(ts, e)
  {
    var text := TrimEnd(TrimStart(input));
    if ParseExpression(input) == Some(e) {
      LexesExactly(text, Lex(text).value);
      ParsesExactly(Lex(text).value, e);
    }
    if ts :| SpelledAs(text, ts) && WrittenAs(ts, e) {
      LexesExactly(text, ts);
      ParsesExactly(ts, e);
    }
  }
}
