/** Dump-filter expressions: how they print and how tokens parse back. */
module DumpExpression {
  import opened Base
  import opened Decimals

  datatype Expr =
    | Column(name: string)
    | IntLit(n: int)
    | StrLit(s: string)
    | BoolLit(b: bool)
    | NullLit
    | LookupKey
    | Bitfield(expr: Expr, shift: U32, mask: U64)
    | Eq(l: Expr, r: Expr)
    | NotEq(l: Expr, r: Expr)
    | And(l: Expr, r: Expr)
    | Or(l: Expr, r: Expr)
    | Max(cols: seq<string>)

  datatype Token = Ident(name: string) | Int(n: int) | Str(s: string) | LParen | RParen | ShiftRight | Ampersand | EqEq | EqSign
                 | Differs | AndAnd | OrOr | Comma

  type Tokens = seq<Token>

  /** A parsed expression and the tokens left over; None is a parse error. */
  type Parsed = Option<(Expr, Tokens)>

  const NO_MASK: U64 := 0xFFFF_FFFF_FFFF_FFFF

  predicate IsSuffix(rest: Tokens, ts: Tokens) {
    |rest| <= |ts| && ts[|ts| - |rest|..] == rest
  }

  lemma SuffixOfSuffix(a: Tokens, b: Tokens, c: Tokens)
    requires IsSuffix(a, b) && IsSuffix(b, c)
    ensures IsSuffix(a, c)
  {
    assert c[|c| - |a|..] == c[|c| - |b|..][|b| - |a|..];
  }

  predicate Consumes(r: Parsed, ts: Tokens) {
    r.Some? ==> |r.value.1| < |ts|
  }

  predicate StartsWith(ts: Tokens, t: Token) {
    ts != [] && ts[0] == t
  }

  // ---- The recursive descent parser: or, and, comparison, bitwise, shift, atom ----

  function ParseOr(ts: Tokens): (r: Parsed)
    ensures Consumes(r, ts)
    decreases |ts|, 6
  {
    var l :- ParseAnd(ts);
    OrLoop(l.0, l.1)
  }

  /** `left || right || …`, nested to the left. */
  function OrLoop(left: Expr, ts: Tokens): (r: Parsed)
    ensures r.Some? ==> |r.value.1| <= |ts|
    decreases |ts|, 0
  {
    if StartsWith(ts, OrOr) then
      var r :- ParseAnd(ts[1..]);
      OrLoop(Or(left, r.0), r.1)
    else Some((left, ts))
  }

  function ParseAnd(ts: Tokens): (r: Parsed)
    ensures Consumes(r, ts)
    decreases |ts|, 5
  {
    var l :- ParseComparison(ts);
    AndLoop(l.0, l.1)
  }

  function AndLoop(left: Expr, ts: Tokens): (r: Parsed)
    ensures r.Some? ==> |r.value.1| <= |ts|
    decreases |ts|, 0
  {
    if StartsWith(ts, AndAnd) then
      var r :- ParseComparison(ts[1..]);
      AndLoop(And(left, r.0), r.1)
    else Some((left, ts))
  }

  function ParseComparison(ts: Tokens): (r: Parsed)
    ensures Consumes(r, ts)
    decreases |ts|, 4
  {
    var l :- ParseBitwise(ts);
    if StartsWith(l.1, EqEq) || StartsWith(l.1, EqSign) then
      var r :- ParseBitwise(l.1[1..]);
      Some((Eq(l.0, r.0), r.1))
    else if StartsWith(l.1, Differs) then
      var r :- ParseBitwise(l.1[1..]);
      Some((NotEq(l.0, r.0), r.1))
    else Some(l)
  }

  /** `left & mask` sets the mask of a shift, or makes a bitfield without one. */
  function ParseBitwise(ts: Tokens): (r: Parsed)
    ensures Consumes(r, ts)
    decreases |ts|, 3
  {
    var l :- ParseShift(ts);
    if StartsWith(l.1, Ampersand) then
      var r :- ParseShift(l.1[1..]);
      if !r.0.IntLit? then None
      else
        var mask := r.0.n % 0x1_0000_0000_0000_0000;
        if l.0.Bitfield? then Some((l.0.(mask := mask), r.1)) else Some((Bitfield(l.0, 0, mask), r.1))
    else Some(l)
  }

  function ParseShift(ts: Tokens): (r: Parsed)
    ensures Consumes(r, ts)
    decreases |ts|, 2
  {
    var l :- ParseAtom(ts);
    if StartsWith(l.1, ShiftRight) then
      var r :- ParseAtom(l.1[1..]);
      if !r.0.IntLit? then None else Some((Bitfield(l.0, r.0.n % 0x1_0000_0000, NO_MASK), r.1))
    else Some(l)
  }

  function ParseAtom(ts: Tokens): (r: Parsed)
    ensures Consumes(r, ts)
    decreases |ts|, 1
  {
    if ts == [] then None
    else
      match ts[0]
      case LParen =>
        var e :- ParseOr(ts[1..]);
        if StartsWith(e.1, RParen) then Some((e.0, e.1[1..])) else None
      case Int(n) => Some((IntLit(n), ts[1..]))
      case Str(s) => Some((StrLit(s), ts[1..]))
      case Ident(name) =>
        if name == "null" then Some((NullLit, ts[1..]))
        else if name == "true" then Some((BoolLit(true), ts[1..]))
        else if name == "false" then Some((BoolLit(false), ts[1..]))
        else if name == "lookup_key" then Some((LookupKey, ts[1..]))
        else if name == "max" then
          if StartsWith(ts[1..], LParen) then
            var cols :- MaxColumns(ts[2..]);
            Some((Max(cols.0), cols.1))
          else None
        else Some((Column(name), ts[1..]))
      case _ => None
  }

  /** `col, col, …)` */
  function MaxColumns(ts: Tokens): (r: Option<(seq<string>, Tokens)>)
    ensures r.Some? ==> |r.value.1| < |ts|
    decreases |ts|, 0
  {
    if |ts| < 2 || !ts[0].Ident? then None
    else if ts[1] == RParen then Some(([ts[0].name], ts[2..]))
    else if ts[1] == Comma then
      var rest :- MaxColumns(ts[2..]);
      Some(([ts[0].name] + rest.0, rest.1))
    else None
  }

  // ---- The loops ----

  method ParseOrTokens(ts: Tokens) returns (r: Parsed)
    ensures r == ParseOr(ts)
    decreases |ts|, 6
  {
    var first :- ParseAndTokens(ts);
    var left, rest := first.0, first.1;
    while StartsWith(rest, OrOr)
      invariant OrLoop(left, rest) == ParseOr(ts) && |rest| < |ts|
      decreases |rest|
    {
      var right :- ParseAndTokens(rest[1..]);
      left, rest := Or(left, right.0), right.1;
    }
    r := Some((left, rest));
  }

  method ParseAndTokens(ts: Tokens) returns (r: Parsed)
    ensures r == ParseAnd(ts)
    decreases |ts|, 5
  {
    var first :- ParseComparisonTokens(ts);
    var left, rest := first.0, first.1;
    while StartsWith(rest, AndAnd)
      invariant AndLoop(left, rest) == ParseAnd(ts) && |rest| < |ts|
      decreases |rest|
    {
      var right :- ParseComparisonTokens(rest[1..]);
      left, rest := And(left, right.0), right.1;
    }
    r := Some((left, rest));
  }

  method ParseComparisonTokens(ts: Tokens) returns (r: Parsed)
    ensures r == ParseComparison(ts)
    decreases |ts|, 4
  {
    var left :- ParseBitwiseTokens(ts);
    if StartsWith(left.1, EqEq) || StartsWith(left.1, EqSign) {
      var right :- ParseBitwiseTokens(left.1[1..]);
      r := Some((Eq(left.0, right.0), right.1));
    } else if StartsWith(left.1, Differs) {
      var right :- ParseBitwiseTokens(left.1[1..]);
      r := Some((NotEq(left.0, right.0), right.1));
    } else {
      r := Some(left);
    }
  }

  method ParseBitwiseTokens(ts: Tokens) returns (r: Parsed)
    ensures r == ParseBitwise(ts)
    decreases |ts|, 3
  {
    var left :- ParseShiftTokens(ts);
    if !StartsWith(left.1, Ampersand) {
      return Some(left);
    }
    var right :- ParseShiftTokens(left.1[1..]);
    if !right.0.IntLit? {
      return None;
    }
    var mask := right.0.n % 0x1_0000_0000_0000_0000;
    r := Some((if left.0.Bitfield? then left.0.(mask := mask) else Bitfield(left.0, 0, mask), right.1));
  }

  method ParseShiftTokens(ts: Tokens) returns (r: Parsed)
    ensures r == ParseShift(ts)
    decreases |ts|, 2
  {
    var left :- ParseAtomTokens(ts);
    if !StartsWith(left.1, ShiftRight) {
      return Some(left);
    }
    var right :- ParseAtomTokens(left.1[1..]);
    r := if right.0.IntLit? then Some((Bitfield(left.0, right.0.n % 0x1_0000_0000, NO_MASK), right.1)) else None;
  }

  method ParseAtomTokens(ts: Tokens) returns (r: Parsed)
    ensures r == ParseAtom(ts)
    decreases |ts|, 1
  {
    if StartsWith(ts, LParen) {
      var inner :- ParseOrTokens(ts[1..]);
      r := if StartsWith(inner.1, RParen) then Some((inner.0, inner.1[1..])) else None;
    } else if StartsWith(ts, Ident("max")) && StartsWith(ts[1..], LParen) {
      var cols :- MaxColumnsLoop(ts[2..]);
      r := Some((Max(cols.0), cols.1));
    } else {
      r := ParseAtom(ts);
    }
  }

  /** The columns read so far, then whatever the rest reads as. */
  function Preceded(cols: seq<string>, rest: Option<(seq<string>, Tokens)>): Option<(seq<string>, Tokens)> {
    if rest.Some? then Some((cols + rest.value.0, rest.value.1)) else None
  }

  lemma ColumnsOneMore(cols: seq<string>, ts: Tokens)
    requires |ts| >= 2 && ts[0].Ident? && ts[1] == Comma
    ensures Preceded(cols, MaxColumns(ts)) == Preceded(cols + [ts[0].name], MaxColumns(ts[2..]))
  {
    if MaxColumns(ts[2..]).Some? {
      LastMoves(cols, ts[0].name, MaxColumns(ts[2..]).value.0);
    }
  }

  method MaxColumnsLoop(ts: Tokens) returns (r: Option<(seq<string>, Tokens)>)
    ensures r == MaxColumns(ts)
  {
    var args: seq<string> := [];
    var rest := ts;
    if MaxColumns(ts).Some? {
      NothingAdded(MaxColumns(ts).value.0);
    }
    while true
      invariant MaxColumns(ts) == Preceded(args, MaxColumns(rest))
      decreases |rest|
    {
      if rest == [] || !rest[0].Ident? {
        return None;
      }
      var col := rest[0].name;
      if StartsWith(rest[1..], Comma) {
        ColumnsOneMore(args, rest);
        args, rest := args + [col], rest[2..];
      } else if StartsWith(rest[1..], RParen) {
        return Some((args + [col], rest[2..]));
      } else {
        return None;
      }
    }
  }

  // ---- Every success leaves a proper suffix ----

  ghost predicate LeavesSuffix(r: Parsed, ts: Tokens) {
    r.Some? ==> IsSuffix(r.value.1, ts) && |r.value.1| < |ts|
  }

  lemma Drops(rest: Tokens, ts: Tokens)
    requires IsSuffix(rest, ts) && rest != []
    ensures IsSuffix(rest[1..], ts)
  {
    assert ts[|ts| - |rest| + 1..] == ts[|ts| - |rest|..][1..];
  }

  lemma {:induction false} OrLeavesSuffix(ts: Tokens)
    ensures LeavesSuffix(ParseOr(ts), ts)
    decreases |ts|, 6
  {
    AndLeavesSuffix(ts);
    var l := ParseAnd(ts);
    if l.Some? {
      OrLoopLeavesSuffix(l.value.0, l.value.1);
      if ParseOr(ts).Some? {
        SuffixOfSuffix(ParseOr(ts).value.1, l.value.1, ts);
      }
    }
  }

  lemma {:induction false} OrLoopLeavesSuffix(left: Expr, ts: Tokens)
    ensures OrLoop(left, ts).Some? ==> IsSuffix(OrLoop(left, ts).value.1, ts)
    decreases |ts|, 0
  {
    if StartsWith(ts, OrOr) {
      AndLeavesSuffix(ts[1..]);
      var r := ParseAnd(ts[1..]);
      if r.Some? {
        OrLoopLeavesSuffix(Or(left, r.value.0), r.value.1);
        if OrLoop(left, ts).Some? {
          SuffixOfSuffix(OrLoop(left, ts).value.1, r.value.1, ts[1..]);
          SuffixOfSuffix(OrLoop(left, ts).value.1, ts[1..], ts);
        }
      }
    }
  }

  lemma {:induction false} AndLeavesSuffix(ts: Tokens)
    ensures LeavesSuffix(ParseAnd(ts), ts)
    decreases |ts|, 5
  {
    ComparisonLeavesSuffix(ts);
    var l := ParseComparison(ts);
    if l.Some? {
      AndLoopLeavesSuffix(l.value.0, l.value.1);
      if ParseAnd(ts).Some? {
        SuffixOfSuffix(ParseAnd(ts).value.1, l.value.1, ts);
      }
    }
  }

  lemma {:induction false} AndLoopLeavesSuffix(left: Expr, ts: Tokens)
    ensures AndLoop(left, ts).Some? ==> IsSuffix(AndLoop(left, ts).value.1, ts)
    decreases |ts|, 0
  {
    if StartsWith(ts, AndAnd) {
      ComparisonLeavesSuffix(ts[1..]);
      var r := ParseComparison(ts[1..]);
      if r.Some? {
        AndLoopLeavesSuffix(And(left, r.value.0), r.value.1);
        if AndLoop(left, ts).Some? {
          SuffixOfSuffix(AndLoop(left, ts).value.1, r.value.1, ts[1..]);
          SuffixOfSuffix(AndLoop(left, ts).value.1, ts[1..], ts);
        }
      }
    }
  }

  /** What follows an operator inside a suffix leaves a suffix of the whole. */
  lemma AfterOperator(r: Parsed, rest: Tokens, ts: Tokens)
    requires IsSuffix(rest, ts) && rest != [] && LeavesSuffix(r, rest[1..])
    ensures LeavesSuffix(r, ts)
  {
    if r.Some? {
      Drops(rest, ts);
      SuffixOfSuffix(r.value.1, rest[1..], ts);
    }
  }

  lemma {:induction false} ComparisonLeavesSuffix(ts: Tokens)
    ensures LeavesSuffix(ParseComparison(ts), ts)
    decreases |ts|, 4
  {
    BitwiseLeavesSuffix(ts);
    var l := ParseBitwise(ts);
    if l.Some? && l.value.1 != [] {
      BitwiseLeavesSuffix(l.value.1[1..]);
      AfterOperator(ParseBitwise(l.value.1[1..]), l.value.1, ts);
    }
  }

  lemma {:induction false} BitwiseLeavesSuffix(ts: Tokens)
    ensures LeavesSuffix(ParseBitwise(ts), ts)
    decreases |ts|, 3
  {
    ShiftLeavesSuffix(ts);
    var l := ParseShift(ts);
    if l.Some? && l.value.1 != [] {
      ShiftLeavesSuffix(l.value.1[1..]);
      AfterOperator(ParseShift(l.value.1[1..]), l.value.1, ts);
    }
  }

  lemma {:induction false} ShiftLeavesSuffix(ts: Tokens)
    ensures LeavesSuffix(ParseShift(ts), ts)
    decreases |ts|, 2
  {
    AtomLeavesSuffix(ts);
    var l := ParseAtom(ts);
    if l.Some? && l.value.1 != [] {
      AtomLeavesSuffix(l.value.1[1..]);
      AfterOperator(ParseAtom(l.value.1[1..]), l.value.1, ts);
    }
  }

  lemma {:induction false} AtomLeavesSuffix(ts: Tokens)
    ensures LeavesSuffix(ParseAtom(ts), ts)
    decreases |ts|, 1
  {
    if ts != [] {
      match ts[0]
      case LParen =>
        OrLeavesSuffix(ts[1..]);
        var e := ParseOr(ts[1..]);
        if e.Some? && e.value.1 != [] {
          Drops(e.value.1, ts[1..]);
          SuffixOfSuffix(e.value.1[1..], ts[1..], ts);
        }
      case Ident(name) =>
        if |ts| >= 2 {
          ColumnsLeaveSuffix(ts[2..]);
          var cols := MaxColumns(ts[2..]);
          if cols.Some? {
            SuffixOfSuffix(cols.value.1, ts[2..], ts);
          }
        }
      case _ =>
    }
  }

  lemma {:induction false} ColumnsLeaveSuffix(ts: Tokens)
    ensures MaxColumns(ts).Some? ==> IsSuffix(MaxColumns(ts).value.1, ts)
    decreases |ts|, 0
  {
    if |ts| >= 2 && ts[0].Ident? && ts[1] == Comma {
      ColumnsLeaveSuffix(ts[2..]);
      if MaxColumns(ts).Some? {
        SuffixOfSuffix(MaxColumns(ts).value.1, ts[2..], ts);
      }
    }
  }

  // ---- Expressions that print without losing their shape ----

  predicate IsLetter(c: char) {
    'a' <= c <= 'z' || 'A' <= c <= 'Z' || c == '_'
  }

  predicate IsName(s: string) {
    s != "" && IsLetter(s[0]) && forall i :: 0 <= i < |s| ==> IsLetter(s[i]) || IsDigit(s[i])
  }

  predicate IsKeyword(s: string) {
    s == "null" || s == "true" || s == "false" || s == "lookup_key" || s == "max"
  }

  predicate IsAtom(e: Expr) {
    match e
    case Column(name) => IsName(name) && !IsKeyword(name)
    case IntLit(n) => 0 <= n < 0x8000_0000_0000_0000
    case StrLit(s) => forall i :: 0 <= i < |s| ==> s[i] != '\''
    case BoolLit(_) => true
    case NullLit => true
    case LookupKey => true
    case Max(cols) => cols != [] && forall i :: 0 <= i < |cols| ==> IsName(cols[i])
    case _ => false
  }

  predicate IsBitwise(e: Expr) {
    IsAtom(e) || (e.Bitfield? && IsAtom(e.expr) && e.mask < 0x8000_0000_0000_0000)
  }

  predicate IsComparison(e: Expr) {
    IsBitwise(e) || ((e.Eq? || e.NotEq?) && IsBitwise(e.l) && IsBitwise(e.r))
  }

  /** `&&` nests to the left over comparisons. */
  predicate IsConjunction(e: Expr) {
    if e.And? then IsConjunction(e.l) && IsComparison(e.r) else IsComparison(e)
  }

  /** `||` nests to the left over conjunctions. */
  predicate Canonical(e: Expr) {
    if e.Or? then Canonical(e.l) && IsConjunction(e.r) else IsConjunction(e)
  }

  function ColumnTokens(cols: seq<string>): Tokens {
    if cols == [] then [RParen]
    else if |cols| == 1 then [Ident(cols[0]), RParen] else [Ident(cols[0])] + ([Comma] + ColumnTokens(cols[1..]))
  }

  /** The tokens of the printed expression. */
  function TokensOf(e: Expr): Tokens {
    match e
    case Column(name) => [Ident(name)]
    case IntLit(n) => [Int(n)]
    case StrLit(s) => [Str(s)]
    case BoolLit(b) => [Ident(if b then "true" else "false")]
    case NullLit => [Ident("null")]
    case LookupKey => [Ident("lookup_key")]
    case Max(cols) => [Ident("max")] + ([LParen] + ColumnTokens(cols))
    case Bitfield(a, shift, mask) => [LParen] + (TokensOf(a) + [ShiftRight, Int(shift), RParen, Ampersand, Int(mask)])
    case Eq(l, r) => TokensOf(l) + ([EqEq] + TokensOf(r))
    case NotEq(l, r) => TokensOf(l) + ([Differs] + TokensOf(r))
    case And(l, r) => TokensOf(l) + ([AndAnd] + TokensOf(r))
    case Or(l, r) => TokensOf(l) + ([OrOr] + TokensOf(r))
  }

  // ---- Parsing the tokens back ----

  lemma AfterTwo(x: Token, y: Token, middle: Tokens, rest: Tokens)
    ensures var ts := ([x] + ([y] + middle)) + rest;
            |ts| >= 2 && ts[0] == x && ts[1] == y && ts[1..] == ([y] + middle) + rest && ts[2..] == middle + rest
  {
  }

  lemma {:induction false} ParsesColumns(cols: seq<string>, rest: Tokens)
    requires cols != []
    ensures MaxColumns(ColumnTokens(cols) + rest) == Some((cols, rest))
    decreases |cols|
  {
    if |cols| == 1 {
      var ts := [Ident(cols[0]), RParen] + rest;
      assert ts[2..] == rest;
      assert cols == [cols[0]];
    } else {
      ParsesColumns(cols[1..], rest);
      AfterTwo(Ident(cols[0]), Comma, ColumnTokens(cols[1..]), rest);
      assert cols == [cols[0]] + cols[1..];
    }
  }

  lemma ParsesAtom(e: Expr, rest: Tokens)
    requires IsAtom(e)
    ensures ParseAtom(TokensOf(e) + rest) == Some((e, rest))
  {
    var ts := TokensOf(e) + rest;
    if e.Max? {
      ParsesColumns(e.cols, rest);
      AfterTwo(Ident("max"), LParen, ColumnTokens(e.cols), rest);
    } else {
      assert ts[1..] == rest;
    }
  }

  /** The next token does not continue an expression of the given kind. */
  predicate EndsShift(rest: Tokens) {
    !StartsWith(rest, ShiftRight)
  }

  predicate EndsBitwise(rest: Tokens) {
    EndsShift(rest) && !StartsWith(rest, Ampersand)
  }

  predicate EndsComparison(rest: Tokens) {
    EndsBitwise(rest) && !StartsWith(rest, EqEq) && !StartsWith(rest, EqSign) && !StartsWith(rest, Differs)
  }

  predicate EndsAnd(rest: Tokens) {
    EndsComparison(rest) && !StartsWith(rest, AndAnd)
  }

  predicate EndsOr(rest: Tokens) {
    EndsAnd(rest) && !StartsWith(rest, OrOr)
  }

  lemma ShiftOfAtom(ts: Tokens, e: Expr, rest: Tokens)
    requires ParseAtom(ts) == Some((e, rest)) && EndsShift(rest)
    ensures ParseShift(ts) == Some((e, rest))
  {
  }

  lemma BitwiseOfShift(ts: Tokens, e: Expr, rest: Tokens)
    requires ParseShift(ts) == Some((e, rest)) && EndsBitwise(rest)
    ensures ParseBitwise(ts) == Some((e, rest))
  {
  }

  lemma ComparisonOfBitwise(ts: Tokens, e: Expr, rest: Tokens)
    requires ParseBitwise(ts) == Some((e, rest)) && EndsComparison(rest)
    ensures ParseComparison(ts) == Some((e, rest))
  {
  }

  lemma OrOfComparison(ts: Tokens, e: Expr, rest: Tokens)
    requires ParseComparison(ts) == Some((e, rest)) && EndsOr(rest)
    ensures ParseOr(ts) == Some((e, rest))
  {
    assert AndLoop(e, rest) == Some((e, rest));
    assert ParseAnd(ts) == Some((e, rest));
    assert OrLoop(e, rest) == Some((e, rest));
  }

  lemma ParsesNumber(n: nat, rest: Tokens)
    ensures ParseAtom([Int(n)] + rest) == Some((IntLit(n), rest))
  {
    assert ([Int(n)] + rest)[1..] == rest;
  }

  lemma OrOfShift(ts: Tokens, e: Expr, rest: Tokens)
    requires ParseShift(ts) == Some((e, rest)) && EndsOr(rest)
    ensures ParseOr(ts) == Some((e, rest))
  {
    BitwiseOfShift(ts, e, rest);
    ComparisonOfBitwise(ts, e, rest);
    OrOfComparison(ts, e, rest);
  }

  lemma ShiftOfAtoms(ts: Tokens, a: Expr, after: Tokens, shift: U32, rest: Tokens)
    requires ParseAtom(ts) == Some((a, after)) && StartsWith(after, ShiftRight)
    requires ParseAtom(after[1..]) == Some((IntLit(shift), rest))
    ensures ParseShift(ts) == Some((Bitfield(a, shift, NO_MASK), rest))
  {
  }

  lemma Parenthesized(inner: Tokens, e: Expr, rest: Tokens)
    requires ParseOr(inner) == Some((e, [RParen] + rest))
    ensures ParseAtom([LParen] + inner) == Some((e, rest))
  {
    assert ([LParen] + inner)[1..] == inner;
    assert ([RParen] + rest)[1..] == rest;
  }

  /** `(a >> shift)` */
  lemma ParsesShifted(a: Expr, shift: U32, rest: Tokens)
    requires IsAtom(a)
    ensures ParseAtom([LParen] + (TokensOf(a) + ([ShiftRight] + ([Int(shift)] + ([RParen] + rest))))) ==
            Some((Bitfield(a, shift, NO_MASK), rest))
  {
    var close := [RParen] + rest;
    var after := [ShiftRight] + ([Int(shift)] + close);
    ParsesAtom(a, after);
    assert after[1..] == [Int(shift)] + close;
    ParsesNumber(shift, close);
    ShiftOfAtoms(TokensOf(a) + after, a, after, shift, close);
    OrOfShift(TokensOf(a) + after, Bitfield(a, shift, NO_MASK), close);
    Parenthesized(TokensOf(a) + after, Bitfield(a, shift, NO_MASK), rest);
  }

  lemma MaskOfShift(ts: Tokens, e: Expr, rest: Tokens, mask: U64, after: Tokens)
    requires ParseShift(ts) == Some((e, [Ampersand] + rest)) && e.Bitfield?
    requires ParseShift(rest) == Some((IntLit(mask), after))
    ensures ParseBitwise(ts) == Some((e.(mask := mask), after))
  {
    assert ([Ampersand] + rest)[1..] == rest;
  }

  lemma BitfieldTokens(a: Expr, shift: U32, mask: U64, rest: Tokens)
    ensures TokensOf(Bitfield(a, shift, mask)) + rest ==
            [LParen] + (TokensOf(a) + ([ShiftRight] + ([Int(shift)] + ([RParen] + ([Ampersand] + ([Int(mask)] + rest))))))
  {
  }

  lemma ParsesBitwise(e: Expr, rest: Tokens)
    requires IsBitwise(e) && EndsBitwise(rest)
    ensures ParseBitwise(TokensOf(e) + rest) == Some((e, rest))
  {
    var ts := TokensOf(e) + rest;
    if IsAtom(e) {
      ParsesAtom(e, rest);
      ShiftOfAtom(ts, e, rest);
      BitwiseOfShift(ts, e, rest);
    } else {
      BitfieldTokens(e.expr, e.shift, e.mask, rest);
      var masked := [Int(e.mask)] + rest;
      ParsesShifted(e.expr, e.shift, [Ampersand] + masked);
      ShiftOfAtom(ts, e.(mask := NO_MASK), [Ampersand] + masked);
      ParsesNumber(e.mask, rest);
      ShiftOfAtom(masked, IntLit(e.mask), rest);
      MaskOfShift(ts, e.(mask := NO_MASK), masked, e.mask, rest);
    }
  }

  lemma Compared(ts: Tokens, l: Expr, op: Token, rest: Tokens, r: Expr, after: Tokens)
    requires ParseBitwise(ts) == Some((l, [op] + rest)) && ParseBitwise(rest) == Some((r, after))
    ensures op == EqEq ==> ParseComparison(ts) == Some((Eq(l, r), after))
    ensures op == Differs ==> ParseComparison(ts) == Some((NotEq(l, r), after))
  {
    assert ([op] + rest)[1..] == rest;
  }

  lemma Regroup(a: Tokens, op: Token, b: Tokens, rest: Tokens)
    ensures a + ([op] + b) + rest == a + ([op] + (b + rest))
  {
  }

  lemma ParsesComparison(e: Expr, rest: Tokens)
    requires IsComparison(e) && EndsComparison(rest)
    ensures ParseComparison(TokensOf(e) + rest) == Some((e, rest))
  {
    if IsBitwise(e) {
      ParsesBitwise(e, rest);
      ComparisonOfBitwise(TokensOf(e) + rest, e, rest);
    } else {
      var op := if e.Eq? then EqEq else Differs;
      Regroup(TokensOf(e.l), op, TokensOf(e.r), rest);
      ParsesBitwise(e.l, [op] + (TokensOf(e.r) + rest));
      ParsesBitwise(e.r, rest);
      Compared(TokensOf(e) + rest, e.l, op, TokensOf(e.r) + rest, e.r, rest);
    }
  }

  lemma AndStep(left: Expr, rest: Tokens, r: Expr, after: Tokens)
    requires ParseComparison(rest) == Some((r, after))
    ensures AndLoop(left, [AndAnd] + rest) == AndLoop(And(left, r), after)
  {
    assert ([AndAnd] + rest)[1..] == rest;
  }

  lemma OrStep(left: Expr, rest: Tokens, r: Expr, after: Tokens)
    requires ParseAnd(rest) == Some((r, after))
    ensures OrLoop(left, [OrOr] + rest) == OrLoop(Or(left, r), after)
  {
    assert ([OrOr] + rest)[1..] == rest;
  }

  lemma {:induction false} ParsesConjunction(e: Expr, rest: Tokens)
    requires IsConjunction(e) && EndsComparison(rest)
    ensures ParseAnd(TokensOf(e) + rest) == AndLoop(e, rest)
  {
    if e.And? {
      var more := TokensOf(e.r) + rest;
      Regroup(TokensOf(e.l), AndAnd, TokensOf(e.r), rest);
      ParsesConjunction(e.l, [AndAnd] + more);
      ParsesComparison(e.r, rest);
      AndStep(e.l, more, e.r, rest);
    } else {
      ParsesComparison(e, rest);
    }
  }

  lemma {:induction false} ParsesCanonical(e: Expr, rest: Tokens)
    requires Canonical(e) && EndsAnd(rest)
    ensures ParseOr(TokensOf(e) + rest) == OrLoop(e, rest)
  {
    if e.Or? {
      var more := TokensOf(e.r) + rest;
      Regroup(TokensOf(e.l), OrOr, TokensOf(e.r), rest);
      ParsesCanonical(e.l, [OrOr] + more);
      ParsesConjunction(e.r, rest);
      OrStep(e.l, more, e.r, rest);
    } else {
      ParsesConjunction(e, rest);
    }
  }

  /** The tokens of a canonical expression parse back to it, with nothing left over. */
  lemma TokensParseBack(e: Expr)
    requires Canonical(e)
    ensures ParseOr(TokensOf(e)) == Some((e, []))
  {
    NothingAdded(TokensOf(e));
    ParsesCanonical(e, []);
  }
}
