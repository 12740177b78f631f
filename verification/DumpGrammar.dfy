/** The grammar of dump-filter expressions, and that the parser accepts exactly what it derives. */
module DumpGrammar {
  import opened Base
  import opened DumpExpression

  /** How an expression is written: brackets, signs and words as they stand. */
  datatype Syntax =
    | Word(token: Token)
    | MaxOf(cols: seq<string>)
    | Group(inner: Syntax)
    | ShiftedBy(value: Syntax, amount: Syntax)
    | MaskedBy(value: Syntax, mask: Syntax)
    | Compared(l: Syntax, sign: Token, r: Syntax)
    | Both(l: Syntax, r: Syntax)
    | Either(l: Syntax, r: Syntax)

  function Written(t: Syntax): Tokens {
    match t
    case Word(token) => [token]
    case MaxOf(cols) => [Ident("max")] + ([LParen] + ColumnTokens(cols))
    case Group(inner) => [LParen] + (Written(inner) + [RParen])
    case ShiftedBy(value, amount) => Written(value) + ([ShiftRight] + Written(amount))
    case MaskedBy(value, mask) => Written(value) + ([Ampersand] + Written(mask))
    case Compared(l, sign, r) => Written(l) + ([sign] + Written(r))
    case Both(l, r) => Written(l) + ([AndAnd] + Written(r))
    case Either(l, r) => Written(l) + ([OrOr] + Written(r))
  }

  // ---- What is written stands for ----

  function WordMeans(token: Token): Expr {
    match token
    case Int(n) => IntLit(n)
    case Str(s) => StrLit(s)
    case Ident(name) =>
      if name == "null" then NullLit
      else if name == "true" || name == "false" then BoolLit(name == "true")
      else if name == "lookup_key" then LookupKey
      else Column(name)
    case _ => NullLit
  }

  /** The low bits of a number that is written out. */
  function LowBits(e: Expr, size: nat): nat
    requires size > 0
  {
    if e.IntLit? then e.n % size else 0
  }

  /** Shifts and masks are bitfields; a shift without a mask keeps all 64 bits, a mask without a shift
      shifts by nothing, and a mask on a bitfield replaces its mask. */
  function Means(t: Syntax): Expr {
    match t
    case Word(token) => WordMeans(token)
    case MaxOf(cols) => Max(cols)
    case Group(inner) => Means(inner)
    case ShiftedBy(value, amount) => Bitfield(Means(value), LowBits(Means(amount), 0x1_0000_0000), 0xFFFF_FFFF_FFFF_FFFF)
    case MaskedBy(value, mask) =>
      var bits: U64 := LowBits(Means(mask), 0x1_0000_0000_0000_0000);
      (match Means(value)
       case Bitfield(e, shift, _) => Bitfield(e, shift, bits)
       case e => Bitfield(e, 0, bits))
    case Compared(l, sign, r) => if sign.Differs? then NotEq(Means(l), Means(r)) else Eq(Means(l), Means(r))
    case Both(l, r) => And(Means(l), Means(r))
    case Either(l, r) => Or(Means(l), Means(r))
  }

  // ---- What may be written where ----

  predicate AtomForm(t: Syntax)
    decreases t, 0
  {
    match t
    case Word(token) => token.Int? || token.Str? || (token.Ident? && token.name != "max")
    case MaxOf(cols) => cols != []
    case Group(inner) => EitherForm(inner)
    case _ => false
  }

  predicate ShiftForm(t: Syntax)
    decreases t, 1
  {
    if t.ShiftedBy? then AtomForm(t.value) && AtomForm(t.amount) && Means(t.amount).IntLit? else AtomForm(t)
  }

  predicate MaskForm(t: Syntax)
    decreases t, 2
  {
    if t.MaskedBy? then ShiftForm(t.value) && ShiftForm(t.mask) && Means(t.mask).IntLit? else ShiftForm(t)
  }

  predicate ComparisonForm(t: Syntax)
    decreases t, 3
  {
    if t.Compared? then MaskForm(t.l) && MaskForm(t.r) && (t.sign.EqEq? || t.sign.EqSign? || t.sign.Differs?) else MaskForm(t)
  }

  /** `&&` groups to the left and binds tighter than `||`. */
  predicate BothForm(t: Syntax)
    decreases t, 4
  {
    if t.Both? then BothForm(t.l) && ComparisonForm(t.r) else ComparisonForm(t)
  }

  predicate EitherForm(t: Syntax)
    decreases t, 5
  {
    if t.Either? then EitherForm(t.l) && BothForm(t.r) else BothForm(t)
  }

  /** What may be written at one level may be written at the next. */
  lemma MaskIsComparison(t: Syntax)
    requires MaskForm(t)
    ensures ComparisonForm(t)
  {
    assert t.Compared? ==> !AtomForm(t) && !ShiftForm(t);
  }

  lemma ComparisonIsBoth(t: Syntax)
    requires ComparisonForm(t)
    ensures BothForm(t)
  {
    assert t.Both? ==> !AtomForm(t) && !ShiftForm(t) && !MaskForm(t);
  }

  lemma BothIsEither(t: Syntax)
    requires BothForm(t)
    ensures EitherForm(t)
  {
    assert t.Either? ==> !AtomForm(t) && !ShiftForm(t) && !MaskForm(t) && !ComparisonForm(t);
  }

  // ---- The parser reads everything the grammar derives ----

  lemma Begins(x: Token, rest: Tokens)
    ensures ([x] + rest)[0] == x && ([x] + rest)[1..] == rest && StartsWith([x] + rest, x)
  {
  }

  lemma GroupText(inner: Tokens, rest: Tokens)
    ensures ([LParen] + (inner + [RParen])) + rest == [LParen] + (inner + ([RParen] + rest))
  {
  }

  lemma {:induction false} AtomIsRead(t: Syntax, rest: Tokens)
    requires AtomForm(t)
    ensures ParseAtom(Written(t) + rest) == Some((Means(t), rest))
    decreases t, 0
  {
    match t
    case Word(token) => Begins(token, rest);
    case MaxOf(cols) =>
      ParsesColumns(cols, rest);
      AfterTwo(Ident("max"), LParen, ColumnTokens(cols), rest);
    case Group(inner) =>
      GroupText(Written(inner), rest);
      EitherIsRead(inner, [RParen] + rest);
      Parenthesized(Written(inner) + ([RParen] + rest), Means(inner), rest);
  }

  lemma ShiftOfTwo(ts: Tokens, l: Expr, rest: Tokens, r: Expr, after: Tokens)
    requires ParseAtom(ts) == Some((l, [ShiftRight] + rest)) && ParseAtom(rest) == Some((r, after)) && r.IntLit?
    ensures ParseShift(ts) == Some((Bitfield(l, r.n % 0x1_0000_0000, NO_MASK), after))
  {
    Begins(ShiftRight, rest);
  }

  lemma {:induction false} ShiftIsRead(t: Syntax, rest: Tokens)
    requires ShiftForm(t) && EndsShift(rest)
    ensures ParseShift(Written(t) + rest) == Some((Means(t), rest))
    decreases t, 1
  {
    if t.ShiftedBy? {
      Regroup(Written(t.value), ShiftRight, Written(t.amount), rest);
      AtomIsRead(t.value, [ShiftRight] + (Written(t.amount) + rest));
      AtomIsRead(t.amount, rest);
      ShiftOfTwo(Written(t) + rest, Means(t.value), Written(t.amount) + rest, Means(t.amount), rest);
    } else {
      AtomIsRead(t, rest);
      ShiftOfAtom(Written(t) + rest, Means(t), rest);
    }
  }

  lemma MaskOfTwo(ts: Tokens, l: Expr, rest: Tokens, r: Expr, after: Tokens)
    requires ParseShift(ts) == Some((l, [Ampersand] + rest)) && ParseShift(rest) == Some((r, after)) && r.IntLit?
    ensures var mask := r.n % 0x1_0000_0000_0000_0000;
            ParseBitwise(ts) == Some((if l.Bitfield? then Bitfield(l.expr, l.shift, mask) else Bitfield(l, 0, mask), after))
  {
    Begins(Ampersand, rest);
  }

  lemma {:induction false} MaskIsRead(t: Syntax, rest: Tokens)
    requires MaskForm(t) && EndsBitwise(rest)
    ensures ParseBitwise(Written(t) + rest) == Some((Means(t), rest))
    decreases t, 2
  {
    if t.MaskedBy? {
      Regroup(Written(t.value), Ampersand, Written(t.mask), rest);
      ShiftIsRead(t.value, [Ampersand] + (Written(t.mask) + rest));
      ShiftIsRead(t.mask, rest);
      MaskOfTwo(Written(t) + rest, Means(t.value), Written(t.mask) + rest, Means(t.mask), rest);
    } else {
      ShiftIsRead(t, rest);
      BitwiseOfShift(Written(t) + rest, Means(t), rest);
    }
  }

  lemma ComparisonOfTwo(ts: Tokens, l: Expr, sign: Token, rest: Tokens, r: Expr, after: Tokens)
    requires ParseBitwise(ts) == Some((l, [sign] + rest)) && ParseBitwise(rest) == Some((r, after))
    requires sign.EqEq? || sign.EqSign? || sign.Differs?
    ensures ParseComparison(ts) == Some((if sign.Differs? then NotEq(l, r) else Eq(l, r), after))
  {
    Begins(sign, rest);
  }

  lemma {:induction false} ComparisonIsRead(t: Syntax, rest: Tokens)
    requires ComparisonForm(t) && EndsComparison(rest)
    ensures ParseComparison(Written(t) + rest) == Some((Means(t), rest))
    decreases t, 3
  {
    if t.Compared? {
      Regroup(Written(t.l), t.sign, Written(t.r), rest);
      MaskIsRead(t.l, [t.sign] + (Written(t.r) + rest));
      MaskIsRead(t.r, rest);
      ComparisonOfTwo(Written(t) + rest, Means(t.l), t.sign, Written(t.r) + rest, Means(t.r), rest);
    } else {
      MaskIsRead(t, rest);
      ComparisonOfBitwise(Written(t) + rest, Means(t), rest);
    }
  }

  lemma {:induction false} BothIsRead(t: Syntax, rest: Tokens)
    requires BothForm(t) && EndsComparison(rest)
    ensures ParseAnd(Written(t) + rest) == AndLoop(Means(t), rest)
    decreases t, 4
  {
    if t.Both? {
      Regroup(Written(t.l), AndAnd, Written(t.r), rest);
      BothIsRead(t.l, [AndAnd] + (Written(t.r) + rest));
      ComparisonIsRead(t.r, rest);
      AndStep(Means(t.l), Written(t.r) + rest, Means(t.r), rest);
    } else {
      ComparisonIsRead(t, rest);
    }
  }

  lemma {:induction false} EitherLoops(t: Syntax, rest: Tokens)
    requires EitherForm(t) && EndsAnd(rest)
    ensures ParseOr(Written(t) + rest) == OrLoop(Means(t), rest)
    decreases t, 5
  {
    if t.Either? {
      Regroup(Written(t.l), OrOr, Written(t.r), rest);
      EitherLoops(t.l, [OrOr] + (Written(t.r) + rest));
      BothIsRead(t.r, rest);
      OrStep(Means(t.l), Written(t.r) + rest, Means(t.r), rest);
    } else {
      BothIsRead(t, rest);
    }
  }

  lemma {:induction false} EitherIsRead(t: Syntax, rest: Tokens)
    requires EitherForm(t) && EndsOr(rest)
    ensures ParseOr(Written(t) + rest) == Some((Means(t), rest))
    decreases t, 6
  {
    EitherLoops(t, rest);
  }

  // ---- The parser reads nothing else ----

  /** The tree is how the parsed tokens are written, and the rest is what follows them. */
  ghost predicate ComesFrom(t: Syntax, ts: Tokens, r: Parsed) {
    r.Some? && ts == Written(t) + r.value.1 && Means(t) == r.value.0
  }

  lemma Headed(ts: Tokens)
    requires ts != []
    ensures ts == [ts[0]] + ts[1..]
  {
  }

  lemma {:induction false} ColumnsComeFrom(ts: Tokens)
    requires MaxColumns(ts).Some?
    ensures var (cols, rest) := MaxColumns(ts).value; cols != [] && ts == ColumnTokens(cols) + rest
    decreases |ts|
  {
    var (cols, rest) := MaxColumns(ts).value;
    if ts[1] == Comma {
      ColumnsComeFrom(ts[2..]);
      assert cols[1..] == MaxColumns(ts[2..]).value.0;
      assert ts == [ts[0]] + ([ts[1]] + ts[2..]);
    } else {
      assert ts == [ts[0], ts[1]] + ts[2..];
    }
  }

  lemma {:induction false} AtomComesFrom(ts: Tokens) returns (t: Syntax)
    requires ParseAtom(ts).Some?
    ensures AtomForm(t) && ComesFrom(t, ts, ParseAtom(ts))
    decreases |ts|, 1
  {
    Headed(ts);
    if ts[0].LParen? {
      var inner := EitherComesFrom(ts[1..]);
      t := Group(inner);
      var after := ParseOr(ts[1..]).value.1;
      Headed(after);
      GroupText(Written(inner), after[1..]);
    } else if ts[0] == Ident("max") {
      Headed(ts[1..]);
      ColumnsComeFrom(ts[2..]);
      var (cols, rest) := MaxColumns(ts[2..]).value;
      t := MaxOf(cols);
      assert ts == ([Ident("max")] + ([LParen] + ColumnTokens(cols))) + rest;
    } else {
      t := Word(ts[0]);
    }
  }

  lemma {:induction false} ShiftComesFrom(ts: Tokens) returns (t: Syntax)
    requires ParseShift(ts).Some?
    ensures ShiftForm(t) && ComesFrom(t, ts, ParseShift(ts))
    decreases |ts|, 2
  {
    t := AtomComesFrom(ts);
    var after := ParseAtom(ts).value.1;
    if StartsWith(after, ShiftRight) {
      Headed(after);
      var amount := AtomComesFrom(after[1..]);
      Regroup(Written(t), ShiftRight, Written(amount), ParseAtom(after[1..]).value.1);
      t := ShiftedBy(t, amount);
    }
  }

  lemma {:induction false} MaskComesFrom(ts: Tokens) returns (t: Syntax)
    requires ParseBitwise(ts).Some?
    ensures MaskForm(t) && ComesFrom(t, ts, ParseBitwise(ts))
    decreases |ts|, 3
  {
    t := ShiftComesFrom(ts);
    var after := ParseShift(ts).value.1;
    if StartsWith(after, Ampersand) {
      Headed(after);
      var mask := ShiftComesFrom(after[1..]);
      Regroup(Written(t), Ampersand, Written(mask), ParseShift(after[1..]).value.1);
      t := MaskedBy(t, mask);
    }
  }

  lemma {:induction false} ComparisonComesFrom(ts: Tokens) returns (t: Syntax)
    requires ParseComparison(ts).Some?
    ensures ComparisonForm(t) && ComesFrom(t, ts, ParseComparison(ts))
    decreases |ts|, 4
  {
    t := MaskComesFrom(ts);
    MaskIsComparison(t);
    var after := ParseBitwise(ts).value.1;
    if StartsWith(after, EqEq) || StartsWith(after, EqSign) || StartsWith(after, Differs) {
      Headed(after);
      var r := MaskComesFrom(after[1..]);
      Regroup(Written(t), after[0], Written(r), ParseBitwise(after[1..]).value.1);
      t := Compared(t, after[0], r);
    }
  }

  lemma {:induction false} AndLoopComesFrom(l: Syntax, ts: Tokens) returns (t: Syntax)
    requires BothForm(l) && AndLoop(Means(l), ts).Some?
    ensures BothForm(t) && ComesFrom(t, Written(l) + ts, AndLoop(Means(l), ts))
    decreases |ts|, 0
  {
    t := l;
    if StartsWith(ts, AndAnd) {
      Headed(ts);
      var r := ComparisonComesFrom(ts[1..]);
      var after := ParseComparison(ts[1..]).value.1;
      Regroup(Written(l), AndAnd, Written(r), after);
      t := AndLoopComesFrom(Both(l, r), after);
    }
  }

  lemma {:induction false} BothComesFrom(ts: Tokens) returns (t: Syntax)
    requires ParseAnd(ts).Some?
    ensures BothForm(t) && ComesFrom(t, ts, ParseAnd(ts))
    decreases |ts|, 5
  {
    t := ComparisonComesFrom(ts);
    ComparisonIsBoth(t);
    t := AndLoopComesFrom(t, ParseComparison(ts).value.1);
  }

  lemma {:induction false} OrLoopComesFrom(l: Syntax, ts: Tokens) returns (t: Syntax)
    requires EitherForm(l) && OrLoop(Means(l), ts).Some?
    ensures EitherForm(t) && ComesFrom(t, Written(l) + ts, OrLoop(Means(l), ts))
    decreases |ts|, 0
  {
    t := l;
    if StartsWith(ts, OrOr) {
      Headed(ts);
      var r := BothComesFrom(ts[1..]);
      var after := ParseAnd(ts[1..]).value.1;
      Regroup(Written(l), OrOr, Written(r), after);
      t := OrLoopComesFrom(Either(l, r), after);
    }
  }

  lemma {:induction false} EitherComesFrom(ts: Tokens) returns (t: Syntax)
    requires ParseOr(ts).Some?
    ensures EitherForm(t) && ComesFrom(t, ts, ParseOr(ts))
    decreases |ts|, 6
  {
    t := BothComesFrom(ts);
    BothIsEither(t);
    t := OrLoopComesFrom(t, ParseAnd(ts).value.1);
  }

  ghost predicate WrittenAs(ts: Tokens, e: Expr) {
    exists t :: EitherForm(t) && Written(t) == ts && Means(t) == e
  }

  /** A token list parses to an expression, with nothing left over, exactly when it can be written by the
      grammar so that it stands for that expression. */
  lemma ParsesExactly(ts: Tokens, e: Expr)
    ensures ParseOr(ts) == Some((e, [])) <==> WrittenAs(ts, e)
  {
    if ParseOr(ts) == Some((e, [])) {
      var t := EitherComesFrom(ts);
      NothingAdded(Written(t));
      assert Written(t) == ts;
    }
    if t :| EitherForm(t) && Written(t) == ts && Means(t) == e {
      EitherIsRead(t, []);
      NothingAdded(ts);
    }
  }
}
