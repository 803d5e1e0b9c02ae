/**
 The rendered text of a resolved filter read back with PostgreSQL's precedence: it parses,
 and to the expression the tree describes, exactly when every range has a bound.
 */
module SqlReading {
  import opened Wrappers
  import opened Filters
  import opened Sql
  import opened SqlRenderer

  /** The remaining tokens do not continue an expression of this level or a tighter one. */
  ghost predicate Stop(level: nat, rest: seq<Token>) {
    rest == [] || Level(rest[0]) < level
  }

  /** Whatever follows, these tokens are read at this level as this expression. */
  ghost predicate Reads(ts: seq<Token>, level: nat, e: Expr)
    requires level <= PRIMARY
  {
    && ts != []
    && forall rest :: Stop(level, rest) ==> ReadLevel(ts + rest, level) == Read(e, rest)
  }

  /** Whatever follows, these tokens cannot be read at this level. */
  ghost predicate Unreadable(ts: seq<Token>, level: nat)
    requires level <= PRIMARY
  {
    ts != [] && forall rest :: ReadLevel(ts + rest, level) == Fail
  }

  // ---------- one level of precedence at a time ----------

  lemma Looser(ts: seq<Token>, level: nat, e: Expr)
    requires level < PRIMARY && Reads(ts, level + 1, e)
    requires level == NOT ==> ts[0] != KwNot
    ensures Reads(ts, level, e)
  {
    forall rest | Stop(level, rest) ensures ReadLevel(ts + rest, level) == Read(e, rest) {
      assert Stop(level + 1, rest);
      assert (ts + rest)[0] == ts[0];
    }
  }

  lemma {:induction false} Loosen(ts: seq<Token>, from: nat, to: nat, e: Expr)
    requires to <= from <= PRIMARY && Reads(ts, from, e) && ts[0] != KwNot
    ensures Reads(ts, to, e)
    decreases from
  {
    if to < from {
      Looser(ts, from - 1, e);
      Loosen(ts, from - 1, to, e);
    }
  }

  lemma {:induction false} LoosenUnreadable(ts: seq<Token>, from: nat, to: nat)
    requires to <= from <= PRIMARY && Unreadable(ts, from)
    requires to <= NOT < from ==> ts[0] != KwNot
    ensures Unreadable(ts, to)
    decreases from
  {
    if to < from {
      forall rest: seq<Token> ensures ReadLevel(ts + rest, from - 1) == Fail {
        assert (ts + rest)[0] == ts[0];
      }
      LoosenUnreadable(ts, from - 1, to);
    }
  }

  lemma ReadsParenthesised(ts: seq<Token>, e: Expr)
    requires Reads(ts, OR, e)
    ensures Reads([LParen] + ts + [RParen], PRIMARY, e)
  {
    var whole := [LParen] + ts + [RParen];
    forall rest: seq<Token> ensures ReadLevel(whole + rest, PRIMARY) == Read(e, rest) {
      assert (whole + rest)[1..] == ts + ([RParen] + rest);
      assert Stop(OR, [RParen] + rest);
      assert ([RParen] + rest)[1..] == rest;
      assert ReadClosed(ts + ([RParen] + rest)) == Read(e, rest);
      assert ReadPrimary(whole + rest) == Read(e, rest);
    }
  }

  lemma UnreadableParenthesised(ts: seq<Token>)
    requires Unreadable(ts, OR)
    ensures Unreadable([LParen] + ts + [RParen], PRIMARY)
  {
    var whole := [LParen] + ts + [RParen];
    forall rest: seq<Token> ensures ReadLevel(whole + rest, PRIMARY) == Fail {
      assert (whole + rest)[1..] == ts + ([RParen] + rest);
      assert ReadClosed(ts + ([RParen] + rest)) == Fail;
      assert ReadPrimary(whole + rest) == Fail;
    }
  }

  lemma ReadsNot(ts: seq<Token>, e: Expr)
    requires Reads(ts, NOT, e)
    ensures Reads([KwNot] + ts, NOT, ENot(e))
  {
    forall rest | Stop(NOT, rest) ensures ReadLevel([KwNot] + ts + rest, NOT) == Read(ENot(e), rest) {
      assert ([KwNot] + ts + rest)[1..] == ts + rest;
    }
  }

  lemma UnreadableNot(ts: seq<Token>)
    requires Unreadable(ts, NOT)
    ensures Unreadable([KwNot] + ts, NOT)
  {
    forall rest: seq<Token> ensures ReadLevel([KwNot] + ts + rest, NOT) == Fail {
      assert ([KwNot] + ts + rest)[1..] == ts + rest;
    }
  }

  lemma ReadsToken(t: Token, e: Expr)
    requires (t.Ident? && e == EColumn(t.name)) || (t.Placeholder? && e == EParam(t.i)) || (t.KwTrue? && e == ETrue)
    ensures Reads([t], PRIMARY, e)
  {
    forall rest: seq<Token> ensures ReadLevel([t] + rest, PRIMARY) == Read(e, rest) {
      assert ([t] + rest)[1..] == rest;
    }
  }

  lemma ReadsCast(ts: seq<Token>, e: Expr, ty: SqlType)
    requires Reads(ts, PRIMARY, e)
    ensures Reads(ts + [Cast(ty)], CAST, ECast(e, ty))
  {
    forall rest | Stop(CAST, rest) ensures ReadLevel(ts + [Cast(ty)] + rest, CAST) == Read(ECast(e, ty), rest) {
      assert ts + [Cast(ty)] + rest == ts + ([Cast(ty)] + rest);
      assert Stop(PRIMARY, [Cast(ty)] + rest);
      assert ([Cast(ty)] + rest)[1..] == rest;
      assert ReadTail(ECast(e, ty), rest, CAST) == Read(ECast(e, ty), rest);
    }
  }

  lemma ReadsPath(a: seq<Token>, x: Expr, b: seq<Token>, y: Expr)
    requires Reads(a, CAST, x) && Reads(b, CAST, y)
    ensures Reads(a + [FollowPath] + b, OPERATOR, EPath(x, y))
  {
    forall rest | Stop(OPERATOR, rest)
      ensures ReadLevel(a + [FollowPath] + b + rest, OPERATOR) == Read(EPath(x, y), rest)
    {
      var tail := [FollowPath] + (b + rest);
      assert a + [FollowPath] + b + rest == a + tail;
      assert Stop(CAST, tail) && Stop(CAST, rest);
      assert tail[1..] == b + rest;
      assert ReadTail(EPath(x, y), rest, OPERATOR) == Read(EPath(x, y), rest);
    }
  }

  lemma ReadsCompare(a: seq<Token>, x: Expr, op: Comparison, b: seq<Token>, y: Expr)
    requires Reads(a, OPERATOR, x) && Reads(b, OPERATOR, y)
    requires b[0] != KwAny && b[0] != KwAll
    ensures Reads(a + [Compare(op)] + b, COMPARE, ECompare(op, x, y))
  {
    forall rest | Stop(COMPARE, rest)
      ensures ReadLevel(a + [Compare(op)] + b + rest, COMPARE) == Read(ECompare(op, x, y), rest)
    {
      var tail := [Compare(op)] + (b + rest);
      assert a + [Compare(op)] + b + rest == a + tail;
      assert Stop(OPERATOR, tail) && Stop(OPERATOR, rest);
      assert tail[1] == b[0];
      assert tail[1..] == b + rest;
    }
  }

  lemma ReadsQuantified(a: seq<Token>, x: Expr, op: Comparison, any: bool, b: seq<Token>, y: Expr)
    requires Reads(a, OPERATOR, x) && Reads(b, OR, y)
    ensures Reads(a + [Compare(op), if any then KwAny else KwAll, LParen] + b + [RParen], COMPARE,
                  if any then EAny(op, x, y) else EAll(op, x, y))
  {
    var quantifier := if any then KwAny else KwAll;
    var e := if any then EAny(op, x, y) else EAll(op, x, y);
    var whole := a + [Compare(op), quantifier, LParen] + b + [RParen];
    forall rest | Stop(COMPARE, rest) ensures ReadLevel(whole + rest, COMPARE) == Read(e, rest) {
      var inner := b + ([RParen] + rest);
      var tail := [Compare(op), quantifier, LParen] + inner;
      assert whole + rest == a + tail;
      assert Stop(OPERATOR, tail) && Stop(OR, [RParen] + rest);
      assert tail[3..] == inner;
      assert ([RParen] + rest)[1..] == rest;
      assert ReadClosed(inner) == Read(y, rest);
    }
  }

  lemma ReadsIsNull(a: seq<Token>, x: Expr, negated: bool)
    requires Reads(a, COMPARE, x)
    ensures Reads(a + (if negated then [KwIs, KwNot, KwNull] else [KwIs, KwNull]), IS, EIsNull(x, negated))
  {
    var suffix := if negated then [KwIs, KwNot, KwNull] else [KwIs, KwNull];
    forall rest | Stop(IS, rest) ensures ReadLevel(a + suffix + rest, IS) == Read(EIsNull(x, negated), rest) {
      assert a + suffix + rest == a + (suffix + rest);
      assert Stop(COMPARE, suffix + rest);
      assert (suffix + rest)[|suffix|..] == rest;
    }
  }

  // ---------- chains of AND and OR ----------

  function Connect(sep: Token, l: Expr, r: Expr): Expr {
    if sep == KwOr then EOr(l, r) else EAnd(l, r)
  }

  /** The left-associated expression of joined terms. */
  function Chain(es: seq<Expr>, sep: Token): Expr
    requires es != []
  {
    if |es| == 1 then es[0] else Connect(sep, Chain(es[..|es| - 1], sep), es[|es| - 1])
  }

  ghost predicate AllRead(terms: seq<seq<Token>>, es: seq<Expr>, level: nat)
    requires level <= PRIMARY
  {
    |terms| == |es| && forall i :: 0 <= i < |terms| ==> Reads(terms[i], level, es[i])
  }

  /** Joined terms are read up to the next connective, and the reading goes on from there. */
  lemma {:induction false} ReadJoined(terms: seq<seq<Token>>, es: seq<Expr>, sep: Token, rest: seq<Token>)
    requires sep == KwAnd || sep == KwOr
    requires terms != [] && AllRead(terms, es, Level(sep) + 1)
    requires Stop(Level(sep) + 1, rest)
    ensures ReadLevel(Join(terms, sep) + rest, Level(sep)) == ReadTail(Chain(es, sep), rest, Level(sep))
  {
    var k := |terms| - 1;
    assert Reads(terms[k], Level(sep) + 1, es[k]);
    if k > 0 {
      var tail := [sep] + (terms[k] + rest);
      assert Join(terms, sep) + rest == Join(terms[..k], sep) + tail;
      ReadJoined(terms[..k], es[..k], sep, tail);
      ReadNextTerm(Chain(es[..k], sep), sep, terms[k], es[k], rest);
    }
  }

  lemma ReadNextTerm(e: Expr, sep: Token, ts: seq<Token>, next: Expr, rest: seq<Token>)
    requires sep == KwAnd || sep == KwOr
    requires Reads(ts, Level(sep) + 1, next) && Stop(Level(sep) + 1, rest)
    ensures ReadTail(e, [sep] + (ts + rest), Level(sep)) == ReadTail(Connect(sep, e, next), rest, Level(sep))
  {
    assert ([sep] + (ts + rest))[1..] == ts + rest;
  }

  lemma ReadsJoined(terms: seq<seq<Token>>, es: seq<Expr>, sep: Token)
    requires sep == KwAnd || sep == KwOr
    requires terms != [] && AllRead(terms, es, Level(sep) + 1)
    ensures Reads(Join(terms, sep), Level(sep), Chain(es, sep))
  {
    JoinNonempty(terms, es, sep);
    forall rest | Stop(Level(sep), rest)
      ensures ReadLevel(Join(terms, sep) + rest, Level(sep)) == Read(Chain(es, sep), rest)
    {
      ReadJoined(terms, es, sep, rest);
    }
  }

  lemma JoinNonempty(terms: seq<seq<Token>>, es: seq<Expr>, sep: Token)
    requires sep == KwAnd || sep == KwOr
    requires terms != [] && AllRead(terms, es, Level(sep) + 1)
    ensures Join(terms, sep) != []
  {
    assert Reads(terms[0], Level(sep) + 1, es[0]);
  }

  /** A connective list in parentheses stands wherever a condition may. */
  lemma ReadsGroup(terms: seq<seq<Token>>, es: seq<Expr>, sep: Token)
    requires sep == KwAnd || sep == KwOr
    requires terms != [] && AllRead(terms, es, NOT)
    ensures Reads([LParen] + Join(terms, sep) + [RParen], NOT, Chain(es, sep))
  {
    if sep == KwOr {
      forall i | 0 <= i < |terms| ensures Reads(terms[i], AND, es[i]) {
        Looser(terms[i], AND, es[i]);
      }
    }
    ReadsJoined(terms, es, sep);
    if sep == KwAnd {
      Looser(Join(terms, sep), OR, Chain(es, sep));
    }
    ReadsParenthesised(Join(terms, sep), Chain(es, sep));
    Loosen([LParen] + Join(terms, sep) + [RParen], PRIMARY, NOT, Chain(es, sep));
  }

  // ---------- the expression a filter describes ----------

  function FieldExpr(t: Target, n: nat): Expr {
    match t
    case Column(c) => EColumn(c)
    case JsonbPath(c, _) => EPath(EColumn(c), ECast(EParam(n + 1), TextArray))
  }

  function ValueExpr(t: Target, i: nat): Expr {
    if t.Column? then EParam(i) else ECast(EParam(i), Jsonb)
  }

  function ArrayExpr(t: Target, i: nat): Expr {
    if t.Column? then EParam(i) else ECast(EParam(i), JsonbArray)
  }

  function RangeExprs(target: Expr, terms: seq<RangeTerm>, n: nat): (r: seq<Expr>)
    ensures |r| == |terms|
  {
    if terms == [] then
      []
    else
      var k := |terms| - 1;
      RangeExprs(target, terms[..k], n) + [ECompare(terms[k].op, target, EParam(n + k + 1))]
  }

  function ChainOrTrue(es: seq<Expr>): Expr {
    if es == [] then ETrue else Chain(es, KwAnd)
  }

  function PredicateExpr(t: Target, target: Expr, p: Predicate, n: nat): Expr {
    match p
    case Match(Value(_)) => ECompare(Eq, target, ValueExpr(t, n + 1))
    case Match(Any(_)) => EAny(Eq, target, ArrayExpr(t, n + 1))
    case Match(Except(_)) => EAll(Ne, target, ArrayExpr(t, n + 1))
    case Range(_, _, _, _) => ChainOrTrue(RangeExprs(target, RangeTerms(p), n))
    case IsNull(b) => EIsNull(target, !b)
    case IsEmpty(b) => ECompare(if b then Eq else Ne, target, EParam(n + 1))
  }

  function ConditionExpr(c: ResolvedCondition, n: nat): Expr
    decreases c, 1
  {
    match c
    case Field(f, p) => PredicateExpr(f.target, FieldExpr(f.target, n), p, n + |FieldBindings(f.target)|)
    case Nested(f) => FilterExpr(f, n)
  }

  function ListExprs(cs: seq<ResolvedCondition>, n: nat): (r: seq<Expr>)
    ensures |r| == |cs|
    decreases cs, 0
  {
    if cs == [] then
      []
    else
      var k := |cs| - 1;
      ListExprs(cs[..k], n) + [ConditionExpr(cs[k], n + |ListBindings(cs[..k])|)]
  }

  function NegatedExprs(es: seq<Expr>): (r: seq<Expr>)
    ensures |r| == |es|
    ensures forall i :: 0 <= i < |es| ==> r[i] == ENot(es[i])
  {
    seq(|es|, i requires 0 <= i < |es| => ENot(es[i]))
  }

  function GroupedExprs(should: seq<Expr>): seq<Expr> {
    if should == [] then [] else [Chain(should, KwOr)]
  }

  function ConjunctExprs(p: Parts<Expr>): seq<Expr> {
    p.must + GroupedExprs(p.should) + NegatedExprs(p.mustNot)
  }

  function ExprParts(f: Resolved, n: nat): Parts<Expr>
    decreases f, 1
  {
    var shouldAt := n + |ListBindings(f.must)|;
    var mustNotAt := shouldAt + |ListBindings(f.should)|;
    Parts(ListExprs(f.must, n), ListExprs(f.should, shouldAt), ListExprs(f.mustNot, mustNotAt))
  }

  function FilterExpr(f: Resolved, n: nat): Expr
    decreases f, 2
  {
    ChainOrTrue(ConjunctExprs(ExprParts(f, n)))
  }

  // ---------- predicates ----------

  lemma ReadsField(t: Target, n: nat)
    ensures Reads(FieldSql(t, n), PRIMARY, FieldExpr(t, n))
  {
    ReadsToken(Ident(t.column), EColumn(t.column));
    if t.JsonbPath? {
      var path := [Placeholder(n + 1)] + [Cast(TextArray)];
      ReadsToken(Placeholder(n + 1), EParam(n + 1));
      ReadsCast([Placeholder(n + 1)], EParam(n + 1), TextArray);
      Loosen([Ident(t.column)], PRIMARY, CAST, EColumn(t.column));
      ReadsPath([Ident(t.column)], EColumn(t.column), path, ECast(EParam(n + 1), TextArray));
      var inner := [Ident(t.column)] + [FollowPath] + path;
      Loosen(inner, OPERATOR, OR, FieldExpr(t, n));
      ReadsParenthesised(inner, FieldExpr(t, n));
      assert FieldSql(t, n) == [LParen] + inner + [RParen];
    }
  }

  /** A bound value with or without a cast, read as an operand. */
  lemma ReadsOperand(i: nat, cast: bool, ty: SqlType)
    ensures Reads(if cast then [Placeholder(i), Cast(ty)] else [Placeholder(i)], OPERATOR,
                  if cast then ECast(EParam(i), ty) else EParam(i))
  {
    ReadsToken(Placeholder(i), EParam(i));
    if cast {
      ReadsCast([Placeholder(i)], EParam(i), ty);
      assert [Placeholder(i), Cast(ty)] == [Placeholder(i)] + [Cast(ty)];
      Loosen([Placeholder(i), Cast(ty)], CAST, OPERATOR, ECast(EParam(i), ty));
    } else {
      Loosen([Placeholder(i)], PRIMARY, OPERATOR, EParam(i));
    }
  }

  /** A closed operand compared with another, in parentheses. */
  lemma ReadsClosedComparison(target: seq<Token>, x: Expr, op: Comparison, b: seq<Token>, y: Expr)
    requires Reads(target, PRIMARY, x) && Reads(b, OPERATOR, y)
    requires target[0] != KwNot && b[0].Placeholder?
    ensures Reads(target + [Compare(op)] + b, COMPARE, ECompare(op, x, y))
    ensures Reads([LParen] + target + [Compare(op)] + b + [RParen], NOT, ECompare(op, x, y))
  {
    Loosen(target, PRIMARY, OPERATOR, x);
    ReadsCompare(target, x, op, b, y);
    ReadsClosed(target + [Compare(op)] + b, COMPARE, ECompare(op, x, y));
    assert [LParen] + target + [Compare(op)] + b + [RParen] == [LParen] + (target + [Compare(op)] + b) + [RParen];
  }

  lemma ReadsClosed(ts: seq<Token>, level: nat, e: Expr)
    requires level <= PRIMARY && Reads(ts, level, e) && ts[0] != KwNot
    ensures Reads([LParen] + ts + [RParen], NOT, e)
  {
    Loosen(ts, level, OR, e);
    ReadsParenthesised(ts, e);
    Loosen([LParen] + ts + [RParen], PRIMARY, NOT, e);
  }

  lemma ReadsMatchList(t: Target, target: seq<Token>, x: Expr, op: Comparison, any: bool, i: nat)
    requires Reads(target, PRIMARY, x) && target[0] != KwNot
    ensures Reads([LParen] + target + [Compare(op), if any then KwAny else KwAll, LParen] + CastArray(t, i)
                  + [RParen, RParen], NOT,
                  if any then EAny(op, x, ArrayExpr(t, i)) else EAll(op, x, ArrayExpr(t, i)))
  {
    ReadsOperand(i, !t.Column?, JsonbArray);
    Loosen(CastArray(t, i), OPERATOR, OR, ArrayExpr(t, i));
    Loosen(target, PRIMARY, OPERATOR, x);
    ReadsQuantified(target, x, op, any, CastArray(t, i), ArrayExpr(t, i));
    var quantified := target + [Compare(op), if any then KwAny else KwAll, LParen] + CastArray(t, i) + [RParen];
    ReadsClosed(quantified, COMPARE, if any then EAny(op, x, ArrayExpr(t, i)) else EAll(op, x, ArrayExpr(t, i)));
    assert [LParen] + target + [Compare(op), if any then KwAny else KwAll, LParen] + CastArray(t, i) + [RParen, RParen]
        == [LParen] + quantified + [RParen];
  }

  lemma {:induction false} ReadsRangeTerms(target: seq<Token>, x: Expr, terms: seq<RangeTerm>, n: nat)
    requires Reads(target, PRIMARY, x) && target[0] != KwNot
    ensures AllRead(RangeSql(target, terms, n), RangeExprs(x, terms, n), NOT)
  {
    if terms != [] {
      var k := |terms| - 1;
      ReadsRangeTerms(target, x, terms[..k], n);
      ReadsRangeTerm(target, x, terms[k].op, n + k + 1);
    }
  }

  lemma ReadsRangeTerm(target: seq<Token>, x: Expr, op: Comparison, i: nat)
    requires Reads(target, PRIMARY, x) && target[0] != KwNot
    ensures Reads(target + [Compare(op)] + [Placeholder(i)], NOT, ECompare(op, x, EParam(i)))
  {
    ReadsOperand(i, false, Jsonb);
    ReadsClosedComparison(target, x, op, [Placeholder(i)], EParam(i));
    Loosen(target + [Compare(op)] + [Placeholder(i)], COMPARE, NOT, ECompare(op, x, EParam(i)));
  }

  /** Read as this expression, or not readable at all. */
  ghost predicate ReadsOrFails(ts: seq<Token>, e: Expr, ok: bool) {
    if ok then Reads(ts, NOT, e) else Unreadable(ts, NOT)
  }

  lemma EmptyParenthesesFail()
    ensures Unreadable([LParen] + [] + [RParen], NOT)
  {
    var whole := [LParen] + [] + [RParen];
    forall rest: seq<Token> ensures ReadLevel([RParen] + rest, PRIMARY) == Fail {
    }
    LoosenUnreadable([RParen], PRIMARY, OR);
    forall rest: seq<Token> ensures ReadLevel(whole + rest, PRIMARY) == Fail {
      assert (whole + rest)[1..] == [RParen] + rest;
      assert ReadClosed([RParen] + rest) == Fail;
      assert ReadPrimary(whole + rest) == Fail;
    }
    LoosenUnreadable(whole, PRIMARY, NOT);
  }

  lemma {:induction false} ReadsRange(target: seq<Token>, x: Expr, p: Predicate, n: nat)
    requires p.Range? && Reads(target, PRIMARY, x) && target[0] != KwNot
    ensures ReadsOrFails([LParen] + Join(RangeSql(target, RangeTerms(p), n), KwAnd) + [RParen],
                         ChainOrTrue(RangeExprs(x, RangeTerms(p), n)), PredicateBounded(p))
  {
    assert PredicateBounded(p) <==> RangeTerms(p) != [];
    if PredicateBounded(p) {
      ReadsRangeTerms(target, x, RangeTerms(p), n);
      ReadsGroup(RangeSql(target, RangeTerms(p), n), RangeExprs(x, RangeTerms(p), n), KwAnd);
    } else {
      EmptyParenthesesFail();
    }
  }

  lemma ReadsPredicate(t: Target, target: seq<Token>, x: Expr, p: Predicate, n: nat)
    requires Reads(target, PRIMARY, x) && target[0] != KwNot
    ensures ReadsOrFails(PredicateSql(t, target, p, n), PredicateExpr(t, x, p, n), PredicateBounded(p))
  {
    match p
    case Match(Value(_)) =>
      ReadsOperand(n + 1, !t.Column?, Jsonb);
      ReadsClosedComparison(target, x, Eq, CastValue(t, n + 1), ValueExpr(t, n + 1));
    case Match(Any(_)) => ReadsMatchList(t, target, x, Eq, true, n + 1);
    case Match(Except(_)) => ReadsMatchList(t, target, x, Ne, false, n + 1);
    case Range(_, _, _, _) => ReadsRange(target, x, p, n);
    case IsNull(b) =>
      Loosen(target, PRIMARY, COMPARE, x);
      ReadsIsNull(target, x, !b);
      var suffix := if b then [KwIs, KwNull] else [KwIs, KwNot, KwNull];
      ReadsClosed(target + suffix, IS, EIsNull(x, !b));
      assert PredicateSql(t, target, p, n) == [LParen] + (target + suffix) + [RParen];
    case IsEmpty(b) =>
      var op := if b then Eq else Ne;
      ReadsOperand(n + 1, false, Jsonb);
      ReadsClosedComparison(target, x, op, [Placeholder(n + 1)], EParam(n + 1));
  }

  // ---------- filters ----------

  /** One term that cannot be read spoils the list it is joined into. */
  lemma {:induction false} UnreadJoined(terms: seq<seq<Token>>, es: seq<Expr>, sep: Token, bad: nat, rest: seq<Token>)
    requires sep == KwAnd || sep == KwOr
    requires |terms| == |es| && bad < |terms|
    requires AllRead(terms[..bad], es[..bad], Level(sep) + 1) && Unreadable(terms[bad], Level(sep) + 1)
    ensures ReadLevel(Join(terms, sep) + rest, Level(sep)) == Fail
    decreases |terms|
  {
    var k := |terms| - 1;
    if k > 0 {
      var tail := [sep] + (terms[k] + rest);
      assert Join(terms, sep) + rest == Join(terms[..k], sep) + tail;
      if bad < k {
        assert terms[..k][..bad] == terms[..bad] && es[..k][..bad] == es[..bad];
        UnreadJoined(terms[..k], es[..k], sep, bad, tail);
      } else {
        ReadJoined(terms[..k], es[..k], sep, tail);
        assert tail[1..] == terms[k] + rest;
      }
    }
  }

  ghost predicate AllTrue(oks: seq<bool>) {
    forall i :: 0 <= i < |oks| ==> oks[i]
  }

  ghost predicate Classified(terms: seq<seq<Token>>, es: seq<Expr>, oks: seq<bool>) {
    |terms| == |es| == |oks| && forall i :: 0 <= i < |terms| ==> ReadsOrFails(terms[i], es[i], oks[i])
  }

  lemma {:induction false} FirstBad(oks: seq<bool>) returns (bad: nat)
    requires !AllTrue(oks)
    ensures bad < |oks| && !oks[bad] && AllTrue(oks[..bad])
  {
    if oks[0] {
      var rest := FirstBad(oks[1..]);
      bad := rest + 1;
      assert forall i :: 0 <= i < bad ==> oks[..bad][i] == (if i == 0 then oks[0] else oks[1..][..rest][i - 1]);
    } else {
      bad := 0;
    }
  }

  lemma ClassifyGroup(terms: seq<seq<Token>>, es: seq<Expr>, oks: seq<bool>, sep: Token)
    requires sep == KwAnd || sep == KwOr
    requires terms != [] && Classified(terms, es, oks)
    ensures ReadsOrFails([LParen] + Join(terms, sep) + [RParen], Chain(es, sep), AllTrue(oks))
  {
    if AllTrue(oks) {
      ReadsGroup(terms, es, sep);
    } else {
      var bad := FirstBad(oks);
      SpoiledGroup(terms, es, oks, sep, bad);
    }
  }

  lemma SpoiledGroup(terms: seq<seq<Token>>, es: seq<Expr>, oks: seq<bool>, sep: Token, bad: nat)
    requires sep == KwAnd || sep == KwOr
    requires Classified(terms, es, oks) && bad < |oks| && !oks[bad] && AllTrue(oks[..bad])
    ensures Unreadable([LParen] + Join(terms, sep) + [RParen], NOT)
  {
    forall i | 0 <= i < bad ensures Reads(terms[i], NOT, es[i]) && Reads(terms[i], AND, es[i]) {
      assert oks[..bad][i] == oks[i];
      Looser(terms[i], AND, es[i]);
    }
    LoosenUnreadable(terms[bad], NOT, AND);
    forall rest: seq<Token> ensures ReadLevel(Join(terms, sep) + rest, Level(sep)) == Fail {
      UnreadJoined(terms, es, sep, bad, rest);
    }
    JoinedNonempty(terms, sep, bad);
    LoosenUnreadable(Join(terms, sep), Level(sep), OR);
    UnreadableParenthesised(Join(terms, sep));
    LoosenUnreadable([LParen] + Join(terms, sep) + [RParen], PRIMARY, NOT);
  }

  lemma JoinedNonempty(terms: seq<seq<Token>>, sep: Token, i: nat)
    requires i < |terms| && terms[i] != []
    ensures Join(terms, sep) != []
  {
  }

  lemma ClassifyConjunction(terms: seq<seq<Token>>, es: seq<Expr>, oks: seq<bool>)
    requires Classified(terms, es, oks)
    ensures ReadsOrFails(Conjunction(terms), ChainOrTrue(es), AllTrue(oks))
  {
    if |terms| == 0 {
      ReadsToken(KwTrue, ETrue);
      ReadsClosed([KwTrue], PRIMARY, ETrue);
      assert [LParen] + [KwTrue] + [RParen] == [LParen, KwTrue, RParen];
    } else if |terms| > 1 {
      ClassifyGroup(terms, es, oks, KwAnd);
    }
  }

  function Oks(cs: seq<ResolvedCondition>): (r: seq<bool>)
    ensures |r| == |cs|
  {
    if cs == [] then [] else Oks(cs[..|cs| - 1]) + [ConditionBounded(cs[|cs| - 1])]
  }

  lemma {:induction false} OksAreBounds(cs: seq<ResolvedCondition>)
    ensures AllTrue(Oks(cs)) <==> AllBounded(cs)
  {
    if cs != [] {
      var k := |cs| - 1;
      OksAreBounds(cs[..k]);
      AllBoundedSnoc(cs[..k], cs[k]);
      assert cs == cs[..k] + [cs[k]];
      assert AllTrue(Oks(cs)) <==> AllTrue(Oks(cs[..k])) && ConditionBounded(cs[k]) by {
        assert forall i :: 0 <= i < k ==> Oks(cs)[i] == Oks(cs[..k])[i];
        assert Oks(cs)[k] == ConditionBounded(cs[k]);
      }
    }
  }

  lemma {:induction false} ReadsCondition(c: ResolvedCondition, n: nat)
    ensures ReadsOrFails(ConditionSql(c, n), ConditionExpr(c, n), ConditionBounded(c))
    decreases c, 1
  {
    match c
    case Field(f, p) => ReadsFieldCondition(f.target, p, n, n + |FieldBindings(f.target)|);
    case Nested(f) => ReadsFilter(f, n);
  }

  lemma ReadsFieldCondition(t: Target, p: Predicate, n: nat, m: nat)
    ensures ReadsOrFails(PredicateSql(t, FieldSql(t, n), p, m), PredicateExpr(t, FieldExpr(t, n), p, m),
        PredicateBounded(p))
  {
    ReadsField(t, n);
    ReadsPredicate(t, FieldSql(t, n), FieldExpr(t, n), p, m);
  }

  lemma {:induction false} ReadsList(cs: seq<ResolvedCondition>, n: nat)
    ensures Classified(ListSql(cs, n), ListExprs(cs, n), Oks(cs))
    decreases cs, 0
  {
    if cs != [] {
      var k := |cs| - 1;
      ReadsList(cs[..k], n);
      ReadsCondition(cs[k], n + |ListBindings(cs[..k])|);
    }
  }

  lemma ClassifyNegated(terms: seq<seq<Token>>, es: seq<Expr>, oks: seq<bool>)
    requires Classified(terms, es, oks)
    ensures Classified(Negated(terms), NegatedExprs(es), oks)
  {
    forall i | 0 <= i < |terms| ensures ReadsOrFails([KwNot] + terms[i], ENot(es[i]), oks[i]) {
      if oks[i] {
        ReadsNot(terms[i], es[i]);
      } else {
        UnreadableNot(terms[i]);
      }
    }
  }

  lemma ClassifyAppend(t1: seq<seq<Token>>, e1: seq<Expr>, o1: seq<bool>, t2: seq<seq<Token>>, e2: seq<Expr>,
                       o2: seq<bool>)
    requires Classified(t1, e1, o1) && Classified(t2, e2, o2)
    ensures Classified(t1 + t2, e1 + e2, o1 + o2)
  {
    forall i | 0 <= i < |t1 + t2| ensures ReadsOrFails((t1 + t2)[i], (e1 + e2)[i], (o1 + o2)[i]) {
      if i < |t1| {
        assert ReadsOrFails(t1[i], e1[i], o1[i]);
      } else {
        var j := i - |t1|;
        assert ReadsOrFails(t2[j], e2[j], o2[j]);
      }
    }
  }

  lemma AllTrueAppend(o1: seq<bool>, o2: seq<bool>)
    ensures AllTrue(o1 + o2) <==> AllTrue(o1) && AllTrue(o2)
  {
    assert forall i :: 0 <= i < |o1| ==> (o1 + o2)[i] == o1[i];
    assert forall i :: 0 <= i < |o2| ==> (o1 + o2)[|o1| + i] == o2[i];
  }

  lemma ClassifyConjuncts(p: Parts<seq<Token>>, q: Parts<Expr>, oks: Parts<bool>)
    requires Classified(p.must, q.must, oks.must) && Classified(p.should, q.should, oks.should)
    requires Classified(p.mustNot, q.mustNot, oks.mustNot)
    ensures ReadsOrFails(Conjunction(Conjuncts(p)), ChainOrTrue(ConjunctExprs(q)),
                         AllTrue(oks.must) && AllTrue(oks.should) && AllTrue(oks.mustNot))
  {
    var go := if p.should == [] then [] else [AllTrue(oks.should)];
    if p.should != [] {
      ClassifyGroup(p.should, q.should, oks.should, KwOr);
    }
    assert Classified(Grouped(p.should), GroupedExprs(q.should), go);
    assert AllTrue(go) <==> AllTrue(oks.should) by {
      if p.should != [] {
        assert go[0] == AllTrue(oks.should);
      }
    }
    ClassifyNegated(p.mustNot, q.mustNot, oks.mustNot);
    ClassifyAppend(p.must, q.must, oks.must, Grouped(p.should), GroupedExprs(q.should), go);
    ClassifyAppend(p.must + Grouped(p.should), q.must + GroupedExprs(q.should), oks.must + go,
                   Negated(p.mustNot), NegatedExprs(q.mustNot), oks.mustNot);
    AllTrueAppend(oks.must, go);
    AllTrueAppend(oks.must + go, oks.mustNot);
    ClassifyConjunction(Conjuncts(p), ConjunctExprs(q), oks.must + go + oks.mustNot);
  }

  lemma {:induction false} ReadsParts(f: Resolved, n: nat)
    ensures Classified(SqlParts(f, n).must, ExprParts(f, n).must, Oks(f.must))
    ensures Classified(SqlParts(f, n).should, ExprParts(f, n).should, Oks(f.should))
    ensures Classified(SqlParts(f, n).mustNot, ExprParts(f, n).mustNot, Oks(f.mustNot))
    decreases f, 1
  {
    var shouldAt := n + |ListBindings(f.must)|;
    var mustNotAt := shouldAt + |ListBindings(f.should)|;
    ReadsList(f.must, n);
    ReadsList(f.should, shouldAt);
    ReadsList(f.mustNot, mustNotAt);
  }

  /** The text of a filter reads as its expression wherever a condition may stand; without bounds it cannot be read. */
  lemma {:induction false} ReadsFilter(f: Resolved, n: nat)
    ensures ReadsOrFails(FilterSql(f, n), FilterExpr(f, n), Bounded(f))
    decreases f, 2
  {
    ReadsParts(f, n);
    FilterOks(f);
    ClassifyConjuncts(SqlParts(f, n), ExprParts(f, n), Parts(Oks(f.must), Oks(f.should), Oks(f.mustNot)));
  }

  lemma FilterOks(f: Resolved)
    ensures Bounded(f) == (AllTrue(Oks(f.must)) && AllTrue(Oks(f.should)) && AllTrue(Oks(f.mustNot)))
  {
    OksAreBounds(f.must);
    OksAreBounds(f.should);
    OksAreBounds(f.mustNot);
  }

  /** A rendered filter is a readable SQL expression if and only if every range in it has a bound. */
  lemma ReadableIffBounded(f: Resolved)
    ensures ReadAll(FilterSql(f, 0)) == if Bounded(f) then Some(FilterExpr(f, 0)) else None
  {
    ReadsFilter(f, 0);
    var ts := FilterSql(f, 0);
    assert ts + [] == ts;
    if Bounded(f) {
      Looser(ts, AND, FilterExpr(f, 0));
      Looser(ts, OR, FilterExpr(f, 0));
      assert Stop(OR, []);
    } else {
      LoosenUnreadable(ts, NOT, OR);
    }
  }
}
