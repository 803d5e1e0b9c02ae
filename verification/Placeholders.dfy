/**
 The numbering of placeholders in rendered text: with n parameters pushed, the text uses
 exactly $1 to $n, first appearing in ascending order, unless the filter holds a range without
 bounds over a JSON path. Such a range pushes a path parameter and never mentions it.
 */
module Placeholders {
  import opened Wrappers
  import opened Filters
  import FilterParser
  import opened Sql
  import opened SqlRenderer

  /** Reads left to right with $1..$m already seen; fails at a placeholder that skips a number. */
  function Scan(ts: seq<Token>, m: nat): Option<nat> {
    if ts == [] then
      Some(m)
    else if ts[0].Placeholder? && ts[0].i != m + 1 && !(1 <= ts[0].i <= m) then
      None
    else
      Scan(ts[1..], if ts[0] == Placeholder(m + 1) then m + 1 else m)
  }

  /** Every occurrence of a placeholder is in range and preceded by all smaller new ones. */
  ghost predicate Ascending(ts: seq<Token>, m: nat, n: nat) {
    && (forall i :: m < i <= n ==> Placeholder(i) in ts)
    && (forall p, i: nat :: 0 <= p < |ts| && ts[p] == Placeholder(i) ==> 1 <= i <= n)
    && (forall p, i, j :: 0 <= p < |ts| && m < i < j && ts[p] == Placeholder(j) ==> Placeholder(i) in ts[..p])
  }

  lemma {:induction false} ScanCovers(ts: seq<Token>, m: nat, n: nat)
    requires Scan(ts, m) == Some(n)
    ensures m <= n
    ensures forall i :: m < i <= n ==> Placeholder(i) in ts
    ensures forall p, i: nat :: 0 <= p < |ts| && ts[p] == Placeholder(i) ==> 1 <= i <= n
  {
    if ts != [] {
      var next := if ts[0] == Placeholder(m + 1) then m + 1 else m;
      var rest := ts[1..];
      ScanCovers(rest, next, n);
      forall i | m < i <= n ensures Placeholder(i) in ts {
        assert next < i ==> Placeholder(i) in rest;
      }
      forall p, i: nat | 0 <= p < |ts| && ts[p] == Placeholder(i) ensures 1 <= i <= n {
        assert p > 0 ==> rest[p - 1] == ts[p];
      }
    }
  }

  lemma {:induction false} ScanOrders(ts: seq<Token>, m: nat, p: nat, i: nat, j: nat)
    requires Scan(ts, m).Some? && p < |ts| && m < i < j && ts[p] == Placeholder(j)
    ensures Placeholder(i) in ts[..p]
  {
    assert p > 0;
    var next := if ts[0] == Placeholder(m + 1) then m + 1 else m;
    var rest := ts[1..];
    assert rest[p - 1] == ts[p] && ts[..p] == [ts[0]] + rest[..p - 1];
    if next < i {
      ScanOrders(rest, next, p - 1, i, j);
    }
  }

  lemma ScanIsAscending(ts: seq<Token>, m: nat, n: nat)
    requires Scan(ts, m) == Some(n)
    ensures m <= n && Ascending(ts, m, n)
  {
    hide Scan;
    ScanCovers(ts, m, n);
    forall p, i, j | 0 <= p < |ts| && m < i < j && ts[p] == Placeholder(j) ensures Placeholder(i) in ts[..p] {
      ScanOrders(ts, m, p, i, j);
    }
  }

  lemma {:induction false} ScanAppend(a: seq<Token>, b: seq<Token>, m: nat)
    ensures Scan(a + b, m) == if Scan(a, m).Some? then Scan(b, Scan(a, m).value) else None
  {
    if a == [] {
      assert a + b == b;
    } else {
      assert (a + b)[1..] == a[1..] + b;
      ScanAppend(a[1..], b, if a[0] == Placeholder(m + 1) then m + 1 else m);
    }
  }

  /** Tokens that are not placeholders change nothing. */
  lemma {:induction false} ScanPlain(ts: seq<Token>, m: nat)
    requires forall t :: t in ts ==> !t.Placeholder?
    ensures Scan(ts, m) == Some(m)
  {
    if ts != [] {
      ScanPlain(ts[1..], m);
    }
  }

  lemma ScanWrapped(a: seq<Token>, ts: seq<Token>, b: seq<Token>, m: nat)
    requires forall t :: t in a || t in b ==> !t.Placeholder?
    ensures Scan(a + ts + b, m) == Scan(ts, m)
  {
    ScanPlain(a, m);
    ScanAppend(a, ts, m);
    ScanAppend(a + ts, b, m);
    if Scan(ts, m).Some? {
      ScanPlain(b, Scan(ts, m).value);
    }
  }

  // ---------- fields and predicates ----------

  /** A field's text uses its path parameter, new or already seen. */
  lemma ScanField(t: Target, n: nat, m: nat)
    requires m == n || m >= n + |FieldBindings(t)|
    ensures Scan(FieldSql(t, n), m) == Some(if m == n then n + |FieldBindings(t)| else m)
  {
    if t.Column? {
      ScanPlain(FieldSql(t, n), m);
    } else {
      ScanWrapped([LParen, Ident(t.column), FollowPath], [Placeholder(n + 1)], [Cast(TextArray), RParen], m);
      assert FieldSql(t, n) == [LParen, Ident(t.column), FollowPath] + [Placeholder(n + 1)] + [Cast(TextArray), RParen];
      assert [Placeholder(n + 1)][1..] == [];
    }
  }

  /** Two scanned pieces among plain tokens. */
  lemma ScanPieces(a: seq<Token>, x: seq<Token>, b: seq<Token>, y: seq<Token>, c: seq<Token>, m: nat, m1: nat, m2: nat)
    requires forall t :: t in a || t in b || t in c ==> !t.Placeholder?
    requires Scan(x, m) == Some(m1) && Scan(y, m1) == Some(m2)
    ensures Scan(a + x + b + y + c, m) == Some(m2)
  {
    ScanWrapped(a, x, b, m);
    ScanAppend(a + x + b, y, m);
    ScanAppend(a + x + b + y, c, m);
    ScanPlain(c, m2);
  }

  lemma ScanNext(m: nat, cast: seq<Token>)
    requires forall t :: t in cast ==> !t.Placeholder?
    ensures Scan([Placeholder(m + 1)] + cast, m) == Some(m + 1)
  {
    assert ([Placeholder(m + 1)] + cast)[1..] == cast;
    ScanPlain(cast, m + 1);
  }

  lemma ScanCasts(t: Target, m: nat)
    ensures Scan([Placeholder(m + 1)], m) == Some(m + 1)
    ensures Scan(CastValue(t, m + 1), m) == Some(m + 1)
    ensures Scan(CastArray(t, m + 1), m) == Some(m + 1)
  {
    ScanNext(m, []);
    assert [Placeholder(m + 1)] + [] == [Placeholder(m + 1)];
    ScanNext(m, [Cast(Jsonb)]);
    ScanNext(m, [Cast(JsonbArray)]);
    if !t.Column? {
      assert CastValue(t, m + 1) == [Placeholder(m + 1)] + [Cast(Jsonb)];
      assert CastArray(t, m + 1) == [Placeholder(m + 1)] + [Cast(JsonbArray)];
    }
  }

  lemma ScanRangeTerm(t: Target, op: Comparison, n: nat, m: nat, i: nat)
    requires m == n || m >= n + |FieldBindings(t)|
    requires i == if m == n then n + |FieldBindings(t)| else m
    ensures Scan(FieldSql(t, n) + [Compare(op)] + [Placeholder(i + 1)], m) == Some(i + 1)
  {
    ScanField(t, n, m);
    ScanCasts(t, i);
    ScanAppend(FieldSql(t, n), [Compare(op)], m);
    ScanPlain([Compare(op)], i);
    ScanAppend(FieldSql(t, n) + [Compare(op)], [Placeholder(i + 1)], m);
  }

  lemma {:induction false} ScanRange(t: Target, terms: seq<RangeTerm>, n: nat)
    requires terms != []
    ensures ScanTerms(RangeSql(FieldSql(t, n), terms, n + |FieldBindings(t)|), n)
         == Some(n + |FieldBindings(t)| + |terms|)
  {
    hide Scan, FieldSql, FieldBindings;
    var target, base := FieldSql(t, n), n + |FieldBindings(t)|;
    var k := |terms| - 1;
    var sqls := RangeSql(target, terms, base);
    assert sqls[..k] == RangeSql(target, terms[..k], base);
    ScanRangeTerm(t, terms[k].op, n, if k == 0 then n else base + k, base + k);
    if k > 0 {
      ScanRange(t, terms[..k], n);
    }
  }

  /** A comparison of the field with one new parameter, in parentheses. */
  lemma ScanComparison(t: Target, n: nat, between: seq<Token>, operand: seq<Token>, after: seq<Token>)
    requires forall x :: x in between || x in after ==> !x.Placeholder?
    requires Scan(operand, n + |FieldBindings(t)|) == Some(n + |FieldBindings(t)| + 1)
    ensures Scan([LParen] + FieldSql(t, n) + between + operand + after, n) == Some(n + |FieldBindings(t)| + 1)
  {
    ScanField(t, n, n);
    var base := n + |FieldBindings(t)|;
    ScanPieces([LParen], FieldSql(t, n), between, operand, after, n, base, base + 1);
  }

  /** A range without bounds over a column has neither parameters nor placeholders. */
  lemma ScanUnboundedColumn(t: Target, p: Predicate, n: nat)
    requires t.Column? && p.Range? && !PredicateBounded(p)
    ensures PredicateBindings(t, p) == [] && Scan(PredicateSql(t, FieldSql(t, n), p, n), n) == Some(n)
  {
    assert RangeTerms(p) == [];
    assert PredicateSql(t, FieldSql(t, n), p, n) == [LParen, RParen];
    ScanPlain([LParen, RParen], n);
  }

  lemma ScanRangePredicate(t: Target, p: Predicate, n: nat)
    requires p.Range? && PredicateBounded(p)
    ensures Scan(PredicateSql(t, FieldSql(t, n), p, n + |FieldBindings(t)|), n)
         == Some(n + |FieldBindings(t)| + |RangeTerms(p)|)
  {
    hide Scan, ScanTerms;
    var sqls := RangeSql(FieldSql(t, n), RangeTerms(p), n + |FieldBindings(t)|);
    ScanRange(t, RangeTerms(p), n);
    ScanJoin(sqls, KwAnd, n);
    ScanWrapped([LParen], Join(sqls, KwAnd), [RParen], n);
  }

  lemma ScanNullTest(t: Target, n: nat, suffix: seq<Token>)
    requires forall x :: x in suffix ==> !x.Placeholder?
    ensures Scan([LParen] + FieldSql(t, n) + suffix + [RParen], n) == Some(n + |FieldBindings(t)|)
  {
    ScanField(t, n, n);
    ScanWrapped([LParen], FieldSql(t, n), suffix, n);
    ScanAppend([LParen] + FieldSql(t, n) + suffix, [RParen], n);
    ScanPlain([RParen], n + |FieldBindings(t)|);
  }

  lemma ScanPredicate(t: Target, p: Predicate, n: nat)
    requires t.Column? || PredicateBounded(p)
    ensures Scan(PredicateSql(t, FieldSql(t, n), p, n + |FieldBindings(t)|), n)
         == Some(n + |FieldBindings(t)| + |PredicateBindings(t, p)|)
  {
    hide Scan, FieldSql, CastValue, CastArray;
    var base := n + |FieldBindings(t)|;
    ScanCasts(t, base);
    match p
    case Match(Value(_)) => ScanComparison(t, n, [Compare(Eq)], CastValue(t, base + 1), [RParen]);
    case Match(Any(_)) => ScanComparison(t, n, [Compare(Eq), KwAny, LParen], CastArray(t, base + 1), [RParen, RParen]);
    case Match(Except(_)) => ScanComparison(t, n, [Compare(Ne), KwAll, LParen], CastArray(t, base + 1),
        [RParen, RParen]);
    case Range(_, _, _, _) =>
      if PredicateBounded(p) {
        ScanRangePredicate(t, p, n);
      } else {
        ScanUnboundedColumn(t, p, n);
      }
    case IsNull(b) => ScanNullTest(t, n, if b then [KwIs, KwNull] else [KwIs, KwNot, KwNull]);
    case IsEmpty(b) => ScanComparison(t, n, [Compare(if b then Eq else Ne)], [Placeholder(base + 1)], [RParen]);
  }

  // ---------- lists of terms ----------

  /** Scans terms one after the other. */
  function ScanTerms(terms: seq<seq<Token>>, m: nat): Option<nat> {
    if terms == [] then
      Some(m)
    else
      match ScanTerms(terms[..|terms| - 1], m)
      case Some(k) => Scan(terms[|terms| - 1], k)
      case None => None
  }

  lemma {:induction false} ScanJoin(terms: seq<seq<Token>>, sep: Token, m: nat)
    requires terms != [] && !sep.Placeholder?
    ensures Scan(Join(terms, sep), m) == ScanTerms(terms, m)
  {
    var k := |terms| - 1;
    if k == 0 {
      assert terms[..0] == [];
    } else {
      ScanJoin(terms[..k], sep, m);
      ScanAppend(Join(terms[..k], sep), [sep], m);
      ScanAppend(Join(terms[..k], sep) + [sep], terms[k], m);
      if ScanTerms(terms[..k], m).Some? {
        ScanPlain([sep], ScanTerms(terms[..k], m).value);
      }
    }
  }

  lemma {:induction false} ScanTermsAppend(a: seq<seq<Token>>, b: seq<seq<Token>>, m: nat)
    ensures ScanTerms(a + b, m) == if ScanTerms(a, m).Some? then ScanTerms(b, ScanTerms(a, m).value) else None
  {
    if b == [] {
      assert a + b == a;
    } else {
      var k := |b| - 1;
      assert (a + b)[..|a + b| - 1] == a + b[..k];
      ScanTermsAppend(a, b[..k], m);
    }
  }

  lemma {:induction false} ScanNegated(terms: seq<seq<Token>>, m: nat)
    ensures ScanTerms(Negated(terms), m) == ScanTerms(terms, m)
  {
    if terms != [] {
      var k := |terms| - 1;
      assert Negated(terms)[..k] == Negated(terms[..k]);
      ScanNegated(terms[..k], m);
      if ScanTerms(terms[..k], m).Some? {
        var j := ScanTerms(terms[..k], m).value;
        ScanPlain([KwNot], j);
        ScanAppend([KwNot], terms[k], j);
      }
    }
  }

  lemma ScanGrouped(terms: seq<seq<Token>>, m: nat)
    ensures ScanTerms(Grouped(terms), m) == ScanTerms(terms, m)
  {
    if terms != [] {
      ScanJoin(terms, KwOr, m);
      ScanWrapped([LParen], Join(terms, KwOr), [RParen], m);
      assert Grouped(terms)[..0] == [];
    }
  }

  lemma ScanConjunction(terms: seq<seq<Token>>, m: nat)
    ensures Scan(Conjunction(terms), m) == ScanTerms(terms, m)
  {
    if |terms| == 0 {
      ScanPlain(Conjunction(terms), m);
    } else {
      ScanJoin(terms, KwAnd, m);
      ScanWrapped([LParen], Join(terms, KwAnd), [RParen], m);
    }
  }

  // ---------- filters ----------

  /** Every range over a JSON path has a bound. */
  predicate PathsBounded(f: Resolved)
    decreases f, 1
  {
    ListPathsBounded(f.must) && ListPathsBounded(f.should) && ListPathsBounded(f.mustNot)
  }

  predicate ListPathsBounded(cs: seq<ResolvedCondition>)
    decreases cs, 0
  {
    cs == [] || (ListPathsBounded(cs[..|cs| - 1]) && ConditionPathsBounded(cs[|cs| - 1]))
  }

  predicate ConditionPathsBounded(c: ResolvedCondition)
    decreases c, 1
  {
    match c
    case Field(f, p) => f.target.Column? || PredicateBounded(p)
    case Nested(f) => PathsBounded(f)
  }

  lemma {:induction false} ScanCondition(c: ResolvedCondition, n: nat)
    requires ConditionPathsBounded(c)
    ensures Scan(ConditionSql(c, n), n) == Some(n + |ConditionBindings(c)|)
    decreases c, 1
  {
    match c
    case Field(f, p) => ScanPredicate(f.target, p, n);
    case Nested(f) => ScanFilter(f, n);
  }

  lemma {:induction false} ScanList(cs: seq<ResolvedCondition>, n: nat)
    requires ListPathsBounded(cs)
    ensures ScanTerms(ListSql(cs, n), n) == Some(n + |ListBindings(cs)|)
    decreases cs, 0
  {
    hide Scan, ConditionSql, ConditionPathsBounded, ConditionBindings;
    if cs != [] {
      var k := |cs| - 1;
      ScanList(cs[..k], n);
      ScanCondition(cs[k], n + |ListBindings(cs[..k])|);
      assert ListSql(cs, n)[..k] == ListSql(cs[..k], n);
    }
  }

  lemma {:induction false} ScanFilter(f: Resolved, n: nat)
    requires PathsBounded(f)
    ensures Scan(FilterSql(f, n), n) == Some(n + |FilterBindings(f)|)
    decreases f, 2
  {
    hide Scan, ScanTerms, ListSql, ListBindings, ListPathsBounded;
    var shouldAt := n + |ListBindings(f.must)|;
    var mustNotAt := shouldAt + |ListBindings(f.should)|;
    ScanList(f.must, n);
    ScanList(f.should, shouldAt);
    ScanList(f.mustNot, mustNotAt);
    ScanConjuncts(SqlParts(f, n), n, shouldAt, mustNotAt, n + |FilterBindings(f)|);
  }

  lemma ScanConjuncts(p: Parts<seq<Token>>, n: nat, a: nat, b: nat, c: nat)
    requires ScanTerms(p.must, n) == Some(a) && ScanTerms(p.should, a) == Some(b) && ScanTerms(p.mustNot, b) == Some(c)
    ensures Scan(Conjunction(Conjuncts(p)), n) == Some(c)
  {
    ScanGrouped(p.should, a);
    ScanNegated(p.mustNot, b);
    ScanTermsAppend(p.must, Grouped(p.should), n);
    ScanTermsAppend(p.must + Grouped(p.should), Negated(p.mustNot), n);
    ScanConjunction(Conjuncts(p), n);
  }

  // ---------- which placeholders a text can use ----------

  /** Some term of the list uses placeholder i. */
  ghost predicate Used(terms: seq<seq<Token>>, i: nat) {
    exists k :: 0 <= k < |terms| && Placeholder(i) in terms[k]
  }

  lemma {:induction false} UsedByJoin(terms: seq<seq<Token>>, sep: Token, i: nat)
    requires !sep.Placeholder?
    ensures Placeholder(i) in Join(terms, sep) ==> Used(terms, i)
  {
    if |terms| > 1 {
      var n := |terms| - 1;
      UsedByJoin(terms[..n], sep, i);
      UsedInit(terms, i);
    }
  }

  lemma UsedInit(terms: seq<seq<Token>>, i: nat)
    requires terms != []
    ensures Used(terms[..|terms| - 1], i) || Placeholder(i) in terms[|terms| - 1] <==> Used(terms, i)
  {
    var init := terms[..|terms| - 1];
    if Used(init, i) {
      var k :| 0 <= k < |init| && Placeholder(i) in init[k];
      assert Placeholder(i) in terms[k];
    }
    if Used(terms, i) {
      var k :| 0 <= k < |terms| && Placeholder(i) in terms[k];
      assert k < |init| ==> init[k] == terms[k];
    }
  }

  lemma UsedByFilter(f: Resolved, n: nat, i: nat)
    requires Placeholder(i) in FilterSql(f, n)
    ensures var p := SqlParts(f, n);
            Used(p.must, i) || Used(p.should, i) || Used(p.mustNot, i)
  {
    hide SqlParts, Join;
    var p := SqlParts(f, n);
    var terms := Conjuncts(p);
    UsedByJoin(terms, KwAnd, i);
    UsedByJoin(p.should, KwOr, i);
    assert Used(terms, i);
    var k :| 0 <= k < |terms| && Placeholder(i) in terms[k];
    UsedByConjunct(p, k, i);
  }

  lemma UsedByConjunct(p: Parts<seq<Token>>, k: nat, i: nat)
    requires k < |Conjuncts(p)| && Placeholder(i) in Conjuncts(p)[k]
    ensures Used(p.must, i) || Used(p.should, i) || Used(p.mustNot, i)
  {
    hide Join;
    var m, g := |p.must|, |Grouped(p.should)|;
    if k < m {
      assert Placeholder(i) in p.must[k];
    } else if k < m + g {
      UsedByJoin(p.should, KwOr, i);
      assert Placeholder(i) in [LParen] + Join(p.should, KwOr) + [RParen];
    } else {
      assert Conjuncts(p)[k] == [KwNot] + p.mustNot[k - m - g];
      assert Placeholder(i) in p.mustNot[k - m - g];
    }
  }

  lemma {:induction false} RangeWithin(t: Target, terms: seq<RangeTerm>, n: nat, i: nat)
    requires Used(RangeSql(FieldSql(t, n), terms, n + |FieldBindings(t)|), i)
    ensures n < i <= n + |FieldBindings(t)| + |terms|
  {
    var base := n + |FieldBindings(t)|;
    var k := |terms| - 1;
    var sqls := RangeSql(FieldSql(t, n), terms, base);
    UsedInit(sqls, i);
    assert sqls[..k] == RangeSql(FieldSql(t, n), terms[..k], base);
    if Used(sqls[..k], i) {
      RangeWithin(t, terms[..k], n, i);
    }
  }

  lemma FieldWithin(t: Target, n: nat, i: nat)
    ensures Placeholder(i) in FieldSql(t, n) ==> n < i <= n + |FieldBindings(t)|
  {
  }

  lemma CastsWithin(t: Target, k: nat, i: nat)
    ensures Placeholder(i) in CastValue(t, k) || Placeholder(i) in CastArray(t, k) ==> i == k
  {
  }

  lemma PredicateWithin(t: Target, p: Predicate, n: nat, i: nat)
    requires Placeholder(i) in PredicateSql(t, FieldSql(t, n), p, n + |FieldBindings(t)|)
    ensures n < i <= n + |FieldBindings(t)| + |PredicateBindings(t, p)|
  {
    hide Join, FieldSql, FieldBindings, CastValue, CastArray, RangeSql, Used;
    var base := n + |FieldBindings(t)|;
    FieldWithin(t, n, i);
    CastsWithin(t, base + 1, i);
    if p.Range? {
      var sqls := RangeSql(FieldSql(t, n), RangeTerms(p), base);
      UsedByJoin(sqls, KwAnd, i);
      RangeWithin(t, RangeTerms(p), n, i);
    }
  }

  lemma {:induction false} ConditionWithin(c: ResolvedCondition, n: nat, i: nat)
    requires Placeholder(i) in ConditionSql(c, n)
    ensures n < i <= n + |ConditionBindings(c)|
    decreases c, 1
  {
    match c
    case Field(f, p) => PredicateWithin(f.target, p, n, i);
    case Nested(f) => FilterWithin(f, n, i);
  }

  lemma {:induction false} ListWithin(cs: seq<ResolvedCondition>, n: nat, i: nat)
    requires Used(ListSql(cs, n), i)
    ensures n < i <= n + |ListBindings(cs)|
    decreases cs, 0
  {
    var k := |cs| - 1;
    var at := n + |ListBindings(cs[..k])|;
    UsedInit(ListSql(cs, n), i);
    assert ListSql(cs, n)[..k] == ListSql(cs[..k], n);
    if Used(ListSql(cs[..k], n), i) {
      ListWithin(cs[..k], n, i);
    } else {
      ConditionWithin(cs[k], at, i);
    }
  }

  /** A filter's text only uses placeholders of its own parameters. */
  lemma {:induction false} FilterWithin(f: Resolved, n: nat, i: nat)
    requires Placeholder(i) in FilterSql(f, n)
    ensures n < i <= n + |FilterBindings(f)|
    decreases f, 2
  {
    hide ListSql, ListBindings, Used;
    var shouldAt := n + |ListBindings(f.must)|;
    var mustNotAt := shouldAt + |ListBindings(f.should)|;
    UsedByFilter(f, n, i);
    if Used(ListSql(f.must, n), i) {
      ListWithin(f.must, n, i);
    } else if Used(ListSql(f.should, shouldAt), i) {
      ListWithin(f.should, shouldAt, i);
    } else {
      ListWithin(f.mustNot, mustNotAt, i);
    }
  }

  // ---------- an unbounded path range leaves a gap ----------

  /** Parameter i lies in this range of parameters and is not used. */
  ghost predicate Gap(used: bool, i: nat, lo: nat, count: nat) {
    lo < i <= lo + count && !used
  }

  lemma {:induction false} ConditionGap(c: ResolvedCondition, n: nat) returns (i: nat)
    requires !ConditionPathsBounded(c)
    ensures Gap(Placeholder(i) in ConditionSql(c, n), i, n, |ConditionBindings(c)|)
    decreases c, 1
  {
    match c
    case Field(f, p) =>
      assert RangeTerms(p) == [];
      assert ConditionSql(c, n) == [LParen, RParen];
      i := n + 1;
    case Nested(f) =>
      i := FilterGap(f, n);
  }

  lemma {:induction false} ListGap(cs: seq<ResolvedCondition>, n: nat) returns (i: nat)
    requires !ListPathsBounded(cs)
    ensures Gap(Used(ListSql(cs, n), i), i, n, |ListBindings(cs)|)
    decreases cs, 0
  {
    hide ConditionSql, ConditionBindings, ConditionPathsBounded, Used;
    var k := |cs| - 1;
    var at := n + |ListBindings(cs[..k])|;
    assert ListSql(cs, n)[..k] == ListSql(cs[..k], n);
    if !ListPathsBounded(cs[..k]) {
      i := ListGap(cs[..k], n);
      if Placeholder(i) in ConditionSql(cs[k], at) {
        ConditionWithin(cs[k], at, i);
      }
    } else {
      i := ConditionGap(cs[k], at);
      if Used(ListSql(cs[..k], n), i) {
        ListWithin(cs[..k], n, i);
      }
    }
    UsedInit(ListSql(cs, n), i);
  }

  /** A list does not use the parameters of another one. */
  lemma ListMisses(cs: seq<ResolvedCondition>, n: nat, i: nat)
    ensures i <= n || i > n + |ListBindings(cs)| ==> !Used(ListSql(cs, n), i)
  {
    hide ListSql, ListBindings, Used;
    if Used(ListSql(cs, n), i) {
      ListWithin(cs, n, i);
    }
  }

  lemma {:induction false} FilterGap(f: Resolved, n: nat) returns (i: nat)
    requires !PathsBounded(f)
    ensures Gap(Placeholder(i) in FilterSql(f, n), i, n, |FilterBindings(f)|)
    decreases f, 2
  {
    hide ListSql, ListBindings, ListPathsBounded, Used;
    var shouldAt := n + |ListBindings(f.must)|;
    var mustNotAt := shouldAt + |ListBindings(f.should)|;
    if !ListPathsBounded(f.must) {
      i := ListGap(f.must, n);
    } else if !ListPathsBounded(f.should) {
      i := ListGap(f.should, shouldAt);
    } else {
      i := ListGap(f.mustNot, mustNotAt);
    }
    ListMisses(f.must, n, i);
    ListMisses(f.should, shouldAt, i);
    ListMisses(f.mustNot, mustNotAt, i);
    if Placeholder(i) in FilterSql(f, n) {
      UsedByFilter(f, n, i);
    }
  }

  // ---------- the theorem ----------

  /** The text uses exactly the placeholders $1..$n of its n parameters. */
  ghost predicate UsesAllParameters(f: Resolved) {
    forall i: nat :: Placeholder(i) in FilterSql(f, 0) <==> 1 <= i <= |FilterBindings(f)|
  }

  /** No placeholder appears before a smaller one has appeared. */
  ghost predicate FirstUsesAscend(ts: seq<Token>) {
    forall p, i, j :: 0 <= p < |ts| && 0 < i < j && ts[p] == Placeholder(j) ==> Placeholder(i) in ts[..p]
  }

  /** Placeholders and parameters match exactly when every range over a JSON path has a bound. */
  lemma PlaceholdersAreExact(f: Resolved)
    ensures UsesAllParameters(f) <==> PathsBounded(f)
    ensures PathsBounded(f) ==> FirstUsesAscend(FilterSql(f, 0))
  {
    hide FilterSql, FilterBindings, PathsBounded, Scan;
    if PathsBounded(f) {
      ScanFilter(f, 0);
      ScanIsAscending(FilterSql(f, 0), 0, |FilterBindings(f)|);
    } else {
      var i := FilterGap(f, 0);
      assert 1 <= i <= |FilterBindings(f)| && Placeholder(i) !in FilterSql(f, 0);
    }
  }

  /** Filters whose ranges all have bounds, which is what the parser returns, are of that kind. */
  lemma {:induction false} BoundedPaths(f: Resolved)
    requires Bounded(f)
    ensures PathsBounded(f)
    decreases f, 1
  {
    BoundedListPaths(f.must);
    BoundedListPaths(f.should);
    BoundedListPaths(f.mustNot);
  }

  lemma {:induction false} BoundedListPaths(cs: seq<ResolvedCondition>)
    requires AllBounded(cs)
    ensures ListPathsBounded(cs)
    decreases cs, 0
  {
    if cs != [] {
      var k := |cs| - 1;
      assert cs == cs[..k] + [cs[k]];
      AllBoundedSnoc(cs[..k], cs[k]);
      BoundedListPaths(cs[..k]);
      BoundedConditionPaths(cs[k]);
    }
  }

  lemma {:induction false} BoundedConditionPaths(c: ResolvedCondition)
    requires ConditionBounded(c)
    ensures ConditionPathsBounded(c)
    decreases c, 1
  {
    match c
    case Field(_, _) =>
    case Nested(f) => BoundedPaths(f);
  }

  /**
   For every JSON tree that writes a filter and every registry that resolves it, placeholders and parameters
   match.
   */
  lemma ParsedFiltersUseAllParameters(json: FilterParser.Json, reg: Registry)
    requires FilterParser.DenoteFilter(json).Some? && ResolveFilter(reg, FilterParser.DenoteFilter(json).value).Ok?
    ensures var f := ResolveFilter(reg, FilterParser.DenoteFilter(json).value).value;
            UsesAllParameters(f) && FirstUsesAscend(FilterSql(f, 0))
  {
    hide UsesAllParameters, FirstUsesAscend;
    var f := FilterParser.DenoteFilter(json).value;
    FilterParser.DenotedIsWritable(json);
    FilterParser.WritableIsBounded(f);
    ResolutionKeepsBounds(reg, f);
    BoundedPaths(ResolveFilter(reg, f).value);
    PlaceholdersAreExact(ResolveFilter(reg, f).value);
  }

  /** A filter with one unbounded range over a JSON path: one parameter, no placeholder. */
  lemma UnboundedPathWitness(field: ResolvedField)
    requires field.target.JsonbPath?
    ensures var f := Filter([Field(field, Range(None, None, None, None))], [], []);
            |FilterBindings(f)| == 1 && FilterSql(f, 0) == [LParen, RParen]
  {
    var c: ResolvedCondition := Field(field, Range(None, None, None, None));
    var f := Filter([c], [], []);
    assert ConditionSql(c, 0) == [LParen, RParen];
    assert [c][..0] == [];
    assert ListSql([c], 0) == [[LParen, RParen]];
    assert Conjuncts(SqlParts(f, 0)) == [[LParen, RParen]];
    assert |ListBindings([c])| == 1 && ListBindings([]) == [];
  }
}
