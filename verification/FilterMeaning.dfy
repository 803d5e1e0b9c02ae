/**
 What a filter tree means, independently of SQL, and the end-to-end theorem: a filter the
 parser accepts and the registry resolves renders to text that, read with SQL precedence and
 with its placeholders bound, has the tree's own meaning on every row.
 */
module FilterMeaning {
  import opened Wrappers
  import opened Filters
  import opened FilterParser
  import opened Sql
  import opened SqlRenderer
  import opened SqlReading

  // ---------- the meaning of the tree ----------

  ghost function TargetValue<V(!new)>(t: Target, w: World<V>): V {
    match t
    case Column(c) => w.column(c)
    case JsonbPath(c, path) => w.follow(w.column(c), path)
  }

  ghost function BoundMeaning<V(!new)>(op: Comparison, x: V, b: Option<RangeBound>, jsonb: bool, w: World<V>): Truth {
    match b
    case None => True
    case Some(limit) => w.compare(op, x, w.bound(limit, jsonb))
  }

  ghost function PredicateMeaning<V(!new)>(p: Predicate, x: V, jsonb: bool, w: World<V>): Truth {
    match p
    case Match(Value(v)) => w.compare(Eq, x, w.scalar(v, jsonb))
    case Match(Any(vs)) => AnyOf(Eq, x, Scalars(vs, jsonb, w), w)
    case Match(Except(vs)) => AllOf(Ne, x, Scalars(vs, jsonb, w), w)
    case Range(gt, gte, lt, lte) =>
      And(And(BoundMeaning(Gt, x, gt, jsonb, w), BoundMeaning(Ge, x, gte, jsonb, w)),
          And(BoundMeaning(Lt, x, lt, jsonb, w), BoundMeaning(Le, x, lte, jsonb, w)))
    case IsNull(b) => if w.isNull(x) == b then True else False
    case IsEmpty(b) => w.compare(if b then Eq else Ne, x, w.scalar(Text(""), jsonb))
  }

  /** All of `must`, one of `should` unless it is empty, and none of `must_not`, in three-valued logic. */
  ghost function Meaning<K, V(!new)>(f: Filter<K>, at: K -> Target, w: World<V>): Truth
    decreases f, 1
  {
    And(And(AllHold(f.must, at, w), if f.should == [] then True else SomeHold(f.should, at, w)),
        NoneHold(f.mustNot, at, w))
  }

  ghost function AllHold<K, V(!new)>(cs: seq<Condition<K>>, at: K -> Target, w: World<V>): Truth
    decreases cs, 0
  {
    if cs == [] then True else And(AllHold(cs[..|cs| - 1], at, w), Holds(cs[|cs| - 1], at, w))
  }

  ghost function SomeHold<K, V(!new)>(cs: seq<Condition<K>>, at: K -> Target, w: World<V>): Truth
    decreases cs, 0
  {
    if cs == [] then False else Or(SomeHold(cs[..|cs| - 1], at, w), Holds(cs[|cs| - 1], at, w))
  }

  ghost function NoneHold<K, V(!new)>(cs: seq<Condition<K>>, at: K -> Target, w: World<V>): Truth
    decreases cs, 0
  {
    if cs == [] then True else And(NoneHold(cs[..|cs| - 1], at, w), Not(Holds(cs[|cs| - 1], at, w)))
  }

  ghost function Holds<K, V(!new)>(c: Condition<K>, at: K -> Target, w: World<V>): Truth
    decreases c, 1
  {
    match c
    case Field(key, p) => PredicateMeaning(p, TargetValue(at(key), w), at(key).JsonbPath?, w)
    case Nested(f) => Meaning(f, at, w)
  }

  // ---------- evaluating chains ----------

  ghost function Conj(ts: seq<Truth>): Truth {
    if ts == [] then True else And(Conj(ts[..|ts| - 1]), ts[|ts| - 1])
  }

  ghost function Disj(ts: seq<Truth>): Truth {
    if ts == [] then False else Or(Disj(ts[..|ts| - 1]), ts[|ts| - 1])
  }

  /** Each expression evaluates to the truth value at its position. */
  ghost predicate Evaluates<V(!new)>(es: seq<Expr>, ts: seq<Truth>, bs: seq<Binding>, w: World<V>) {
    |es| == |ts| && forall i :: 0 <= i < |es| ==> Eval(es[i], bs, w) == Logical(ts[i])
  }

  lemma {:induction false} EvalChain<V(!new)>(es: seq<Expr>, ts: seq<Truth>, sep: Token, bs: seq<Binding>, w: World<V>)
    requires es != [] && Evaluates(es, ts, bs, w)
    ensures Eval(Chain(es, sep), bs, w) == Logical(if sep == KwOr then Disj(ts) else Conj(ts))
  {
    var k := |es| - 1;
    if k == 0 {
      assert ts[..0] == [];
    } else {
      EvalChain(es[..k], ts[..k], sep, bs, w);
    }
  }

  lemma EvalChainOrTrue<V(!new)>(es: seq<Expr>, ts: seq<Truth>, bs: seq<Binding>, w: World<V>)
    requires Evaluates(es, ts, bs, w)
    ensures Eval(ChainOrTrue(es), bs, w) == Logical(Conj(ts))
  {
    if es != [] {
      EvalChain(es, ts, KwAnd, bs, w);
    }
  }

  lemma {:induction false} ConjAppend(a: seq<Truth>, b: seq<Truth>)
    ensures Conj(a + b) == And(Conj(a), Conj(b))
  {
    if b == [] {
      assert a + b == a;
    } else {
      var k := |b| - 1;
      assert (a + b)[..|a + b| - 1] == a + b[..k];
      ConjAppend(a, b[..k]);
    }
  }

  // ---------- evaluating predicates ----------

  /** The bindings from position n on start with these. */
  ghost predicate BoundAt(bs: seq<Binding>, n: nat, own: seq<Binding>) {
    n + |own| <= |bs| && bs[n..n + |own|] == own
  }

  lemma BoundAtSplit(bs: seq<Binding>, n: nat, a: seq<Binding>, b: seq<Binding>)
    requires BoundAt(bs, n, a + b)
    ensures BoundAt(bs, n, a) && BoundAt(bs, n + |a|, b)
  {
    assert a == (a + b)[..|a|] && b == (a + b)[|a|..];
    assert bs[n..n + |a|] == bs[n..n + |a + b|][..|a|];
    assert bs[n + |a|..n + |a| + |b|] == bs[n..n + |a + b|][|a|..];
  }

  lemma BoundAtOne(bs: seq<Binding>, n: nat, b: Binding)
    requires BoundAt(bs, n, [b])
    ensures n < |bs| && bs[n] == b
  {
    assert bs[n] == bs[n..n + 1][0];
  }

  lemma EvalField<V(!new)>(t: Target, n: nat, bs: seq<Binding>, w: World<V>)
    requires BoundAt(bs, n, FieldBindings(t))
    ensures Eval(FieldExpr(t, n), bs, w) == Datum(TargetValue(t, w))
  {
    if t.JsonbPath? {
      BoundAtOne(bs, n, Binding(PathSegments(t.path), TextArray));
    }
  }

  ghost function TermMeanings<V(!new)>(terms: seq<RangeTerm>, x: V, jsonb: bool, w: World<V>): (r: seq<Truth>)
    ensures |r| == |terms|
  {
    if terms == [] then
      []
    else
      var k := |terms| - 1;
      TermMeanings(terms[..k], x, jsonb, w) + [w.compare(terms[k].op, x, w.bound(terms[k].bound, jsonb))]
  }

  lemma {:induction false} EvalRangeTerms<V(!new)>(t: Target, e: Expr, x: V, terms: seq<RangeTerm>, n: nat,
                                            bs: seq<Binding>, w: World<V>)
    requires BoundAt(bs, n, RangeBindings(t, terms)) && Eval(e, bs, w) == Datum(x)
    ensures Evaluates(RangeExprs(e, terms, n), TermMeanings(terms, x, t.JsonbPath?, w), bs, w)
  {
    if terms != [] {
      var k := |terms| - 1;
      var last := Binding(Bound(terms[k].bound), ValueType(t));
      BoundAtSplit(bs, n, RangeBindings(t, terms[..k]), [last]);
      BoundAtOne(bs, n + k, last);
      EvalRangeTerms(t, e, x, terms[..k], n, bs, w);
    }
  }

  lemma {:induction false} TermMeaningsAppend<V(!new)>(a: seq<RangeTerm>, b: seq<RangeTerm>, x: V, jsonb: bool,
                                                w: World<V>)
    ensures TermMeanings(a + b, x, jsonb, w) == TermMeanings(a, x, jsonb, w) + TermMeanings(b, x, jsonb, w)
  {
    if b == [] {
      assert a + b == a;
    } else {
      var k := |b| - 1;
      assert (a + b)[..|a + b| - 1] == a + b[..k];
      TermMeaningsAppend(a, b[..k], x, jsonb, w);
    }
  }

  lemma OptionalTermMeaning<V(!new)>(op: Comparison, b: Option<RangeBound>, x: V, jsonb: bool, w: World<V>)
    ensures Conj(TermMeanings(OptionalTerm(op, b), x, jsonb, w)) == BoundMeaning(op, x, b, jsonb, w)
  {
    if b.Some? {
      var terms := OptionalTerm(op, b);
      assert terms[..0] == [];
      assert TermMeanings(terms, x, jsonb, w) == [BoundMeaning(op, x, b, jsonb, w)];
      assert [BoundMeaning(op, x, b, jsonb, w)][..0] == [];
    }
  }

  lemma ConjOfTerms<V(!new)>(a: seq<RangeTerm>, b: seq<RangeTerm>, x: V, jsonb: bool, w: World<V>)
    ensures Conj(TermMeanings(a + b, x, jsonb, w))
         == And(Conj(TermMeanings(a, x, jsonb, w)), Conj(TermMeanings(b, x, jsonb, w)))
  {
    TermMeaningsAppend(a, b, x, jsonb, w);
    ConjAppend(TermMeanings(a, x, jsonb, w), TermMeanings(b, x, jsonb, w));
  }

  lemma RangeMeaning<V(!new)>(p: Predicate, x: V, jsonb: bool, w: World<V>)
    requires p.Range?
    ensures Conj(TermMeanings(RangeTerms(p), x, jsonb, w)) == PredicateMeaning(p, x, jsonb, w)
  {
    var a, b, c, d := OptionalTerm(Gt, p.gt), OptionalTerm(Ge, p.gte), OptionalTerm(Lt, p.lt), OptionalTerm(Le, p.lte);
    ConjOfTerms(a + b + c, d, x, jsonb, w);
    ConjOfTerms(a + b, c, x, jsonb, w);
    ConjOfTerms(a, b, x, jsonb, w);
    OptionalTermMeaning(Gt, p.gt, x, jsonb, w);
    OptionalTermMeaning(Ge, p.gte, x, jsonb, w);
    OptionalTermMeaning(Lt, p.lt, x, jsonb, w);
    OptionalTermMeaning(Le, p.lte, x, jsonb, w);
  }

  lemma EvalRange<V(!new)>(t: Target, e: Expr, x: V, p: Predicate, n: nat, bs: seq<Binding>, w: World<V>)
    requires p.Range? && BoundAt(bs, n, PredicateBindings(t, p)) && Eval(e, bs, w) == Datum(x)
    ensures Eval(PredicateExpr(t, e, p, n), bs, w) == Logical(PredicateMeaning(p, x, t.JsonbPath?, w))
  {
    hide Eval, RangeTerms, TermMeanings, RangeExprs, RangeBindings, Conj;
    EvalRangeTerms(t, e, x, RangeTerms(p), n, bs, w);
    EvalChainOrTrue(RangeExprs(e, RangeTerms(p), n), TermMeanings(RangeTerms(p), x, t.JsonbPath?, w), bs, w);
    RangeMeaning(p, x, t.JsonbPath?, w);
  }

  lemma EvalPredicate<V(!new)>(t: Target, e: Expr, x: V, p: Predicate, n: nat, bs: seq<Binding>, w: World<V>)
    requires BoundAt(bs, n, PredicateBindings(t, p)) && Eval(e, bs, w) == Datum(x)
    ensures Eval(PredicateExpr(t, e, p, n), bs, w) == Logical(PredicateMeaning(p, x, t.JsonbPath?, w))
  {
    match p
    case Match(Value(v)) => BoundAtOne(bs, n, Binding(JsonValue(v), ValueType(t)));
    case Match(Any(vs)) => BoundAtOne(bs, n, Binding(JsonArray(vs), ArrayType(t)));
    case Match(Except(vs)) => BoundAtOne(bs, n, Binding(JsonArray(vs), ArrayType(t)));
    case Range(_, _, _, _) => EvalRange(t, e, x, p, n, bs, w);
    case IsNull(_) =>
    case IsEmpty(_) => BoundAtOne(bs, n, Binding(JsonValue(Text("")), ValueType(t)));
  }

  // ---------- evaluating filters ----------

  const Resolution: ResolvedField -> Target := (f: ResolvedField) => f.target

  ghost function Truths<V(!new)>(cs: seq<ResolvedCondition>, w: World<V>): (r: seq<Truth>)
    ensures |r| == |cs|
  {
    if cs == [] then [] else Truths(cs[..|cs| - 1], w) + [Holds(cs[|cs| - 1], Resolution, w)]
  }

  lemma {:induction false} EvalCondition<V(!new)>(c: ResolvedCondition, n: nat, bs: seq<Binding>, w: World<V>)
    requires BoundAt(bs, n, ConditionBindings(c))
    ensures Eval(ConditionExpr(c, n), bs, w) == Logical(Holds(c, Resolution, w))
    decreases c, 1
  {
    hide Eval, PredicateExpr, PredicateMeaning, FieldExpr, FilterExpr;
    match c
    case Field(f, p) =>
      var t := f.target;
      BoundAtSplit(bs, n, FieldBindings(t), PredicateBindings(t, p));
      EvalField(t, n, bs, w);
      EvalPredicate(t, FieldExpr(t, n), TargetValue(t, w), p, n + |FieldBindings(t)|, bs, w);
    case Nested(f) =>
      EvalFilter(f, n, bs, w);
  }

  lemma {:induction false} EvalList<V(!new)>(cs: seq<ResolvedCondition>, n: nat, bs: seq<Binding>, w: World<V>)
    requires BoundAt(bs, n, ListBindings(cs))
    ensures Evaluates(ListExprs(cs, n), Truths(cs, w), bs, w)
    decreases cs, 0
  {
    hide Eval, ConditionExpr, ConditionBindings, Holds;
    if cs != [] {
      var k := |cs| - 1;
      BoundAtSplit(bs, n, ListBindings(cs[..k]), ConditionBindings(cs[k]));
      EvalList(cs[..k], n, bs, w);
      EvalCondition(cs[k], n + |ListBindings(cs[..k])|, bs, w);
    }
  }

  ghost function Nots(ts: seq<Truth>): (r: seq<Truth>)
    ensures |r| == |ts|
    ensures forall i :: 0 <= i < |ts| ==> r[i] == Not(ts[i])
  {
    seq(|ts|, i requires 0 <= i < |ts| => Not(ts[i]))
  }

  lemma {:induction false} TruthsMean<V(!new)>(cs: seq<ResolvedCondition>, w: World<V>)
    ensures Conj(Truths(cs, w)) == AllHold(cs, Resolution, w)
    ensures Disj(Truths(cs, w)) == SomeHold(cs, Resolution, w)
    ensures Conj(Nots(Truths(cs, w))) == NoneHold(cs, Resolution, w)
  {
    if cs != [] {
      var k := |cs| - 1;
      TruthsMean(cs[..k], w);
      assert Truths(cs, w)[..k] == Truths(cs[..k], w);
      assert Nots(Truths(cs, w))[..k] == Nots(Truths(cs[..k], w));
    }
  }

  /** The conjuncts of a filter evaluated: the conditions, the grouped alternatives, the negations. */
  lemma EvalConjuncts<V(!new)>(q: Parts<Expr>, m: seq<Truth>, s: seq<Truth>, x: seq<Truth>, bs: seq<Binding>,
                        w: World<V>)
    requires Evaluates(q.must, m, bs, w) && Evaluates(q.should, s, bs, w) && Evaluates(q.mustNot, x, bs, w)
    ensures Eval(ChainOrTrue(ConjunctExprs(q)), bs, w)
         == Logical(And(And(Conj(m), if s == [] then True else Disj(s)), Conj(Nots(x))))
  {
    var g := if s == [] then [] else [Disj(s)];
    if s != [] {
      EvalChain(q.should, s, KwOr, bs, w);
      assert g[..0] == [];
    }
    assert Conj(g) == if s == [] then True else Disj(s);
    assert Evaluates(GroupedExprs(q.should), g, bs, w);
    assert Evaluates(NegatedExprs(q.mustNot), Nots(x), bs, w);
    assert Evaluates(ConjunctExprs(q), m + g + Nots(x), bs, w);
    EvalChainOrTrue(ConjunctExprs(q), m + g + Nots(x), bs, w);
    ConjAppend(m, g);
    ConjAppend(m + g, Nots(x));
  }

  lemma {:induction false} EvalParts<V(!new)>(f: Resolved, n: nat, bs: seq<Binding>, w: World<V>)
    requires BoundAt(bs, n, FilterBindings(f))
    ensures Evaluates(ExprParts(f, n).must, Truths(f.must, w), bs, w)
    ensures Evaluates(ExprParts(f, n).should, Truths(f.should, w), bs, w)
    ensures Evaluates(ExprParts(f, n).mustNot, Truths(f.mustNot, w), bs, w)
    decreases f, 1
  {
    hide Evaluates, Truths, ListBindings, BoundAt, ListExprs;
    var a, b, c := ListBindings(f.must), ListBindings(f.should), ListBindings(f.mustNot);
    BoundAtSplit(bs, n, a + b, c);
    BoundAtSplit(bs, n, a, b);
    EvalList(f.must, n, bs, w);
    EvalList(f.should, n + |a|, bs, w);
    EvalList(f.mustNot, n + |a| + |b|, bs, w);
  }

  lemma {:induction false} EvalFilter<V(!new)>(f: Resolved, n: nat, bs: seq<Binding>, w: World<V>)
    requires BoundAt(bs, n, FilterBindings(f))
    ensures Eval(FilterExpr(f, n), bs, w) == Logical(Meaning(f, Resolution, w))
    decreases f, 2
  {
    EvalParts(f, n, bs, w);
    EvalConjuncts(ExprParts(f, n), Truths(f.must, w), Truths(f.should, w), Truths(f.mustNot, w), bs, w);
    TruthsMean(f.must, w);
    TruthsMean(f.should, w);
    TruthsMean(f.mustNot, w);
  }

  // ---------- resolution keeps the meaning ----------

  /** Where the registry puts a key; unregistered keys never survive resolution. */
  ghost function RegisteredTarget(reg: Registry): string -> Target {
    (key: string) => if key in reg then reg[key] else Column("")
  }

  lemma {:induction false} ResolutionKeepsMeaning<V(!new)>(reg: Registry, f: Filter<string>, w: World<V>)
    requires ResolveFilter(reg, f).Ok?
    ensures Meaning(ResolveFilter(reg, f).value, Resolution, w) == Meaning(f, RegisteredTarget(reg), w)
    decreases f, 1
  {
    ListResolutionKeepsMeaning(reg, f.must, w);
    ListResolutionKeepsMeaning(reg, f.should, w);
    ListResolutionKeepsMeaning(reg, f.mustNot, w);
  }

  lemma {:induction false} ListResolutionKeepsMeaning<V(!new)>(reg: Registry, cs: seq<Condition<string>>, w: World<V>)
    requires ResolveConditions(reg, cs).Ok?
    ensures |ResolveConditions(reg, cs).value| == |cs|
    ensures AllHold(ResolveConditions(reg, cs).value, Resolution, w) == AllHold(cs, RegisteredTarget(reg), w)
    ensures SomeHold(ResolveConditions(reg, cs).value, Resolution, w) == SomeHold(cs, RegisteredTarget(reg), w)
    ensures NoneHold(ResolveConditions(reg, cs).value, Resolution, w) == NoneHold(cs, RegisteredTarget(reg), w)
    decreases cs, 0
  {
    if cs != [] {
      var k := |cs| - 1;
      assert cs == cs[..k] + [cs[k]];
      ResolveSnoc(reg, cs[..k], cs[k]);
      ListResolutionKeepsMeaning(reg, cs[..k], w);
      ConditionResolutionKeepsMeaning(reg, cs[k], w);
      var r := ResolveConditions(reg, cs).value;
      assert r[..|r| - 1] == ResolveConditions(reg, cs[..k]).value;
    }
  }

  lemma {:induction false} ConditionResolutionKeepsMeaning<V(!new)>(reg: Registry, c: Condition<string>, w: World<V>)
    requires ResolveCondition(reg, c).Ok?
    ensures Holds(ResolveCondition(reg, c).value, Resolution, w) == Holds(c, RegisteredTarget(reg), w)
    decreases c, 1
  {
    if c.Nested? {
      ResolutionKeepsMeaning(reg, c.filter, w);
    }
  }

  lemma {:induction false} ResolveSnoc(reg: Registry, cs: seq<Condition<string>>, c: Condition<string>)
    requires ResolveConditions(reg, cs + [c]).Ok?
    ensures ResolveConditions(reg, cs).Ok? && ResolveCondition(reg, c).Ok?
    ensures ResolveConditions(reg, cs + [c]).value
         == ResolveConditions(reg, cs).value + [ResolveCondition(reg, c).value]
  {
    if cs == [] {
      assert cs + [c] == [c];
    } else {
      assert (cs + [c])[1..] == cs[1..] + [c];
      ResolveSnoc(reg, cs[1..], c);
    }
  }

  // ---------- the compiler is correct ----------

  /**
   The compiler is correct: for every JSON tree that writes a filter, every registry that
   resolves it and every row, the rendered text read as SQL with its parameters bound
   evaluates to the meaning of the written filter.
   */
  lemma CompiledFilterMeansTree<V(!new)>(json: Json, reg: Registry, w: World<V>)
    requires DenoteFilter(json).Some? && ResolveFilter(reg, DenoteFilter(json).value).Ok?
    ensures var f := DenoteFilter(json).value;
            var resolved := ResolveFilter(reg, f).value;
            && ReadAll(FilterSql(resolved, 0)).Some?
            && Eval(ReadAll(FilterSql(resolved, 0)).value, FilterBindings(resolved), w)
               == Logical(Meaning(f, RegisteredTarget(reg), w))
  {
    var f := DenoteFilter(json).value;
    var resolved := ResolveFilter(reg, f).value;
    DenotedIsWritable(json);
    WritableIsBounded(f);
    ResolutionKeepsBounds(reg, f);
    ReadableIffBounded(resolved);
    var bs := FilterBindings(resolved);
    assert bs[0..0 + |bs|] == bs;
    EvalFilter(resolved, 0, bs, w);
    ResolutionKeepsMeaning(reg, f, w);
  }
}
