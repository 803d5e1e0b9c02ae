/**
 The SQL predicate renderer (crates/context-filter/src/sql.rs): the stateful renderer that
 pushes parameters as it walks the filter tree, and the text and bindings it produces.
 */
module SqlRenderer {
  import opened Wrappers
  import opened Filters
  import opened Sql

  type Resolved = Filter<ResolvedField>

  type ResolvedCondition = Condition<ResolvedField>

  /** Terms separated by one keyword. */
  function Join(terms: seq<seq<Token>>, sep: Token): seq<Token> {
    if terms == [] then
      []
    else if |terms| == 1 then
      terms[0]
    else
      Join(terms[..|terms| - 1], sep) + [sep] + terms[|terms| - 1]
  }

  // ---------- fields ----------

  function ValueType(t: Target): SqlType {
    if t.Column? then InferFromSql else Jsonb
  }

  function ArrayType(t: Target): SqlType {
    if t.Column? then InferFromSql else JsonbArray
  }

  function CastValue(t: Target, i: nat): seq<Token> {
    if t.Column? then [Placeholder(i)] else [Placeholder(i), Cast(Jsonb)]
  }

  function CastArray(t: Target, i: nat): seq<Token> {
    if t.Column? then [Placeholder(i)] else [Placeholder(i), Cast(JsonbArray)]
  }

  function FieldBindings(t: Target): seq<Binding> {
    if t.Column? then [] else [Binding(PathSegments(t.path), TextArray)]
  }

  /** The text of a field whose path, if any, is parameter n + 1. */
  function FieldSql(t: Target, n: nat): seq<Token> {
    match t
    case Column(c) => [Ident(c)]
    case JsonbPath(c, _) => [LParen, Ident(c), FollowPath, Placeholder(n + 1), Cast(TextArray), RParen]
  }

  // ---------- predicates ----------

  datatype RangeTerm = RangeTerm(op: Comparison, bound: RangeBound)

  function OptionalTerm(op: Comparison, b: Option<RangeBound>): seq<RangeTerm> {
    if b.Some? then [RangeTerm(op, b.value)] else []
  }

  /** The bounds that are present, in rendering order. */
  function RangeTerms(p: Predicate): seq<RangeTerm>
    requires p.Range?
  {
    OptionalTerm(Gt, p.gt) + OptionalTerm(Ge, p.gte) + OptionalTerm(Lt, p.lt) + OptionalTerm(Le, p.lte)
  }

  function RangeBindings(t: Target, terms: seq<RangeTerm>): (r: seq<Binding>)
    ensures |r| == |terms|
  {
    if terms == [] then
      []
    else
      var k := |terms| - 1;
      RangeBindings(t, terms[..k]) + [Binding(Bound(terms[k].bound), ValueType(t))]
  }

  /** One comparison per bound; bound i is parameter n + i + 1. */
  function RangeSql(target: seq<Token>, terms: seq<RangeTerm>, n: nat): (r: seq<seq<Token>>)
    ensures |r| == |terms|
  {
    if terms == [] then
      []
    else
      var k := |terms| - 1;
      RangeSql(target, terms[..k], n) + [target + [Compare(terms[k].op)] + [Placeholder(n + k + 1)]]
  }

  function PredicateBindings(t: Target, p: Predicate): seq<Binding> {
    match p
    case Match(Value(v)) => [Binding(JsonValue(v), ValueType(t))]
    case Match(Any(vs)) => [Binding(JsonArray(vs), ArrayType(t))]
    case Match(Except(vs)) => [Binding(JsonArray(vs), ArrayType(t))]
    case Range(_, _, _, _) => RangeBindings(t, RangeTerms(p))
    case IsNull(_) => []
    case IsEmpty(_) => [Binding(JsonValue(Text("")), ValueType(t))]
  }

  /** The text of a predicate on an already rendered field, with n parameters before its own. */
  function PredicateSql(t: Target, target: seq<Token>, p: Predicate, n: nat): seq<Token> {
    match p
    case Match(Value(_)) => [LParen] + target + [Compare(Eq)] + CastValue(t, n + 1) + [RParen]
    case Match(Any(_)) => [LParen] + target + [Compare(Eq), KwAny, LParen] + CastArray(t, n + 1) + [RParen, RParen]
    case Match(Except(_)) => [LParen] + target + [Compare(Ne), KwAll, LParen] + CastArray(t, n + 1) + [RParen, RParen]
    case Range(_, _, _, _) => [LParen] + Join(RangeSql(target, RangeTerms(p), n), KwAnd) + [RParen]
    case IsNull(b) => [LParen] + target + (if b then [KwIs, KwNull] else [KwIs, KwNot, KwNull]) + [RParen]
    case IsEmpty(b) => [LParen] + target + [Compare(if b then Eq else Ne)] + [Placeholder(n + 1)] + [RParen]
  }

  // ---------- conditions and filters ----------

  function ConditionBindings(c: ResolvedCondition): seq<Binding>
    decreases c, 1
  {
    match c
    case Field(f, p) => FieldBindings(f.target) + PredicateBindings(f.target, p)
    case Nested(f) => FilterBindings(f)
  }

  function ListBindings(cs: seq<ResolvedCondition>): seq<Binding>
    decreases cs, 0
  {
    if cs == [] then [] else ListBindings(cs[..|cs| - 1]) + ConditionBindings(cs[|cs| - 1])
  }

  function FilterBindings(f: Resolved): seq<Binding>
    decreases f, 1
  {
    ListBindings(f.must) + ListBindings(f.should) + ListBindings(f.mustNot)
  }

  function ConditionSql(c: ResolvedCondition, n: nat): seq<Token>
    decreases c, 1
  {
    match c
    case Field(f, p) => PredicateSql(f.target, FieldSql(f.target, n), p, n + |FieldBindings(f.target)|)
    case Nested(f) => FilterSql(f, n)
  }

  function ListSql(cs: seq<ResolvedCondition>, n: nat): (r: seq<seq<Token>>)
    ensures |r| == |cs|
    decreases cs, 0
  {
    if cs == [] then
      []
    else
      var k := |cs| - 1;
      ListSql(cs[..k], n) + [ConditionSql(cs[k], n + |ListBindings(cs[..k])|)]
  }

  function Negated(terms: seq<seq<Token>>): (r: seq<seq<Token>>)
    ensures |r| == |terms|
    ensures forall i :: 0 <= i < |terms| ==> r[i] == [KwNot] + terms[i]
  {
    seq(|terms|, i requires 0 <= i < |terms| => [KwNot] + terms[i])
  }

  /** What a filter's three condition lists become. */
  datatype Parts<T> = Parts(must: seq<T>, should: seq<T>, mustNot: seq<T>)

  /** The conjuncts of a filter, in rendering order. */
  function Conjuncts(p: Parts<seq<Token>>): seq<seq<Token>> {
    p.must + Grouped(p.should) + Negated(p.mustNot)
  }

  /** The `should` alternatives as at most one parenthesised conjunct. */
  function Grouped(should: seq<seq<Token>>): seq<seq<Token>> {
    if should == [] then [] else [[LParen] + Join(should, KwOr) + [RParen]]
  }

  function SqlParts(f: Resolved, n: nat): Parts<seq<Token>>
    decreases f, 1
  {
    var shouldAt := n + |ListBindings(f.must)|;
    var mustNotAt := shouldAt + |ListBindings(f.should)|;
    Parts(ListSql(f.must, n), ListSql(f.should, shouldAt), ListSql(f.mustNot, mustNotAt))
  }

  /** A filter's text with n parameters before its own; a single conjunct stands without parentheses. */
  function FilterSql(f: Resolved, n: nat): seq<Token>
    decreases f, 2
  {
    Conjunction(Conjuncts(SqlParts(f, n)))
  }

  function Conjunction(terms: seq<seq<Token>>): seq<Token> {
    if |terms| == 0 then [LParen, KwTrue, RParen]
    else if |terms| == 1 then terms[0]
    else [LParen] + Join(terms, KwAnd) + [RParen]
  }

  // ---------- the renderer ----------

  /** Predicate text with its ordered bindings: parameter values and their types. */
  datatype Plan = Plan(sql: seq<Token>, bindings: seq<Binding>)

  lemma Append(a: seq<Binding>, b: seq<Binding>, c: seq<Binding>)
    ensures a + b + c == a + (b + c)
  {
  }

  lemma AppendThree(a: seq<Binding>, b: seq<Binding>, c: seq<Binding>, d: seq<Binding>)
    ensures a + b + c + d == a + (b + c + d)
  {
  }

  /** The renderer's two parallel vectors, parameter values and types, are kept as one list of pairs. */
  class PredicateRenderer {
    var bound: seq<Binding>

    constructor ()
      ensures bound == []
    {
      bound := [];
    }

    method PushParameter(parameter: Parameter, ty: SqlType) returns (i: nat)
      modifies this
      ensures bound == old(bound) + [Binding(parameter, ty)]
      ensures i == |old(bound)| + 1
    {
      bound := bound + [Binding(parameter, ty)];
      i := |bound|;
    }

    method RenderFilter(f: Resolved) returns (sql: seq<Token>)
      modifies this
      ensures bound == old(bound) + FilterBindings(f)
      ensures sql == FilterSql(f, |old(bound)|)
      decreases f, 2
    {
      var parts := RenderParts(f);
      var terms := Conjuncts(parts);
      if |terms| == 0 {
        return [LParen, KwTrue, RParen];
      }
      if |terms| == 1 {
        return terms[0];
      }
      return [LParen] + Join(terms, KwAnd) + [RParen];
    }

    method RenderParts(f: Resolved) returns (parts: Parts<seq<Token>>)
      modifies this
      ensures bound == old(bound) + FilterBindings(f)
      ensures parts == SqlParts(f, |old(bound)|)
      decreases f, 1
    {
      hide ListBindings, ListSql;
      ghost var start := bound;
      var must := RenderConditions(f.must);
      assert |bound| == |start| + |ListBindings(f.must)|;
      var should := RenderConditions(f.should);
      assert |bound| == |start| + |ListBindings(f.must)| + |ListBindings(f.should)|;
      var mustNot := RenderConditions(f.mustNot);
      AppendThree(start, ListBindings(f.must), ListBindings(f.should), ListBindings(f.mustNot));
      parts := Parts(must, should, mustNot);
    }

    method RenderConditions(cs: seq<ResolvedCondition>) returns (terms: seq<seq<Token>>)
      modifies this
      ensures bound == old(bound) + ListBindings(cs)
      ensures terms == ListSql(cs, |old(bound)|)
      decreases cs, 0
    {
      hide ConditionBindings, ConditionSql;
      terms := [];
      for i := 0 to |cs|
        invariant bound == old(bound) + ListBindings(cs[..i])
        invariant terms == ListSql(cs[..i], |old(bound)|)
      {
        assert cs[..i + 1][..i] == cs[..i];
        var term := RenderCondition(cs[i]);
        Append(old(bound), ListBindings(cs[..i]), ConditionBindings(cs[i]));
        terms := terms + [term];
      }
      assert cs[..|cs|] == cs;
    }

    method RenderCondition(c: ResolvedCondition) returns (sql: seq<Token>)
      modifies this
      ensures bound == old(bound) + ConditionBindings(c)
      ensures sql == ConditionSql(c, |old(bound)|)
      decreases c, 1
    {
      match c {
        case Field(f, p) =>
          var target := RenderField(f.target);
          sql := RenderPredicate(f.target, target, p);
        case Nested(f) =>
          sql := RenderFilter(f);
      }
    }

    method RenderField(t: Target) returns (sql: seq<Token>)
      modifies this
      ensures bound == old(bound) + FieldBindings(t)
      ensures sql == FieldSql(t, |old(bound)|)
    {
      match t {
        case Column(c) =>
          sql := [Ident(c)];
        case JsonbPath(c, path) =>
          var i := PushParameter(PathSegments(path), TextArray);
          sql := [LParen, Ident(c), FollowPath, Placeholder(i), Cast(TextArray), RParen];
      }
    }

    method RenderPredicate(t: Target, target: seq<Token>, p: Predicate) returns (sql: seq<Token>)
      modifies this
      ensures bound == old(bound) + PredicateBindings(t, p)
      ensures sql == PredicateSql(t, target, p, |old(bound)|)
    {
      match p {
        case Match(Value(v)) =>
          var i := PushParameter(JsonValue(v), ValueType(t));
          sql := [LParen] + target + [Compare(Eq)] + CastValue(t, i) + [RParen];
        case Match(Any(vs)) =>
          var i := PushParameter(JsonArray(vs), ArrayType(t));
          sql := [LParen] + target + [Compare(Eq), KwAny, LParen] + CastArray(t, i) + [RParen, RParen];
        case Match(Except(vs)) =>
          var i := PushParameter(JsonArray(vs), ArrayType(t));
          sql := [LParen] + target + [Compare(Ne), KwAll, LParen] + CastArray(t, i) + [RParen, RParen];
        case Range(gt, gte, lt, lte) =>
          sql := RenderRange(t, target, p);
        case IsNull(b) =>
          sql := [LParen] + target + (if b then [KwIs, KwNull] else [KwIs, KwNot, KwNull]) + [RParen];
        case IsEmpty(b) =>
          var i := PushParameter(JsonValue(Text("")), ValueType(t));
          sql := [LParen] + target + [Compare(if b then Eq else Ne)] + [Placeholder(i)] + [RParen];
      }
    }

    method RenderRange(t: Target, target: seq<Token>, p: Predicate) returns (sql: seq<Token>)
      requires p.Range?
      modifies this
      ensures bound == old(bound) + PredicateBindings(t, p)
      ensures sql == PredicateSql(t, target, p, |old(bound)|)
    {
      ghost var start := bound;
      var terms: seq<seq<Token>> := [];
      ghost var done: seq<RangeTerm> := [];
      terms, done := RenderRangeBound(t, target, Gt, p.gt, start, terms, done);
      terms, done := RenderRangeBound(t, target, Ge, p.gte, start, terms, done);
      terms, done := RenderRangeBound(t, target, Lt, p.lt, start, terms, done);
      terms, done := RenderRangeBound(t, target, Le, p.lte, start, terms, done);
      assert done == RangeTerms(p);
      sql := [LParen] + Join(terms, KwAnd) + [RParen];
    }

    /** Appends the comparison for a bound that is present; `done` lists the bounds already rendered. */
    method RenderRangeBound(t: Target, target: seq<Token>, op: Comparison, limit: Option<RangeBound>,
                            ghost start: seq<Binding>, terms: seq<seq<Token>>, ghost done: seq<RangeTerm>)
      returns (more: seq<seq<Token>>, ghost rendered: seq<RangeTerm>)
      requires bound == start + RangeBindings(t, done) && terms == RangeSql(target, done, |start|)
      modifies this
      ensures rendered == done + OptionalTerm(op, limit)
      ensures bound == start + RangeBindings(t, rendered) && more == RangeSql(target, rendered, |start|)
    {
      more, rendered := terms, done;
      if limit.Some? {
        var i := PushParameter(Parameter.Bound(limit.value), ValueType(t));
        more := terms + [target + [Compare(op)] + [Placeholder(i)]];
        rendered := done + [RangeTerm(op, limit.value)];
        assert rendered[..|done|] == done;
        assert bound == start + (RangeBindings(t, done) + [Binding(Parameter.Bound(limit.value), ValueType(t))]);
      }
    }
  }

  method RenderSqlPredicate(f: Resolved) returns (plan: Plan)
    ensures plan == Plan(FilterSql(f, 0), FilterBindings(f))
  {
    var renderer := new PredicateRenderer();
    var sql := renderer.RenderFilter(f);
    plan := Plan(sql, renderer.bound);
  }
}
