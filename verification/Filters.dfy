/**
 The boolean filter tree, the field registry and resolution against it
 (crates/context-filter/src/lib.rs).

 Keys are a type parameter: a parsed filter carries the caller's key strings, a resolved
 one the registered target of each key.
 */
module Filters {
  import opened Wrappers

  datatype Number = Int(i: int) | Float(r: real)

  datatype PayloadValue = Null | Bool(b: bool) | Num(n: Number) | Text(s: string)

  datatype RangeBound = Integer(i: int) | Fraction(n: Number) | Lexical(s: string)

  datatype MatchValue = Value(v: PayloadValue) | Any(vs: seq<PayloadValue>) | Except(vs: seq<PayloadValue>)

  datatype Predicate =
    | Match(value: MatchValue)
    | Range(gt: Option<RangeBound>, gte: Option<RangeBound>, lt: Option<RangeBound>, lte: Option<RangeBound>)
    | IsNull(expected: bool)
    | IsEmpty(expected: bool)

  datatype Filter<K> = Filter(must: seq<Condition<K>>, should: seq<Condition<K>>, mustNot: seq<Condition<K>>)

  datatype Condition<K> = Field(key: K, test: Predicate) | Nested(filter: Filter<K>)

  /** Where a registered key lives: an ordinary column, or a path inside a JSONB column. */
  datatype Target = Column(column: string) | JsonbPath(column: string, path: seq<string>)

  datatype ResolvedField = ResolvedField(key: string, target: Target)

  type Registry = map<string, Target>

  datatype ResolveError = UnknownPayloadField(key: string)

  // ---------- resolution ----------

  function ResolveFilter(reg: Registry, f: Filter<string>): Result<Filter<ResolvedField>, ResolveError>
    decreases f, 1
  {
    match ResolveConditions(reg, f.must)
    case Err(e) => Err(e)
    case Ok(must) =>
      match ResolveConditions(reg, f.should)
      case Err(e) => Err(e)
      case Ok(should) =>
        match ResolveConditions(reg, f.mustNot)
        case Err(e) => Err(e)
        case Ok(mustNot) => Ok(Filter(must, should, mustNot))
  }

  function ResolveConditions(reg: Registry, cs: seq<Condition<string>>)
    : Result<seq<Condition<ResolvedField>>, ResolveError>
    decreases cs, 0
  {
    if cs == [] then
      Ok([])
    else
      match ResolveCondition(reg, cs[0])
      case Err(e) => Err(e)
      case Ok(c) =>
        match ResolveConditions(reg, cs[1..])
        case Err(e) => Err(e)
        case Ok(rest) => Ok([c] + rest)
  }

  function ResolveCondition(reg: Registry, c: Condition<string>): Result<Condition<ResolvedField>, ResolveError>
    decreases c, 1
  {
    match c
    case Field(key, test) =>
      if key in reg then Ok(Field(ResolvedField(key, reg[key]), test)) else Err(UnknownPayloadField(key))
    case Nested(f) =>
      match ResolveFilter(reg, f)
      case Err(e) => Err(e)
      case Ok(g) => Ok(Nested(g))
  }

  /** The distinct keys a filter refers to. */
  function FieldKeys(f: Filter<string>): set<string>
    decreases f, 1
  {
    ConditionKeys(f.must) + ConditionKeys(f.should) + ConditionKeys(f.mustNot)
  }

  function ConditionKeys(cs: seq<Condition<string>>): set<string>
    decreases cs, 0
  {
    if cs == [] then
      {}
    else
      ConditionKeys(cs[1..]) + KeysOf(cs[0])
  }

  function KeysOf(c: Condition<string>): set<string>
    decreases c, 1
  {
    match c
    case Field(key, _) => {key}
    case Nested(f) => FieldKeys(f)
  }

  /** Resolution succeeds exactly when every key the filter refers to is registered. */
  lemma {:induction false} ResolvesIffRegistered(reg: Registry, f: Filter<string>)
    ensures ResolveFilter(reg, f).Ok? <==> FieldKeys(f) <= reg.Keys
    decreases f, 1
  {
    ListResolvesIffRegistered(reg, f.must);
    ListResolvesIffRegistered(reg, f.should);
    ListResolvesIffRegistered(reg, f.mustNot);
  }

  lemma {:induction false} ListResolvesIffRegistered(reg: Registry, cs: seq<Condition<string>>)
    ensures ResolveConditions(reg, cs).Ok? <==> ConditionKeys(cs) <= reg.Keys
    decreases cs, 0
  {
    if cs != [] {
      ListResolvesIffRegistered(reg, cs[1..]);
      ConditionResolvesIffRegistered(reg, cs[0]);
    }
  }

  lemma {:induction false} ConditionResolvesIffRegistered(reg: Registry, c: Condition<string>)
    ensures ResolveCondition(reg, c).Ok? <==> KeysOf(c) <= reg.Keys
    decreases c, 1
  {
    if c.Nested? {
      ResolvesIffRegistered(reg, c.filter);
    }
  }

  // ---------- every range has a bound ----------

  predicate PredicateBounded(p: Predicate) {
    p.Range? ==> p.gt.Some? || p.gte.Some? || p.lt.Some? || p.lte.Some?
  }

  predicate Bounded<K>(f: Filter<K>)
    decreases f, 1
  {
    AllBounded(f.must) && AllBounded(f.should) && AllBounded(f.mustNot)
  }

  predicate AllBounded<K>(cs: seq<Condition<K>>)
    decreases cs, 0
  {
    cs == [] || (ConditionBounded(cs[0]) && AllBounded(cs[1..]))
  }

  predicate ConditionBounded<K>(c: Condition<K>)
    decreases c, 1
  {
    match c
    case Field(_, p) => PredicateBounded(p)
    case Nested(f) => Bounded(f)
  }

  lemma {:induction false} AllBoundedSnoc<K>(cs: seq<Condition<K>>, c: Condition<K>)
    ensures AllBounded(cs + [c]) <==> AllBounded(cs) && ConditionBounded(c)
  {
    if cs == [] {
      assert cs + [c] == [c];
    } else {
      AllBoundedSnoc(cs[1..], c);
      assert (cs + [c])[1..] == cs[1..] + [c];
    }
  }

  lemma {:induction false} ResolutionKeepsBounds(reg: Registry, f: Filter<string>)
    requires ResolveFilter(reg, f).Ok?
    ensures Bounded(ResolveFilter(reg, f).value) <==> Bounded(f)
    decreases f, 1
  {
    ListResolutionKeepsBounds(reg, f.must);
    ListResolutionKeepsBounds(reg, f.should);
    ListResolutionKeepsBounds(reg, f.mustNot);
  }

  lemma {:induction false} ListResolutionKeepsBounds(reg: Registry, cs: seq<Condition<string>>)
    requires ResolveConditions(reg, cs).Ok?
    ensures AllBounded(ResolveConditions(reg, cs).value) <==> AllBounded(cs)
    decreases cs, 0
  {
    if cs != [] {
      ListResolutionKeepsBounds(reg, cs[1..]);
      ConditionResolutionKeepsBounds(reg, cs[0]);
    }
  }

  lemma {:induction false} ConditionResolutionKeepsBounds(reg: Registry, c: Condition<string>)
    requires ResolveCondition(reg, c).Ok?
    ensures ConditionBounded(ResolveCondition(reg, c).value) <==> ConditionBounded(c)
    decreases c, 1
  {
    if c.Nested? {
      ResolutionKeepsBounds(reg, c.filter);
    }
  }
}
