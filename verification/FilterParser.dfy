/**
 The JSON filter parser with its node and depth budgets (crates/context-filter/src/lib.rs).

 The JSON lexer is not modelled: a parsed tree is the input, objects listing their members
 in map order. `Denote` says which filter a JSON tree writes down, without any budget; the
 parser accepts exactly the trees that write a filter within both budgets.
 */
module FilterParser {
  import opened Wrappers
  import opened Filters
  import Utf8

  const MAX_FILTER_DEPTH: nat := 16
  const MAX_FILTER_NODES: nat := 256
  const MAX_FILTER_KEY_BYTES: nat := 512
  const MAX_FILTER_PATH_DEPTH: nat := 16
  const I64_MIN: int := -0x8000_0000_0000_0000
  const I64_MAX: int := 0x7fff_ffff_ffff_ffff

  datatype Json =
    | JNull
    | JBool(b: bool)
    | JNumber(n: Number)
    | JString(s: string)
    | JArray(items: seq<Json>)
    | JObject(members: seq<Member>)

  datatype Member = Member(name: string, value: Json)

  ghost predicate UniqueNames(members: seq<Member>) {
    forall i, j :: 0 <= i < j < |members| ==> members[i].name != members[j].name
  }

  /** No object in the tree repeats a member name, as the JSON map type guarantees. */
  ghost predicate WellFormed(v: Json) {
    match v
    case JArray(items) => forall x | x in items :: WellFormed(x)
    case JObject(members) => UniqueNames(members) && forall m | m in members :: WellFormed(m.value)
    case _ => true
  }

  datatype FilterError =
    | EmptyFilter
    | UnknownField(field: string)
    | ExpectedObject
    | ExpectedArray
    | InvalidKey
    | MissingPredicate(key: string)
    | InvalidPredicate(key: string)
    | BudgetExceeded(budget: string, actual: nat, max: nat)

  // ---------- scalars and predicates ----------

  function Split(s: string): (r: seq<string>)
    ensures |r| >= 1
  {
    if s == "" then
      [""]
    else
      var rest := Split(s[1..]);
      if s[0] == '.' then [""] + rest else [[s[0]] + rest[0]] + rest[1..]
  }

  predicate ValidKey(key: string) {
    && key != ""
    && Utf8.ByteLen(key) <= MAX_FILTER_KEY_BYTES
    && '\0' !in key
    && |Split(key)| <= MAX_FILTER_PATH_DEPTH
    && "" !in Split(key)
  }

  function ParsePayload(v: Json): Option<PayloadValue> {
    match v
    case JNull => Some(Null)
    case JBool(b) => Some(Bool(b))
    case JNumber(n) => Some(Num(n))
    case JString(s) => Some(Text(s))
    case _ => None
  }

  function ParsePayloads(items: seq<Json>): Option<seq<PayloadValue>> {
    if items == [] then
      Some([])
    else
      match (ParsePayload(items[0]), ParsePayloads(items[1..]))
      case (Some(v), Some(rest)) => Some([v] + rest)
      case _ => None
  }

  function ParsePayloadArray(v: Json): Option<seq<PayloadValue>> {
    if v.JArray? && v.items != [] then ParsePayloads(v.items) else None
  }

  function ParseMatch(v: Json): Option<MatchValue> {
    if v.JObject? then
      if |v.members| != 1 then
        None
      else
        var m := v.members[0];
        if m.name == "value" then
          match ParsePayload(m.value) case Some(p) => Some(Value(p)) case None => None
        else if m.name == "any" then
          match ParsePayloadArray(m.value) case Some(ps) => Some(Any(ps)) case None => None
        else if m.name == "except" then
          match ParsePayloadArray(m.value) case Some(ps) => Some(Except(ps)) case None => None
        else
          None
    else
      match ParsePayload(v) case Some(p) => Some(Value(p)) case None => None
  }

  function ParseBound(v: Json): Option<RangeBound> {
    match v
    case JNumber(n) => Some(if n.Int? && I64_MIN <= n.i <= I64_MAX then Integer(n.i) else Fraction(n))
    case JString(s) => Some(Lexical(s))
    case _ => None
  }

  const NO_BOUNDS: Predicate := Range(None, None, None, None)

  /** The bounds an object's members set, the last member of a name winning. */
  function DenoteBounds(members: seq<Member>): (r: Option<Predicate>)
    ensures r.Some? ==> r.value.Range?
  {
    if members == [] then
      Some(NO_BOUNDS)
    else
      var last := members[|members| - 1];
      match (DenoteBounds(members[..|members| - 1]), ParseBound(last.value))
      case (Some(p), Some(b)) => if IsBoundName(last.name) then Some(SetBound(p, last.name, Some(b))) else None
      case _ => None
  }

  predicate IsBoundName(name: string) {
    name == "gt" || name == "gte" || name == "lt" || name == "lte"
  }

  function SetBound(p: Predicate, name: string, b: Option<RangeBound>): Predicate
    requires p.Range? && IsBoundName(name)
  {
    if name == "gt" then p.(gt := b)
    else if name == "gte" then p.(gte := b)
    else if name == "lt" then p.(lt := b)
    else p.(lte := b)
  }

  function DenoteRange(v: Json): Option<Predicate> {
    if !v.JObject? then
      None
    else
      match DenoteBounds(v.members)
      case Some(p) => if PredicateBounded(p) then Some(p) else None
      case None => None
  }

  /** The predicate written by one member of a field condition. */
  function DenotePredicate(m: Member): Option<Predicate> {
    if m.name == "match" then
      match ParseMatch(m.value) case Some(v) => Some(Match(v)) case None => None
    else if m.name == "range" then
      DenoteRange(m.value)
    else if m.name == "is_null" then
      if m.value.JBool? then Some(IsNull(m.value.b)) else None
    else if m.name == "is_empty" then
      if m.value.JBool? then Some(IsEmpty(m.value.b)) else None
    else
      None
  }

  /** The predicate a member list leaves set: Some(None) when no member writes one. */
  function DenotePredicates(members: seq<Member>): Option<Option<Predicate>> {
    if members == [] then
      Some(None)
    else
      var last := members[|members| - 1];
      match DenotePredicates(members[..|members| - 1])
      case None => None
      case Some(p) =>
        if last.name == "key" then
          Some(p)
        else
          match DenotePredicate(last) case Some(q) => Some(Some(q)) case None => None
  }

  function Lookup(members: seq<Member>, name: string): Option<Json> {
    if members == [] then
      None
    else if members[|members| - 1].name == name then
      Some(members[|members| - 1].value)
    else
      Lookup(members[..|members| - 1], name)
  }

  function DenoteKey(members: seq<Member>): Option<string> {
    match Lookup(members, "key")
    case Some(JString(key)) => if ValidKey(key) then Some(key) else None
    case _ => None
  }

  // ---------- filters ----------

  predicate IsNestedFilter(members: seq<Member>) {
    Lookup(members, "must").Some? || Lookup(members, "should").Some? || Lookup(members, "must_not").Some?
  }

  function DenoteFilter(v: Json): Option<Filter<string>>
    decreases v, 1
  {
    if !v.JObject? then
      None
    else
      match DenoteMembers(v.members)
      case Some(f) => if f == Filter([], [], []) then None else Some(f)
      case None => None
  }

  function DenoteMembers(members: seq<Member>): Option<Filter<string>>
    decreases members, 0
  {
    if members == [] then
      Some(Filter([], [], []))
    else
      var last := members[|members| - 1];
      match (DenoteMembers(members[..|members| - 1]), DenoteArray(last.value))
      case (Some(f), Some(cs)) => if IsListName(last.name) then Some(SetList(f, last.name, cs)) else None
      case _ => None
  }

  predicate IsListName(name: string) {
    name == "must" || name == "should" || name == "must_not"
  }

  function SetList(f: Filter<string>, name: string, cs: seq<Condition<string>>): Filter<string>
    requires IsListName(name)
  {
    if name == "must" then f.(must := cs) else if name == "should" then f.(should := cs) else f.(mustNot := cs)
  }

  function GetList(f: Filter<string>, name: string): seq<Condition<string>>
    requires IsListName(name)
  {
    if name == "must" then f.must else if name == "should" then f.should else f.mustNot
  }

  function DenoteArray(v: Json): Option<seq<Condition<string>>>
    decreases v, 0
  {
    if v.JArray? then DenoteConditions(v.items) else None
  }

  function DenoteConditions(items: seq<Json>): Option<seq<Condition<string>>>
    decreases items, 0
  {
    if items == [] then
      Some([])
    else
      match (DenoteConditions(items[..|items| - 1]), DenoteCondition(items[|items| - 1]))
      case (Some(cs), Some(c)) => Some(cs + [c])
      case _ => None
  }

  function DenoteCondition(v: Json): Option<Condition<string>>
    decreases v, 2
  {
    if !v.JObject? then
      None
    else if IsNestedFilter(v.members) then
      match DenoteFilter(v) case Some(f) => Some(Nested(f)) case None => None
    else
      match (DenoteKey(v.members), DenotePredicates(v.members))
      case (Some(key), Some(Some(p))) => Some(Field(key, p))
      case _ => None
  }

  // ---------- budgets ----------

  /** The number of conditions in the tree. */
  function Nodes(f: Filter<string>): nat
    decreases f, 1
  {
    ListNodes(f.must) + ListNodes(f.should) + ListNodes(f.mustNot)
  }

  function ListNodes(cs: seq<Condition<string>>): nat
    decreases cs, 0
  {
    if cs == [] then 0 else ListNodes(cs[..|cs| - 1]) + ConditionNodes(cs[|cs| - 1])
  }

  function ConditionNodes(c: Condition<string>): nat
    decreases c, 1
  {
    match c
    case Field(_, _) => 1
    case Nested(f) => 1 + Nodes(f)
  }

  function Max(a: nat, b: nat): nat {
    if a < b then b else a
  }

  /** The nesting depth, one for a filter without nested filters. */
  function Depth(f: Filter<string>): nat
    decreases f, 1
  {
    1 + Max(ListDepth(f.must), Max(ListDepth(f.should), ListDepth(f.mustNot)))
  }

  function ListDepth(cs: seq<Condition<string>>): nat
    decreases cs, 0
  {
    if cs == [] then 0 else Max(ListDepth(cs[..|cs| - 1]), ConditionDepth(cs[|cs| - 1]))
  }

  function ConditionDepth(c: Condition<string>): nat
    decreases c, 1
  {
    match c
    case Field(_, _) => 0
    case Nested(f) => Depth(f)
  }

  class FilterBudget {
    var nodes: nat

    constructor ()
      ensures nodes == 0
    {
      nodes := 0;
    }

    method CountNode() returns (r: Option<FilterError>)
      modifies this
      ensures nodes == old(nodes) + 1
      ensures r.None? <==> nodes <= MAX_FILTER_NODES
    {
      nodes := nodes + 1;
      if nodes > MAX_FILTER_NODES {
        return Some(BudgetExceeded("filter nodes", nodes, MAX_FILTER_NODES));
      }
      return None;
    }
  }

  // ---------- prefixes of accepted lists ----------

  ghost predicate FilterFits(v: Json, depth: nat, nodes: nat) {
    && DenoteFilter(v).Some?
    && depth + Depth(DenoteFilter(v).value) - 1 <= MAX_FILTER_DEPTH
    && nodes + Nodes(DenoteFilter(v).value) <= MAX_FILTER_NODES
  }

  ghost predicate ConditionFits(v: Json, depth: nat, nodes: nat) {
    && DenoteCondition(v).Some?
    && depth + ConditionDepth(DenoteCondition(v).value) - 1 <= MAX_FILTER_DEPTH
    && nodes + ConditionNodes(DenoteCondition(v).value) <= MAX_FILTER_NODES
  }

  ghost predicate ListFits(cs: Option<seq<Condition<string>>>, depth: nat, nodes: nat) {
    && cs.Some?
    && depth + ListDepth(cs.value) <= MAX_FILTER_DEPTH
    && nodes + ListNodes(cs.value) <= MAX_FILTER_NODES
  }

  ghost predicate MembersFit(f: Option<Filter<string>>, depth: nat, nodes: nat) {
    && f.Some?
    && depth + Depth(f.value) - 1 <= MAX_FILTER_DEPTH
    && nodes + Nodes(f.value) <= MAX_FILTER_NODES
  }

  lemma {:induction false} ListPrefixFits(items: seq<Json>, i: nat, depth: nat, nodes: nat)
    requires i <= |items| && ListFits(DenoteConditions(items), depth, nodes)
    ensures ListFits(DenoteConditions(items[..i]), depth, nodes)
    decreases |items| - i
  {
    if i == |items| {
      assert items[..i] == items;
    } else {
      ListPrefixFits(items, i + 1, depth, nodes);
      assert items[..i + 1][..i] == items[..i];
      assert DenoteConditions(items[..i + 1]).value[..|DenoteConditions(items[..i + 1]).value| - 1]
          == DenoteConditions(items[..i]).value;
    }
  }

  /** A member name that has not occurred yet has set nothing. */
  lemma {:induction false} UnsetLists(members: seq<Member>, name: string)
    requires forall m :: m in members ==> m.name != name
    requires DenoteMembers(members).Some?
    ensures IsListName(name) ==> GetList(DenoteMembers(members).value, name) == []
  {
    if members != [] {
      UnsetLists(members[..|members| - 1], name);
    }
  }

  /** Filling an empty list adds its nodes and raises the depth to at least its own. */
  lemma SetListSizes(f: Filter<string>, name: string, cs: seq<Condition<string>>)
    requires IsListName(name) && GetList(f, name) == []
    ensures Nodes(SetList(f, name, cs)) == Nodes(f) + ListNodes(cs)
    ensures Depth(SetList(f, name, cs)) == Max(Depth(f), 1 + ListDepth(cs))
  {
  }

  lemma {:induction false} MemberPrefixFits(members: seq<Member>, i: nat, depth: nat, nodes: nat)
    requires i <= |members| && UniqueNames(members)
    requires MembersFit(DenoteMembers(members), depth, nodes)
    ensures MembersFit(DenoteMembers(members[..i]), depth, nodes)
    decreases |members| - i
  {
    if i == |members| {
      assert members[..i] == members;
    } else {
      MemberPrefixFits(members, i + 1, depth, nodes);
      assert members[..i + 1][..i] == members[..i];
      UnsetLists(members[..i], members[i].name);
      SetListSizes(DenoteMembers(members[..i]).value, members[i].name, DenoteArray(members[i].value).value);
    }
  }

  // ---------- the parser ----------

  /** Accepts exactly the trees that write a filter within the depth and node budgets. */
  method ParseFilter(json: Json) returns (r: Result<Filter<string>, FilterError>)
    requires WellFormed(json)
    ensures r.Ok? <==> DenoteFilter(json).Some? && Depth(DenoteFilter(json).value) <= MAX_FILTER_DEPTH
                       && Nodes(DenoteFilter(json).value) <= MAX_FILTER_NODES
    ensures r.Ok? ==> r.value == DenoteFilter(json).value
  {
    var budget := new FilterBudget();
    r := ParseFilterValue(json, 1, budget);
  }

  method ParseFilterValue(value: Json, depth: nat, budget: FilterBudget)
    returns (r: Result<Filter<string>, FilterError>)
    requires WellFormed(value) && 1 <= depth && budget.nodes <= MAX_FILTER_NODES
    modifies budget
    ensures r.Ok? <==> FilterFits(value, depth, old(budget.nodes))
    ensures r.Ok? ==> r.value == DenoteFilter(value).value && budget.nodes == old(budget.nodes) + Nodes(r.value)
    decreases value, 1
  {
    hide DenoteMembers, DenoteArray, Nodes, Depth, ListNodes, ListDepth, SetList;
    ghost var start := budget.nodes;
    if depth > MAX_FILTER_DEPTH {
      DepthPositive(DenoteFilter(value));
      return Err(BudgetExceeded("filter depth", depth, MAX_FILTER_DEPTH));
    }
    if !value.JObject? {
      return Err(ExpectedObject);
    }
    var filter: Filter<string> := Filter([], [], []);
    var members := value.members;
    EmptyMembers(members);
    for i := 0 to |members|
      invariant DenoteMembers(members[..i]) == Some(filter)
      invariant MembersFit(Some(filter), depth, start)
      invariant budget.nodes == start + Nodes(filter)
    {
      MemberStep(members, i, filter, depth, start);
      if !IsListName(members[i].name) {
        return Err(UnknownField(members[i].name));
      }
      var parsed := ParseConditionArray(members[i].value, depth, budget);
      if parsed.Err? {
        return Err(parsed.error);
      }
      filter := SetList(filter, members[i].name, parsed.value);
    }
    assert members[..|members|] == members;
    if filter == Filter([], [], []) {
      return Err(EmptyFilter);
    }
    r := Ok(filter);
  }

  lemma DepthPositive(f: Option<Filter<string>>)
    ensures f.Some? ==> Depth(f.value) >= 1
  {
  }

  lemma EmptyMembers(members: seq<Member>)
    ensures DenoteMembers(members[..0]) == Some(Filter([], [], []))
    ensures Nodes(Filter([], [], [])) == 0 && Depth(Filter([], [], [])) == 1
  {
    assert members[..0] == [];
  }

  /** What one more member contributes, and why a rejected member rejects the whole object. */
  lemma MemberStep(members: seq<Member>, i: nat, filter: Filter<string>, depth: nat, nodes: nat)
    requires i < |members| && UniqueNames(members) && depth <= MAX_FILTER_DEPTH
    requires DenoteMembers(members[..i]) == Some(filter) && MembersFit(Some(filter), depth, nodes)
    ensures var name := members[i].name;
            var cs := DenoteArray(members[i].value);
            if IsListName(name) && ListFits(cs, depth, nodes + Nodes(filter)) then
              && DenoteMembers(members[..i + 1]) == Some(SetList(filter, name, cs.value))
              && MembersFit(Some(SetList(filter, name, cs.value)), depth, nodes)
              && Nodes(SetList(filter, name, cs.value)) == Nodes(filter) + ListNodes(cs.value)
            else
              !MembersFit(DenoteMembers(members), depth, nodes)
  {
    var name := members[i].name;
    var cs := DenoteArray(members[i].value);
    assert members[..i + 1][..i] == members[..i];
    UnsetLists(members[..i], name);
    if IsListName(name) && cs.Some? {
      SetListSizes(filter, name, cs.value);
    }
    if MembersFit(DenoteMembers(members), depth, nodes) {
      MemberPrefixFits(members, i + 1, depth, nodes);
    }
  }

  method ParseConditionArray(value: Json, depth: nat, budget: FilterBudget)
    returns (r: Result<seq<Condition<string>>, FilterError>)
    requires WellFormed(value) && 1 <= depth <= MAX_FILTER_DEPTH && budget.nodes <= MAX_FILTER_NODES
    modifies budget
    ensures r.Ok? <==> ListFits(DenoteArray(value), depth, old(budget.nodes))
    ensures r.Ok? ==> r.value == DenoteArray(value).value && budget.nodes == old(budget.nodes) + ListNodes(r.value)
    decreases value, 0
  {
    hide DenoteConditions, DenoteCondition, ListNodes, ListDepth, ConditionNodes, ConditionDepth;
    ghost var start := budget.nodes;
    if !value.JArray? {
      return Err(ExpectedArray);
    }
    var items := value.items;
    var conditions: seq<Condition<string>> := [];
    NoConditions(items);
    for i := 0 to |items|
      invariant DenoteConditions(items[..i]) == Some(conditions)
      invariant ListFits(Some(conditions), depth, start)
      invariant budget.nodes == start + ListNodes(conditions)
    {
      ItemStep(items, i, conditions, depth, start);
      var c := ParseCondition(items[i], depth + 1, budget);
      if c.Err? {
        return Err(c.error);
      }
      conditions := conditions + [c.value];
    }
    assert items[..|items|] == items;
    r := Ok(conditions);
  }

  lemma NoConditions(items: seq<Json>)
    ensures DenoteConditions(items[..0]) == Some([]) && ListNodes([]) == 0 && ListDepth([]) == 0
  {
    assert items[..0] == [];
  }

  /** What one more item contributes, and why a rejected item rejects the whole array. */
  lemma ItemStep(items: seq<Json>, i: nat, conditions: seq<Condition<string>>, depth: nat, nodes: nat)
    requires i < |items|
    requires DenoteConditions(items[..i]) == Some(conditions) && ListFits(Some(conditions), depth, nodes)
    ensures if ConditionFits(items[i], depth + 1, nodes + ListNodes(conditions)) then
              var cs := conditions + [DenoteCondition(items[i]).value];
              && DenoteConditions(items[..i + 1]) == Some(cs)
              && ListFits(Some(cs), depth, nodes)
              && ListNodes(cs) == ListNodes(conditions) + ConditionNodes(DenoteCondition(items[i]).value)
            else
              !ListFits(DenoteConditions(items), depth, nodes)
  {
    assert items[..i + 1][..i] == items[..i];
    if DenoteCondition(items[i]).Some? {
      assert (conditions + [DenoteCondition(items[i]).value])[..|conditions|] == conditions;
    }
    if ListFits(DenoteConditions(items), depth, nodes) {
      ListPrefixFits(items, i + 1, depth, nodes);
    }
  }

  method ParseCondition(value: Json, depth: nat, budget: FilterBudget)
    returns (r: Result<Condition<string>, FilterError>)
    requires WellFormed(value) && 2 <= depth <= MAX_FILTER_DEPTH + 1 && budget.nodes <= MAX_FILTER_NODES
    modifies budget
    ensures r.Ok? <==> ConditionFits(value, depth, old(budget.nodes))
    ensures r.Ok? ==> r.value == DenoteCondition(value).value
    ensures r.Ok? ==> budget.nodes == old(budget.nodes) + ConditionNodes(r.value)
    decreases value, 2
  {
    if value.JObject? && IsNestedFilter(value.members) {
      var over := budget.CountNode();
      if over.Some? { return Err(over.value); }
      var f := ParseFilterValue(value, depth, budget);
      if f.Err? { return Err(f.error); }
      return Ok(Nested(f.value));
    }
    var over := budget.CountNode();
    if over.Some? { return Err(over.value); }
    r := ParseFieldCondition(value);
  }

  method ParseFieldCondition(value: Json) returns (r: Result<Condition<string>, FilterError>)
    requires value.JObject? ==> !IsNestedFilter(value.members)
    ensures r.Ok? <==> DenoteCondition(value).Some?
    ensures r.Ok? ==> r.value == DenoteCondition(value).value && r.value.Field?
  {
    if !value.JObject? {
      return Err(ExpectedObject);
    }
    var members := value.members;
    var key := DenoteKey(members);
    if key.None? {
      return Err(InvalidKey);
    }
    var test: Option<Predicate> := None;
    for i := 0 to |members|
      invariant DenotePredicates(members[..i]) == Some(test)
    {
      assert members[..i + 1][..i] == members[..i];
      if DenotePredicates(members).Some? {
        PredicatePrefix(members, i + 1);
      }
      var m := members[i];
      if m.name == "range" {
        var p := ParseRangePredicate(key.value, m.value);
        if p.Err? {
          return Err(p.error);
        }
        test := Some(p.value);
      } else if m.name != "key" {
        var p := DenotePredicate(m);
        if p.None? {
          return Err(if m.name in {"match", "is_null", "is_empty"} then InvalidPredicate(key.value)
                     else UnknownField(m.name));
        }
        test := p;
      }
    }
    assert members[..|members|] == members;
    if test.None? {
      return Err(MissingPredicate(key.value));
    }
    r := Ok(Field(key.value, test.value));
  }

  method ParseRangePredicate(key: string, value: Json) returns (r: Result<Predicate, FilterError>)
    ensures r.Ok? <==> DenoteRange(value).Some?
    ensures r.Ok? ==> r.value == DenoteRange(value).value
  {
    if !value.JObject? {
      return Err(InvalidPredicate(key));
    }
    var members := value.members;
    var p := NO_BOUNDS;
    for i := 0 to |members|
      invariant DenoteBounds(members[..i]) == Some(p)
    {
      assert members[..i + 1][..i] == members[..i];
      if DenoteBounds(members).Some? {
        BoundsPrefix(members, i + 1);
      }
      var m := members[i];
      var bound := ParseBound(m.value);
      if bound.None? {
        return Err(InvalidPredicate(key));
      }
      if !IsBoundName(m.name) {
        return Err(UnknownField(m.name));
      }
      p := SetBound(p, m.name, bound);
    }
    assert members[..|members|] == members;
    if !PredicateBounded(p) {
      return Err(InvalidPredicate(key));
    }
    r := Ok(p);
  }

  lemma {:induction false} BoundsPrefix(members: seq<Member>, i: nat)
    requires i <= |members| && DenoteBounds(members).Some?
    ensures DenoteBounds(members[..i]).Some?
    decreases |members| - i
  {
    if i == |members| {
      assert members[..i] == members;
    } else {
      BoundsPrefix(members, i + 1);
      assert members[..i + 1][..i] == members[..i];
    }
  }

  lemma {:induction false} PredicatePrefix(members: seq<Member>, i: nat)
    requires i <= |members| && DenotePredicates(members).Some?
    ensures DenotePredicates(members[..i]).Some?
    decreases |members| - i
  {
    if i == |members| {
      assert members[..i] == members;
    } else {
      PredicatePrefix(members, i + 1);
      assert members[..i + 1][..i] == members[..i];
    }
  }

  // ---------- the filters JSON can write ----------

  predicate WritableBound(b: Option<RangeBound>) {
    match b
    case Some(Integer(i)) => I64_MIN <= i <= I64_MAX
    case Some(Fraction(n)) => n.Int? ==> !(I64_MIN <= n.i <= I64_MAX)
    case _ => true
  }

  predicate WritablePredicate(p: Predicate) {
    match p
    case Match(Any(vs)) => vs != []
    case Match(Except(vs)) => vs != []
    case Range(gt, gte, lt, lte) =>
      PredicateBounded(p) && WritableBound(gt) && WritableBound(gte) && WritableBound(lt) && WritableBound(lte)
    case _ => true
  }

  /** Non-empty at every level, valid keys, non-empty match lists and bounded ranges. */
  predicate Writable(f: Filter<string>)
    decreases f, 1
  {
    && f != Filter([], [], [])
    && WritableList(f.must) && WritableList(f.should) && WritableList(f.mustNot)
  }

  predicate WritableList(cs: seq<Condition<string>>)
    decreases cs, 0
  {
    cs == [] || (WritableList(cs[..|cs| - 1]) && WritableCondition(cs[|cs| - 1]))
  }

  predicate WritableCondition(c: Condition<string>)
    decreases c, 1
  {
    match c
    case Field(key, p) => ValidKey(key) && WritablePredicate(p)
    case Nested(f) => Writable(f)
  }

  function WritePayload(v: PayloadValue): Json {
    match v
    case Null => JNull
    case Bool(b) => JBool(b)
    case Num(n) => JNumber(n)
    case Text(s) => JString(s)
  }

  function WritePayloads(vs: seq<PayloadValue>): seq<Json> {
    if vs == [] then [] else [WritePayload(vs[0])] + WritePayloads(vs[1..])
  }

  function WriteBound(name: string, b: Option<RangeBound>): seq<Member> {
    match b
    case None => []
    case Some(Integer(i)) => [Member(name, JNumber(Int(i)))]
    case Some(Fraction(n)) => [Member(name, JNumber(n))]
    case Some(Lexical(s)) => [Member(name, JString(s))]
  }

  function WriteBounds(p: Predicate): seq<Member>
    requires p.Range?
  {
    WriteBound("gt", p.gt) + WriteBound("gte", p.gte) + WriteBound("lt", p.lt) + WriteBound("lte", p.lte)
  }

  /** Which match values are written bare, as `"match": v`, and not as `"match": {"value": v}`. */
  type Style = PayloadValue -> bool

  function WritePredicate(p: Predicate, bare: Style): Member {
    match p
    case Match(Value(v)) =>
      Member("match", if bare(v) then WritePayload(v) else JObject([Member("value", WritePayload(v))]))
    case Match(Any(vs)) => Member("match", JObject([Member("any", JArray(WritePayloads(vs)))]))
    case Match(Except(vs)) => Member("match", JObject([Member("except", JArray(WritePayloads(vs)))]))
    case Range(_, _, _, _) => Member("range", JObject(WriteBounds(p)))
    case IsNull(b) => Member("is_null", JBool(b))
    case IsEmpty(b) => Member("is_empty", JBool(b))
  }

  function WriteFilter(f: Filter<string>, bare: Style): Json
    decreases f, 1
  {
    JObject([Member("must", JArray(WriteList(f.must, bare))),
             Member("should", JArray(WriteList(f.should, bare))),
             Member("must_not", JArray(WriteList(f.mustNot, bare)))])
  }

  function WriteList(cs: seq<Condition<string>>, bare: Style): seq<Json>
    decreases cs, 0
  {
    if cs == [] then [] else WriteList(cs[..|cs| - 1], bare) + [WriteCondition(cs[|cs| - 1], bare)]
  }

  function WriteCondition(c: Condition<string>, bare: Style): Json
    decreases c, 1
  {
    match c
    case Field(key, p) => JObject([Member("key", JString(key)), WritePredicate(p, bare)])
    case Nested(f) => WriteFilter(f, bare)
  }

  lemma {:induction false} PayloadsRoundTrip(vs: seq<PayloadValue>)
    ensures ParsePayloads(WritePayloads(vs)) == Some(vs)
    ensures vs != [] ==> WritePayloads(vs) != []
  {
    if vs != [] {
      PayloadsRoundTrip(vs[1..]);
      assert vs == [vs[0]] + vs[1..];
      assert WritePayloads(vs)[1..] == WritePayloads(vs[1..]);
    }
  }

  lemma {:induction false} BoundRoundTrip(members: seq<Member>, name: string, b: Option<RangeBound>)
    requires WritableBound(b) && IsBoundName(name) && DenoteBounds(members).Some?
    ensures b.None? ==> DenoteBounds(members + WriteBound(name, b)) == DenoteBounds(members)
    ensures b.Some? ==>
              DenoteBounds(members + WriteBound(name, b)) == Some(SetBound(DenoteBounds(members).value, name, b))
  {
    var written := WriteBound(name, b);
    if b.None? {
      assert members + written == members;
    } else {
      assert |written| == 1 && (members + written)[..|members|] == members;
    }
  }

  lemma BoundsRoundTrip(p: Predicate)
    requires p.Range? && WritablePredicate(p)
    ensures DenoteBounds(WriteBounds(p)) == Some(p)
  {
    var gt, gte, lt := WriteBound("gt", p.gt), WriteBound("gte", p.gte), WriteBound("lt", p.lt);
    BoundRoundTrip([], "gt", p.gt);
    assert [] + gt == gt;
    BoundRoundTrip(gt, "gte", p.gte);
    BoundRoundTrip(gt + gte, "lt", p.lt);
    BoundRoundTrip(gt + gte + lt, "lte", p.lte);
  }

  lemma PredicateRoundTrip(p: Predicate, bare: Style)
    requires WritablePredicate(p)
    ensures DenotePredicate(WritePredicate(p, bare)) == Some(p)
    ensures WritePredicate(p, bare).name in {"match", "range", "is_null", "is_empty"}
  {
    match p
    case Match(Any(vs)) => PayloadsRoundTrip(vs);
    case Match(Except(vs)) => PayloadsRoundTrip(vs);
    case Range(_, _, _, _) => BoundsRoundTrip(p);
    case _ =>
  }

  /** Writing a filter as JSON, in either style, and reading it back gives the same filter. */
  lemma {:induction false} WriteThenDenote(f: Filter<string>, bare: Style)
    requires Writable(f)
    ensures DenoteFilter(WriteFilter(f, bare)) == Some(f)
    decreases f, 1
  {
    ListRoundTrip(f.must, bare);
    ListRoundTrip(f.should, bare);
    ListRoundTrip(f.mustNot, bare);
    var must := Member("must", JArray(WriteList(f.must, bare)));
    var should := Member("should", JArray(WriteList(f.should, bare)));
    var mustNot := Member("must_not", JArray(WriteList(f.mustNot, bare)));
    AppendMember([], must, Filter([], [], []), f.must);
    AppendMember([] + [must], should, Filter(f.must, [], []), f.should);
    AppendMember([] + [must] + [should], mustNot, Filter(f.must, f.should, []), f.mustNot);
    assert WriteFilter(f, bare).members == [] + [must] + [should] + [mustNot];
  }

  lemma AppendMember(members: seq<Member>, m: Member, f: Filter<string>, cs: seq<Condition<string>>)
    requires DenoteMembers(members) == Some(f) && IsListName(m.name) && DenoteArray(m.value) == Some(cs)
    ensures DenoteMembers(members + [m]) == Some(SetList(f, m.name, cs))
  {
    assert (members + [m])[..|members|] == members;
  }

  lemma {:induction false} ListRoundTrip(cs: seq<Condition<string>>, bare: Style)
    requires WritableList(cs)
    ensures DenoteConditions(WriteList(cs, bare)) == Some(cs)
    decreases cs, 0
  {
    hide DenoteCondition, WriteCondition, WritableCondition;
    if cs != [] {
      var n := |cs| - 1;
      ListRoundTrip(cs[..n], bare);
      ConditionRoundTrip(cs[n], bare);
      var items := WriteList(cs, bare);
      assert items[..|items| - 1] == WriteList(cs[..n], bare);
      assert cs == cs[..n] + [cs[n]];
    }
  }

  lemma {:induction false} ConditionRoundTrip(c: Condition<string>, bare: Style)
    requires WritableCondition(c)
    ensures DenoteCondition(WriteCondition(c, bare)) == Some(c)
    decreases c, 1
  {
    match c
    case Field(key, p) => FieldRoundTrip(key, p, bare);
    case Nested(f) =>
      WriteThenDenote(f, bare);
      var ms := WriteFilter(f, bare).members;
      assert Lookup(ms, "must_not").Some?;
  }

  lemma FieldRoundTrip(key: string, p: Predicate, bare: Style)
    requires ValidKey(key) && WritablePredicate(p)
    ensures DenoteCondition(WriteCondition(Field(key, p), bare)) == Some(Field(key, p))
  {
    hide ValidKey, DenotePredicate, WritePredicate, WritablePredicate;
    PredicateRoundTrip(p, bare);
    var ms := WriteCondition(Field(key, p), bare).members;
    assert ms[..0] == [] && ms[..1] == [ms[0]] && ms[..1][..0] == [];
    assert DenotePredicates(ms[..1]) == Some(None);
    assert ms[..|ms| - 1] == ms[..1];
    forall name | name in {"must", "should", "must_not"} ensures Lookup(ms, name).None? {
      assert Lookup(ms[..1], name).None?;
    }
    assert Lookup(ms[..1], "key") == Some(JString(key));
  }

  // ---------- and no others ----------

  /** Every filter the parser can produce is one JSON can write: in particular its ranges have bounds. */
  lemma {:induction false} DenotedIsWritable(v: Json)
    ensures DenoteFilter(v).Some? ==> Writable(DenoteFilter(v).value)
    decreases v, 1
  {
    if v.JObject? {
      MembersWritable(v.members);
    }
  }

  lemma {:induction false} MembersWritable(members: seq<Member>)
    ensures DenoteMembers(members).Some? ==>
              var f := DenoteMembers(members).value;
              WritableList(f.must) && WritableList(f.should) && WritableList(f.mustNot)
    decreases members, 0
  {
    if members != [] {
      MembersWritable(members[..|members| - 1]);
      var last := members[|members| - 1];
      if last.value.JArray? {
        ConditionsWritable(last.value.items);
      }
    }
  }

  lemma {:induction false} ConditionsWritable(items: seq<Json>)
    ensures DenoteConditions(items).Some? ==> WritableList(DenoteConditions(items).value)
    decreases items, 0
  {
    if items != [] && DenoteConditions(items).Some? {
      var n := |items| - 1;
      ConditionsWritable(items[..n]);
      DenotedConditionWritable(items[n]);
      var cs := DenoteConditions(items).value;
      assert cs[..|cs| - 1] == DenoteConditions(items[..n]).value;
    }
  }

  lemma {:induction false} DenotedConditionWritable(v: Json)
    ensures DenoteCondition(v).Some? ==> WritableCondition(DenoteCondition(v).value)
    decreases v, 2
  {
    if v.JObject? {
      if IsNestedFilter(v.members) {
        DenotedIsWritable(v);
      } else {
        PredicatesWritable(v.members);
      }
    }
  }

  lemma {:induction false} PredicatesWritable(members: seq<Member>)
    ensures DenotePredicates(members).Some? && DenotePredicates(members).value.Some? ==>
              WritablePredicate(DenotePredicates(members).value.value)
  {
    if members != [] {
      var last := members[|members| - 1];
      PredicatesWritable(members[..|members| - 1]);
      if last.name == "match" {
        MatchWritable(last.value);
      } else if last.name == "range" && last.value.JObject? {
        BoundsWritable(last.value.members);
      }
    }
  }

  lemma MatchWritable(v: Json)
    ensures ParseMatch(v).Some? ==> WritablePredicate(Match(ParseMatch(v).value))
  {
    if v.JObject? && |v.members| == 1 && v.members[0].value.JArray? && v.members[0].value.items != [] {
      var items := v.members[0].value.items;
      assert ParsePayloads(items).Some? ==> ParsePayloads(items).value != [];
    }
  }

  lemma ParsedBoundWritable(v: Json)
    ensures ParseBound(v).Some? ==> WritableBound(ParseBound(v))
    ensures WritableBound(None)
  {
  }

  lemma {:induction false} BoundsWritable(members: seq<Member>)
    ensures DenoteBounds(members).Some? ==>
              var p := DenoteBounds(members).value;
              WritableBound(p.gt) && WritableBound(p.gte) && WritableBound(p.lt) && WritableBound(p.lte)
  {
    if members != [] {
      BoundsWritable(members[..|members| - 1]);
      ParsedBoundWritable(members[|members| - 1].value);
      hide ParseBound, WritableBound;
    }
  }

  lemma {:induction false} WritableIsBounded(f: Filter<string>)
    requires Writable(f)
    ensures Bounded(f)
    decreases f, 1
  {
    WritableListIsBounded(f.must);
    WritableListIsBounded(f.should);
    WritableListIsBounded(f.mustNot);
  }

  lemma {:induction false} WritableListIsBounded(cs: seq<Condition<string>>)
    requires WritableList(cs)
    ensures AllBounded(cs)
    decreases cs, 0
  {
    if cs != [] {
      var n := |cs| - 1;
      WritableListIsBounded(cs[..n]);
      WritableConditionIsBounded(cs[n]);
      AllBoundedSnoc(cs[..n], cs[n]);
      assert cs == cs[..n] + [cs[n]];
    }
  }

  lemma {:induction false} WritableConditionIsBounded(c: Condition<string>)
    requires WritableCondition(c)
    ensures ConditionBounded(c)
    decreases c, 1
  {
    if c.Nested? {
      WritableIsBounded(c.filter);
    }
  }
}
