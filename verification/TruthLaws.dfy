/**
 Three-valued logic and the meaning of filters in plain terms (PostgreSQL manual, section 9.1):
 when a condition is true, when it is false, and unknown otherwise.
 */
module TruthLaws {
  import opened FilterMeaning
  import opened Filters
  import opened Sql

  function Rank(t: Truth): int {
    match t case False => 0 case Unknown => 1 case True => 2
  }

  function Lower(a: int, b: int): int { if a < b then a else b }

  function Higher(a: int, b: int): int { if a > b then a else b }

  /** With false below unknown below true: AND is the lower of two, OR the higher, and NOT turns the order round. */
  lemma TruthTables(a: Truth, b: Truth)
    ensures Rank(And(a, b)) == Lower(Rank(a), Rank(b))
    ensures Rank(Or(a, b)) == Higher(Rank(a), Rank(b))
    ensures Rank(Not(a)) == 2 - Rank(a)
  {
  }

  lemma {:induction false} ScalarsAt<V(!new)>(vs: seq<PayloadValue>, jsonb: bool, w: World<V>)
    ensures |Scalars(vs, jsonb, w)| == |vs|
    ensures forall i :: 0 <= i < |vs| ==> Scalars(vs, jsonb, w)[i] == w.scalar(vs[i], jsonb)
  {
    if vs != [] {
      ScalarsAt(vs[1..], jsonb, w);
    }
  }

  /** ANY is true if one comparison is, and false if all are. */
  lemma {:induction false} AnyIs<V(!new)>(op: Comparison, x: V, vs: seq<V>, w: World<V>)
    ensures AnyOf(op, x, vs, w) == True <==> exists i :: 0 <= i < |vs| && w.compare(op, x, vs[i]) == True
    ensures AnyOf(op, x, vs, w) == False <==> forall i :: 0 <= i < |vs| ==> w.compare(op, x, vs[i]) == False
  {
    if vs != [] {
      var rest := vs[1..];
      AnyIs(op, x, rest, w);
      assert forall i :: 1 <= i < |vs| ==> vs[i] == rest[i - 1];
      assert forall i :: 0 <= i < |rest| ==> rest[i] == vs[i + 1];
    }
  }

  /** ALL is true if all comparisons are, and false if one is. */
  lemma {:induction false} AllIs<V(!new)>(op: Comparison, x: V, vs: seq<V>, w: World<V>)
    ensures AllOf(op, x, vs, w) == True <==> forall i :: 0 <= i < |vs| ==> w.compare(op, x, vs[i]) == True
    ensures AllOf(op, x, vs, w) == False <==> exists i :: 0 <= i < |vs| && w.compare(op, x, vs[i]) == False
  {
    if vs != [] {
      var rest := vs[1..];
      AllIs(op, x, rest, w);
      assert forall i :: 1 <= i < |vs| ==> vs[i] == rest[i - 1];
      assert forall i :: 0 <= i < |rest| ==> rest[i] == vs[i + 1];
    }
  }

  /** A match holds for an equal value, for a value equal to one of a list, or for one different from all of a list. */
  lemma MatchHoldsIff<V(!new)>(vs: seq<PayloadValue>, x: V, jsonb: bool, w: World<V>)
    ensures PredicateMeaning(Match(Any(vs)), x, jsonb, w) == True <==>
            exists i :: 0 <= i < |vs| && w.compare(Eq, x, w.scalar(vs[i], jsonb)) == True
    ensures PredicateMeaning(Match(Any(vs)), x, jsonb, w) == False <==>
            forall i :: 0 <= i < |vs| ==> w.compare(Eq, x, w.scalar(vs[i], jsonb)) == False
    ensures PredicateMeaning(Match(Except(vs)), x, jsonb, w) == True <==>
            forall i :: 0 <= i < |vs| ==> w.compare(Ne, x, w.scalar(vs[i], jsonb)) == True
    ensures PredicateMeaning(Match(Except(vs)), x, jsonb, w) == False <==>
            exists i :: 0 <= i < |vs| && w.compare(Ne, x, w.scalar(vs[i], jsonb)) == False
    ensures forall v :: PredicateMeaning(Match(Value(v)), x, jsonb, w) == w.compare(Eq, x, w.scalar(v, jsonb))
  {
    hide AnyOf, AllOf, Scalars;
    ScalarsAt(vs, jsonb, w);
    AnyIs(Eq, x, Scalars(vs, jsonb, w), w);
    AllIs(Ne, x, Scalars(vs, jsonb, w), w);
  }

  lemma {:induction false} ListsHold<K, V(!new)>(cs: seq<Condition<K>>, at: K -> Target, w: World<V>)
    ensures AllHold(cs, at, w) == True <==> forall i :: 0 <= i < |cs| ==> Holds(cs[i], at, w) == True
    ensures AllHold(cs, at, w) == False <==> exists i :: 0 <= i < |cs| && Holds(cs[i], at, w) == False
    ensures SomeHold(cs, at, w) == True <==> exists i :: 0 <= i < |cs| && Holds(cs[i], at, w) == True
    ensures SomeHold(cs, at, w) == False <==> forall i :: 0 <= i < |cs| ==> Holds(cs[i], at, w) == False
    ensures NoneHold(cs, at, w) == True <==> forall i :: 0 <= i < |cs| ==> Holds(cs[i], at, w) == False
    ensures NoneHold(cs, at, w) == False <==> exists i :: 0 <= i < |cs| && Holds(cs[i], at, w) == True
  {
    hide Holds;
    if cs != [] {
      var n := |cs| - 1;
      ListsHold(cs[..n], at, w);
      assert forall i :: 0 <= i < n ==> cs[..n][i] == cs[i];
    }
  }

  /**
   A row passes a filter exactly when every `must` is true, some `should` is true unless there is
   none, and every `must_not` is false; it fails when one of these is definitely otherwise.
   */
  lemma FilterHoldsIff<K, V(!new)>(f: Filter<K>, at: K -> Target, w: World<V>)
    ensures Meaning(f, at, w) == True <==>
            && (forall i :: 0 <= i < |f.must| ==> Holds(f.must[i], at, w) == True)
            && (f.should == [] || exists i :: 0 <= i < |f.should| && Holds(f.should[i], at, w) == True)
            && (forall i :: 0 <= i < |f.mustNot| ==> Holds(f.mustNot[i], at, w) == False)
    ensures Meaning(f, at, w) == False <==>
            || (exists i :: 0 <= i < |f.must| && Holds(f.must[i], at, w) == False)
            || (f.should != [] && forall i :: 0 <= i < |f.should| ==> Holds(f.should[i], at, w) == False)
            || (exists i :: 0 <= i < |f.mustNot| && Holds(f.mustNot[i], at, w) == True)
  {
    hide Holds, AllHold, SomeHold, NoneHold;
    ListsHold(f.must, at, w);
    ListsHold(f.should, at, w);
    ListsHold(f.mustNot, at, w);
  }

  /** A range holds when every bound it has does, and fails when one does not. */
  lemma RangeHoldsIff<V(!new)>(p: Predicate, x: V, jsonb: bool, w: World<V>)
    requires p.Range?
    ensures PredicateMeaning(p, x, jsonb, w) == True <==>
            && (p.gt.Some? ==> w.compare(Gt, x, w.bound(p.gt.value, jsonb)) == True)
            && (p.gte.Some? ==> w.compare(Ge, x, w.bound(p.gte.value, jsonb)) == True)
            && (p.lt.Some? ==> w.compare(Lt, x, w.bound(p.lt.value, jsonb)) == True)
            && (p.lte.Some? ==> w.compare(Le, x, w.bound(p.lte.value, jsonb)) == True)
    ensures PredicateMeaning(p, x, jsonb, w) == False <==>
            || (p.gt.Some? && w.compare(Gt, x, w.bound(p.gt.value, jsonb)) == False)
            || (p.gte.Some? && w.compare(Ge, x, w.bound(p.gte.value, jsonb)) == False)
            || (p.lt.Some? && w.compare(Lt, x, w.bound(p.lt.value, jsonb)) == False)
            || (p.lte.Some? && w.compare(Le, x, w.bound(p.lte.value, jsonb)) == False)
  {
  }
}
