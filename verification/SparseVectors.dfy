/**
 Canonical sparse vectors (crates/context-core/src/vector.rs). An entry's own constructor
 already refuses index zero and non-finite values.
 */
module SparseVectors {
  import opened Policy
  import opened Wrappers

  datatype Entry = Entry(index: nat, value: real)

  datatype SparseVector = SparseVector(dimensions: nat, entries: seq<Entry>)

  /** Indexes count from one, are within the dimensions and strictly increase. */
  predicate Canonical(v: SparseVector) {
    && 1 <= v.dimensions <= MAX_VECTOR_DIMENSIONS
    && (forall i :: 0 <= i < |v.entries| ==> 1 <= v.entries[i].index <= v.dimensions)
    && Increasing(v.entries)
  }

  predicate Increasing(es: seq<Entry>) {
    forall i, j :: 0 <= i < j < |es| ==> es[i].index < es[j].index
  }

  predicate Ascending(es: seq<Entry>) {
    forall i, j :: 0 <= i < j < |es| ==> es[i].index <= es[j].index
  }

  // ---------- the dense expansion ----------

  /** The value at an index, zero where nothing is stored. */
  function Lookup(es: seq<Entry>, x: nat): real {
    if es == [] then 0.0
    else if es[|es| - 1].index == x then es[|es| - 1].value
    else Lookup(es[..|es| - 1], x)
  }

  /** The first n dimensions, written out. */
  function Expand(es: seq<Entry>, n: nat): (r: seq<real>)
    ensures |r| == n
  {
    if n == 0 then [] else Expand(es, n - 1) + [Lookup(es, n)]
  }

  lemma {:induction false} LookupHit(es: seq<Entry>, i: nat)
    requires Increasing(es) && i < |es|
    ensures Lookup(es, es[i].index) == es[i].value
  {
    if i < |es| - 1 {
      LookupHit(es[..|es| - 1], i);
    }
  }

  lemma {:induction false} LookupMiss(es: seq<Entry>, x: nat)
    requires forall i :: 0 <= i < |es| ==> es[i].index != x
    ensures Lookup(es, x) == 0.0
  {
    if es != [] {
      LookupMiss(es[..|es| - 1], x);
    }
  }

  lemma {:induction false} ExpandAt(es: seq<Entry>, n: nat, k: nat)
    requires k < n
    ensures Expand(es, n)[k] == Lookup(es, k + 1)
  {
    if k < n - 1 {
      ExpandAt(es, n - 1, k);
    }
  }

  // ---------- canonicalization ----------

  function Occurrences(es: seq<Entry>, x: nat): nat {
    if es == [] then 0 else Occurrences(es[1..], x) + if es[0].index == x then 1 else 0
  }

  function Insert(e: Entry, es: seq<Entry>): (r: seq<Entry>)
    ensures multiset(r) == multiset([e]) + multiset(es)
  {
    if es == [] || e.index <= es[0].index then
      [e] + es
    else
      assert es == [es[0]] + es[1..];
      [es[0]] + Insert(e, es[1..])
  }

  lemma {:induction false} InsertKeepsOrder(e: Entry, es: seq<Entry>)
    requires Ascending(es)
    ensures Ascending(Insert(e, es))
    ensures Insert(e, es) != [] && (Insert(e, es)[0] == e || (es != [] && Insert(e, es)[0] == es[0]))
  {
    if es == [] || e.index <= es[0].index {
      ConsAscending(e, es);
    } else {
      InsertKeepsOrder(e, es[1..]);
      ConsAscending(es[0], Insert(e, es[1..]));
    }
  }

  lemma ConsAscending(e: Entry, es: seq<Entry>)
    requires Ascending(es) && (es != [] ==> e.index <= es[0].index)
    ensures Ascending([e] + es)
  {
    var all := [e] + es;
    forall i, j | 0 <= i < j < |all| ensures all[i].index <= all[j].index {
      if j > 1 {
        assert es[0].index <= es[j - 1].index;
      }
    }
  }

  lemma {:induction false} InsertCounts(e: Entry, es: seq<Entry>, x: nat)
    ensures Occurrences(Insert(e, es), x) == Occurrences(es, x) + if e.index == x then 1 else 0
  {
    if es == [] || e.index <= es[0].index {
      assert ([e] + es)[1..] == es;
    } else {
      InsertCounts(e, es[1..], x);
      assert ([es[0]] + Insert(e, es[1..]))[1..] == Insert(e, es[1..]);
    }
  }

  /** The entries by ascending index; equal indexes keep their order. */
  function SortByIndex(es: seq<Entry>): (r: seq<Entry>)
    ensures multiset(r) == multiset(es)
  {
    if es == [] then [] else
      assert es == [es[0]] + es[1..];
      Insert(es[0], SortByIndex(es[1..]))
  }

  lemma {:induction false} SortIsAscending(es: seq<Entry>)
    ensures Ascending(SortByIndex(es))
  {
    if es != [] {
      SortIsAscending(es[1..]);
      InsertKeepsOrder(es[0], SortByIndex(es[1..]));
    }
  }

  lemma {:induction false} SortCounts(es: seq<Entry>, x: nat)
    ensures Occurrences(SortByIndex(es), x) == Occurrences(es, x)
  {
    if es != [] {
      SortCounts(es[1..], x);
      InsertCounts(es[0], SortByIndex(es[1..]), x);
    }
  }

  lemma {:induction false} StoredOccurs(es: seq<Entry>, i: nat)
    requires i < |es|
    ensures Occurrences(es, es[i].index) >= 1
  {
    if i > 0 {
      StoredOccurs(es[1..], i - 1);
    }
  }

  lemma {:induction false} AbsentDoesNotOccur(es: seq<Entry>, x: nat)
    requires forall i :: 0 <= i < |es| ==> es[i].index != x
    ensures Occurrences(es, x) == 0
  {
    if es != [] {
      AbsentDoesNotOccur(es[1..], x);
    }
  }

  lemma {:induction false} NeighboursOccurTwice(es: seq<Entry>, i: nat)
    requires i + 1 < |es| && es[i].index == es[i + 1].index
    ensures Occurrences(es, es[i].index) >= 2
  {
    if i > 0 {
      NeighboursOccurTwice(es[1..], i - 1);
    } else {
      StoredOccurs(es[1..], 0);
    }
  }

  lemma {:induction false} IncreasingOccursOnce(es: seq<Entry>, x: nat)
    requires Increasing(es)
    ensures Occurrences(es, x) <= 1
  {
    if es != [] {
      if es[0].index == x {
        AbsentDoesNotOccur(es[1..], x);
      } else {
        IncreasingOccursOnce(es[1..], x);
      }
    }
  }

  /** The entries a vector of these dimensions may be made of. */
  ghost predicate Acceptable(dimensions: nat, es: seq<Entry>) {
    && 1 <= dimensions <= MAX_VECTOR_DIMENSIONS && |es| <= MAX_VECTOR_DIMENSIONS
    && (forall i :: 0 <= i < |es| ==> es[i].index <= dimensions)
    && (forall x :: Occurrences(es, x) <= 1)
  }

  lemma SortedAcceptable(dimensions: nat, es: seq<Entry>)
    ensures |SortByIndex(es)| == |es|
    ensures Acceptable(dimensions, es) <==> Acceptable(dimensions, SortByIndex(es))
  {
    var sorted := SortByIndex(es);
    assert |sorted| == |multiset(sorted)| == |multiset(es)| == |es|;
    forall x ensures Occurrences(es, x) == Occurrences(sorted, x) {
      SortCounts(es, x);
    }
    forall i | 0 <= i < |sorted| ensures sorted[i] in es {
      assert sorted[i] in multiset(es);
    }
    forall i | 0 <= i < |es| ensures es[i] in sorted {
      assert es[i] in multiset(sorted);
    }
  }

  /** Builds a canonical vector of exactly the given entries, or refuses. */
  method New(dimensions: nat, es: seq<Entry>) returns (r: Option<SparseVector>)
    requires forall i :: 0 <= i < |es| ==> es[i].index >= 1
    ensures r.Some? <==> Acceptable(dimensions, es)
    ensures r.Some? ==> Canonical(r.value) && r.value.dimensions == dimensions
    ensures r.Some? ==> multiset(r.value.entries) == multiset(es)
  {
    hide Occurrences, SortByIndex;
    if dimensions == 0 || dimensions > MAX_VECTOR_DIMENSIONS || |es| > MAX_VECTOR_DIMENSIONS {
      return None;
    }
    var entries := SortByIndex(es);
    SortIsAscending(es);
    SortedAcceptable(dimensions, es);
    var previous: Option<nat> := None;
    for i := 0 to |entries|
      invariant previous == if i == 0 then None else Some(entries[i - 1].index)
      invariant Increasing(entries[..i])
      invariant forall k :: 0 <= k < i ==> entries[k].index <= dimensions
    {
      if entries[i].index > dimensions {
        return None;
      }
      if previous == Some(entries[i].index) {
        NeighboursOccurTwice(entries, i - 1);
        return None;
      }
      StillIncreasing(entries, i);
      previous := Some(entries[i].index);
    }
    assert entries[..|entries|] == entries;
    forall x ensures Occurrences(entries, x) <= 1 {
      IncreasingOccursOnce(entries, x);
    }
    FromInput(es, entries);
    return Some(SparseVector(dimensions, entries));
  }

  lemma StillIncreasing(es: seq<Entry>, i: nat)
    requires i < |es| && Ascending(es) && Increasing(es[..i]) && (i > 0 ==> es[i - 1].index != es[i].index)
    ensures Increasing(es[..i + 1])
  {
    var prefix := es[..i + 1];
    forall a, b | 0 <= a < b < |prefix| ensures prefix[a].index < prefix[b].index {
      if b < i {
        assert es[..i][a].index < es[..i][b].index;
      } else if a < i - 1 {
        assert es[..i][a].index < es[..i][i - 1].index;
      }
    }
  }

  lemma FromInput(es: seq<Entry>, sorted: seq<Entry>)
    requires multiset(sorted) == multiset(es) && forall i :: 0 <= i < |es| ==> es[i].index >= 1
    ensures forall i :: 0 <= i < |sorted| ==> sorted[i].index >= 1
  {
    forall i | 0 <= i < |sorted| ensures sorted[i] in es {
      assert sorted[i] in multiset(es);
    }
  }
}
