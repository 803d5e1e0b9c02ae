/** Metrics over sparse vectors, and their agreement with the dense ones (crates/context-core/src/metric.rs). */
module SparseMetric {
  import opened Metrics
  import opened Policy
  import opened SparseVectors
  import opened Wrappers

  const U16_MAX: nat := 0xffff

  newtype u16 = x: int | 0 <= x <= U16_MAX

  datatype BinaryMetric = BinaryHamming | BinaryJaccard

  function Dense(v: SparseVector): (r: seq<real>)
    ensures |r| == v.dimensions
  {
    Expand(v.entries, v.dimensions)
  }

  // ---------- the two-pointer merge ----------

  /** Entries before position i are at indexes up to n, the others are beyond. */
  predicate Split(es: seq<Entry>, i: nat, n: nat) {
    i <= |es| && (i > 0 ==> es[i - 1].index <= n) && (i < |es| ==> n < es[i].index)
  }

  lemma SplitMisses(es: seq<Entry>, i: nat, n: nat, x: nat)
    requires Increasing(es) && Split(es, i, n) && n < x && (i < |es| ==> x < es[i].index)
    ensures Lookup(es, x) == 0.0
  {
    forall k | 0 <= k < |es| ensures es[k].index != x {
      if k < i - 1 {
        assert es[k].index < es[i - 1].index;
      } else if k > i {
        assert es[i].index < es[k].index;
      }
    }
    LookupMiss(es, x);
  }

  /** Dimensions at which neither vector stores anything add nothing. */
  lemma {:induction false} SkipGap(f: Term, l: seq<Entry>, r: seq<Entry>, i: nat, j: nat, n: nat, m: nat)
    requires f(0.0, 0.0) == 0.0 && Increasing(l) && Increasing(r) && Split(l, i, n) && Split(r, j, n) && n <= m
    requires (i < |l| ==> m < l[i].index) && (j < |r| ==> m < r[j].index)
    ensures Sum(f, Expand(l, m), Expand(r, m)) == Sum(f, Expand(l, n), Expand(r, n))
    decreases m
  {
    hide Lookup;
    if n < m {
      SkipGap(f, l, r, i, j, n, m - 1);
      SplitMisses(l, i, n, m);
      SplitMisses(r, j, n, m);
      SumStep(f, l, r, m);
    }
  }

  lemma SumStep(f: Term, l: seq<Entry>, r: seq<Entry>, m: nat)
    requires m > 0
    ensures Sum(f, Expand(l, m), Expand(r, m)) == Sum(f, Expand(l, m - 1), Expand(r, m - 1))
            + f(Lookup(l, m), Lookup(r, m))
  {
    hide Lookup;
    var a, b := Expand(l, m), Expand(r, m);
    assert a[..m - 1] == Expand(l, m - 1) && b[..m - 1] == Expand(r, m - 1);
  }

  /** One step of the merge: the next stored dimension, with whichever entries are stored there. */
  lemma MergeStep(f: Term, l: seq<Entry>, r: seq<Entry>, i: nat, j: nat, n: nat, m: nat)
    requires f(0.0, 0.0) == 0.0 && Increasing(l) && Increasing(r) && Split(l, i, n) && Split(r, j, n) && n < m
    requires (i < |l| ==> m <= l[i].index) && (j < |r| ==> m <= r[j].index)
    ensures var hitL, hitR := i < |l| && l[i].index == m, j < |r| && r[j].index == m;
            && Sum(f, Expand(l, m), Expand(r, m)) == Sum(f, Expand(l, n), Expand(r, n))
                 + f(if hitL then l[i].value else 0.0, if hitR then r[j].value else 0.0)
            && Split(l, if hitL then i + 1 else i, m) && Split(r, if hitR then j + 1 else j, m)
  {
    hide Lookup, Sum, Expand;
    SkipGap(f, l, r, i, j, n, m - 1);
    SumStep(f, l, r, m);
    NextLookup(l, i, n, m);
    NextLookup(r, j, n, m);
  }

  lemma NextLookup(es: seq<Entry>, i: nat, n: nat, m: nat)
    requires Increasing(es) && Split(es, i, n) && n < m && (i < |es| ==> m <= es[i].index)
    ensures if i < |es| && es[i].index == m then Lookup(es, m) == es[i].value && Split(es, i + 1, m)
            else Lookup(es, m) == 0.0 && Split(es, i, m)
  {
    if i < |es| && es[i].index == m {
      LookupHit(es, i);
    } else {
      SplitMisses(es, i, n, m);
    }
  }

  /** Sums a metric over the stored entries only, in one pass over both vectors. */
  method SparseMerge(l: SparseVector, r: SparseVector, f: Term) returns (sum: real)
    requires Canonical(l) && Canonical(r) && l.dimensions == r.dimensions && f(0.0, 0.0) == 0.0
    ensures sum == Sum(f, Dense(l), Dense(r))
  {
    hide Sum, Expand;
    var a, b := l.entries, r.entries;
    var i: nat, j: nat := 0, 0;
    sum := 0.0;
    ghost var n: nat := 0;
    EmptySum(f, a, b);
    while i < |a| || j < |b|
      invariant n <= l.dimensions && Split(a, i, n) && Split(b, j, n)
      invariant sum == Sum(f, Expand(a, n), Expand(b, n))
      decreases |a| - i + |b| - j
    {
      if i < |a| && j < |b| && a[i].index == b[j].index {
        MergeStep(f, a, b, i, j, n, a[i].index);
        n := a[i].index;
        sum := sum + f(a[i].value, b[j].value);
        i, j := i + 1, j + 1;
      } else if j == |b| || (i < |a| && a[i].index < b[j].index) {
        MergeStep(f, a, b, i, j, n, a[i].index);
        n := a[i].index;
        sum := sum + f(a[i].value, 0.0);
        i := i + 1;
      } else {
        MergeStep(f, a, b, i, j, n, b[j].index);
        n := b[j].index;
        sum := sum + f(0.0, b[j].value);
        j := j + 1;
      }
    }
    SkipGap(f, a, b, i, j, n, l.dimensions);
  }

  lemma EmptySum(f: Term, l: seq<Entry>, r: seq<Entry>)
    ensures Sum(f, Expand(l, 0), Expand(r, 0)) == 0.0
  {
  }

  // ---------- numeric metrics ----------

  /** The dense metrics that are not binary. Cosine is refused when a vector is zero. */
  function DenseDistance(m: Metric, a: seq<real>, b: seq<real>, sqrt: real -> real): Option<real>
    requires m != Hamming && m != Jaccard
  {
    if |a| != |b| then
      None
    else
      match m
      case L2 => Some(sqrt(Sum(SquaredDifference, a, b)))
      case InnerProduct => Some(Sum(Times, a, b))
      case NegativeInnerProduct => Some(-Sum(Times, a, b))
      case L1 => Some(Sum(AbsoluteDifference, a, b))
      case Cosine =>
        var norms := sqrt(Times(SquareSum(a), SquareSum(b)));
        if SquareSum(a) == 0.0 || SquareSum(b) == 0.0 || norms == 0.0 then None
          else Some(1.0 - Sum(Times, a, b) / norms)
  }

  /** With a true square root the norm of two non-zero vectors is not zero, so only zero vectors are refused. */
  lemma CosineRefusesZeroOnly(a: seq<real>, b: seq<real>, sqrt: real -> real)
    requires |a| == |b| && IsRoot(sqrt)
    ensures DenseDistance(Cosine, a, b, sqrt).None? <==> AllZero(a) || AllZero(b)
  {
    hide Times, Sum, SquareSum;
    ZeroSquareSum(a);
    ZeroSquareSum(b);
    if SquareSum(a) != 0.0 && SquareSum(b) != 0.0 {
      ProductIsPositive(SquareSum(a), SquareSum(b));
      RootIsZero(sqrt, Times(SquareSum(a), SquareSum(b)));
    }
  }

  lemma ZeroTerms()
    ensures SquaredDifference(0.0, 0.0) == 0.0 && AbsoluteDifference(0.0, 0.0) == 0.0 && Times(0.0, 0.0) == 0.0
  {
  }

  /** Every numeric metric of two sparse vectors is the dense metric of their expansions. */
  method DistanceSparse(m: Metric, l: SparseVector, r: SparseVector, sqrt: real -> real) returns (d: Option<real>)
    requires Canonical(l) && Canonical(r) && IsRoot(sqrt) && m != Hamming && m != Jaccard
    ensures d == DenseDistance(m, Dense(l), Dense(r), sqrt)
  {
    hide Sum, SquareSum, Dense, Times, SquaredDifference, AbsoluteDifference, Canonical, IsRoot;
    if l.dimensions != r.dimensions {
      return None;
    }
    ZeroTerms();
    var dot := SparseMerge(l, r, Times);
    match m {
      case L2 =>
        var squares := SparseMerge(l, r, SquaredDifference);
        return Some(sqrt(squares));
      case InnerProduct => return Some(dot);
      case NegativeInnerProduct => return Some(-dot);
      case L1 => d := SparseL1(l, r);
      case Cosine => d := SparseCosine(l, r, dot, sqrt);
    }
  }

  method SparseL1(l: SparseVector, r: SparseVector) returns (d: Option<real>)
    requires Canonical(l) && Canonical(r) && l.dimensions == r.dimensions
    ensures d == Some(Sum(AbsoluteDifference, Dense(l), Dense(r)))
  {
    var sum := SparseMerge(l, r, AbsoluteDifference);
    return Some(sum);
  }

  method SparseCosine(l: SparseVector, r: SparseVector, dot: real, sqrt: real -> real) returns (d: Option<real>)
    requires Canonical(l) && Canonical(r) && l.dimensions == r.dimensions && IsRoot(sqrt)
            && dot == Sum(Times, Dense(l), Dense(r))
    ensures d == DenseDistance(Cosine, Dense(l), Dense(r), sqrt)
  {
    hide Sum, SquareSum, Dense, Times, Canonical, IsRoot, DenseDistance;
    ZeroTerms();
    var leftSquare := SparseMerge(l, l, Times);
    var rightSquare := SparseMerge(r, r, Times);
    SumOfSquares(Dense(l));
    SumOfSquares(Dense(r));
    var leftNorm, rightNorm := sqrt(leftSquare), sqrt(rightSquare);
    CosineByNorms(Dense(l), Dense(r), sqrt, leftNorm, rightNorm);
    d := FromNorms(dot, leftNorm, rightNorm);
  }

  /** The third test only keeps the division defined: the product of two non-zero norms is not zero. */
  function FromNorms(dot: real, x: real, y: real): Option<real> {
    if x == 0.0 || y == 0.0 || Times(x, y) == 0.0 then None else Some(1.0 - dot / Times(x, y))
  }

  /** Cosine distance from the two norms instead of the root of the product of their squares. */
  lemma CosineByNorms(a: seq<real>, b: seq<real>, sqrt: real -> real, x: real, y: real)
    requires |a| == |b| && IsRoot(sqrt) && x == sqrt(SquareSum(a)) && y == sqrt(SquareSum(b))
    ensures DenseDistance(Cosine, a, b, sqrt) == FromNorms(Sum(Times, a, b), x, y)
  {
    hide Sum, SquareSum, Times, IsRoot;
    CosineNorms(a, b, sqrt);
  }

  lemma CosineNorms(a: seq<real>, b: seq<real>, sqrt: real -> real)
    requires |a| == |b| && IsRoot(sqrt)
    ensures sqrt(SquareSum(a)) == 0.0 <==> SquareSum(a) == 0.0
    ensures sqrt(SquareSum(b)) == 0.0 <==> SquareSum(b) == 0.0
    ensures sqrt(Times(SquareSum(a), SquareSum(b))) == Times(sqrt(SquareSum(a)), sqrt(SquareSum(b)))
    ensures SquareSum(a) != 0.0 && SquareSum(b) != 0.0 ==> Times(sqrt(SquareSum(a)), sqrt(SquareSum(b))) != 0.0
  {
    hide Times, SquareSum;
    ZeroSquareSum(a);
    ZeroSquareSum(b);
    RootIsZero(sqrt, SquareSum(a));
    RootIsZero(sqrt, SquareSum(b));
    RootOfProduct(sqrt, SquareSum(a), SquareSum(b));
    if SquareSum(a) != 0.0 && SquareSum(b) != 0.0 {
      ProductIsPositive(sqrt(SquareSum(a)), sqrt(SquareSum(b)));
    }
  }

  // ---------- binary metrics ----------

  predicate IsBit(x: real) { x == 0.0 || x == 1.0 }

  type Test = (bool, bool) -> bool

  function Both(a: bool, b: bool): bool { a && b }

  function Either(a: bool, b: bool): bool { a || b }

  function Differ(a: bool, b: bool): bool { a != b }

  /** In how many dimensions the test holds of "is one" in the two vectors. */
  function Count(t: Test, a: seq<real>, b: seq<real>): (n: nat)
    requires |a| == |b|
    ensures n <= |a|
  {
    if a == [] then 0
    else Count(t, a[..|a| - 1], b[..|a| - 1]) + if t(a[|a| - 1] == 1.0, b[|a| - 1] == 1.0) then 1 else 0
  }

  lemma {:induction false} DifferIsEitherMinusBoth(a: seq<real>, b: seq<real>)
    requires |a| == |b|
    ensures Count(Differ, a, b) + Count(Both, a, b) == Count(Either, a, b)
  {
    if a != [] {
      DifferIsEitherMinusBoth(a[..|a| - 1], b[..|a| - 1]);
    }
  }

  function BinaryScore(intersection: int, union: int, unequal: int, m: BinaryMetric): real {
    match m
    case BinaryHamming => unequal as real
    case BinaryJaccard => if union == 0 then 0.0 else 1.0 - intersection as real / union as real
  }

  function ScoreOf(a: seq<real>, b: seq<real>, m: BinaryMetric): real
    requires |a| == |b|
  {
    BinaryScore(Count(Both, a, b), Count(Either, a, b), Count(Differ, a, b), m)
  }

  /** `CounterOverflow` is where a 16-bit counter of the source would overflow. */
  datatype BinaryError = NotBinary | CounterOverflow

  /** Every coordinate of both vectors is zero or one. */
  predicate BothBits(a: seq<real>, b: seq<real>)
    requires |a| == |b|
  {
    forall k :: 0 <= k < |a| ==> IsBit(a[k]) && IsBit(b[k])
  }

  /** The dense binary metrics, for vectors of any width. The union is the largest of the three counters. */
  method BinaryDistance(a: seq<real>, b: seq<real>, m: BinaryMetric) returns (d: Result<real, BinaryError>)
    requires |a| == |b|
    ensures d.Ok? <==> BothBits(a, b) && Count(Either, a, b) <= U16_MAX
    ensures d.Ok? ==> d.value == ScoreOf(a, b, m)
    ensures d == Err(NotBinary) ==> !BothBits(a, b)
    ensures d == Err(CounterOverflow) ==> Count(Either, a, b) > U16_MAX
  {
    hide BinaryScore;
    var intersection: u16, union: u16, unequal: u16 := 0, 0, 0;
    for k := 0 to |a|
      invariant forall i :: 0 <= i < k ==> IsBit(a[i]) && IsBit(b[i])
      invariant intersection as int == Count(Both, a[..k], b[..k]) <= union as int
      invariant union as int == Count(Either, a[..k], b[..k])
      invariant unequal as int == Count(Differ, a[..k], b[..k]) <= union as int
    {
      if !IsBit(a[k]) || !IsBit(b[k]) {
        return Err(NotBinary);
      }
      assert a[..k + 1][..k] == a[..k] && b[..k + 1][..k] == b[..k];
      var left, right := a[k] == 1.0, b[k] == 1.0;
      if (left || right) && union as int == U16_MAX {
        CountGrows(Either, a, b, k + 1);
        return Err(CounterOverflow);
      }
      intersection := intersection + if left && right then 1 else 0;
      union := union + if left || right then 1 else 0;
      unequal := unequal + if left != right then 1 else 0;
    }
    assert a[..|a|] == a && b[..|b|] == b;
    return Ok(BinaryScore(intersection as int, union as int, unequal as int, m));
  }

  lemma {:induction false} CountGrows(t: Test, a: seq<real>, b: seq<real>, k: nat)
    requires |a| == |b| && k <= |a|
    ensures Count(t, a[..k], b[..k]) <= Count(t, a, b)
  {
    if k < |a| {
      var n := |a| - 1;
      CountGrows(t, a[..n], b[..n], k);
      assert a[..n][..k] == a[..k] && b[..n][..k] == b[..k];
    } else {
      assert a[..k] == a && b[..k] == b;
    }
  }

  predicate AllOnes(es: seq<Entry>) {
    forall i :: 0 <= i < |es| ==> es[i].value == 1.0
  }

  predicate AllBits(es: seq<Entry>) {
    forall i :: 0 <= i < |es| ==> IsBit(es[i].value)
  }

  lemma CountStep(t: Test, l: seq<Entry>, r: seq<Entry>, m: nat)
    requires m > 0
    ensures Count(t, Expand(l, m), Expand(r, m))
            == Count(t, Expand(l, m - 1), Expand(r, m - 1))
               + if t(Lookup(l, m) == 1.0, Lookup(r, m) == 1.0) then 1 else 0
  {
    hide Lookup;
    var a, b := Expand(l, m), Expand(r, m);
    assert a[..m - 1] == Expand(l, m - 1) && b[..m - 1] == Expand(r, m - 1);
  }

  lemma {:induction false} SkipCountGap(t: Test, l: seq<Entry>, r: seq<Entry>, i: nat, j: nat, n: nat, m: nat)
    requires !t(false, false) && Increasing(l) && Increasing(r) && Split(l, i, n) && Split(r, j, n) && n <= m
    requires (i < |l| ==> m < l[i].index) && (j < |r| ==> m < r[j].index)
    ensures Count(t, Expand(l, m), Expand(r, m)) == Count(t, Expand(l, n), Expand(r, n))
    decreases m
  {
    hide Lookup, Count, Expand;
    if n < m {
      SkipCountGap(t, l, r, i, j, n, m - 1);
      SplitMisses(l, i, n, m);
      SplitMisses(r, j, n, m);
      CountStep(t, l, r, m);
    }
  }

  lemma CountMergeStep(t: Test, l: seq<Entry>, r: seq<Entry>, i: nat, j: nat, n: nat, m: nat)
    requires !t(false, false) && Increasing(l) && Increasing(r) && AllOnes(l) && AllOnes(r)
    requires Split(l, i, n) && Split(r, j, n) && n < m
    requires (i < |l| ==> m <= l[i].index) && (j < |r| ==> m <= r[j].index)
    ensures var hitL, hitR := i < |l| && l[i].index == m, j < |r| && r[j].index == m;
            && Count(t, Expand(l, m), Expand(r, m)) == Count(t, Expand(l, n), Expand(r, n))
              + (if t(hitL, hitR) then 1 else 0)
            && Split(l, if hitL then i + 1 else i, m) && Split(r, if hitR then j + 1 else j, m)
  {
    hide Lookup, Count, Expand;
    SkipCountGap(t, l, r, i, j, n, m - 1);
    CountStep(t, l, r, m);
    NextLookup(l, i, n, m);
    NextLookup(r, j, n, m);
  }

  /** What the counters hold once all dimensions up to n are done. */
  ghost predicate Counted(l: seq<Entry>, r: seq<Entry>, i: nat, j: nat, n: nat, intersection: int, union: int) {
    && Split(l, i, n) && Split(r, j, n)
    && intersection == Count(Both, Expand(l, n), Expand(r, n))
    && union == Count(Either, Expand(l, n), Expand(r, n))
  }

  lemma CountedStep(l: seq<Entry>, r: seq<Entry>, i: nat, j: nat, n: nat, m: nat, intersection: int, union: int)
    requires Increasing(l) && Increasing(r) && AllOnes(l) && AllOnes(r)
            && Counted(l, r, i, j, n, intersection, union) && n < m
    requires (i < |l| ==> m <= l[i].index) && (j < |r| ==> m <= r[j].index)
    ensures var hitL, hitR := i < |l| && l[i].index == m, j < |r| && r[j].index == m;
            Counted(l, r, if hitL then i + 1 else i, if hitR then j + 1 else j, m,
                    intersection + (if hitL && hitR then 1 else 0), union + (if hitL || hitR then 1 else 0))
  {
    hide Count, Expand, Split;
    CountMergeStep(Both, l, r, i, j, n, m);
    CountMergeStep(Either, l, r, i, j, n, m);
  }

  /** The sparse binary metrics: every stored value must be one. The 16-bit counters do not overflow. */
  method SparseBinaryDistance(l: SparseVector, r: SparseVector, m: BinaryMetric) returns (d: Option<real>)
    requires Canonical(l) && Canonical(r) && l.dimensions == r.dimensions
    ensures d.Some? <==> AllOnes(l.entries) && AllOnes(r.entries)
    ensures d.Some? ==> d.value == ScoreOf(Dense(l), Dense(r), m)
  {
    hide Count, Expand, BinaryScore;
    var a, b := l.entries, r.entries;
    var ones := CheckOnes(a, b);
    if !ones {
      return None;
    }
    var i: nat, j: nat := 0, 0;
    var intersection: u16, union: u16 := 0, 0;
    ghost var n: nat := 0;
    StartCounts(a, b);
    while i < |a| || j < |b|
      invariant n <= l.dimensions && Counted(a, b, i, j, n, intersection as int, union as int)
      decreases |a| - i + |b| - j
    {
      ghost var next := if i < |a| && (j == |b| || a[i].index <= b[j].index) then a[i].index else b[j].index;
      CountedStep(a, b, i, j, n, next, intersection as int, union as int);
      n := next;
      if i < |a| && j < |b| && a[i].index == b[j].index {
        intersection := intersection + 1;
        union := union + 1;
        i, j := i + 1, j + 1;
      } else if j == |b| || (i < |a| && a[i].index < b[j].index) {
        union := union + 1;
        i := i + 1;
      } else {
        union := union + 1;
        j := j + 1;
      }
    }
    SkipCountGap(Both, a, b, i, j, n, l.dimensions);
    SkipCountGap(Either, a, b, i, j, n, l.dimensions);
    DifferIsEitherMinusBoth(Dense(l), Dense(r));
    var unequal := union - intersection;
    return Some(BinaryScore(intersection as int, union as int, unequal as int, m));
  }

  method CheckOnes(a: seq<Entry>, b: seq<Entry>) returns (ok: bool)
    ensures ok <==> AllOnes(a) && AllOnes(b)
  {
    var all := a + b;
    for k := 0 to |all|
      invariant forall i :: 0 <= i < k ==> all[i].value == 1.0
    {
      if all[k].value != 1.0 {
        return false;
      }
    }
    assert forall i :: 0 <= i < |a| ==> all[i] == a[i];
    assert forall i :: 0 <= i < |b| ==> all[|a| + i] == b[i];
    return true;
  }

  lemma StartCounts(l: seq<Entry>, r: seq<Entry>)
    requires forall i :: 0 <= i < |l| ==> l[i].index >= 1
    requires forall i :: 0 <= i < |r| ==> r[i].index >= 1
    ensures Counted(l, r, 0, 0, 0, 0, 0)
  {
  }

  lemma {:induction false} LookupIsBit(es: seq<Entry>, x: nat)
    requires AllBits(es)
    ensures IsBit(Lookup(es, x))
  {
    if es != [] {
      LookupIsBit(es[..|es| - 1], x);
    }
  }

  /** The expansion is binary exactly when every stored value is zero or one. */
  lemma DenseIsBinaryIff(v: SparseVector)
    requires Canonical(v)
    ensures (forall k :: 0 <= k < v.dimensions ==> IsBit(Dense(v)[k])) <==> AllBits(v.entries)
  {
    hide Lookup, Expand;
    if AllBits(v.entries) {
      forall k | 0 <= k < v.dimensions ensures IsBit(Dense(v)[k]) {
        ExpandAt(v.entries, v.dimensions, k);
        LookupIsBit(v.entries, k + 1);
      }
    }
    if forall k :: 0 <= k < v.dimensions ==> IsBit(Dense(v)[k]) {
      forall i | 0 <= i < |v.entries| ensures IsBit(v.entries[i].value) {
        ExpandAt(v.entries, v.dimensions, v.entries[i].index - 1);
        assert IsBit(Dense(v)[v.entries[i].index - 1]);
        LookupHit(v.entries, i);
      }
    }
  }

  predicate StoresZero(es: seq<Entry>) {
    exists i :: 0 <= i < |es| && es[i].value == 0.0
  }

  /**
   The sparse binary metrics accept a subset of what the dense ones accept, and the two disagree
   exactly when all stored values are zero or one and some stored value is zero.
   */
  lemma BinaryMetricsDisagreeIff(l: SparseVector, r: SparseVector)
    requires Canonical(l) && Canonical(r) && l.dimensions == r.dimensions
    ensures var sparse := AllOnes(l.entries) && AllOnes(r.entries);
            var dense := BothBits(Dense(l), Dense(r)) && Count(Either, Dense(l), Dense(r)) <= U16_MAX;
            && (sparse ==> dense)
            && (sparse != dense <==>
                  AllBits(l.entries) && AllBits(r.entries) && (StoresZero(l.entries) || StoresZero(r.entries)))
  {
    hide Dense, Count;
    DenseIsBinaryIff(l);
    DenseIsBinaryIff(r);
  }

  /** In every dimension an explicitly stored zero makes them disagree, even against itself. */
  lemma StoredZeroIsRefusedBySparseOnly(dimensions: nat, index: nat)
    requires 1 <= index <= dimensions <= MAX_VECTOR_DIMENSIONS
    ensures var v := SparseVector(dimensions, [Entry(index, 0.0)]);
            && Canonical(v) && !AllOnes(v.entries)
            && BothBits(Dense(v), Dense(v)) && Count(Either, Dense(v), Dense(v)) <= U16_MAX
  {
    hide Dense, Count;
    var v := SparseVector(dimensions, [Entry(index, 0.0)]);
    assert v.entries[0].value == 0.0;
    BinaryMetricsDisagreeIff(v, v);
  }
}
