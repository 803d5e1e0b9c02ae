/** The binary metrics as distances of sets (crates/context-core/src/metric.rs). */
module BinarySets {
  import opened Metrics
  import opened SparseMetric

  /** The dimensions in which a vector is one. */
  ghost function Ones(a: seq<real>): set<nat> {
    set k: nat | k < |a| && a[k] == 1.0
  }

  lemma {:induction false} CountsAreSizes(a: seq<real>, b: seq<real>)
    requires |a| == |b|
    ensures Count(Both, a, b) == |Ones(a) * Ones(b)|
    ensures Count(Either, a, b) == |Ones(a) + Ones(b)|
  {
    if a == [] {
      assert Ones(a) == {} && Ones(b) == {};
    } else {
      var n := |a| - 1;
      CountsAreSizes(a[..n], b[..n]);
      OnesStep(a);
      OnesStep(b);
      SetsStep(Ones(a[..n]), Ones(b[..n]), n, a[n] == 1.0, b[n] == 1.0);
    }
  }

  lemma OnesStep(a: seq<real>)
    requires a != []
    ensures var n := |a| - 1;
            Ones(a) == With(Ones(a[..n]), n, a[n] == 1.0) && n !in Ones(a[..n])
  {
  }

  ghost function With(s: set<nat>, n: nat, add: bool): set<nat> {
    if add then s + {n} else s
  }

  lemma SetsStep(s: set<nat>, t: set<nat>, n: nat, left: bool, right: bool)
    requires n !in s && n !in t
    ensures |With(s, n, left) * With(t, n, right)| == |s * t| + (if left && right then 1 else 0)
    ensures |With(s, n, left) + With(t, n, right)| == |s + t| + (if left || right then 1 else 0)
  {
    assert With(s, n, left) * With(t, n, right) == With(s * t, n, left && right);
    assert With(s, n, left) + With(t, n, right) == With(s + t, n, left || right);
  }

  lemma SymmetricSize(s: set<nat>, t: set<nat>)
    ensures |s - t| + |t - s| + |s * t| == |s + t|
  {
    assert s + t == (s - t) + (t - s) + s * t;
  }

  /**
   Hamming counts the dimensions that are one in exactly one vector. Jaccard is the part of the
   dimensions that are one in either vector which is not shared, and zero when there are none.
   */
  lemma BinaryScoresAreSetDistances(a: seq<real>, b: seq<real>)
    requires |a| == |b|
    ensures ScoreOf(a, b, BinaryHamming) == (|Ones(a) - Ones(b)| + |Ones(b) - Ones(a)|) as real
    ensures Ones(a) + Ones(b) == {} ==> ScoreOf(a, b, BinaryJaccard) == 0.0
    ensures Times(ScoreOf(a, b, BinaryJaccard), |Ones(a) + Ones(b)| as real)
         == (|Ones(a) - Ones(b)| + |Ones(b) - Ones(a)|) as real
  {
    hide Count;
    CountsAreSizes(a, b);
    DifferIsEitherMinusBoth(a, b);
    SymmetricSize(Ones(a), Ones(b));
    var shared, all := |Ones(a) * Ones(b)| as real, |Ones(a) + Ones(b)| as real;
    if Ones(a) + Ones(b) != {} {
      PartTimes(shared, all);
    }
  }

  lemma PartTimes(x: real, y: real)
    requires y > 0.0
    ensures Times(1.0 - x / y, y) == y - x
  {
    assert (x / y) * y == x;
  }
}
