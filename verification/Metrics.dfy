/** Distance metrics and the sums over dimensions they are made of. Numbers are exact reals. */
module Metrics {

  datatype Metric = L2 | L1 | NegativeInnerProduct | Cosine | InnerProduct | Hamming | Jaccard

  type Term = (real, real) -> real

  function Sum(f: Term, q: seq<real>, e: seq<real>): real
    requires |q| == |e|
  {
    if q == [] then 0.0 else Sum(f, q[..|q| - 1], e[..|q| - 1]) + f(q[|q| - 1], e[|q| - 1])
  }

  lemma {:induction false} SumAppend(f: Term, q: seq<real>, e: seq<real>, q2: seq<real>, e2: seq<real>)
    requires |q| == |e| && |q2| == |e2|
    ensures Sum(f, q + q2, e + e2) == Sum(f, q, e) + Sum(f, q2, e2)
  {
    if q2 == [] {
      assert q + q2 == q && e + e2 == e;
    } else {
      var k := |q2| - 1;
      SumAppend(f, q, e, q2[..k], e2[..k]);
      assert (q + q2)[..|q| + k] == q + q2[..k] && (e + e2)[..|e| + k] == e + e2[..k];
    }
  }

  function SquaredDifference(q: real, e: real): real { (q - e) * (q - e) }

  function AbsoluteDifference(q: real, e: real): real { if q >= e then q - e else e - q }

  function Times(q: real, e: real): real { q * e }

  function MinusTimes(q: real, e: real): real { -(q * e) }

  lemma {:induction false} SumNegates(q: seq<real>, e: seq<real>)
    requires |q| == |e|
    ensures Sum(MinusTimes, q, e) == -Sum(Times, q, e)
  {
    if q != [] {
      SumNegates(q[..|q| - 1], e[..|q| - 1]);
    }
  }

  function Square(x: real): real { Times(x, x) }

  function SquareSum(q: seq<real>): real {
    if q == [] then 0.0 else SquareSum(q[..|q| - 1]) + Square(q[|q| - 1])
  }

  predicate AllZero(q: seq<real>) {
    forall i :: 0 <= i < |q| ==> q[i] == 0.0
  }

  lemma {:induction false} ZeroSquareSum(q: seq<real>)
    ensures SquareSum(q) >= 0.0
    ensures SquareSum(q) == 0.0 <==> AllZero(q)
  {
    hide Square;
    if q != [] {
      var k := |q| - 1;
      ZeroSquareSum(q[..k]);
      SquareIsPositive(q[k]);
      assert forall i :: 0 <= i < k ==> q[i] == q[..k][i];
      assert AllZero(q) <==> AllZero(q[..k]) && q[k] == 0.0;
    }
  }

  lemma SquareIsPositive(x: real)
    ensures if x == 0.0 then Square(x) == 0.0 else Square(x) > 0.0
  {
    hide Times;
    if x > 0.0 {
      ProductIsPositive(x, x);
    } else if x < 0.0 {
      ProductIsPositive(-x, -x);
      ProductOfNegated(x, x);
    } else {
      ProductWithZero(x);
    }
  }

  lemma ProductIsPositive(x: real, y: real)
    requires x > 0.0 && y > 0.0
    ensures Times(x, y) > 0.0
  {
  }

  lemma ProductOfNegated(x: real, y: real)
    ensures Times(-x, -y) == Times(x, y)
  {
  }

  lemma ProductWithZero(x: real)
    ensures Times(0.0, x) == 0.0
  {
  }

  lemma {:induction false} SumOfSquares(a: seq<real>)
    ensures Sum(Times, a, a) == SquareSum(a)
  {
    hide Times;
    if a != [] {
      SumOfSquares(a[..|a| - 1]);
    }
  }

  /** The square root: non-negative, and its square gives back the number. */
  ghost predicate IsRoot(sqrt: real -> real) {
    forall x :: x >= 0.0 ==> sqrt(x) >= 0.0 && Times(sqrt(x), sqrt(x)) == x
  }

  lemma ProductsRegroup(p: real, q: real)
    ensures Times(Times(p, q), Times(p, q)) == Times(Times(p, p), Times(q, q))
  {
  }

  lemma SquaresOrder(y: real, z: real)
    requires 0.0 <= y < z
    ensures Times(y, y) < Times(z, z)
  {
    calc {
      y * y;
    <= { ProductOrder(y, y, z); }
      y * z;
    < { StrictProductOrder(z, y, z); }
      z * z;
    }
  }

  lemma ProductOrder(x: real, y: real, z: real)
    requires x >= 0.0 && y <= z
    ensures x * y <= x * z
  {
  }

  lemma StrictProductOrder(x: real, y: real, z: real)
    requires x > 0.0 && y < z
    ensures y * x < z * x
  {
  }

  lemma ProductIsNonNegative(x: real, y: real)
    requires x >= 0.0 && y >= 0.0
    ensures Times(x, y) >= 0.0
  {
  }

  lemma RootOfProduct(sqrt: real -> real, a: real, b: real)
    requires IsRoot(sqrt) && a >= 0.0 && b >= 0.0
    ensures sqrt(Times(a, b)) == Times(sqrt(a), sqrt(b))
  {
    hide Times;
    ProductIsNonNegative(a, b);
    var y, z := sqrt(Times(a, b)), Times(sqrt(a), sqrt(b));
    ProductIsNonNegative(sqrt(a), sqrt(b));
    ProductsRegroup(sqrt(a), sqrt(b));
    assert Times(y, y) == Times(z, z);
    if y < z {
      SquaresOrder(y, z);
    } else if z < y {
      SquaresOrder(z, y);
    }
  }

  lemma RootIsZero(sqrt: real -> real, a: real)
    requires IsRoot(sqrt) && a >= 0.0
    ensures sqrt(a) == 0.0 <==> a == 0.0
  {
    hide Times;
    SquareIsPositive(sqrt(a));
  }
}
