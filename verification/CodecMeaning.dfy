/**
 What codes stand for and what their distances measure, without the formulas that compute them
 (crates/context-codec/src/encoded.rs).
 */
module CodecMeaning {
  import opened Codec
  import opened LittleEndian
  import opened Metrics

  // ---------- scalar codes ----------

  /** Codes run from the minimum to the maximum of the codebook in equal steps. */
  lemma ScalarGrid(cb: Codebook, code: seq<byte>, i: nat, other: seq<byte>, k: nat)
    requires cb.Scalar? && ValidCodebook(cb) && ValidCode(cb, code) && ValidCode(cb, other)
    requires i < cb.dimensions && k < cb.dimensions
    ensures code[i] == 0 ==> Reconstruct(cb, code)[i] == cb.minimum
    ensures code[i] == cb.levels - 1 ==> Reconstruct(cb, code)[i] == cb.maximum
    ensures other[k] == code[i] as int + 1 ==>
              Reconstruct(cb, other)[k] - Reconstruct(cb, code)[i]
              == (cb.maximum - cb.minimum) / (cb.levels - 1) as real
  {
    var range, top := cb.maximum - cb.minimum, (cb.levels - 1) as real;
    Share(range, code[i] as real, top);
    Share(range, other[k] as real, top);
    if other[k] == code[i] as int + 1 {
      StepApart(range / top, code[i] as real, other[k] as real);
    }
  }

  lemma Share(range: real, v: real, top: real)
    requires top > 0.0
    ensures range * (v / top) == (range / top) * v
    ensures v == 0.0 ==> range * (v / top) == 0.0
    ensures v == top ==> range * (v / top) == range
  {
  }

  lemma StepApart(step: real, v: real, w: real)
    requires w == v + 1.0
    ensures step * w - step * v == step
  {
  }

  // ---------- binary codes ----------

  /** The number whose binary digits, lowest first, are one for each 1.0. */
  function Value(signs: seq<real>): nat {
    if signs == [] then 0 else (if signs[0] == 1.0 then 1 else 0) + 2 * Value(signs[1..])
  }

  /** The digits of a number, lowest first, as signs. */
  function Signs(n: nat, d: nat): (r: seq<real>)
    ensures |r| == d
  {
    if d == 0 then [] else [if n % 2 == 1 then 1.0 else -1.0] + Signs(n / 2, d - 1)
  }

  /** Binary digit i of a number. */
  function Digit(n: nat, i: nat): nat {
    (n / Pow2(i)) % 2
  }

  lemma {:induction false} SignAt(n: nat, d: nat, i: nat)
    requires i < d
    ensures Signs(n, d)[i] == Sign(Digit(n, i))
  {
    if i > 0 {
      SignAt(n / 2, d - 1, i - 1);
      DivideTwice(n, 2, Pow2(i - 1));
    }
  }

  lemma {:induction false} ValueOfSigns(n: nat, d: nat)
    requires n < Pow2(d)
    ensures Value(Signs(n, d)) == n
  {
    if d > 0 {
      ValueOfSigns(n / 2, d - 1);
      assert Signs(n, d)[1..] == Signs(n / 2, d - 1);
    }
  }

  lemma {:induction false} Pow2Sum(a: nat, b: nat)
    ensures Pow2(a + b) == Pow2(a) * Pow2(b)
  {
    if a > 0 {
      Pow2Sum(a - 1, b);
      assert 2 * (Pow2(a - 1) * Pow2(b)) == (2 * Pow2(a - 1)) * Pow2(b);
    }
  }

  lemma Pow2Of8()
    ensures Pow2(8) == 256
  {
    assert Pow2(4) == 16;
    Pow2Sum(4, 4);
  }

  /** A digit of the first byte does not depend on the later bytes. */
  lemma LowDigit(b: byte, rest: nat, i: nat)
    requires i < 8
    ensures Digit(b + 256 * rest, i) == Codec.Bit(b, i)
  {
    hide Pow2;
    var p, q := Pow2(i), Pow2(7 - i);
    HalfOf256(i);
    Regroup(p, 2 * q, rest, b / p);
    TwiceProduct(q, rest);
    QuotientIs(b + 256 * rest, p, 2 * (q * rest) + b / p, b % p);
    Even(b / p, q * rest);
  }

  lemma HalfOf256(i: nat)
    requires i < 8
    ensures Pow2(i) * (2 * Pow2(7 - i)) == 256
  {
    Pow2Of8();
    Pow2Sum(i, 8 - i);
  }

  lemma TwiceProduct(q: nat, k: nat)
    ensures (2 * q) * k == 2 * (q * k)
  {
  }

  lemma Even(n: nat, k: nat)
    ensures (n + 2 * k) % 2 == n % 2
  {
  }

  lemma HighDigit(b: byte, rest: nat, i: nat)
    requires i >= 8
    ensures Digit(b + 256 * rest, i) == Digit(rest, i - 8)
  {
    hide Pow2;
    Pow2Of8();
    Pow2Sum(8, i - 8);
    DivideTwice(b + 256 * rest, 256, Pow2(i - 8));
    QuotientIs(b + 256 * rest, 256, rest, b);
  }

  /** Digit i of the number a code writes is bit i % 8 of byte i / 8. */
  lemma {:induction false} DigitOfCode(code: seq<byte>, i: nat)
    requires i < 8 * |code|
    ensures Digit(Decode(code), i) == Codec.Bit(code[i / 8], i % 8)
  {
    hide Digit, Codec.Bit;
    var rest := Decode(code[1..]);
    if i < 8 {
      LowDigit(code[0], rest, i);
    } else {
      HighDigit(code[0], rest, i);
      DigitOfCode(code[1..], i - 8);
    }
  }

  /** Padding bits are clear exactly when the number is below two to the number of dimensions. */
  lemma {:induction false} PaddingIsSize(code: seq<byte>, d: nat)
    requires d > 0 && |code| == (d + 7) / 8
    ensures PaddingClear(d, code[|code| - 1]) <==> Decode(code) < Pow2(d)
  {
    hide Pow2;
    Pow2Of8();
    if d <= 8 {
      assert code[1..] == [] && Decode(code) == code[0];
    } else {
      Pow2Sum(8, d - 8);
      PaddingIsSize(code[1..], d - 8);
      assert d % 8 == (d - 8) % 8;
    }
  }

  lemma CodeIsSigns(d: nat, code: seq<byte>)
    requires d > 0 && ValidCode(Binary(d), code)
    ensures Reconstruct(Binary(d), code) == Signs(Decode(code), d)
  {
    hide Decode, Digit, Signs, Codec.Bit;
    var r := Reconstruct(Binary(d), code);
    forall i | 0 <= i < d ensures r[i] == Signs(Decode(code), d)[i] {
      SignAt(Decode(code), d, i);
      DigitOfCode(code, i);
    }
  }

  /**
   The codes of d signs are the numbers below 2^d, written little-endian in as few bytes as hold
   d bits, and a code stands for the digits of its number: 1.0 for one and -1.0 for zero.
   */
  lemma BinaryDigits(d: nat, code: seq<byte>)
    requires d > 0
    ensures ValidCode(Binary(d), code) <==> |code| == (d + 7) / 8 && Decode(code) < Pow2(d)
    ensures ValidCode(Binary(d), code) ==>
              && Value(Reconstruct(Binary(d), code)) == Decode(code)
              && forall i :: 0 <= i < |Reconstruct(Binary(d), code)| ==> Reconstruct(Binary(d), code)[i] in {1.0, -1.0}
  {
    hide Decode, Value, Pow2, Signs;
    if |code| == (d + 7) / 8 {
      PaddingIsSize(code, d);
      if ValidCode(Binary(d), code) {
        CodeIsSigns(d, code);
        ValueOfSigns(Decode(code), d);
      }
    }
  }

  // ---------- product codes ----------

  lemma {:induction false} CentroidsAt(cb: Codebook, code: seq<byte>, n: nat, j: nat, k: nat)
    requires cb.Product? && ValidCodebook(cb) && ValidCode(cb, code) && j < n <= |code| && k < cb.subvectorDimensions
    ensures |cb.codebooks[j][code[j]]| == cb.subvectorDimensions
    ensures j * cb.subvectorDimensions + k < |Centroids(cb.codebooks, code, n)|
    ensures Centroids(cb.codebooks, code, n)[j * cb.subvectorDimensions + k] == cb.codebooks[j][code[j]][k]
  {
    CentroidsSize(cb, code, n - 1);
    assert cb.codebooks[n - 1][code[n - 1]] in cb.codebooks[n - 1];
    if j < n - 1 {
      CentroidsAt(cb, code, n - 1, j, k);
    }
  }

  /** Subvector j of a code's vector is the centroid that byte j chooses in codebook j. */
  lemma ProductSubvectors(cb: Codebook, code: seq<byte>, j: nat, k: nat)
    requires cb.Product? && ValidCodebook(cb) && ValidCode(cb, code) && j < |code| && k < cb.subvectorDimensions
    ensures |cb.codebooks[j][code[j]]| == cb.subvectorDimensions
    ensures j * cb.subvectorDimensions + k < |Reconstruct(cb, code)|
    ensures Reconstruct(cb, code)[j * cb.subvectorDimensions + k] == cb.codebooks[j][code[j]][k]
  {
    CentroidsAt(cb, code, |code|, j, k);
  }

  // ---------- distances ----------

  /** In one dimension both geometric distances are the gap, and the inner product is a product. */
  lemma DistanceOfOne(x: real, y: real, sqrt: real -> real)
    requires PositiveRoot(sqrt) && IsRoot(sqrt)
    ensures Distance(L1, [x], [y], sqrt) == Finite(if x < y then y - x else x - y)
    ensures Distance(L2, [x], [y], sqrt) == Finite(if x < y then y - x else x - y)
    ensures Distance(NegativeInnerProduct, [x], [y], sqrt) == Finite(-(x * y))
  {
    SumOfOne(SquaredDifference, x, y);
    SumOfOne(AbsoluteDifference, x, y);
    SumOfOne(MinusTimes, x, y);
    var gap := if x < y then y - x else x - y;
    assert SquaredDifference(x, y) == gap * gap;
    RootOfSquare(gap, sqrt);
  }

  lemma SumOfOne(f: Term, x: real, y: real)
    ensures Sum(f, [x], [y]) == f(x, y)
  {
    assert [x][..0] == [] && [y][..0] == [];
  }

  lemma RootOfSquare(gap: real, sqrt: real -> real)
    requires IsRoot(sqrt) && gap >= 0.0
    ensures sqrt(gap * gap) == gap
  {
    var root := sqrt(gap * gap);
    assert gap * gap >= 0.0;
    assert root >= 0.0 && Times(root, root) == gap * gap;
    if root < gap {
      SquaresOrder(root, gap);
    } else if gap < root {
      SquaresOrder(gap, root);
    }
  }

  /** Distances of concatenations add up, squared ones for L2; with DistanceOfOne this determines them. */
  lemma DistanceOfConcatenation(q: seq<real>, e: seq<real>, q2: seq<real>, e2: seq<real>, sqrt: real -> real)
    requires |q| == |e| && |q2| == |e2| && PositiveRoot(sqrt) && IsRoot(sqrt)
    ensures Distance(L1, q + q2, e + e2, sqrt).value
         == Distance(L1, q, e, sqrt).value + Distance(L1, q2, e2, sqrt).value
    ensures Distance(NegativeInnerProduct, q + q2, e + e2, sqrt).value
         == Distance(NegativeInnerProduct, q, e, sqrt).value + Distance(NegativeInnerProduct, q2, e2, sqrt).value
    ensures Square(Distance(L2, q + q2, e + e2, sqrt).value)
         == Square(Distance(L2, q, e, sqrt).value) + Square(Distance(L2, q2, e2, sqrt).value)
    ensures Distance(L2, q, e, sqrt).value >= 0.0
  {
    hide Sum, Times;
    SumAppend(AbsoluteDifference, q, e, q2, e2);
    SumAppend(MinusTimes, q, e, q2, e2);
    SumAppend(SquaredDifference, q, e, q2, e2);
    SquaredSumIsPositive(q, e);
    SquaredSumIsPositive(q2, e2);
  }

  lemma {:induction false} SquaredSumIsPositive(q: seq<real>, e: seq<real>)
    requires |q| == |e|
    ensures Sum(SquaredDifference, q, e) >= 0.0
  {
    if q != [] {
      SquaredSumIsPositive(q[..|q| - 1], e[..|q| - 1]);
      SquareIsPositive(q[|q| - 1] - e[|q| - 1]);
    }
  }

  /** The inner product of two vectors, from the distance that negates it. */
  ghost function Inner(q: seq<real>, e: seq<real>, sqrt: real -> real): real
    requires |q| == |e| && PositiveRoot(sqrt)
  {
    -Distance(NegativeInnerProduct, q, e, sqrt).value
  }

  /** The cosine distance is one minus the inner product over both norms, and infinite exactly from a zero vector. */
  lemma CosineIsAngle(q: seq<real>, e: seq<real>, sqrt: real -> real)
    requires |q| == |e| && PositiveRoot(sqrt) && SquareSum(q) != 0.0
    ensures Distance(Cosine, q, e, sqrt) == PlusInfinity <==> AllZero(e)
    ensures !AllZero(e) ==>
              var norms := Times(sqrt(Inner(q, q, sqrt)), sqrt(Inner(e, e, sqrt)));
              norms != 0.0 && Distance(Cosine, q, e, sqrt) == Finite(1.0 - Inner(q, e, sqrt) / norms)
  {
    hide Sum, SquareSum, Times, AllZero;
    ZeroSquareSum(e);
    SumNegates(q, e);
    SumNegates(q, q);
    SumNegates(e, e);
    SumOfSquares(q);
    SumOfSquares(e);
    if SquareSum(e) != 0.0 {
      CosineDistance(q, e, sqrt);
    }
  }
}
