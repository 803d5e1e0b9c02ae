/**
 Encoded distances: trained codebooks, direct scoring and prepared lookup tables
 (crates/context-codec/src/encoded.rs).

 Numbers are exact reals and the square root is a parameter. Every rejection is the one error
 `InvalidCode`; its text is not modelled.
 */
module Codec {
  import opened LittleEndian
  import opened Metrics
  import opened Wrappers

  datatype Codebook =
    | Binary(dimensions: nat)
    | Scalar(dimensions: nat, minimum: real, maximum: real, levels: nat)
    | Product(dimensions: nat, subvectorDimensions: nat, codebooks: seq<seq<seq<real>>>)

  datatype Score = Finite(value: real) | PlusInfinity

  predicate Supported(m: Metric) {
    m in {L2, L1, NegativeInnerProduct, Cosine}
  }

  /** All that is needed of the square root. */
  ghost predicate PositiveRoot(sqrt: real -> real) {
    forall x :: x > 0.0 ==> sqrt(x) > 0.0
  }

  // ---------- codebooks and codes ----------

  function CodeLen(cb: Codebook): nat {
    match cb
    case Binary(d) => (d + 7) / 8
    case Scalar(d, _, _, _) => d
    case Product(_, _, codebooks) => |codebooks|
  }

  predicate ValidCodebook(cb: Codebook) {
    && cb.dimensions > 0
    && match cb
       case Binary(_) => true
       case Scalar(_, minimum, maximum, levels) => minimum < maximum && 2 <= levels <= 256
       case Product(d, sub, codebooks) =>
         && sub > 0 && d % sub == 0 && |codebooks| == d / sub
         && forall j :: 0 <= j < |codebooks| ==>
              1 <= |codebooks[j]| <= 256 && forall c :: c in codebooks[j] ==> |c| == sub
  }

  function Pow2(n: nat): (r: nat)
    ensures r >= 1
  {
    if n == 0 then 1 else 2 * Pow2(n - 1)
  }

  function Bit(v: byte, k: nat): nat {
    (v / Pow2(k)) % 2
  }

  /** Bits of the last code byte beyond the dimensions are zero. */
  predicate PaddingClear(d: nat, last: byte) {
    d % 8 != 0 ==> last < Pow2(d % 8)
  }

  predicate ValidCode(cb: Codebook, code: seq<byte>)
    requires ValidCodebook(cb)
  {
    && |code| == CodeLen(cb)
    && match cb
       case Binary(d) => PaddingClear(d, code[|code| - 1])
       case Scalar(_, _, _, levels) => forall j :: 0 <= j < |code| ==> code[j] < levels
       case Product(_, _, codebooks) => forall j :: 0 <= j < |code| ==> code[j] < |codebooks[j]|
  }

  function Level(cb: Codebook, v: byte): real
    requires cb.Scalar? && cb.levels >= 2
  {
    cb.minimum + (cb.maximum - cb.minimum) * (v as real / (cb.levels - 1) as real)
  }

  function Sign(bit: nat): real {
    if bit == 0 then -1.0 else 1.0
  }

  function Centroids(codebooks: seq<seq<seq<real>>>, code: seq<byte>, n: nat): seq<real>
    requires n <= |code| && n <= |codebooks| && forall j :: 0 <= j < n ==> code[j] < |codebooks[j]|
  {
    if n == 0 then [] else Centroids(codebooks, code, n - 1) + codebooks[n - 1][code[n - 1]]
  }

  /** The vector a code stands for, dimension by dimension. */
  function Reconstruct(cb: Codebook, code: seq<byte>): seq<real>
    requires ValidCodebook(cb) && ValidCode(cb, code)
  {
    match cb
    case Binary(d) => seq(d, i requires 0 <= i < d => Sign(Bit(code[i / 8], i % 8)))
    case Scalar(d, _, _, _) => seq(d, i requires 0 <= i < d => Level(cb, code[i]))
    case Product(_, _, codebooks) => Centroids(codebooks, code, |code|)
  }

  // ---------- the distance of a query from a vector ----------

  /** What each metric adds up per dimension. */
  function Primary(m: Metric): Term
    requires Supported(m)
  {
    match m
    case L2 => SquaredDifference
    case L1 => AbsoluteDifference
    case NegativeInnerProduct => MinusTimes
    case Cosine => Times
  }

  /** The score from the sums. */
  function FromSums(m: Metric, primary: real, queryNorm: real, encodedNorm: real, sqrt: real -> real): Score
    requires Supported(m) && (m == Cosine && encodedNorm != 0.0 ==> Times(sqrt(queryNorm), sqrt(encodedNorm)) != 0.0)
  {
    match m
    case L2 => Finite(sqrt(primary))
    case L1 => Finite(primary)
    case NegativeInnerProduct => Finite(primary)
    case Cosine =>
      if encodedNorm == 0.0 then PlusInfinity
      else Finite(1.0 - primary / Times(sqrt(queryNorm), sqrt(encodedNorm)))
  }

  lemma NormsDivide(q: seq<real>, e: seq<real>, sqrt: real -> real)
    requires PositiveRoot(sqrt) && SquareSum(q) != 0.0 && SquareSum(e) != 0.0
    ensures Times(sqrt(SquareSum(q)), sqrt(SquareSum(e))) != 0.0
  {
    ZeroSquareSum(q);
    ZeroSquareSum(e);
    ProductIsPositive(sqrt(SquareSum(q)), sqrt(SquareSum(e)));
  }

  /** The distance of a query from a reconstructed vector. */
  function Distance(m: Metric, q: seq<real>, e: seq<real>, sqrt: real -> real): Score
    requires Supported(m) && |q| == |e| && PositiveRoot(sqrt) && (m == Cosine ==> SquareSum(q) != 0.0)
  {
    if m == Cosine && SquareSum(e) != 0.0 then
      NormsDivide(q, e, sqrt);
      FromSums(m, Sum(Primary(m), q, e), SquareSum(q), SquareSum(e), sqrt)
    else
      FromSums(m, Sum(Primary(m), q, e), SquareSum(q), 0.0, sqrt)
  }

  /** The queries that can be scored at all. */
  predicate ValidQuery(cb: Codebook, q: seq<real>, m: Metric) {
    && ValidCodebook(cb) && |q| == cb.dimensions && Supported(m)
    && (m == Cosine ==> !AllZero(q))
  }

  /** Direct scoring: one pass over the reconstructed values. */
  method ApproximateDistance(cb: Codebook, q: seq<real>, code: seq<byte>, m: Metric, sqrt: real -> real)
    returns (r: Option<Score>)
    requires PositiveRoot(sqrt)
    ensures r.Some? <==> ValidQuery(cb, q, m) && ValidCode(cb, code)
    ensures r.Some? ==> |Reconstruct(cb, code)| == |q| && (m == Cosine ==> SquareSum(q) != 0.0)
                        && r.value == Distance(m, q, Reconstruct(cb, code), sqrt)
  {
    hide ValidCode, ValidCodebook, Reconstruct, Sum, SquareSum, AllZero, Times;
    if !ValidCodebook(cb) || !ValidCode(cb, code) {
      return None;
    }
    if |q| != cb.dimensions || !Supported(m) {
      return None;
    }
    var e := Reconstruct(cb, code);
    ReconstructedSize(cb, code);
    ZeroSquareSum(q);
    var squaredL2, l1, dot, encodedNorm, queryNorm := AccumulateSums(q, e);
    match m {
      case L2 => return Some(Finite(sqrt(squaredL2)));
      case L1 => return Some(Finite(l1));
      case NegativeInnerProduct => SumNegates(q, e); return Some(Finite(-dot));
      case Cosine =>
        if queryNorm == 0.0 {
          return None;
        }
        if encodedNorm == 0.0 {
          return Some(PlusInfinity);
        }
        CosineDistance(q, e, sqrt);
        return Some(Finite(1.0 - dot / Times(sqrt(queryNorm), sqrt(encodedNorm))));
    }
  }

  lemma CosineDistance(q: seq<real>, e: seq<real>, sqrt: real -> real)
    requires |q| == |e| && PositiveRoot(sqrt) && SquareSum(q) != 0.0 && SquareSum(e) != 0.0
    ensures Times(sqrt(SquareSum(q)), sqrt(SquareSum(e))) != 0.0
    ensures Distance(Cosine, q, e, sqrt)
         == Finite(1.0 - Sum(Times, q, e) / Times(sqrt(SquareSum(q)), sqrt(SquareSum(e))))
  {
    hide Sum, SquareSum, Times;
    NormsDivide(q, e, sqrt);
  }

  method AccumulateSums(q: seq<real>, e: seq<real>)
    returns (squaredL2: real, l1: real, dot: real, encodedNorm: real, queryNorm: real)
    requires |q| == |e|
    ensures squaredL2 == Sum(SquaredDifference, q, e) && l1 == Sum(AbsoluteDifference, q, e) && dot == Sum(Times, q, e)
    ensures encodedNorm == SquareSum(e) && queryNorm == SquareSum(q)
  {
    hide SquaredDifference, AbsoluteDifference, Times, Square;
    squaredL2, l1, dot, encodedNorm, queryNorm := 0.0, 0.0, 0.0, 0.0, 0.0;
    for i := 0 to |q|
      invariant squaredL2 == Sum(SquaredDifference, q[..i], e[..i])
      invariant l1 == Sum(AbsoluteDifference, q[..i], e[..i])
      invariant dot == Sum(Times, q[..i], e[..i])
      invariant encodedNorm == SquareSum(e[..i]) && queryNorm == SquareSum(q[..i])
    {
      assert q[..i + 1][..i] == q[..i] && e[..i + 1][..i] == e[..i];
      squaredL2 := squaredL2 + SquaredDifference(q[i], e[i]);
      l1 := l1 + AbsoluteDifference(q[i], e[i]);
      dot := dot + Times(q[i], e[i]);
      encodedNorm := encodedNorm + Square(e[i]);
      queryNorm := queryNorm + Square(q[i]);
    }
    assert q[..|q|] == q && e[..|e|] == e;
  }

  lemma {:induction false} CentroidsSize(cb: Codebook, code: seq<byte>, n: nat)
    requires cb.Product? && ValidCodebook(cb) && ValidCode(cb, code) && n <= |code|
    ensures |Centroids(cb.codebooks, code, n)| == n * cb.subvectorDimensions
  {
    if n > 0 {
      CentroidsSize(cb, code, n - 1);
      assert cb.codebooks[n - 1][code[n - 1]] in cb.codebooks[n - 1];
      assert n * cb.subvectorDimensions == (n - 1) * cb.subvectorDimensions + cb.subvectorDimensions;
    }
  }

  lemma ReconstructedSize(cb: Codebook, code: seq<byte>)
    requires ValidCodebook(cb) && ValidCode(cb, code)
    ensures |Reconstruct(cb, code)| == cb.dimensions
  {
    if cb.Product? {
      CentroidsSize(cb, code, |code|);
      Divides(cb.dimensions, cb.subvectorDimensions);
    }
  }

  lemma Divides(d: nat, sub: nat)
    requires sub > 0 && d % sub == 0
    ensures (d / sub) * sub == d
  {
  }
}
