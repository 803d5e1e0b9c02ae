/** Query-scoped lookup tables that score a code byte by byte (crates/context-codec/src/encoded.rs). */
module PreparedQuery {
  import opened Codec
  import opened LittleEndian
  import opened Metrics
  import opened Wrappers

  // ---------- what one code byte stands for ----------

  /** How many values the code byte at this position may take. */
  function Entries(cb: Codebook, j: nat): nat
    requires ValidCodebook(cb) && j < CodeLen(cb)
  {
    match cb
    case Binary(_) => 256
    case Scalar(_, _, _, levels) => levels
    case Product(_, _, codebooks) => |codebooks[j]|
  }

  /** How many dimensions the code byte at this position covers. */
  function Width(cb: Codebook, j: nat): nat
    requires ValidCodebook(cb) && j < CodeLen(cb)
  {
    match cb
    case Binary(d) => if 8 * j + 8 <= d then 8 else d - 8 * j
    case Scalar(_, _, _, _) => 1
    case Product(_, sub, _) => sub
  }

  /** The value a code byte gives to the k-th dimension it covers. */
  function ValueAt(cb: Codebook, j: nat, v: nat, k: nat): real
    requires ValidCodebook(cb) && j < CodeLen(cb) && v < Entries(cb, j) && k < Width(cb, j)
  {
    match cb
    case Binary(_) => Sign(Bit(v, k))
    case Scalar(_, _, _, _) => Level(cb, v)
    case Product(_, _, codebooks) => assert codebooks[j][v] in codebooks[j]; codebooks[j][v][k]
  }

  function Piece(cb: Codebook, j: nat, v: nat): (r: seq<real>)
    requires ValidCodebook(cb) && j < CodeLen(cb) && v < Entries(cb, j)
    ensures |r| == Width(cb, j)
  {
    seq(Width(cb, j), k requires 0 <= k < Width(cb, j) => ValueAt(cb, j, v, k))
  }

  /** The first dimension that the code byte at this position covers. */
  function Lo(cb: Codebook, n: nat): nat
    requires ValidCodebook(cb) && n <= CodeLen(cb)
  {
    if n == 0 then 0 else Lo(cb, n - 1) + Width(cb, n - 1)
  }

  lemma {:induction false} LoIs(cb: Codebook, n: nat)
    requires ValidCodebook(cb) && n <= CodeLen(cb)
    ensures Lo(cb, n) == match cb
                         case Binary(d) => if 8 * n <= d then 8 * n else d
                         case Scalar(_, _, _, _) => n
                         case Product(_, sub, _) => n * sub
  {
    if n > 0 {
      LoIs(cb, n - 1);
      if cb.Product? {
        assert n * cb.subvectorDimensions == (n - 1) * cb.subvectorDimensions + cb.subvectorDimensions;
      }
    }
  }

  lemma {:induction false} LoGrows(cb: Codebook, m: nat, n: nat)
    requires ValidCodebook(cb) && m <= n <= CodeLen(cb)
    ensures Lo(cb, m) <= Lo(cb, n)
  {
    hide Width;
    if m < n {
      LoGrows(cb, m, n - 1);
    }
  }

  lemma LoCovers(cb: Codebook)
    requires ValidCodebook(cb)
    ensures Lo(cb, CodeLen(cb)) == cb.dimensions
  {
    LoIs(cb, CodeLen(cb));
    if cb.Product? {
      Divides(cb.dimensions, cb.subvectorDimensions);
    }
  }

  /** The vector a code stands for, code byte by code byte. */
  function Pieces(cb: Codebook, code: seq<byte>, n: nat): (r: seq<real>)
    requires ValidCodebook(cb) && n <= CodeLen(cb) && n <= |code|
    requires forall j :: 0 <= j < n ==> code[j] < Entries(cb, j)
    ensures |r| == Lo(cb, n)
  {
    if n == 0 then [] else Pieces(cb, code, n - 1) + Piece(cb, n - 1, code[n - 1])
  }

  lemma ValidCodeIff(cb: Codebook, code: seq<byte>)
    requires ValidCodebook(cb)
    ensures ValidCode(cb, code) <==>
            && |code| == CodeLen(cb)
            && (cb.Binary? ==> PaddingClear(cb.dimensions, code[|code| - 1]))
            && forall j :: 0 <= j < |code| ==> code[j] < Entries(cb, j)
  {
  }

  // ---------- both readings of a code agree ----------

  lemma {:induction false} BinaryPieces(cb: Codebook, code: seq<byte>, n: nat)
    requires cb.Binary? && ValidCodebook(cb) && n <= CodeLen(cb) <= |code|
    ensures forall i :: 0 <= i < Lo(cb, n) ==> i / 8 < |code| && Pieces(cb, code, n)[i] == Sign(Bit(code[i / 8], i % 8))
  {
    hide Sign, Bit;
    LoIs(cb, n);
    if n > 0 {
      BinaryPieces(cb, code, n - 1);
      LoIs(cb, n - 1);
      forall i | 0 <= i < Lo(cb, n) ensures i / 8 < |code| && Pieces(cb, code, n)[i] == Sign(Bit(code[i / 8], i % 8)) {
        if i >= Lo(cb, n - 1) {
          var k := i - 8 * (n - 1);
          assert i / 8 == n - 1 && i % 8 == k;
          assert Piece(cb, n - 1, code[n - 1])[k] == Sign(Bit(code[n - 1], k));
        }
      }
    }
  }

  lemma {:induction false} ScalarPieces(cb: Codebook, code: seq<byte>, n: nat)
    requires cb.Scalar? && ValidCodebook(cb) && n <= CodeLen(cb) <= |code|
    requires forall j :: 0 <= j < |code| ==> code[j] < cb.levels
    ensures Lo(cb, n) == n && forall i :: 0 <= i < n ==> Pieces(cb, code, n)[i] == Level(cb, code[i])
  {
    hide Level;
    LoIs(cb, n);
    if n > 0 {
      ScalarPieces(cb, code, n - 1);
    }
  }

  lemma {:induction false} ProductPieces(cb: Codebook, code: seq<byte>, n: nat)
    requires cb.Product? && ValidCodebook(cb) && n <= CodeLen(cb) <= |code|
    requires forall j :: 0 <= j < CodeLen(cb) ==> code[j] < Entries(cb, j)
    ensures Pieces(cb, code, n) == Centroids(cb.codebooks, code, n)
  {
    if n > 0 {
      ProductPieces(cb, code, n - 1);
      var centroid := cb.codebooks[n - 1][code[n - 1]];
      assert centroid in cb.codebooks[n - 1];
      assert Piece(cb, n - 1, code[n - 1]) == centroid;
    }
  }

  lemma PiecesReconstruct(cb: Codebook, code: seq<byte>)
    requires ValidCodebook(cb) && ValidCode(cb, code)
    ensures forall j :: 0 <= j < |code| ==> code[j] < Entries(cb, j)
    ensures Pieces(cb, code, |code|) == Reconstruct(cb, code)
  {
    ValidCodeIff(cb, code);
    LoCovers(cb);
    match cb
    case Binary(_) => BinaryPieces(cb, code, |code|);
    case Scalar(_, _, _, _) => ScalarPieces(cb, code, |code|);
    case Product(_, _, _) => ProductPieces(cb, code, |code|);
  }

  // ---------- the tables ----------

  datatype Contribution = Contribution(primary: real, encodedNorm: real)

  /** What a piece of the vector adds to the sums of a metric. */
  function Contribute(m: Metric, q: seq<real>, e: seq<real>): Contribution
    requires Supported(m) && |q| == |e|
  {
    Contribution(Sum(Primary(m), q, e), if m == Cosine then SquareSum(e) else 0.0)
  }

  function QueryPart(cb: Codebook, q: seq<real>, j: nat): (r: seq<real>)
    requires ValidCodebook(cb) && |q| == cb.dimensions && j < CodeLen(cb)
    ensures |r| == Width(cb, j)
  {
    LoGrows(cb, j + 1, CodeLen(cb));
    LoCovers(cb);
    q[Lo(cb, j)..Lo(cb, j + 1)]
  }

  function Row(cb: Codebook, q: seq<real>, m: Metric, j: nat): seq<Contribution>
    requires ValidCodebook(cb) && |q| == cb.dimensions && j < CodeLen(cb) && Supported(m)
  {
    seq(Entries(cb, j), v requires 0 <= v < Entries(cb, j) => Contribute(m, QueryPart(cb, q, j), Piece(cb, j, v)))
  }

  function Table(cb: Codebook, q: seq<real>, m: Metric, n: nat): (r: seq<Contribution>)
    requires ValidCodebook(cb) && |q| == cb.dimensions && n <= CodeLen(cb) && Supported(m)
    ensures |r| == Offset(cb, n)
  {
    if n == 0 then [] else Table(cb, q, m, n - 1) + Row(cb, q, m, n - 1)
  }

  function Offset(cb: Codebook, n: nat): nat
    requires ValidCodebook(cb) && n <= CodeLen(cb)
  {
    if n == 0 then 0 else Offset(cb, n - 1) + Entries(cb, n - 1)
  }

  lemma {:induction false} TableAt(cb: Codebook, q: seq<real>, m: Metric, n: nat, j: nat, v: nat)
    requires ValidCodebook(cb) && |q| == cb.dimensions && n <= CodeLen(cb) && Supported(m)
    requires j < n && v < Entries(cb, j)
    ensures Offset(cb, j) + v < Offset(cb, j + 1) <= Offset(cb, n)
    ensures Table(cb, q, m, n)[Offset(cb, j) + v] == Contribute(m, QueryPart(cb, q, j), Piece(cb, j, v))
  {
    hide Entries, Contribute, QueryPart, Piece;
    if j < n - 1 {
      TableAt(cb, q, m, n - 1, j, v);
    }
  }

  datatype Prepared = Prepared(metric: Metric, queryNorm: real, offsets: seq<nat>, contributions: seq<Contribution>,
                               binaryPaddingMask: Option<nat>)

  function PaddingMask(cb: Codebook): Option<nat> {
    if cb.Binary? && cb.dimensions % 8 != 0 then Some(Pow2(cb.dimensions % 8) - 1) else None
  }

  /** The scorer prepared for a query. */
  ghost predicate PreparedFor(p: Prepared, cb: Codebook, q: seq<real>, m: Metric)
    requires ValidQuery(cb, q, m)
  {
    && p.metric == m && p.queryNorm == SquareSum(q)
    && |p.offsets| == CodeLen(cb) + 1
    && (forall j :: 0 <= j < |p.offsets| ==> p.offsets[j] == Offset(cb, j))
    && p.contributions == Table(cb, q, m, CodeLen(cb))
    && p.binaryPaddingMask == PaddingMask(cb)
  }

  /** Adds up one piece, dimension by dimension. */
  method AddContributions(m: Metric, q: seq<real>, e: seq<real>) returns (c: Contribution)
    requires Supported(m) && |q| == |e|
    ensures c == Contribute(m, q, e)
  {
    hide Primary, Square;
    c := Contribution(0.0, 0.0);
    for k := 0 to |q|
      invariant c == Contribute(m, q[..k], e[..k])
    {
      assert q[..k + 1][..k] == q[..k] && e[..k + 1][..k] == e[..k];
      c := Contribution(c.primary + Primary(m)(q[k], e[k]),
                        if m == Cosine then c.encodedNorm + Square(e[k]) else c.encodedNorm);
    }
    assert q[..|q|] == q && e[..|e|] == e;
  }

  method QueryNorm(q: seq<real>) returns (r: real)
    ensures r == SquareSum(q)
  {
    hide Square;
    r := 0.0;
    for k := 0 to |q|
      invariant r == SquareSum(q[..k])
    {
      assert q[..k + 1][..k] == q[..k];
      r := r + Square(q[k]);
    }
    assert q[..|q|] == q;
  }

  /** The table of one code position. */
  method BuildRow(cb: Codebook, q: seq<real>, m: Metric, j: nat, queryOffset: nat) returns (row: seq<Contribution>)
    requires ValidCodebook(cb) && |q| == cb.dimensions && j < CodeLen(cb) && Supported(m) && queryOffset == Lo(cb, j)
    ensures row == Row(cb, q, m, j)
  {
    hide Contribute, Lo, Piece, Entries;
    row := [];
    ghost var part := QueryPart(cb, q, j);
    assert part == q[queryOffset..queryOffset + Width(cb, j)] by { NextLo(cb, j); }
    for v := 0 to Entries(cb, j)
      invariant |row| == v && forall i :: 0 <= i < v ==> row[i] == Contribute(m, part, Piece(cb, j, i))
    {
      var c := AddContributions(m, q[queryOffset..queryOffset + Width(cb, j)], Piece(cb, j, v));
      row := row + [c];
    }
  }

  lemma NextLo(cb: Codebook, j: nat)
    requires ValidCodebook(cb) && j < CodeLen(cb)
    ensures Lo(cb, j + 1) == Lo(cb, j) + Width(cb, j) <= cb.dimensions
  {
    LoGrows(cb, j + 1, CodeLen(cb));
    LoCovers(cb);
  }

  /** Builds the tables. Succeeds exactly for the queries that can be scored at all. */
  method PrepareQuery(cb: Codebook, q: seq<real>, m: Metric) returns (r: Option<Prepared>)
    ensures r.Some? <==> ValidQuery(cb, q, m)
    ensures r.Some? ==> PreparedFor(r.value, cb, q, m)
  {
    hide ValidCodebook, AllZero, Row, Lo, Width, Entries, Table, Offset, SquareSum, PaddingMask;
    if !ValidCodebook(cb) || |q| != cb.dimensions || !Supported(m) || (m == Cosine && AllZero(q)) {
      return None;
    }
    var offsets: seq<nat> := [0];
    var contributions: seq<Contribution> := [];
    var queryOffset := 0;
    StartTable(cb, q, m);
    for j := 0 to CodeLen(cb)
      invariant queryOffset == Lo(cb, j)
      invariant contributions == Table(cb, q, m, j)
      invariant |offsets| == j + 1 && forall i :: 0 <= i <= j ==> offsets[i] == Offset(cb, i)
    {
      var row := BuildRow(cb, q, m, j, queryOffset);
      NextLo(cb, j);
      TableStep(cb, q, m, j);
      contributions := contributions + row;
      queryOffset := queryOffset + Width(cb, j);
      offsets := offsets + [|contributions|];
    }
    var queryNorm := QueryNorm(q);
    return Some(Prepared(m, queryNorm, offsets, contributions, PaddingMask(cb)));
  }

  lemma StartTable(cb: Codebook, q: seq<real>, m: Metric)
    requires ValidCodebook(cb) && |q| == cb.dimensions && Supported(m)
    ensures Lo(cb, 0) == 0 && Offset(cb, 0) == 0 && Table(cb, q, m, 0) == []
  {
  }

  lemma TableStep(cb: Codebook, q: seq<real>, m: Metric, j: nat)
    requires ValidCodebook(cb) && |q| == cb.dimensions && j < CodeLen(cb) && Supported(m)
    ensures Table(cb, q, m, j + 1) == Table(cb, q, m, j) + Row(cb, q, m, j)
  {
  }

  // ---------- scoring ----------

  /** Adding the contribution of one code byte extends the sums by the dimensions it covers. */
  lemma SumsStep(cb: Codebook, q: seq<real>, m: Metric, code: seq<byte>, i: nat)
    requires ValidCodebook(cb) && |q| == cb.dimensions && Supported(m)
    requires i < CodeLen(cb) && i < |code| && forall j :: 0 <= j <= i ==> code[j] < Entries(cb, j)
    ensures Lo(cb, i) <= Lo(cb, i + 1) <= |q|
    ensures var before := Contribute(m, q[..Lo(cb, i)], Pieces(cb, code, i));
            var here := Contribute(m, QueryPart(cb, q, i), Piece(cb, i, code[i]));
            Contribute(m, q[..Lo(cb, i + 1)], Pieces(cb, code, i + 1))
            == Contribution(before.primary + here.primary, before.encodedNorm + here.encodedNorm)
  {
    hide Sum, SquareSum, Primary, Entries, Lo, Width, Piece;
    NextLo(cb, i);
    var a, b := Lo(cb, i), Lo(cb, i + 1);
    assert q[..b] == q[..a] + QueryPart(cb, q, i);
    SumAppend(Primary(m), q[..a], Pieces(cb, code, i), QueryPart(cb, q, i), Piece(cb, i, code[i]));
    SquareSumAppend(Pieces(cb, code, i), Piece(cb, i, code[i]));
  }

  lemma {:induction false} SquareSumAppend(a: seq<real>, b: seq<real>)
    ensures SquareSum(a + b) == SquareSum(a) + SquareSum(b)
  {
    hide Square;
    if b == [] {
      assert a + b == a;
    } else {
      SquareSumAppend(a, b[..|b| - 1]);
      assert (a + b)[..|a + b| - 1] == a + b[..|b| - 1];
    }
  }

  /** The lookups of one code: sums over its pieces, or nothing if a byte is outside its table. */
  method LookUp(p: Prepared, code: seq<byte>, ghost cb: Codebook, ghost q: seq<real>, ghost m: Metric)
    returns (r: Option<Contribution>)
    requires ValidQuery(cb, q, m) && PreparedFor(p, cb, q, m) && |code| == CodeLen(cb)
    ensures r.Some? <==> forall j :: 0 <= j < |code| ==> code[j] < Entries(cb, j)
    ensures r.Some? ==> |q| == Lo(cb, |code|) && r.value == Contribute(m, q, Pieces(cb, code, |code|))
  {
    hide Entries, Contribute, Lo, Table, Pieces, Piece, QueryPart, ValidCodebook, AllZero;
    var sums := Contribution(0.0, 0.0);
    StartSums(cb, q, m, code);
    LoCovers(cb);
    for i := 0 to |code|
      invariant forall j :: 0 <= j < i ==> code[j] < Entries(cb, j)
      invariant Lo(cb, i) <= |q| && sums == Contribute(m, q[..Lo(cb, i)], Pieces(cb, code, i))
    {
      var start := p.offsets[i];
      var end := p.offsets[i + 1];
      OffsetStep(cb, i);
      var index := start + code[i];
      if index >= |p.contributions| || index >= end {
        assert code[i] < Entries(cb, i) ==> index < |p.contributions| by {
          if code[i] < Entries(cb, i) {
            TableAt(cb, q, m, CodeLen(cb), i, code[i]);
          }
        }
        return None;
      }
      TableAt(cb, q, m, CodeLen(cb), i, code[i]);
      SumsStep(cb, q, m, code, i);
      var entry := p.contributions[index];
      sums := Contribution(sums.primary + entry.primary, sums.encodedNorm + entry.encodedNorm);
    }
    assert q[..|q|] == q;
    return Some(sums);
  }

  lemma StartSums(cb: Codebook, q: seq<real>, m: Metric, code: seq<byte>)
    requires ValidCodebook(cb) && Supported(m)
    ensures Lo(cb, 0) == 0 && Contribute(m, q[..0], Pieces(cb, code, 0)) == Contribution(0.0, 0.0)
  {
  }

  lemma OffsetStep(cb: Codebook, i: nat)
    requires ValidCodebook(cb) && i < CodeLen(cb)
    ensures Offset(cb, i + 1) == Offset(cb, i) + Entries(cb, i)
  {
  }

  /**
   Scoring through the tables rejects exactly the codes that direct scoring rejects, and
   otherwise gives the distance of the query from the reconstructed vector.
   */
  method ScoreCode(p: Prepared, code: seq<byte>, sqrt: real -> real, ghost cb: Codebook, ghost q: seq<real>,
                   ghost m: Metric)
    returns (r: Option<Score>)
    requires ValidQuery(cb, q, m) && PreparedFor(p, cb, q, m) && PositiveRoot(sqrt)
    ensures r.Some? <==> ValidCode(cb, code)
    ensures r.Some? ==> |Reconstruct(cb, code)| == |q| && (m == Cosine ==> SquareSum(q) != 0.0)
                        && r.value == Distance(m, q, Reconstruct(cb, code), sqrt)
  {
    hide ValidCodebook, ValidCode, PreparedFor, Entries, Lo, Pieces, Sum, SquareSum, Reconstruct, AllZero, Times;
    PreparedFacts(p, cb, q, m);
    ValidCodeIff(cb, code);
    var codeLen := |p.offsets| - 1;
    if |code| != codeLen {
      return None;
    }
    if p.binaryPaddingMask.Some? && code[|code| - 1] > p.binaryPaddingMask.value {
      return None;
    }
    var sums := LookUp(p, code, cb, q, m);
    if sums.None? {
      return None;
    }
    PiecesReconstruct(cb, code);
    ReconstructedSize(cb, code);
    ghost var e := Reconstruct(cb, code);
    ZeroSquareSum(q);
    match p.metric {
      case L2 => return Some(Finite(sqrt(sums.value.primary)));
      case L1 => return Some(Finite(sums.value.primary));
      case NegativeInnerProduct => return Some(Finite(sums.value.primary));
      case Cosine =>
        if sums.value.encodedNorm == 0.0 {
          return Some(PlusInfinity);
        }
        CosineDistance(q, e, sqrt);
        return Some(Finite(1.0 - sums.value.primary / Times(sqrt(p.queryNorm), sqrt(sums.value.encodedNorm))));
    }
  }

  lemma PreparedFacts(p: Prepared, cb: Codebook, q: seq<real>, m: Metric)
    requires ValidQuery(cb, q, m) && PreparedFor(p, cb, q, m)
    ensures p.metric == m && p.queryNorm == SquareSum(q) && |p.offsets| == CodeLen(cb) + 1 && CodeLen(cb) > 0
    ensures p.binaryPaddingMask == PaddingMask(cb)
  {
    if cb.Product? {
      Divides(cb.dimensions, cb.subvectorDimensions);
    }
  }

  // ---------- sizes ----------

  const USIZE_MAX: nat := 0xffff_ffff_ffff_ffff

  function Saturate(n: nat): nat {
    if n > USIZE_MAX then USIZE_MAX else n
  }

  function SizeSum(codebooks: seq<seq<seq<real>>>): nat {
    if codebooks == [] then 0 else SizeSum(codebooks[..|codebooks| - 1]) + |codebooks[|codebooks| - 1]|
  }

  /** Bytes a scorer will need, from the codebook alone. */
  function PreparedQueryBytes(cb: Codebook): nat {
    var count := match cb
      case Binary(d) => Saturate(((d + 7) / 8) * 256)
      case Scalar(d, _, _, levels) => Saturate(d * levels)
      case Product(_, _, codebooks) => SizeSum(codebooks);
    Saturate(Saturate(Saturate(CodeLen(cb) + 1) * 8) + Saturate(count * 8))
  }

  /** Bytes a scorer holds: eight for each offset and for each contribution. */
  function ResidentBytes(p: Prepared): nat {
    Saturate(Saturate(|p.offsets| * 8) + Saturate(|p.contributions| * 8))
  }

  lemma {:induction false} OffsetIs(cb: Codebook, n: nat)
    requires ValidCodebook(cb) && n <= CodeLen(cb)
    ensures Offset(cb, n) == match cb
                             case Binary(_) => n * 256
                             case Scalar(_, _, _, levels) => n * levels
                             case Product(_, _, codebooks) => SizeSum(codebooks[..n])
  {
    if n > 0 {
      OffsetIs(cb, n - 1);
      match cb
      case Binary(_) =>
      case Scalar(_, _, _, levels) => assert n * levels == (n - 1) * levels + levels;
      case Product(_, _, codebooks) => assert codebooks[..n][..n - 1] == codebooks[..n - 1];
    }
  }

  /** The predicted size is the size that is built. */
  lemma PredictedSizeIsExact(p: Prepared, cb: Codebook, q: seq<real>, m: Metric)
    requires ValidQuery(cb, q, m) && PreparedFor(p, cb, q, m)
    ensures PreparedQueryBytes(cb) == ResidentBytes(p)
    ensures var bytes := 8 * (|p.offsets| + |p.contributions|);
            ResidentBytes(p) == if bytes <= 0xffff_ffff_ffff_ffff then bytes else 0xffff_ffff_ffff_ffff
  {
    hide Table, Offset, ValidCodebook, SizeSum;
    OffsetIs(cb, CodeLen(cb));
    match cb
    case Binary(_) =>
    case Scalar(_, _, _, _) =>
    case Product(_, _, codebooks) => assert codebooks[..|codebooks|] == codebooks;
  }
}
