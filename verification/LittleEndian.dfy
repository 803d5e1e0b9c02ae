/** Fixed-width little-endian integers. */
module LittleEndian {

  type byte = x: int | 0 <= x < 256

  function Pow256(w: nat): (r: nat)
    ensures r >= 1
  {
    if w == 0 then 1 else 256 * Pow256(w - 1)
  }

  function Encode(n: nat, w: nat): (r: seq<byte>)
    ensures |r| == w
  {
    if w == 0 then [] else [n % 256] + Encode(n / 256, w - 1)
  }

  function Decode(bs: seq<byte>): (r: nat)
    ensures r < Pow256(|bs|)
  {
    if bs == [] then 0 else bs[0] + 256 * Decode(bs[1..])
  }

  lemma {:induction false} DecodeEncode(n: nat, w: nat)
    requires n < Pow256(w)
    ensures Decode(Encode(n, w)) == n
  {
    if w > 0 {
      DecodeEncode(n / 256, w - 1);
      assert Encode(n, w)[1..] == Encode(n / 256, w - 1);
    }
  }

  lemma {:induction false} EncodeDecode(bs: seq<byte>)
    ensures Encode(Decode(bs), |bs|) == bs
  {
    if bs != [] {
      EncodeDecode(bs[1..]);
      var n := Decode(bs);
      assert n % 256 == bs[0] && n / 256 == Decode(bs[1..]);
      assert bs == [bs[0]] + bs[1..];
    }
  }

  lemma {:induction false} ProductStep(a: nat, x: nat, y: nat)
    requires x < y
    ensures a * x + a <= a * y
  {
    assert a * y == a * (y - 1) + a;
    if x < y - 1 {
      ProductStep(a, x, y - 1);
    }
  }

  lemma Regroup(a: nat, b: nat, q: nat, r: nat)
    ensures a * (b * q + r) == (a * b) * q + a * r
  {
  }

  lemma QuotientIs(n: nat, a: nat, q: nat, r: nat)
    requires r < a && n == a * q + r
    ensures n / a == q && n % a == r
  {
    if n / a < q {
      ProductStep(a, n / a, q);
    } else if q < n / a {
      ProductStep(a, q, n / a);
    }
  }

  lemma DivideTwice(n: nat, a: nat, b: nat)
    requires a > 0 && b > 0
    ensures a * b > 0 && (n / a) / b == n / (a * b)
  {
    var m := n / a;
    var q, r := m / b, m % b;
    Regroup(a, b, q, r);
    ProductStep(a, r, b);
    QuotientIs(n, a * b, q, a * r + n % a);
  }

  /** Byte k of an encoding is digit k of the number in base 256. */
  lemma {:induction false} EncodedByte(n: nat, w: nat, k: nat)
    requires k < w
    ensures Encode(n, w)[k] == (n / Pow256(k)) % 256
  {
    if k > 0 {
      EncodedByte(n / 256, w - 1, k - 1);
      DivideTwice(n, 256, Pow256(k - 1));
    }
  }

  /** The widths used by the persisted formats. */
  lemma Widths()
    ensures Pow256(2) == 0x1_0000
    ensures Pow256(4) == 0x1_0000_0000
    ensures Pow256(8) == 0x1_0000_0000_0000_0000
  {
    assert Pow256(0) == 1 && Pow256(1) == 256;
    assert Pow256(3) == 0x100_0000;
    assert Pow256(5) == 0x100_0000_0000 && Pow256(6) == 0x1_0000_0000_0000 && Pow256(7) == 0x100_0000_0000_0000;
  }
}
