/** Character and byte positions in UTF-8 text (section 3 of RFC 3629). */
module Utf8 {

  function Width(c: char): (r: nat)
    ensures 1 <= r <= 4
  {
    var code := c as int;
    if code < 0x80 then 1 else if code < 0x800 then 2 else if code < 0x1_0000 then 3 else 4
  }

  /** How many code points the sequences of this many bytes can tell apart (table 3 of RFC 3629). */
  function Capacity(bytes: nat): nat {
    match bytes
    case 1 => 128
    case 2 => 32 * 64
    case 3 => 16 * 64 * 64
    case 4 => 8 * 64 * 64 * 64
    case _ => 0
  }

  /** A character takes the fewest bytes that can hold it. */
  lemma WidthIsLeast(c: char)
    ensures c as int < Capacity(Width(c))
    ensures forall fewer :: 1 <= fewer < Width(c) ==> c as int >= Capacity(fewer)
  {
  }

  /** The characters with the Unicode property White_Space. */
  predicate IsWhitespace(c: char) {
    var code := c as int;
    || 0x09 <= code <= 0x0d || code == 0x20 || code == 0x85 || code == 0xa0 || code == 0x1680
    || 0x2000 <= code <= 0x200a || code == 0x2028 || code == 0x2029 || code == 0x202f || code == 0x205f
      || code == 0x3000
  }

  function ByteLen(s: string): nat {
    if s == [] then 0 else ByteLen(s[..|s| - 1]) + Width(s[|s| - 1])
  }

  /** This byte offset falls between two characters, or at either end. */
  ghost predicate Boundary(s: string, b: nat) {
    exists k :: 0 <= k <= |s| && ByteLen(s[..k]) == b
  }

  /** The number of characters before a byte offset. */
  function CharIndex(s: string, b: nat): (k: nat)
    requires Boundary(s, b)
    ensures k <= |s| && ByteLen(s[..k]) == b
  {
    assert s[..|s|] == s;
    if ByteLen(s) == b then |s| else
      ShorterBoundary(s, b);
      var k := CharIndex(s[..|s| - 1], b);
      assert s[..|s| - 1][..k] == s[..k];
      k
  }

  lemma ShorterBoundary(s: string, b: nat)
    requires Boundary(s, b) && ByteLen(s) != b
    ensures s != [] && Boundary(s[..|s| - 1], b)
  {
    var k :| 0 <= k <= |s| && ByteLen(s[..k]) == b;
    assert s[..|s|] == s;
    assert k < |s| && s[..|s| - 1][..k] == s[..k];
  }

  lemma PrefixStep(s: string, k: nat)
    requires k < |s|
    ensures ByteLen(s[..k + 1]) == ByteLen(s[..k]) + Width(s[k])
  {
    assert s[..k + 1][..k] == s[..k];
  }

  lemma {:induction false} PrefixesGrow(s: string, j: nat, k: nat)
    requires j < k <= |s|
    ensures ByteLen(s[..j]) < ByteLen(s[..k])
  {
    PrefixStep(s, k - 1);
    if j < k - 1 {
      PrefixesGrow(s, j, k - 1);
    }
  }

  /** Byte offsets name character positions one to one. */
  lemma CharIndexOf(s: string, k: nat)
    requires k <= |s|
    ensures Boundary(s, ByteLen(s[..k])) && CharIndex(s, ByteLen(s[..k])) == k
  {
    var i := CharIndex(s, ByteLen(s[..k]));
    if i < k {
      PrefixesGrow(s, i, k);
    }
    if k < i {
      PrefixesGrow(s, k, i);
    }
  }

  lemma {:induction false} ByteLenAppend(a: string, b: string)
    ensures ByteLen(a + b) == ByteLen(a) + ByteLen(b)
  {
    if b == [] {
      assert a + b == a;
    } else {
      ByteLenAppend(a, b[..|b| - 1]);
      assert (a + b)[..|a + b| - 1] == a + b[..|b| - 1];
    }
  }

  /** A slice taken by byte offsets. Offsets inside a character are not allowed. */
  function Slice(s: string, from: nat, to: nat): string
    requires Boundary(s, from) && Boundary(s, to) && from <= to
  {
    var i, j := CharIndex(s, from), CharIndex(s, to);
    if i <= j then s[i..j] else ""
  }

  lemma SliceOf(s: string, i: nat, j: nat)
    requires i <= j <= |s|
    ensures Boundary(s, ByteLen(s[..i])) && Boundary(s, ByteLen(s[..j])) && ByteLen(s[..i]) <= ByteLen(s[..j])
    ensures Slice(s, ByteLen(s[..i]), ByteLen(s[..j])) == s[i..j]
    ensures ByteLen(s[..j]) == ByteLen(s[..i]) + ByteLen(s[i..j])
  {
    CharIndexOf(s, i);
    CharIndexOf(s, j);
    if i < j {
      PrefixesGrow(s, i, j);
    }
    ByteLenAppend(s[..i], s[i..j]);
    assert s[..i] + s[i..j] == s[..j];
  }
}
