/** Writing and reading a counted list of items, given how one item is written and read. */
module ListCodec {
  import opened Wrappers
  import opened LittleEndian

  datatype Parsed<+T> = Parsed(value: T, rest: seq<byte>)

  type Reader<!T> = seq<byte> -> Option<Parsed<T>>

  type Writer<!T> = T -> seq<byte>

  function ReadList<T>(read: Reader<T>, n: nat, bs: seq<byte>): Option<Parsed<seq<T>>> {
    if n == 0 then
      Some(Parsed([], bs))
    else
      match ReadList(read, n - 1, bs)
      case None => None
      case Some(Parsed(xs, rest)) =>
        match read(rest)
        case None => None
        case Some(Parsed(x, tail)) => Some(Parsed(xs + [x], tail))
  }

  function WriteList<T>(write: Writer<T>, xs: seq<T>): seq<byte> {
    if xs == [] then [] else WriteList(write, xs[..|xs| - 1]) + write(xs[|xs| - 1])
  }

  /** Every good item reads back as itself, whatever follows it. */
  ghost predicate ReadsBack<T(!new)>(read: Reader<T>, write: Writer<T>, good: T -> bool) {
    forall x: T, rest: seq<byte> :: good(x) ==> read(write(x) + rest) == Some(Parsed(x, rest))
  }

  /** Whatever is read is a good item, and the bytes consumed are exactly its encoding. */
  ghost predicate WritesBack<T(!new)>(read: Reader<T>, write: Writer<T>, good: T -> bool) {
    forall bs: seq<byte> :: read(bs).Some? ==>
      good(read(bs).value.value) && bs == write(read(bs).value.value) + read(bs).value.rest
  }

  lemma {:induction false} ListReadsBack<T(!new)>(read: Reader<T>, write: Writer<T>, good: T -> bool, xs: seq<T>,
                                           rest: seq<byte>)
    requires ReadsBack(read, write, good)
    requires forall x :: x in xs ==> good(x)
    ensures ReadList(read, |xs|, WriteList(write, xs) + rest) == Some(Parsed(xs, rest))
  {
    if xs == [] {
      assert WriteList(write, xs) + rest == rest;
    } else {
      var k := |xs| - 1;
      var tail := write(xs[k]) + rest;
      assert WriteList(write, xs) + rest == WriteList(write, xs[..k]) + tail;
      ListReadsBack(read, write, good, xs[..k], tail);
      assert xs[..k] + [xs[k]] == xs;
    }
  }

  lemma {:induction false} ListWritesBack<T(!new)>(read: Reader<T>, write: Writer<T>, good: T -> bool, n: nat,
                                            bs: seq<byte>)
    requires WritesBack(read, write, good)
    requires ReadList(read, n, bs).Some?
    ensures var Parsed(xs, rest) := ReadList(read, n, bs).value;
            |xs| == n && (forall x :: x in xs ==> good(x)) && bs == WriteList(write, xs) + rest
  {
    if n > 0 {
      ListWritesBack(read, write, good, n - 1, bs);
      var Parsed(xs, rest) := ReadList(read, n - 1, bs).value;
      var Parsed(x, tail) := read(rest).value;
      assert (xs + [x])[..n - 1] == xs;
      assert WriteList(write, xs) + (write(x) + tail) == (WriteList(write, xs) + write(x)) + tail;
    }
  }

  /** A list whose first items cannot be read cannot be read. */
  lemma {:induction false} ListFails<T>(read: Reader<T>, m: nat, n: nat, bs: seq<byte>)
    requires m <= n && ReadList(read, m, bs).None?
    ensures ReadList(read, n, bs).None?
  {
    if m < n {
      ListFails(read, m, n - 1, bs);
    }
  }

  lemma {:induction false} ListSize<T>(write: Writer<T>, xs: seq<T>, least: nat)
    requires forall x :: x in xs ==> |write(x)| >= least
    ensures |WriteList(write, xs)| >= least * |xs|
  {
    if xs != [] {
      ListSize(write, xs[..|xs| - 1], least);
      assert least * |xs| == least * (|xs| - 1) + least;
    }
  }
}
