/** Character offsets of chunk drafts from one sweep over the source (crates/context-build/src/token_chunking.rs). */
module CharacterOffsets {
  import opened Wrappers
  import opened Utf8
  import opened Words

  datatype Range = Range(startByte: nat, endByte: nat)

  datatype Mark = Mark(offset: nat, ordinal: nat, isEnd: bool)

  function MarksOf(drafts: seq<Range>): seq<Mark> {
    if drafts == [] then
      []
    else
      var k := |drafts| - 1;
      MarksOf(drafts[..k]) + [Mark(drafts[k].startByte, k, false), Mark(drafts[k].endByte, k, true)]
  }

  /** Any order the unstable sort by offset may leave the marks in. */
  ghost predicate SweepOrder(marks: seq<Mark>, drafts: seq<Range>) {
    && multiset(marks) == multiset(MarksOf(drafts))
    && forall i, j :: 0 <= i < j < |marks| ==> marks[i].offset <= marks[j].offset
  }

  /** A mark of one of the drafts. */
  predicate Marks(m: Mark, drafts: seq<Range>) {
    m.ordinal < |drafts| && m.offset == if m.isEnd then drafts[m.ordinal].endByte else drafts[m.ordinal].startByte
  }

  lemma {:induction false} MarksOfAre(drafts: seq<Range>)
    ensures forall m :: m in MarksOf(drafts) <==> Marks(m, drafts)
  {
    if drafts != [] {
      var k := |drafts| - 1;
      MarksOfAre(drafts[..k]);
      forall m ensures m in MarksOf(drafts) <==> Marks(m, drafts) {
        assert m in MarksOf(drafts[..k]) <==> Marks(m, drafts[..k]);
        assert m.ordinal == k && Marks(m, drafts) ==>
            m == Mark(drafts[k].startByte, k, false) || m == Mark(drafts[k].endByte, k, true);
      }
    }
  }

  lemma SweepOrderMarks(marks: seq<Mark>, drafts: seq<Range>)
    requires SweepOrder(marks, drafts)
    ensures forall m :: m in marks <==> Marks(m, drafts)
  {
    MarksOfAre(drafts);
    forall m ensures m in marks <==> m in MarksOf(drafts) {
      assert m in marks <==> m in multiset(marks);
      assert m in MarksOf(drafts) <==> m in multiset(MarksOf(drafts));
    }
  }

  /** Characters counted so far are those that start before the last boundary. */
  ghost predicate CountedTo(source: string, count: nat, boundary: nat) {
    count <= |source| && (count > 0 ==> ByteLen(source[..count - 1]) < boundary)
  }

  /** At a character boundary the count is the number of characters in the prefix. */
  lemma CountIsCharIndex(source: string, count: nat, boundary: nat)
    requires CountedTo(source, count, boundary) && Boundary(source, boundary)
    requires count < |source| ==> ByteLen(source[..count]) >= boundary
    ensures CharIndex(source, boundary) == count
  {
    var k := CharIndex(source, boundary);
    if k < count - 1 {
      PrefixesGrow(source, k, count - 1);
    }
    if count < k {
      PrefixesGrow(source, count, k);
    }
  }

  /** Whether a byte offset is between characters, as `str::is_char_boundary` decides it. */
  method IsCharBoundary(source: string, b: nat) returns (r: bool)
    ensures r <==> Boundary(source, b)
  {
    hide ByteLen;
    var offset := 0;
    var i := 0;
    assert ByteLen(source[..0]) == 0 by { Start(source); }
    while i < |source| && offset < b
      invariant i <= |source| && offset == ByteLen(source[..i])
      invariant forall k :: 0 <= k < i ==> ByteLen(source[..k]) < b
    {
      PrefixStep(source, i);
      offset := offset + Width(source[i]);
      i := i + 1;
    }
    r := offset == b;
    forall k | i < k <= |source| ensures ByteLen(source[..k]) > offset {
      PrefixesGrow(source, i, k);
    }
  }

  lemma Start(source: string)
    ensures ByteLen(source[..0]) == 0
  {
  }

  /** What a mark's position in the result must be. */
  ghost predicate Placed(result: seq<(nat, nat)>, source: string, m: Mark) {
    && m.ordinal < |result| && Boundary(source, m.offset)
    && CharIndex(source, m.offset) == if m.isEnd then result[m.ordinal].1 else result[m.ordinal].0
  }

  const MARKS_PER_POLL: nat := 1024

  /** Every draft starts and ends between characters of the source. */
  ghost predicate OnBoundaries(source: string, drafts: seq<Range>) {
    forall i :: 0 <= i < |drafts| ==> Boundary(source, drafts[i].startByte) && Boundary(source, drafts[i].endByte)
  }

  /**
   One sweep gives every draft the character positions that counting each prefix on its own
   would give, whatever order equal offsets come in. It fails exactly when some boundary falls
   inside a character or outside the source, or a poll stops it.
   */
  method Sweep(source: string, drafts: seq<Range>, marks: seq<Mark>, checkpoint: nat -> bool)
    returns (r: Result<seq<(nat, nat)>, TokenChunkError>)
    requires SweepOrder(marks, drafts)
    ensures r.Ok? <==> OnBoundaries(source, drafts) && PollsPass(checkpoint, 0, MARKS_PER_POLL, |marks|)
    ensures r.Ok? ==> |r.value| == |drafts|
    ensures r.Ok? ==> forall i :: 0 <= i < |drafts| ==>
                        r.value[i] == (CharIndex(source, drafts[i].startByte), CharIndex(source, drafts[i].endByte))
    ensures r.Err? ==> r.error == DeadlineExceeded || r.error == ArithmeticOverflow
    ensures r == Err(DeadlineExceeded) ==> !PollsPass(checkpoint, 0, MARKS_PER_POLL, |marks|)
    ensures r == Err(ArithmeticOverflow) ==> !OnBoundaries(source, drafts)
  {
    hide ByteLen, Width, CharIndex, Boundary, MarksOf;
    SweepOrderMarks(marks, drafts);
    var result: seq<(nat, nat)> := seq(|drafts|, _ => (0, 0));
    var offset, count: nat := 0, 0;
    Start(source);
    for n := 0 to |marks|
      invariant |result| == |drafts| && PollsPass(checkpoint, 0, MARKS_PER_POLL, n)
      invariant count <= |source| && offset == ByteLen(source[..count])
      invariant n < |marks| ==> CountedTo(source, count, marks[n].offset)
      invariant forall k :: 0 <= k < n ==> Placed(result, source, marks[k])
    {
      if n % MARKS_PER_POLL == 0 && !checkpoint(n / MARKS_PER_POLL) {
        return Err(DeadlineExceeded);
      }
      var m := marks[n];
      assert m in marks && Marks(m, drafts);
      offset, count := CountTo(source, offset, count, m.offset);
      var between := IsCharBoundary(source, m.offset);
      if !between {
        return Err(ArithmeticOverflow);
      }
      CountIsCharIndex(source, count, m.offset);
      result := Place(result, m, count);
      forall k | 0 <= k < n ensures Placed(result, source, marks[k]) {
        SamePlace(marks[k], m, drafts);
      }
      assert n + 1 < |marks| ==> m.offset <= marks[n + 1].offset;
    }
    forall i | 0 <= i < |drafts|
      ensures Boundary(source, drafts[i].startByte) && Boundary(source, drafts[i].endByte)
      ensures result[i] == (CharIndex(source, drafts[i].startByte), CharIndex(source, drafts[i].endByte))
    {
      var s, e := Mark(drafts[i].startByte, i, false), Mark(drafts[i].endByte, i, true);
      assert Marks(s, drafts) && Marks(e, drafts);
      assert s in marks && e in marks;
    }
    return Ok(result);
  }

  /** Counts on, up to the first character that starts at or after the boundary. */
  method CountTo(source: string, fromOffset: nat, fromCount: nat, boundary: nat) returns (offset: nat, count: nat)
    requires fromCount <= |source| && fromOffset == ByteLen(source[..fromCount])
            && CountedTo(source, fromCount, boundary)
    ensures count <= |source| && offset == ByteLen(source[..count]) && CountedTo(source, count, boundary)
    ensures count < |source| ==> offset >= boundary
  {
    hide ByteLen, Width;
    offset, count := fromOffset, fromCount;
    while count < |source| && offset < boundary
      invariant count <= |source| && offset == ByteLen(source[..count])
      invariant CountedTo(source, count, boundary)
    {
      PrefixStep(source, count);
      offset := offset + Width(source[count]);
      count := count + 1;
    }
  }

  function InsertMark(m: Mark, ms: seq<Mark>): (r: seq<Mark>)
    ensures multiset(r) == multiset(ms) + multiset{m}
  {
    if ms == [] || m.offset <= ms[0].offset then
      [m] + ms
    else
      assert ms == [ms[0]] + ms[1..];
      [ms[0]] + InsertMark(m, ms[1..])
  }

  ghost predicate ByOffset(ms: seq<Mark>) {
    forall i, j :: 0 <= i < j < |ms| ==> ms[i].offset <= ms[j].offset
  }

  lemma {:induction false} InsertKeepsOrder(m: Mark, ms: seq<Mark>)
    requires ByOffset(ms)
    ensures ByOffset(InsertMark(m, ms))
    ensures InsertMark(m, ms) != [] && (InsertMark(m, ms)[0] == m || (ms != [] && InsertMark(m, ms)[0] == ms[0]))
  {
    if ms == [] || m.offset <= ms[0].offset {
      ConsByOffset(m, ms);
    } else {
      InsertKeepsOrder(m, ms[1..]);
      ConsByOffset(ms[0], InsertMark(m, ms[1..]));
    }
  }

  lemma ConsByOffset(m: Mark, ms: seq<Mark>)
    requires ByOffset(ms) && (ms != [] ==> m.offset <= ms[0].offset)
    ensures ByOffset([m] + ms)
  {
    var all := [m] + ms;
    forall i, j | 0 <= i < j < |all| ensures all[i].offset <= all[j].offset {
      if j > 1 {
        assert ms[0].offset <= ms[j - 1].offset;
      }
    }
  }

  /** The marks by offset. */
  function SortMarks(ms: seq<Mark>): (r: seq<Mark>)
    ensures multiset(r) == multiset(ms)
  {
    if ms == [] then [] else
      assert ms == [ms[0]] + ms[1..];
      InsertMark(ms[0], SortMarks(ms[1..]))
  }

  lemma {:induction false} SortMarksIsByOffset(ms: seq<Mark>)
    ensures ByOffset(SortMarks(ms))
  {
    if ms != [] {
      SortMarksIsByOffset(ms[1..]);
      InsertKeepsOrder(ms[0], SortMarks(ms[1..]));
    }
  }

  lemma {:induction false} MarksOfSize(drafts: seq<Range>)
    ensures |MarksOf(drafts)| == 2 * |drafts|
  {
    if drafts != [] {
      MarksOfSize(drafts[..|drafts| - 1]);
    }
  }

  /** The character range of every draft: two marks each, sorted by offset, and one sweep. */
  method CharacterOffsets(source: string, drafts: seq<Range>, checkpoint: nat -> bool)
    returns (r: Result<seq<(nat, nat)>, TokenChunkError>)
    ensures r.Ok? <==> OnBoundaries(source, drafts) && PollsPass(checkpoint, 0, MARKS_PER_POLL, 2 * |drafts|)
    ensures r.Ok? ==> |r.value| == |drafts|
    ensures r.Ok? ==> forall i :: 0 <= i < |drafts| ==>
                        r.value[i] == (CharIndex(source, drafts[i].startByte), CharIndex(source, drafts[i].endByte))
    ensures r.Err? ==> r.error == DeadlineExceeded || r.error == ArithmeticOverflow
    ensures r == Err(DeadlineExceeded) ==> !PollsPass(checkpoint, 0, MARKS_PER_POLL, 2 * |drafts|)
    ensures r == Err(ArithmeticOverflow) ==> !OnBoundaries(source, drafts)
  {
    hide CharIndex, Boundary, MarksOf, SortMarks;
    var marks := SortMarks(MarksOf(drafts));
    SortMarksIsByOffset(MarksOf(drafts));
    MarksOfSize(drafts);
    assert |marks| == |multiset(marks)| == |multiset(MarksOf(drafts))| == 2 * |drafts|;
    r := Sweep(source, drafts, marks, checkpoint);
  }

  function Place(result: seq<(nat, nat)>, m: Mark, count: nat): seq<(nat, nat)>
    requires m.ordinal < |result|
  {
    result[m.ordinal := if m.isEnd then (result[m.ordinal].0, count) else (count, result[m.ordinal].1)]
  }

  /** Two marks of the same side of the same draft are the same mark. */
  lemma SamePlace(a: Mark, b: Mark, drafts: seq<Range>)
    ensures Marks(a, drafts) && Marks(b, drafts) && a.ordinal == b.ordinal && a.isEnd == b.isEnd ==> a == b
  {
  }
}
