/**
 The structure-first character chunker (crates/context-build/src/chunking.rs).

 A chunk's content hash is a fixed function of its text and is not modelled.
 */
module Chunking {
  import opened Wrappers
  import opened Utf8

  const MAX_CHUNK_CHARS: nat := 64 * 1024
  const MAX_CHUNK_SOURCE_CHARS: nat := 8 * 1024 * 1024
  const MAX_CHUNKS_PER_DOCUMENT: nat := 16 * 1024
  const MAX_CHUNK_OUTPUT_CHARS: nat := 2 * MAX_CHUNK_SOURCE_CHARS

  datatype Profile = Profile(maxChars: nat, overlapChars: nat) {
    predicate Valid() {
      1 <= maxChars <= MAX_CHUNK_CHARS && overlapChars < maxChars
    }
  }

  datatype Chunk = Chunk(ordinal: nat, startChar: nat, endChar: nat, text: string)

  datatype ChunkError =
    | SourceTooLarge(actual: nat)
    | TooManyChunks
    | OutputTooLarge(actual: nat)

  // ---------- where a window is cut ----------

  datatype BreakKind = Paragraph | Line | Sentence | Whitespace

  /** A break of this kind falls right after the first k characters of the window. */
  predicate BreaksAfter(kind: BreakKind, w: string, k: nat) {
    && 1 <= k <= |w|
    && match kind
       case Paragraph => k >= 2 && w[k - 2] == '\n' && w[k - 1] == '\n'
       case Line => w[k - 1] == '\n'
       case Sentence => w[k - 1] in ".!?" && (k == |w| || IsWhitespace(w[k]))
       case Whitespace => IsWhitespace(w[k - 1])
  }

  /** The last break of a kind within the first n characters, or 0. */
  function LastBreak(kind: BreakKind, w: string, n: nat): (k: nat)
    requires n <= |w|
    ensures k <= n
    ensures k > 0 ==> BreaksAfter(kind, w, k)
    ensures forall j :: k < j <= n ==> !BreaksAfter(kind, w, j)
  {
    if n == 0 || BreaksAfter(kind, w, n) then n else LastBreak(kind, w, n - 1)
  }

  /** The last paragraph break, else line break, else sentence end, else white space, else everything. */
  function BreakAt(w: string): (k: nat)
    requires w != []
    ensures 1 <= k <= |w|
  {
    if LastBreak(Paragraph, w, |w|) > 0 then LastBreak(Paragraph, w, |w|)
    else if LastBreak(Line, w, |w|) > 0 then LastBreak(Line, w, |w|)
    else if LastBreak(Sentence, w, |w|) > 0 then LastBreak(Sentence, w, |w|)
    else if LastBreak(Whitespace, w, |w|) > 0 then LastBreak(Whitespace, w, |w|)
    else |w|
  }

  /** Byte and character position of a break, if there is one. */
  function Mark(w: string, k: nat): Option<(nat, nat)>
    requires k <= |w|
  {
    if k == 0 then None else Some((ByteLen(w[..k]), k))
  }

  method StructuralBreak(w: string) returns (bytes: nat, chars: nat)
    requires w != []
    ensures chars == BreakAt(w) && bytes == ByteLen(w[..chars])
  {
    hide ByteLen, Width, IsWhitespace, LastBreak, MarkAt, BreakAt;
    StartMarks(w);
    var paragraph: Option<(nat, nat)>, line: Option<(nat, nat)> := None, None;
    var sentence: Option<(nat, nat)>, whitespace: Option<(nat, nat)> := None, None;
    var previousWasNewline := false;
    var offset := 0;
    var seen := 0;
    EmptyPrefix(w);
    while seen < |w|
      invariant seen <= |w| && offset == ByteLen(w[..seen])
      invariant previousWasNewline <==> seen > 0 && w[seen - 1] == '\n'
      invariant paragraph == MarkAt(Paragraph, w, seen)
      invariant line == MarkAt(Line, w, seen)
      invariant sentence == MarkAt(Sentence, w, seen)
      invariant whitespace == MarkAt(Whitespace, w, seen)
    {
      var character := w[seen];
      PrefixStep(w, seen);
      NextMark(Paragraph, w, seen);
      NextMark(Line, w, seen);
      NextMark(Sentence, w, seen);
      NextMark(Whitespace, w, seen);
      seen := seen + 1;
      var after := offset + Width(character);
      if character == '\n' {
        line := Some((after, seen));
        if previousWasNewline {
          paragraph := Some((after, seen));
        }
      }
      if character in ".!?" && (seen == |w| || IsWhitespace(w[seen])) {
        sentence := Some((after, seen));
      }
      if IsWhitespace(character) {
        whitespace := Some((after, seen));
      }
      previousWasNewline := character == '\n';
      offset := after;
    }
    assert w[..|w|] == w;
    BestMark(w);
    var best := Or(Or(Or(paragraph, line), sentence), whitespace);
    if best.Some? {
      return best.value.0, best.value.1;
    }
    return ByteLen(w), seen;
  }

  ghost function MarkAt(kind: BreakKind, w: string, n: nat): Option<(nat, nat)>
    requires n <= |w|
  {
    Mark(w, LastBreak(kind, w, n))
  }

  lemma StartMarks(w: string)
    ensures forall kind :: MarkAt(kind, w, 0) == None
  {
  }

  lemma NextMark(kind: BreakKind, w: string, n: nat)
    requires n < |w|
    ensures MarkAt(kind, w, n + 1) ==
            if BreaksAfter(kind, w, n + 1) then Some((ByteLen(w[..n + 1]), n + 1)) else MarkAt(kind, w, n)
  {
    hide BreaksAfter, ByteLen;
  }

  lemma BestMark(w: string)
    requires w != []
    ensures var best := Or(Or(Or(MarkAt(Paragraph, w, |w|), MarkAt(Line, w, |w|)), MarkAt(Sentence, w, |w|)),
                           MarkAt(Whitespace, w, |w|));
            if best.Some? then best.value == (ByteLen(w[..BreakAt(w)]), BreakAt(w)) else BreakAt(w) == |w|
  {
    hide ByteLen, BreaksAfter;
  }

  lemma EmptyPrefix(w: string)
    ensures ByteLen(w[..0]) == 0
  {
  }

  function Or<T>(a: Option<T>, b: Option<T>): Option<T> {
    if a.Some? then a else b
  }

  /** Size in bytes and characters of at most maxChars characters from a byte offset on. */
  method BoundedWindowEnd(source: string, startByte: nat, maxChars: nat) returns (bytes: nat, count: nat)
    requires Boundary(source, startByte)
    ensures var rest := source[CharIndex(source, startByte)..];
            count == (if maxChars < |rest| then maxChars else |rest|) && bytes == ByteLen(rest[..count])
  {
    var start := CharIndex(source, startByte);
    var rest := source[start..];
    var endByte := startByte;
    count := 0;
    while count < |rest| && count < maxChars
      invariant count <= |rest| && count <= maxChars
      invariant endByte == startByte + ByteLen(rest[..count])
    {
      PrefixStep(rest, count);
      endByte := endByte + Width(rest[count]);
      count := count + 1;
    }
    bytes := endByte - startByte;
  }

  /** The byte offset `count` characters before a byte offset, or 0. */
  method RewindCharacters(source: string, endByte: nat, count: nat) returns (r: nat)
    requires Boundary(source, endByte)
    ensures var end := CharIndex(source, endByte);
            r == ByteLen(source[..if count <= end then end - count else 0])
  {
    var end := CharIndex(source, endByte);
    var position: nat := end;
    r := endByte;
    while position > 0 && end - position < count
      invariant position <= end && end - position <= count
      invariant r == ByteLen(source[..position])
    {
      PrefixStep(source, position - 1);
      position := position - 1;
      r := r - Width(source[position]);
    }
  }

  // ---------- the spans of a document ----------

  datatype Span = Span(start: nat, end: nat)

  function Size(s: Span): int { s.end - s.start }

  // Spans only need a positive maximum. An overlap at or above the maximum, which profiles do not
  // allow, would still make progress, because a chunk never rewinds over its own first character.

  /** Where the chunk that starts here ends. */
  function EndFrom(source: string, start: nat, p: Profile): (end: nat)
    requires start < |source| && p.maxChars >= 1
    ensures start < end <= |source| && end - start <= p.maxChars
  {
    if |source| - start <= p.maxChars then |source| else start + BreakAt(source[start..start + p.maxChars])
  }

  /** How far the next chunk reaches back into this one. */
  function Rewind(s: Span, p: Profile): (r: int)
    ensures s.start < s.end ==> 0 <= r <= p.overlapChars && r < Size(s)
  {
    var most := Size(s) - 1;
    if p.overlapChars < most then p.overlapChars else if most < 0 then 0 else most
  }

  /** The spans from a start on. */
  function Spans(source: string, start: nat, p: Profile): (r: seq<Span>)
    requires start <= |source| && p.maxChars >= 1
    decreases |source| - start
  {
    if start == |source| then
      []
    else
      var s := Span(start, EndFrom(source, start, p));
      if s.end == |source| then [s] else [s] + Spans(source, s.end - Rewind(s, p), p)
  }

  function Total(spans: seq<Span>): int {
    if spans == [] then 0 else Total(spans[..|spans| - 1]) + Size(spans[|spans| - 1])
  }

  /** The chunk that cites a span. */
  ghost predicate Cites(c: Chunk, ordinal: nat, s: Span, source: string) {
    && s.start <= s.end <= |source|
    && c == Chunk(ordinal, s.start, s.end, source[s.start..s.end])
  }

  ghost predicate CitesAll(chunks: seq<Chunk>, spans: seq<Span>, source: string) {
    |chunks| == |spans| && forall i :: 0 <= i < |chunks| ==> Cites(chunks[i], i, spans[i], source)
  }

  ghost predicate Accepted(source: string, p: Profile)
    requires p.Valid()
  {
    && |source| <= MAX_CHUNK_SOURCE_CHARS
    && |Spans(source, 0, p)| <= MAX_CHUNKS_PER_DOCUMENT
    && Total(Spans(source, 0, p)) <= MAX_CHUNK_OUTPUT_CHARS
  }

  /** Which limit the document breaks first. */
  ghost predicate Refused(source: string, p: Profile, error: ChunkError)
    requires p.Valid()
  {
    var spans := Spans(source, 0, p);
    match error
    case SourceTooLarge(actual) => actual == |source| > MAX_CHUNK_SOURCE_CHARS
    case TooManyChunks =>
      |spans| > MAX_CHUNKS_PER_DOCUMENT && Total(spans[..MAX_CHUNKS_PER_DOCUMENT]) <= MAX_CHUNK_OUTPUT_CHARS
    case OutputTooLarge(actual) =>
      exists k :: 0 <= k < |spans| && k < MAX_CHUNKS_PER_DOCUMENT
        && Total(spans[..k]) <= MAX_CHUNK_OUTPUT_CHARS < Total(spans[..k + 1]) == actual
  }

  lemma {:induction false} TotalGrows(spans: seq<Span>, k: nat)
    requires forall s :: s in spans ==> s.start < s.end
    requires k <= |spans|
    ensures Total(spans[..k]) <= Total(spans)
    decreases |spans|
  {
    if k < |spans| {
      var m := |spans| - 1;
      TotalGrows(spans[..m], k);
      assert spans[..m][..k] == spans[..k];
    } else {
      assert spans[..k] == spans;
    }
  }

  lemma {:induction false} SpansAreProper(source: string, start: nat, p: Profile)
    requires start <= |source| && p.maxChars >= 1
    ensures forall s :: s in Spans(source, start, p) ==> s.start < s.end <= |source| && Size(s) <= p.maxChars
    decreases |source| - start
  {
    if start < |source| {
      var s := Span(start, EndFrom(source, start, p));
      if s.end < |source| {
        SpansAreProper(source, s.end - Rewind(s, p), p);
      }
    }
  }

  /** One cut: the window, then the break in it, by byte offsets. */
  method CutFrom(source: string, startByte: nat, startChar: nat, p: Profile) returns (endByte: nat, endChar: nat)
    requires p.maxChars >= 1 && startChar < |source| && startByte == ByteLen(source[..startChar])
    ensures endChar == EndFrom(source, startChar, p) && endByte == ByteLen(source[..endChar])
  {
    hide ByteLen, BreakAt;
    CharIndexOf(source, startChar);
    var rest := source[startChar..];
    var hardBytes, hardChars := BoundedWindowEnd(source, startByte, p.maxChars);
    var hard := startChar + hardChars;
    assert rest[..hardChars] == source[startChar..hard];
    SliceOf(source, startChar, hard);
    assert source[..|source|] == source;
    if hard < |source| {
      PrefixesGrow(source, hard, |source|);
    }
    if startByte + hardBytes == ByteLen(source) {
      return startByte + hardBytes, startChar + hardChars;
    }
    var w := Slice(source, startByte, startByte + hardBytes);
    assert hard < |source| && hardChars == p.maxChars;
    var bytes, chars := StructuralBreak(w);
    SliceOf(source, startChar, startChar + chars);
    assert w[..chars] == source[startChar..startChar + chars];
    return startByte + bytes, startChar + chars;
  }

  lemma NextSpan(source: string, start: nat, p: Profile, all: seq<Span>, k: nat)
    requires p.maxChars >= 1 && start < |source| && k <= |all| && all[k..] == Spans(source, start, p)
    ensures k < |all|
    ensures var s := Span(start, EndFrom(source, start, p));
            all[k] == s && all[k + 1..] == if s.end == |source| then [] else Spans(source, s.end - Rewind(s, p), p)
    ensures all[..k + 1] == all[..k] + [all[k]]
    ensures Total(all[..k + 1]) == Total(all[..k]) + Size(all[k])
  {
    hide EndFrom, Rewind;
    assert all[k] == all[k..][0] && all[k + 1..] == all[k..][1..];
    assert all[..k + 1][..k] == all[..k];
  }

  lemma NoSpans(source: string, p: Profile)
    requires p.maxChars >= 1
    ensures Spans(source, |source|, p) == [] && Total([]) == 0
  {
  }

  lemma PrefixReachesEnd(source: string, k: nat)
    requires k <= |source| && ByteLen(source[..k]) >= ByteLen(source)
    ensures k == |source|
  {
    assert source[..|source|] == source;
    if k < |source| {
      PrefixesGrow(source, k, |source|);
    }
  }

  /**
   Cuts a document into chunks. The byte cursor only ever names the character position the
   character cursor counts, so no slice splits a character.
   */
  method ChunkDocument(source: string, p: Profile) returns (r: Result<seq<Chunk>, ChunkError>)
    requires p.Valid()
    ensures r.Ok? <==> Accepted(source, p)
    ensures r.Ok? ==> CitesAll(r.value, Spans(source, 0, p), source)
    ensures r.Err? ==> Refused(source, p, r.error)
  {
    hide ByteLen, EndFrom, Rewind, Spans, Total, Slice, CharIndex;
    NoSpans(source, p);
    if |source| > MAX_CHUNK_SOURCE_CHARS {
      return Err(SourceTooLarge(|source|));
    }
    if source == [] {
      return Ok([]);
    }
    ghost var all := Spans(source, 0, p);
    SpansAreProper(source, 0, p);
    var chunks: seq<Chunk> := [];
    var emitted: nat := 0;
    var startByte: nat, startChar: nat := 0, 0;
    EmptyPrefix(source);
    assert source[..|source|] == source;
    while startByte < ByteLen(source)
      invariant startChar <= |source| && startByte == ByteLen(source[..startChar])
      invariant |chunks| <= |all| && all[|chunks|..] == Spans(source, startChar, p)
      invariant CitesAll(chunks, all[..|chunks|], source)
      invariant emitted == Total(all[..|chunks|]) <= MAX_CHUNK_OUTPUT_CHARS
      invariant |chunks| <= MAX_CHUNKS_PER_DOCUMENT
      decreases |source| - startChar
    {
      ghost var k := |chunks|;
      var endByte, endChar := CutFrom(source, startByte, startChar, p);
      NextSpan(source, startChar, p, all, k);
      if |chunks| >= MAX_CHUNKS_PER_DOCUMENT {
        return Err(TooManyChunks);
      }
      emitted := emitted + (endChar - startChar);
      if emitted > MAX_CHUNK_OUTPUT_CHARS {
        TotalGrows(all, k + 1);
        return Err(OutputTooLarge(emitted));
      }
      SliceOf(source, startChar, endChar);
      SliceOf(source, endChar, |source|);
      chunks := chunks + [Chunk(|chunks|, startChar, endChar, Slice(source, startByte, endByte))];
      if endByte >= ByteLen(source) {
        assert endChar == |source| by { PrefixReachesEnd(source, endChar); }
        break;
      }
      var back := Rewind(Span(startChar, endChar), p);
      CharIndexOf(source, endChar);
      startByte := RewindCharacters(source, endByte, back);
      startChar := endChar - back;
    }
    if startByte >= ByteLen(source) {
      PrefixReachesEnd(source, startChar);
    }
    assert all[|chunks|..] == [];
    assert all[..|chunks|] == all;
    return Ok(chunks);
  }

  // ---------- what the spans guarantee ----------

  /**
   Consecutive spans: each starts after the last start, reaches back by the overlap as far as it can, and leaves
   no gap.
   */
  ghost predicate Chained(spans: seq<Span>, p: Profile) {
    forall i :: 0 <= i < |spans| - 1 ==>
      && spans[i].start < spans[i + 1].start <= spans[i].end
      && spans[i + 1].start == Later(spans[i].start + 1, spans[i].end - p.overlapChars)
  }

  function Later(a: int, b: int): int { if a > b then a else b }

  lemma RewindReaches(s: Span, p: Profile)
    requires s.start < s.end
    ensures s.end - Rewind(s, p) == Later(s.start + 1, s.end - p.overlapChars)
  {
  }

  /** The text of the spans when each gives up the tail that the next one starts in. */
  function Rebuild(spans: seq<Span>, source: string): string
    requires forall i :: 0 <= i < |spans| ==> spans[i].start <= spans[i].end <= |source|
    requires forall i :: 0 <= i < |spans| - 1 ==> spans[i].start <= spans[i + 1].start <= spans[i].end
  {
    if spans == [] then ""
    else if |spans| == 1 then source[spans[0].start..spans[0].end]
    else source[spans[0].start..spans[0].end][..spans[1].start - spans[0].start] + Rebuild(spans[1..], source)
  }

  lemma {:induction false} SpansCover(source: string, start: nat, p: Profile)
    requires start < |source| && p.maxChars >= 1
    ensures var spans := Spans(source, start, p);
            spans != [] && spans[0].start == start && spans[|spans| - 1].end == |source| && Chained(spans, p)
    decreases |source| - start
  {
    hide EndFrom, Rewind, Chained;
    var s := Span(start, EndFrom(source, start, p));
    if s.end < |source| {
      var rest := Spans(source, s.end - Rewind(s, p), p);
      SpansCover(source, s.end - Rewind(s, p), p);
      RewindReaches(s, p);
      PrependChained(s, rest, p);
    } else {
      OneChained(s, p);
    }
  }

  lemma OneChained(s: Span, p: Profile)
    ensures Chained([s], p)
  {
  }

  lemma PrependChained(s: Span, rest: seq<Span>, p: Profile)
    requires rest != [] && Chained(rest, p)
    requires s.start < rest[0].start <= s.end && rest[0].start == Later(s.start + 1, s.end - p.overlapChars)
    ensures Chained([s] + rest, p)
  {
    hide Later;
    var spans := [s] + rest;
    forall i | 0 <= i < |spans| - 1
      ensures && spans[i].start < spans[i + 1].start <= spans[i].end
              && spans[i + 1].start == Later(spans[i].start + 1, spans[i].end - p.overlapChars)
    {
      if i > 0 {
        assert spans[i] == rest[i - 1] && spans[i + 1] == rest[i];
      }
    }
  }

  lemma {:induction false} ChainRebuilds(spans: seq<Span>, source: string, p: Profile)
    requires spans != [] && Chained(spans, p) && spans[|spans| - 1].end == |source|
    requires forall i :: 0 <= i < |spans| ==> spans[i].start < spans[i].end <= |source|
    ensures Rebuild(spans, source) == source[spans[0].start..]
  {
    hide Later;
    if |spans| > 1 {
      var rest := spans[1..];
      ChainedTail(spans, p);
      ChainRebuilds(rest, source, p);
      var a, b := spans[0].start, spans[1].start;
      GlueTail(source, a, b, spans[0].end);
    }
  }

  lemma GlueTail(source: string, a: nat, b: nat, end: nat)
    requires a <= b <= end <= |source|
    ensures source[a..end][..b - a] + source[b..] == source[a..]
  {
    assert source[a..end][..b - a] == source[a..b];
  }

  lemma ChainedTail(spans: seq<Span>, p: Profile)
    requires |spans| > 1 && Chained(spans, p)
    ensures Chained(spans[1..], p)
  {
    hide Later;
    var rest := spans[1..];
    forall i | 0 <= i < |rest| - 1
      ensures && rest[i].start < rest[i + 1].start <= rest[i].end
              && rest[i + 1].start == Later(rest[i].start + 1, rest[i].end - p.overlapChars)
    {
      assert rest[i] == spans[i + 1] && rest[i + 1] == spans[i + 2];
    }
  }

  /** Coverage, progress, bounded size, and a source that can be put together again. */
  lemma SpansRebuildSource(source: string, p: Profile)
    requires p.maxChars >= 1
    ensures var spans := Spans(source, 0, p);
            && (forall i :: 0 <= i < |spans| ==> 1 <= Size(spans[i]) <= p.maxChars && spans[i].end <= |source|)
            && Chained(spans, p)
            && (source != [] ==> spans != [] && spans[0].start == 0 && spans[|spans| - 1].end == |source|)
            && Rebuild(spans, source) == source
  {
    hide EndFrom, Rewind;
    SpansAreProper(source, 0, p);
    if source != [] {
      SpansCover(source, 0, p);
      ChainRebuilds(Spans(source, 0, p), source, p);
      assert source[0..] == source;
    }
  }

  // ---------- ends may go backwards ----------

  predicate EndsAscend(spans: seq<Span>) {
    forall i :: 0 <= i < |spans| - 1 ==> spans[i].end <= spans[i + 1].end
  }

  lemma SmallOverlapAscends(source: string, p: Profile)
    requires p.maxChars >= 1 && p.overlapChars <= 1
    ensures EndsAscend(Spans(source, 0, p))
  {
    SpansRebuildSource(source, p);
    var spans := Spans(source, 0, p);
    forall i | 0 <= i < |spans| - 1 ensures spans[i].end <= spans[i + 1].end {
      assert Size(spans[i + 1]) >= 1;
    }
  }

  function Repeat(c: char, n: nat): string {
    seq(n, _ => c)
  }

  /** A full stop at the end of the first window, and a space where the second window begins. */
  function Witness(p: Profile): string
    requires p.Valid() && p.overlapChars >= 2
  {
    Repeat('x', p.maxChars - p.overlapChars) + " " + Repeat('x', p.overlapChars - 2) + "."
      + Repeat('z', p.maxChars - p.overlapChars + 1)
  }

  lemma LastBreakIs(kind: BreakKind, w: string, k: nat)
    requires k <= |w| && (k > 0 ==> BreaksAfter(kind, w, k))
    requires forall j :: k < j <= |w| ==> !BreaksAfter(kind, w, j)
    ensures LastBreak(kind, w, |w|) == k
  {
  }

  /** With an overlap of at least two there is an accepted document whose second chunk ends before its first. */
  lemma LargeOverlapWitness(p: Profile)
    requires p.Valid() && p.overlapChars >= 2
    ensures Accepted(Witness(p), p) && !EndsAscend(Spans(Witness(p), 0, p))
  {
    hide EndFrom, Witness, Total;
    var m, o := p.maxChars, p.overlapChars;
    var s := Witness(p);
    FirstCut(p);
    SecondCut(p);
    ThirdCut(p);
    var a, b, c := Span(0, m), Span(m - o, m - o + 1), Span(m - o + 1, |s|);
    assert Rewind(a, p) == o && Rewind(b, p) == 0;
    assert Spans(s, c.start, p) == [c];
    assert Spans(s, b.start, p) == [b] + [c];
    assert Spans(s, 0, p) == [a] + ([b] + [c]) == [a, b, c];
    TotalOfThree(a, b, c);
    assert Spans(s, 0, p)[0].end > Spans(s, 0, p)[1].end;
  }

  lemma TotalOfThree(a: Span, b: Span, c: Span)
    ensures Total([a, b, c]) == Size(a) + Size(b) + Size(c)
  {
    assert Total([a]) == Size(a);
    assert [a, b][..1] == [a] && Total([a, b]) == Total([a]) + Size(b);
    assert [a, b, c][..2] == [a, b];
  }

  lemma FirstCut(p: Profile)
    requires p.Valid() && p.overlapChars >= 2
    ensures EndFrom(Witness(p), 0, p) == p.maxChars
  {
    var m := p.maxChars;
    var w := Witness(p)[0..m];
    assert w[m - 1] == '.';
    assert forall i :: 0 <= i < m - 1 ==> w[i] == 'x' || w[i] == ' ';
    LastBreakIs(Paragraph, w, 0);
    LastBreakIs(Line, w, 0);
    LastBreakIs(Sentence, w, m);
  }

  lemma SecondCut(p: Profile)
    requires p.Valid() && p.overlapChars >= 2
    ensures p.maxChars < |Witness(p)|
    ensures EndFrom(Witness(p), p.maxChars - p.overlapChars, p) == p.maxChars - p.overlapChars + 1
  {
    var m, o := p.maxChars, p.overlapChars;
    var w := Witness(p)[m - o..m - o + m];
    assert w[0] == ' ' && w[o - 1] == '.' && w[o] == 'z';
    assert forall i :: 1 <= i < m && i != o - 1 ==> w[i] == 'x' || w[i] == 'z';
    SpaceFirst(w, o - 1);
  }

  lemma SpaceFirst(w: string, dot: nat)
    requires 1 <= dot < |w| - 1 && w[0] == ' ' && w[dot] == '.'
    requires forall i :: 1 <= i < |w| && i != dot ==> w[i] == 'x' || w[i] == 'z'
    ensures BreakAt(w) == 1
  {
    hide LastBreak;
    LastBreakIs(Paragraph, w, 0);
    LastBreakIs(Line, w, 0);
    LastBreakIs(Sentence, w, 0);
    LastBreakIs(Whitespace, w, 1);
  }

  lemma ThirdCut(p: Profile)
    requires p.Valid() && p.overlapChars >= 2
    ensures |Witness(p)| == 2 * p.maxChars - p.overlapChars + 1
    ensures EndFrom(Witness(p), p.maxChars - p.overlapChars + 1, p) == |Witness(p)|
  {
  }

  /** Chunk ends never go backwards, for every accepted document, exactly when the overlap is at most one character. */
  lemma EndsAscendIffSmallOverlap(p: Profile)
    requires p.Valid()
    ensures (forall source :: Accepted(source, p) ==> EndsAscend(Spans(source, 0, p))) <==> p.overlapChars <= 1
  {
    if p.overlapChars <= 1 {
      forall source | Accepted(source, p) ensures EndsAscend(Spans(source, 0, p)) {
        SmallOverlapAscends(source, p);
      }
    } else {
      LargeOverlapWitness(p);
    }
  }
}
