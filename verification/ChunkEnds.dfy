/**
 When a chunk ends before the previous one (crates/context-build/src/chunking.rs): a full stop,
 exclamation or question mark at the very end of a window counts as a sentence end there, but
 not in the next window, where the character after it can be seen.
 */
module ChunkEnds {
  import opened Chunking
  import opened Utf8

  /** The span fills its window and ends in a sentence mark that no white space follows. */
  predicate CutsAtMark(source: string, s: Span, p: Profile) {
    && s.start + p.maxChars == s.end < |source| && s.start < s.end
    && source[s.end - 1] in ".!?" && !IsWhitespace(source[s.end])
  }

  /**
   The window that starts here does not reach the end of the source, has no line break, and its
   last sentence end, or without one its last white space, lies before `mark`. The last part
   says where the next window breaks; that there is no line break, and that the chunk before
   was cut at an uncovered mark, is what the theorem adds.
   */
  predicate PullsBack(source: string, start: nat, mark: nat, p: Profile)
    requires start <= |source| && p.maxChars >= 1
  {
    && start + p.maxChars < |source|
    && var w := source[start..start + p.maxChars];
       var sentence, space := LastBreak(Sentence, w, |w|), LastBreak(Whitespace, w, |w|);
       && LastBreak(Line, w, |w|) == 0
       && 0 < (if sentence > 0 then sentence else space) < mark - start
  }

  // ---------- one kind of break in two overlapping windows ----------

  /** The windows of a chunk and of the next one, and where the first chunk ends in each. */
  datatype Overlap = Overlap(first: string, second: string, shift: nat, end: nat) {
    /** The second window starts `shift` characters after the first and reaches beyond its end. */
    predicate Valid() {
      && 1 <= shift <= end <= |first| == |second|
      && forall i :: 0 <= i < |first| - shift ==> second[i] == first[i + shift]
    }

    function Mark(): nat
      requires Valid()
    {
      end - shift
    }
  }

  lemma EarlierBreakIsShared(kind: BreakKind, o: Overlap, x: nat)
    requires o.Valid() && x < o.Mark() && BreaksAfter(kind, o.second, x)
    ensures BreaksAfter(kind, o.first, x + o.shift)
  {
    hide IsWhitespace;
    var y := x + o.shift;
    assert o.second[x - 1] == o.first[y - 1] && o.second[x] == o.first[y];
    assert x >= 2 ==> o.second[x - 2] == o.first[y - 2];
  }

  /** A kind of break that the first window lacks is absent from the second up to the mark. */
  lemma AbsentStaysBeyond(kind: BreakKind, o: Overlap)
    requires o.Valid() && LastBreak(kind, o.first, |o.first|) == 0
    ensures var k := LastBreak(kind, o.second, |o.second|);
            k == 0 || k >= o.Mark()
  {
    var k := LastBreak(kind, o.second, |o.second|);
    if 0 < k < o.Mark() {
      EarlierBreakIsShared(kind, o, k);
    }
  }

  /** The break at the end of the first chunk is still one in the second window, except a mark that lost its cover. */
  lemma EndStaysBreak(kind: BreakKind, o: Overlap)
    requires o.Valid() && o.Mark() >= 2 && BreaksAfter(kind, o.first, o.end)
    requires kind == Sentence ==> IsWhitespace(o.second[o.Mark()])
    ensures LastBreak(kind, o.second, |o.second|) >= o.Mark()
  {
    hide IsWhitespace, LastBreak;
    var m := o.Mark();
    assert o.second[m - 1] == o.first[o.end - 1] && o.second[m - 2] == o.first[o.end - 2];
    assert BreaksAfter(kind, o.second, m);
  }

  lemma ParagraphIsLine(w: string)
    ensures LastBreak(Line, w, |w|) == 0 ==> LastBreak(Paragraph, w, |w|) == 0
  {
    var k := LastBreak(Paragraph, w, |w|);
    assert k > 0 ==> BreaksAfter(Line, w, k);
  }

  /** The second break falls before the end of the first chunk exactly in the mark's case. */
  lemma SecondBreakFallsBackIff(o: Overlap)
    requires o.Valid() && o.first != [] && o.end == BreakAt(o.first)
    ensures BreakAt(o.second) < o.Mark() <==>
            && o.end == |o.first| && o.first[o.end - 1] in ".!?" && !IsWhitespace(o.second[o.Mark()])
            && LastBreak(Line, o.second, |o.second|) == 0
            && var sentence := LastBreak(Sentence, o.second, |o.second|);
               var space := LastBreak(Whitespace, o.second, |o.second|);
               0 < (if sentence > 0 then sentence else space) < o.Mark()
  {
    hide LastBreak, IsWhitespace;
    ParagraphIsLine(o.second);
    if BreakAt(o.second) < o.Mark() {
      FallingBackNeedsMark(o);
    }
  }

  lemma FallingBackNeedsMark(o: Overlap)
    requires o.Valid() && o.first != [] && o.end == BreakAt(o.first) && BreakAt(o.second) < o.Mark()
    ensures o.end == |o.first| && o.first[o.end - 1] in ".!?" && !IsWhitespace(o.second[o.Mark()])
    ensures LastBreak(Line, o.second, |o.second|) == 0
  {
    hide LastBreak, BreaksAfter, IsWhitespace;
    assert o.Mark() >= 2;
    var w := o.first;
    if LastBreak(Paragraph, w, |w|) > 0 {
      EndStaysBreak(Paragraph, o);
    } else {
      AbsentStaysBeyond(Paragraph, o);
      if LastBreak(Line, w, |w|) > 0 {
        EndStaysBreak(Line, o);
      } else {
        AbsentStaysBeyond(Line, o);
        FallingBackWithoutLines(o);
      }
    }
  }

  lemma FallingBackWithoutLines(o: Overlap)
    requires o.Valid() && o.first != [] && o.end == BreakAt(o.first) && o.Mark() >= 2
    requires LastBreak(Paragraph, o.first, |o.first|) == 0 && LastBreak(Line, o.first, |o.first|) == 0
    requires LastBreak(Line, o.second, |o.second|) == 0 && BreakAt(o.second) < o.Mark()
    ensures o.end == |o.first| && o.first[o.end - 1] in ".!?" && !IsWhitespace(o.second[o.Mark()])
  {
    hide LastBreak, IsWhitespace;
    ParagraphIsLine(o.second);
    var w := o.first;
    if LastBreak(Sentence, w, |w|) > 0 {
      assert BreaksAfter(Sentence, w, o.end);
      if IsWhitespace(o.second[o.Mark()]) {
        EndStaysBreak(Sentence, o);
      }
    } else {
      AbsentStaysBeyond(Sentence, o);
      if LastBreak(Whitespace, w, |w|) > 0 {
        EndStaysBreak(Whitespace, o);
      } else {
        AbsentStaysBeyond(Whitespace, o);
      }
    }
  }

  // ---------- consecutive chunks ----------

  /** One cut and the next: the next ends earlier exactly when the cut is at a mark and the next window pulls back. */
  lemma NextEndFallsBackIff(source: string, start: nat, p: Profile)
    requires start < |source| && p.maxChars >= 1 && EndFrom(source, start, p) < |source|
    ensures var s := Span(start, EndFrom(source, start, p));
            var next := s.end - Rewind(s, p);
            EndFrom(source, next, p) < s.end <==> CutsAtMark(source, s, p) && PullsBack(source, next, s.end, p)
  {
    hide LastBreak, BreaksAfter, IsWhitespace, BreakAt;
    var s := Span(start, EndFrom(source, start, p));
    var next := s.end - Rewind(s, p);
    if next + p.maxChars < |source| {
      var o := Overlap(source[start..start + p.maxChars], source[next..next + p.maxChars], next - start, s.end - start);
      assert o.second[o.Mark()] == source[s.end];
      assert o.first[o.end - 1] == source[s.end - 1];
      SecondBreakFallsBackIff(o);
    }
  }

  lemma {:induction false} SpansAreCuts(source: string, start: nat, p: Profile, i: nat)
    requires start <= |source| && p.maxChars >= 1 && i < |Spans(source, start, p)|
    ensures var spans := Spans(source, start, p);
            && spans[i].start < |source| && spans[i].end == EndFrom(source, spans[i].start, p)
            && (i < |spans| - 1 ==> spans[i].end < |source| && spans[i + 1].start == spans[i].end - Rewind(spans[i], p))
    decreases |source| - start
  {
    hide EndFrom, Rewind;
    var s := Span(start, EndFrom(source, start, p));
    if s.end < |source| {
      var next := s.end - Rewind(s, p);
      var rest := Spans(source, next, p);
      assert Spans(source, start, p) == [s] + rest;
      if i > 0 {
        SpansAreCuts(source, next, p, i - 1);
      } else {
        SpansCover(source, next, p);
      }
    }
  }

  /** Chunk i is cut at a mark and the window of the next chunk pulls back before it. */
  predicate FallsBackAfter(source: string, spans: seq<Span>, i: nat, p: Profile)
    requires p.maxChars >= 1 && i + 1 < |spans|
  {
    && CutsAtMark(source, spans[i], p)
    && spans[i + 1].start <= |source| && PullsBack(source, spans[i + 1].start, spans[i].end, p)
  }

  /**
   A document's chunk ends never go backwards exactly when no chunk cut at a mark is followed by a window that
   pulls back.
   */
  lemma EndsAscendIffNothingPullsBack(source: string, p: Profile)
    requires p.maxChars >= 1
    ensures var spans := Spans(source, 0, p);
            EndsAscend(spans) <==> forall i :: 0 <= i < |spans| - 1 ==> !FallsBackAfter(source, spans, i, p)
  {
    hide CutsAtMark, PullsBack, EndFrom, Rewind, Spans;
    var spans := Spans(source, 0, p);
    forall i | 0 <= i < |spans| - 1 ensures spans[i].end <= spans[i + 1].end <==> !FallsBackAfter(source, spans, i, p) {
      SpansAreCuts(source, 0, p, i);
      SpansAreCuts(source, 0, p, i + 1);
      NextEndFallsBackIff(source, spans[i].start, p);
    }
  }
}
