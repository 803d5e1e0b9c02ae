/**
 What the drafts of a block cite and keep (crates/context-build/src/token_chunking.rs).
 */
module TokenCitations {
  import opened TokenWindows
  import opened Utf8
  import opened Words
  import opened Wrappers

  /** The source range of a draft holds every byte of this token of a block that holds its own text. */
  ghost predicate CitesToken(d: Draft, block: Block, t: Token) {
    d.startByte <= block.startByte + t.start && block.startByte + t.end <= d.endByte
  }

  /**
   The draft of a window that is not the whole block starts where a token starts, ends where one
   ends, and cites exactly the tokens of the window.
   */
  lemma PartCitesItsTokens(block: Block, tokens: seq<Token>, w: Window, i: nat)
    requires block.retrievalMapsSource && w.start < w.end <= |tokens| && Ordered(tokens) && i < |tokens|
    requires !(w.start == 0 && w.end == |tokens|)
    ensures var d := DraftOf(block, tokens, w);
            && (CitesToken(d, block, tokens[i]) <==> w.start <= i < w.end)
            && (exists k :: 0 <= k < |tokens| && d.startByte == block.startByte + tokens[k].start)
            && (exists k :: 0 <= k < |tokens| && d.endByte == block.startByte + tokens[k].end)
            && d.tokenCount == w.end - w.start
  {
    var d, first, last := DraftOf(block, tokens, w), tokens[w.start], tokens[w.end - 1];
    assert d.startByte == block.startByte + first.start && d.endByte == block.startByte + last.end;
    assert i < w.start ==> tokens[i].end < first.start;
    assert w.start < i ==> first.end < tokens[i].start;
    assert w.end - 1 < i ==> last.end < tokens[i].start;
    assert i < w.end - 1 ==> tokens[i].end < last.start;
  }

  /** Every other draft cites its whole block. */
  lemma WholeBlockIsCited(block: Block, tokens: seq<Token>, w: Window)
    requires w.start < w.end <= |tokens|
    requires !block.retrievalMapsSource || (w.start == 0 && w.end == |tokens|)
    ensures DraftOf(block, tokens, w) == Draft(block.startByte, block.endByte, w.end - w.start)
  {
  }

  /** Between them the drafts of a block leave no token uncited. */
  lemma EveryTokenIsCited(block: Block, alphanumeric: char -> bool, p: Profile, i: nat)
    requires p.Valid() && block.retrievalMapsSource && block.startByte + ByteLen(block.text) <= block.endByte
    requires i < |TokensOf(block.text, alphanumeric)|
    ensures var tokens := TokensOf(block.text, alphanumeric);
            var ws := BlockWindows(|tokens|, p);
            exists k :: 0 <= k < |ws| && CitesToken(DraftOf(block, tokens, ws[k]), block, tokens[i])
  {
    hide TokensOf, Windows, DraftOf;
    var tokens := TokensOf(block.text, alphanumeric);
    var ws := BlockWindows(|tokens|, p);
    EveryTokenIsInAWindow(|tokens|, p, i);
    var k :| 0 <= k < |ws| && ws[k].start <= i < ws[k].end;
    if ws[k].start == 0 && ws[k].end == |tokens| {
      WholeBlockIsCited(block, tokens, ws[k]);
    } else {
      PartCitesItsTokens(block, tokens, ws[k], i);
    }
    assert CitesToken(DraftOf(block, tokens, ws[k]), block, tokens[i]);
  }

  // ---------- kept text ----------

  ghost predicate Blank(s: string) {
    forall i :: 0 <= i < |s| ==> IsWhitespace(s[i])
  }

  lemma {:induction false} TrimStartIs(s: string) returns (a: nat)
    ensures a <= |s| && TrimStart(s) == s[a..] && Blank(s[..a]) && (a < |s| ==> !IsWhitespace(s[a]))
  {
    hide IsWhitespace;
    if s != [] && IsWhitespace(s[0]) {
      a := TrimStartIs(s[1..]);
      assert s[1..][a..] == s[a + 1..];
      assert s[..a + 1] == [s[0]] + s[1..][..a];
      a := a + 1;
    } else {
      a := 0;
      assert s[0..] == s;
    }
  }

  lemma {:induction false} TrimEndIs(s: string) returns (b: nat)
    ensures b <= |s| && TrimEnd(s) == s[..b] && Blank(s[b..]) && (b > 0 ==> !IsWhitespace(s[b - 1]))
  {
    hide IsWhitespace;
    if s != [] && IsWhitespace(s[|s| - 1]) {
      var n := |s| - 1;
      b := TrimEndIs(s[..n]);
      assert s[..n][..b] == s[..b];
      assert s[b..] == s[..n][b..] + [s[n]];
    } else {
      b := |s|;
      assert s[..b] == s;
    }
  }

  /** A whole block keeps its text without the whitespace around it. */
  lemma WholeBlockKeepsTrimmedText(block: Block, tokens: seq<Token>, w: Window) returns (a: nat, b: nat)
    requires w.start == 0 < w.end == |tokens| && Ordered(tokens)
    ensures a <= b <= |block.text| && TextBytes(block, tokens, w) == ByteLen(block.text[a..b])
    ensures Blank(block.text[..a]) && Blank(block.text[b..])
    ensures a < b ==> !IsWhitespace(block.text[a]) && !IsWhitespace(block.text[b - 1])
  {
    hide IsWhitespace, ByteLen, TrimStart, TrimEnd, Blank;
    var s := block.text;
    a := TrimStartIs(s);
    var rest := s[a..];
    var c := TrimEndIs(rest);
    b := a + c;
    assert rest[..c] == s[a..b] && rest[c..] == s[b..];
  }

  /** A part of a block keeps the text from its first token to its last: the bytes its draft cites. */
  lemma PartKeepsItsCitation(block: Block, tokens: seq<Token>, w: Window)
    requires block.retrievalMapsSource && w.start < w.end <= |tokens| && Ordered(tokens)
    requires !(w.start == 0 && w.end == |tokens|)
    ensures var d := DraftOf(block, tokens, w);
            TextBytes(block, tokens, w) == d.endByte - d.startByte
  {
  }

  /** The path of a block in one piece. */
  function Concatenated(path: seq<string>): string {
    if path == [] then "" else Concatenated(path[..|path| - 1]) + path[|path| - 1]
  }

  lemma {:induction false} SegmentsAddUp(path: seq<string>)
    ensures SegmentBytes(path) == ByteLen(Concatenated(path))
  {
    if path != [] {
      SegmentsAddUp(path[..|path| - 1]);
      ByteLenAppend(Concatenated(path[..|path| - 1]), path[|path| - 1]);
    }
  }

  /** The text kept by the first k windows. */
  function TextTotal(block: Block, tokens: seq<Token>, ws: seq<Window>, k: nat): nat
    requires k <= |ws| && Ordered(tokens) && forall i :: 0 <= i < |ws| ==> ws[i].start < ws[i].end <= |tokens|
  {
    if k == 0 then 0 else TextTotal(block, tokens, ws, k - 1) + TextBytes(block, tokens, ws[k - 1])
  }

  /** The drafts of a block retain their texts, and each a record and a copy of the block's path. */
  lemma {:induction false} RetainedIs(block: Block, sizes: Sizes, tokens: seq<Token>, ws: seq<Window>, k: nat)
    requires k <= |ws| && Ordered(tokens) && forall i :: 0 <= i < |ws| ==> ws[i].start < ws[i].end <= |tokens|
    ensures RetainedBytes(block, sizes, tokens, ws, k) == TextTotal(block, tokens, ws, k)
            + k * (sizes.draft + |block.path| * sizes.segment + ByteLen(Concatenated(block.path)))
  {
    hide TextBytes, Concatenated, ByteLen, SegmentBytes;
    if k > 0 {
      RetainedIs(block, sizes, tokens, ws, k - 1);
      SegmentsAddUp(block.path);
      var each := sizes.draft + |block.path| * sizes.segment + ByteLen(Concatenated(block.path));
      assert k * each == (k - 1) * each + each;
    }
  }

  // ---------- the deadline ----------

  /** The polls before the first window are the one on entry and those of the tokenizer, without a gap. */
  lemma PollsAreConsecutive(c: Context, n: nat)
    ensures n < PollsBefore(c) <==>
            n == 0 || exists i :: 0 <= i < |c.block.text| && i % CHARACTERS_PER_POLL == 0
                        && n == 1 + i / CHARACTERS_PER_POLL
  {
    if 0 < n < PollsBefore(c) {
      var i := (n - 1) * CHARACTERS_PER_POLL;
      assert i % CHARACTERS_PER_POLL == 0 && n == 1 + i / CHARACTERS_PER_POLL;
    }
  }
}
