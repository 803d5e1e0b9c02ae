/**
 Overlapping token windows of one parsed block (crates/context-build/src/token_chunking.rs).

 A draft records its source range and token count; its hash is not modelled. The deadline
 checkpoint is a function of how often it was polled. The in-memory sizes of a draft and of a
 path segment are parameters.
 */
module TokenWindows {
  import Chunking
  import opened Utf8
  import opened Words
  import opened Wrappers

  const MAX_TOKEN_CHUNK_OUTPUT_BYTES: nat := 32 * 1024 * 1024
  const USIZE_MAX: nat := 0xffff_ffff_ffff_ffff
  const MAX_TOKENS_PER_CHUNK: nat := 512

  datatype Profile = Profile(targetTokens: nat, maxTokens: nat, minTokens: nat, overlapTokens: nat) {
    predicate Valid() {
      && 1 <= minTokens <= targetTokens <= maxTokens <= MAX_TOKENS_PER_CHUNK
      && overlapTokens < targetTokens
    }
  }

  datatype Block = Block(startByte: nat, endByte: nat, text: string, path: seq<string>, retrievalMapsSource: bool)

  datatype Draft = Draft(startByte: nat, endByte: nat, tokenCount: nat)

  /** A window holds the tokens with index from `start` up to `end`. */
  datatype Window = Window(start: nat, end: nat)

  function Size(w: Window): int { w.end - w.start }

  // ---------- which windows a block is cut into ----------

  /** How many tokens the window takes when this many remain. */
  function Take(remaining: nat, p: Profile): (n: nat)
    requires p.Valid() && remaining > 0
    ensures 1 <= n <= p.maxTokens && n <= remaining
    ensures n < remaining ==> n > p.overlapTokens
  {
    if remaining <= p.maxTokens then
      remaining
    else if remaining - p.targetTokens + p.overlapTokens < p.minTokens then
      p.maxTokens
    else
      p.targetTokens
  }

  /** The windows over n tokens, from token `start` on. */
  function Windows(n: nat, start: nat, p: Profile): (r: seq<Window>)
    requires p.Valid() && start < n
    decreases n - start
  {
    var end := start + Take(n - start, p);
    [Window(start, end)] + if end == n then [] else Windows(n, end - p.overlapTokens, p)
  }

  function Total(ws: seq<Window>): int {
    if ws == [] then 0 else Size(ws[0]) + Total(ws[1..])
  }

  /** Neighbours share exactly the overlap, and each brings new tokens. */
  ghost predicate Chained(ws: seq<Window>, p: Profile) {
    forall i :: 0 <= i < |ws| - 1 ==>
      ws[i].start < ws[i + 1].start == ws[i].end - p.overlapTokens && ws[i].end < ws[i + 1].end
  }

  /** Windows that run from a token to the end of the block, each within the maximum. */
  ghost predicate Covers(ws: seq<Window>, n: nat, start: nat, p: Profile) {
    && ws != [] && ws[0].start == start && ws[|ws| - 1].end == n
    && (forall i :: 0 <= i < |ws| ==> 1 <= Size(ws[i]) <= p.maxTokens && ws[i].end <= n)
    && Chained(ws, p)
  }

  lemma {:induction false} WindowsCover(n: nat, start: nat, p: Profile)
    requires p.Valid() && start < n
    ensures Covers(Windows(n, start, p), n, start, p)
    decreases n - start
  {
    hide Take, Chained;
    var end := start + Take(n - start, p);
    var w := Window(start, end);
    if end < n {
      var next := end - p.overlapTokens;
      WindowsCover(n, next, p);
      FirstWindow(n, next, p);
      TakesNewTokens(n - start, p);
      ConsCovers(w, Windows(n, next, p), n, next, p);
    } else {
      assert Windows(n, start, p) == [w];
      OneChained(w, p);
    }
  }

  lemma FirstWindow(n: nat, start: nat, p: Profile)
    requires p.Valid() && start < n
    ensures Windows(n, start, p) != [] && Windows(n, start, p)[0] == Window(start, start + Take(n - start, p))
  {
    hide Take;
  }

  lemma OneChained(w: Window, p: Profile)
    ensures Chained([w], p)
  {
  }

  lemma ConsCovers(w: Window, rest: seq<Window>, n: nat, next: nat, p: Profile)
    requires Covers(rest, n, next, p)
    requires w.start < next == w.end - p.overlapTokens && w.end < rest[0].end && 1 <= Size(w) <= p.maxTokens
    ensures Covers([w] + rest, n, w.start, p)
  {
    hide Chained;
    var ws := [w] + rest;
    assert forall i :: 1 <= i < |ws| ==> ws[i] == rest[i - 1];
    ConsChained(w, rest, p);
  }

  lemma ConsChained(w: Window, rest: seq<Window>, p: Profile)
    requires rest != [] && Chained(rest, p)
    requires w.start < rest[0].start == w.end - p.overlapTokens && w.end < rest[0].end
    ensures Chained([w] + rest, p)
  {
    var ws := [w] + rest;
    forall i | 0 <= i < |ws| - 1
      ensures ws[i].start < ws[i + 1].start == ws[i].end - p.overlapTokens && ws[i].end < ws[i + 1].end
    {
      if i > 0 {
        assert ws[i] == rest[i - 1] && ws[i + 1] == rest[i];
      }
    }
  }

  /** The window after one that takes t of r tokens ends beyond it. */
  lemma TakesNewTokens(remaining: nat, p: Profile)
    requires p.Valid() && remaining > 0 && Take(remaining, p) < remaining
    ensures var next := remaining - Take(remaining, p) + p.overlapTokens;
            Take(next, p) > p.overlapTokens
  {
  }

  /** Emitted tokens: the block's own plus one overlap for every window after the first. */
  lemma {:induction false} TotalTokens(n: nat, start: nat, p: Profile)
    requires p.Valid() && start < n
    ensures var ws := Windows(n, start, p);
            Total(ws) == n - start + p.overlapTokens * (|ws| - 1)
    decreases n - start
  {
    hide Take;
    var end := start + Take(n - start, p);
    var ws := Windows(n, start, p);
    if end < n {
      var rest := Windows(n, end - p.overlapTokens, p);
      TotalTokens(n, end - p.overlapTokens, p);
      assert ws[0] == Window(start, end) && ws[1..] == rest;
      assert p.overlapTokens * |rest| == p.overlapTokens * (|rest| - 1) + p.overlapTokens;
    } else {
      assert ws == [Window(start, end)] && Total(ws[1..]) == 0;
    }
  }

  /** Every token is in some window. */
  lemma EveryTokenIsInAWindow(n: nat, p: Profile, token: nat)
    requires p.Valid() && token < n
    ensures exists i :: 0 <= i < |Windows(n, 0, p)| && Windows(n, 0, p)[i].start <= token < Windows(n, 0, p)[i].end
  {
    WindowsCover(n, 0, p);
    var ws := Windows(n, 0, p);
    var i := |ws| - 1;
    while ws[i].start > token
      invariant 0 <= i < |ws| && token < ws[i].end
    {
      i := i - 1;
    }
  }

  // ---------- the minimum size ----------

  predicate LastReachesMinimum(n: nat, start: nat, p: Profile)
    requires p.Valid() && start < n
  {
    var ws := Windows(n, start, p);
    Size(ws[|ws| - 1]) >= p.minTokens
  }

  lemma {:induction false} RoomyProfileReachesMinimum(n: nat, start: nat, p: Profile)
    requires p.Valid() && start < n && n - start >= p.minTokens
    requires p.maxTokens + 1 >= p.minTokens + p.targetTokens - p.overlapTokens
    ensures LastReachesMinimum(n, start, p)
    decreases n - start
  {
    if n - start > p.maxTokens {
      var next := start + p.targetTokens - p.overlapTokens;
      RoomyProfileReachesMinimum(n, next, p);
    }
  }

  /** One token more than fits a window: widening the first window leaves the second one short. */
  lemma TightProfileFallsShort(p: Profile)
    requires p.Valid() && p.maxTokens + 1 < p.minTokens + p.targetTokens - p.overlapTokens
    ensures !LastReachesMinimum(p.maxTokens + 1, 0, p)
  {
    var n := p.maxTokens + 1;
    assert Take(n, p) == p.maxTokens;
    var next := p.maxTokens - p.overlapTokens;
    assert Windows(n, next, p) == [Window(next, n)];
    assert Windows(n, 0, p) == [Window(0, p.maxTokens)] + [Window(next, n)];
  }

  /**
   The last window of every block with at least the minimum number of tokens reaches the
   minimum exactly when the profile leaves enough room between target and maximum.
   */
  lemma MinimumHoldsIff(p: Profile)
    requires p.Valid()
    ensures (forall n: nat :: n >= p.minTokens ==> LastReachesMinimum(n, 0, p))
            <==> p.maxTokens + 1 >= p.minTokens + p.targetTokens - p.overlapTokens
  {
    if p.maxTokens + 1 >= p.minTokens + p.targetTokens - p.overlapTokens {
      forall n: nat | n >= p.minTokens ensures LastReachesMinimum(n, 0, p) {
        RoomyProfileReachesMinimum(n, 0, p);
      }
    } else {
      TightProfileFallsShort(p);
    }
  }

  /**
   After i windows of the target size the rest is too long for one window, yet so short that
   the window is widened and leaves less than the minimum behind.
   */
  predicate Strands(n: nat, p: Profile, i: nat) {
    p.maxTokens < n - i * (p.targetTokens - p.overlapTokens) < p.minTokens + p.targetTokens - p.overlapTokens
  }

  lemma WidenedWindowStrands(n: nat, start: nat, p: Profile)
    requires p.Valid() && start < n
    requires p.maxTokens < n - start < p.minTokens + p.targetTokens - p.overlapTokens
    ensures !LastReachesMinimum(n, start, p)
  {
    var end := start + p.maxTokens;
    assert Take(n - start, p) == p.maxTokens;
    var next := end - p.overlapTokens;
    assert Windows(n, next, p) == [Window(next, n)];
    assert Windows(n, start, p) == [Window(start, end)] + [Window(next, n)];
  }

  /** After i windows of the target size, the rest of the block decides. */
  lemma {:induction false} LastReachesMinimumIff(n: nat, start: nat, p: Profile, i: nat)
    requires p.Valid() && start == i * (p.targetTokens - p.overlapTokens) && start < n && n - start >= p.minTokens
    ensures LastReachesMinimum(n, start, p) <==> forall k: nat :: k >= i ==> !Strands(n, p, k)
    decreases n - start
  {
    var step := p.targetTokens - p.overlapTokens;
    var left := n - start;
    if left <= p.maxTokens {
      assert Windows(n, start, p) == [Window(start, n)];
      forall k: nat | k >= i ensures !Strands(n, p, k) {
        ProductGrows(i, k, step);
      }
    } else if left < p.minTokens + step {
      WidenedWindowStrands(n, start, p);
      assert Strands(n, p, i);
    } else {
      assert (i + 1) * step == i * step + step;
      LastReachesMinimumIff(n, start + step, p, i + 1);
      LastIsLater(n, start, p);
      assert !Strands(n, p, i);
    }
  }

  lemma ProductGrows(i: nat, k: nat, step: nat)
    requires i <= k
    ensures i * step <= k * step
  {
  }

  lemma LastIsLater(n: nat, start: nat, p: Profile)
    requires p.Valid() && start < n && n - start > p.maxTokens
    requires n - start >= p.minTokens + p.targetTokens - p.overlapTokens
    ensures LastReachesMinimum(n, start, p) <==> LastReachesMinimum(n, start + p.targetTokens - p.overlapTokens, p)
  {
    var end := start + p.targetTokens;
    assert Take(n - start, p) == p.targetTokens;
    FirstWindow(n, end - p.overlapTokens, p);
  }

  /**
   The last window of a block with at least the minimum number of tokens reaches the minimum
   exactly when no number of target windows leaves a rest that strands.
   */
  lemma BlockReachesMinimumIff(n: nat, p: Profile)
    requires p.Valid() && n >= p.minTokens
    ensures LastReachesMinimum(n, 0, p) <==> forall i: nat :: !Strands(n, p, i)
  {
    assert 0 * (p.targetTokens - p.overlapTokens) == 0;
    LastReachesMinimumIff(n, 0, p, 0);
  }

  // ---------- appending the drafts of a block ----------

  function DraftOf(block: Block, tokens: seq<Token>, w: Window): Draft
    requires w.start < w.end <= |tokens|
  {
    if block.retrievalMapsSource && !(w.start == 0 && w.end == |tokens|) then
      Draft(block.startByte + tokens[w.start].start, block.startByte + tokens[w.end - 1].end, w.end - w.start)
    else
      Draft(block.startByte, block.endByte, w.end - w.start)
  }

  predicate InSource(d: Draft, sourceLen: nat) {
    d.startByte < d.endByte <= sourceLen
  }

  /** Every window of a block that holds its own text cites a non-empty range inside the block. */
  lemma DraftsStayInBlock(block: Block, alphanumeric: char -> bool, w: Window)
    requires block.startByte < block.endByte
    requires block.retrievalMapsSource ==> block.startByte + ByteLen(block.text) <= block.endByte
    requires w.start < w.end <= |TokensOf(block.text, alphanumeric)|
    ensures var d := DraftOf(block, TokensOf(block.text, alphanumeric), w);
            block.startByte <= d.startByte < d.endByte <= block.endByte
  {
    hide TokensOf;
    var tokens := TokensOf(block.text, alphanumeric);
    assert w.start < w.end - 1 ==> tokens[w.start].end < tokens[w.end - 1].start;
  }

  // ---------- the retained-output budget ----------

  /** In-memory sizes of a draft and of one path segment. */
  datatype Sizes = Sizes(draft: nat, segment: nat)

  function TrimStart(s: string): string {
    if s != [] && IsWhitespace(s[0]) then TrimStart(s[1..]) else s
  }

  function TrimEnd(s: string): string {
    if s != [] && IsWhitespace(s[|s| - 1]) then TrimEnd(s[..|s| - 1]) else s
  }

  /** Bytes of text a window keeps: the trimmed text of a whole block, else from its first to its last token. */
  function TextBytes(block: Block, tokens: seq<Token>, w: Window): nat
    requires w.start < w.end <= |tokens| && Ordered(tokens)
  {
    if w.start == 0 && w.end == |tokens| then
      ByteLen(TrimEnd(TrimStart(block.text)))
    else
      assert w.start < w.end - 1 ==> tokens[w.start].end < tokens[w.end - 1].start;
      tokens[w.end - 1].end - tokens[w.start].start
  }

  function SegmentBytes(path: seq<string>): nat {
    if path == [] then 0 else SegmentBytes(path[..|path| - 1]) + ByteLen(path[|path| - 1])
  }

  /** What keeping the draft of a window costs. */
  function RecordBytes(block: Block, sizes: Sizes, tokens: seq<Token>, w: Window): nat
    requires w.start < w.end <= |tokens| && Ordered(tokens)
  {
    sizes.draft + TextBytes(block, tokens, w) + (|block.path| * sizes.segment + SegmentBytes(block.path))
  }

  /** What keeping the drafts of the first k windows costs. */
  function RetainedBytes(block: Block, sizes: Sizes, tokens: seq<Token>, ws: seq<Window>, k: nat): nat
    requires k <= |ws| && Ordered(tokens) && forall i :: 0 <= i < |ws| ==> ws[i].start < ws[i].end <= |tokens|
  {
    if k == 0 then 0
    else RetainedBytes(block, sizes, tokens, ws, k - 1) + RecordBytes(block, sizes, tokens, ws[k - 1])
  }

  /** Why a record that brings the retained bytes to this total is refused, if it is. */
  function AdmissionFailure(projected: nat): Option<TokenChunkError> {
    if projected > USIZE_MAX then Some(ArithmeticOverflow)
    else if projected > MAX_TOKEN_CHUNK_OUTPUT_BYTES then Some(StructureLimitExceeded)
    else None
  }

  // ---------- one block ----------

  /** Everything a block is cut under: the document so far, the deadline, and the sizes of records. */
  datatype Context = Context(sourceLen: nat, block: Block, existing: nat, documentTokens: nat, retained: nat,
                             sizes: Sizes, alphanumeric: char -> bool, checkpoint: nat -> bool)

  function BlockTokens(c: Context): seq<Token> {
    TokensOf(c.block.text, c.alphanumeric)
  }

  /** Polls before the first window: one on entry, then one for every so many characters. */
  function PollsBefore(c: Context): nat {
    1 + (|c.block.text| + CHARACTERS_PER_POLL - 1) / CHARACTERS_PER_POLL
  }

  /** Why window k is refused, if it is, with this many bytes retained before it. */
  function Failure(c: Context, tokens: seq<Token>, w: Window, k: nat, retained: nat): Option<TokenChunkError>
    requires w.start < w.end <= |tokens| && Ordered(tokens)
  {
    if !c.checkpoint(PollsBefore(c) + k) then Some(DeadlineExceeded)
    else if c.existing + k >= Chunking.MAX_CHUNKS_PER_DOCUMENT then Some(TooManyChunks)
    else if !InSource(DraftOf(c.block, tokens, w), c.sourceLen) then Some(ArithmeticOverflow)
    else AdmissionFailure(retained + RecordBytes(c.block, c.sizes, tokens, w))
  }

  /** The windows of a block; a block without tokens has none. */
  function BlockWindows(n: nat, p: Profile): (ws: seq<Window>)
    requires p.Valid()
    ensures forall i :: 0 <= i < |ws| ==> ws[i].start < ws[i].end <= n
  {
    if n == 0 then [] else
      WindowsCover(n, 0, p);
      Windows(n, 0, p)
  }

  function WindowsOf(c: Context, p: Profile): (ws: seq<Window>)
    requires p.Valid()
    ensures forall i :: 0 <= i < |ws| ==> ws[i].start < ws[i].end <= |BlockTokens(c)|
  {
    BlockWindows(|BlockTokens(c)|, p)
  }

  /** Bytes retained after the first k windows of the block. */
  function RetainedAfter(c: Context, p: Profile, k: nat): nat
    requires p.Valid() && k <= |WindowsOf(c, p)|
  {
    c.retained + RetainedBytes(c.block, c.sizes, BlockTokens(c), WindowsOf(c, p), k)
  }

  /** Why window k of the block is refused, if it is. */
  function FailureAt(c: Context, p: Profile, k: nat): Option<TokenChunkError>
    requires p.Valid() && k < |WindowsOf(c, p)|
  {
    Failure(c, BlockTokens(c), WindowsOf(c, p)[k], k, RetainedAfter(c, p, k))
  }

  /** The block's text is tokenized in time and the document stays within its token ceiling. */
  ghost predicate Admitted(c: Context) {
    && c.checkpoint(0) && PollsPass(c.checkpoint, 1, CHARACTERS_PER_POLL, |c.block.text|)
    && c.documentTokens + |BlockTokens(c)| <= MAX_TOKENS_PER_DOCUMENT
  }

  /** Why it is not. */
  ghost predicate EntryFails(c: Context, e: TokenChunkError) {
    match e
    case DeadlineExceeded => !c.checkpoint(0) || !PollsPass(c.checkpoint, 1, CHARACTERS_PER_POLL, |c.block.text|)
    case TooManyTokens => c.documentTokens + |BlockTokens(c)| > MAX_TOKENS_PER_DOCUMENT
    case _ => false
  }

  /** The drafts so far, the tokens the document has used and the bytes it retains. */
  datatype Appended = Appended(drafts: seq<Draft>, documentTokens: nat, retained: nat)

  method AppendBlockChunks(c: Context, p: Profile, drafts: seq<Draft>) returns (r: Result<Appended, TokenChunkError>)
    requires p.Valid() && c.existing == |drafts|
    ensures r.Ok? <==> Admitted(c) && forall k :: 0 <= k < |WindowsOf(c, p)| ==> FailureAt(c, p, k).None?
    ensures r.Ok? ==> r.value.documentTokens == c.documentTokens + |BlockTokens(c)|
    ensures r.Ok? ==> r.value.retained == RetainedAfter(c, p, |WindowsOf(c, p)|)
    ensures r.Ok? && WindowsOf(c, p) != [] ==> r.value.retained <= MAX_TOKEN_CHUNK_OUTPUT_BYTES
    ensures r.Ok? ==> |r.value.drafts| == |drafts| + |WindowsOf(c, p)| && r.value.drafts[..|drafts|] == drafts
    ensures r.Ok? ==> forall k :: 0 <= k < |WindowsOf(c, p)| ==>
                        r.value.drafts[|drafts| + k] == DraftOf(c.block, BlockTokens(c), WindowsOf(c, p)[k])
    ensures r.Err? ==>
              || EntryFails(c, r.error)
              || (Admitted(c) && exists k ::
                    && 0 <= k < |WindowsOf(c, p)| && FailureAt(c, p, k) == Some(r.error)
                    && forall j :: 0 <= j < k ==> FailureAt(c, p, j).None?)
  {
    hide Failure, DraftOf, InSource, Windows, Take, Chained, TokensOf, RecordBytes, Covers;
    if !c.checkpoint(0) {
      return Err(DeadlineExceeded);
    }
    var words := UnicodeWords(c.block.text, c.alphanumeric, c.checkpoint, 1);
    if words.Err? {
      return Err(words.error);
    }
    var tokens := words.value;
    var documentTokens := c.documentTokens + |tokens|;
    if documentTokens > MAX_TOKENS_PER_DOCUMENT {
      return Err(TooManyTokens);
    }
    if tokens == [] {
      return Ok(Appended(drafts, documentTokens, c.retained));
    }
    r := CutWindows(c, tokens, p, drafts, documentTokens);
  }

  /** The windows of a block that has tokens. */
  method CutWindows(c: Context, tokens: seq<Token>, p: Profile, drafts: seq<Draft>, documentTokens: nat)
    returns (r: Result<Appended, TokenChunkError>)
    requires p.Valid() && c.existing == |drafts| && tokens == BlockTokens(c) != []
    ensures r.Ok? <==> forall k :: 0 <= k < |WindowsOf(c, p)| ==> FailureAt(c, p, k).None?
    ensures r.Ok? ==> r.value.documentTokens == documentTokens
    ensures r.Ok? ==> r.value.retained == RetainedAfter(c, p, |WindowsOf(c, p)|) <= MAX_TOKEN_CHUNK_OUTPUT_BYTES
    ensures r.Ok? ==> |r.value.drafts| == |drafts| + |WindowsOf(c, p)| && r.value.drafts[..|drafts|] == drafts
    ensures r.Ok? ==> forall k :: 0 <= k < |WindowsOf(c, p)| ==>
                        r.value.drafts[|drafts| + k] == DraftOf(c.block, tokens, WindowsOf(c, p)[k])
    ensures r.Err? ==> exists k ::
              && 0 <= k < |WindowsOf(c, p)| && FailureAt(c, p, k) == Some(r.error)
              && forall j :: 0 <= j < k ==> FailureAt(c, p, j).None?
  {
    hide Failure, DraftOf, InSource, Windows, Take, Chained, TokensOf, RecordBytes;
    var n := |tokens|;
    ghost var ws := WindowsOf(c, p);
    WindowsCover(n, 0, p);
    assert ws[0..] == ws;
    var out := drafts;
    var retained := c.retained;
    var start: nat := 0;
    ghost var k := 0;
    while start < n
      invariant start < n && k < |ws| && ws[k..] == Windows(n, start, p)
      invariant retained == RetainedAfter(c, p, k)
      invariant |out| == |drafts| + k && out[..|drafts|] == drafts
      invariant forall i :: 0 <= i < k ==> out[|drafts| + i] == DraftOf(c.block, tokens, ws[i])
      invariant forall i :: 0 <= i < k ==> FailureAt(c, p, i).None?
      decreases n - start
    {
      var windowTokens := WindowTokens(n - start, p);
      var end := start + windowTokens;
      NextWindow(n, start, p, ws, k);
      var w := Window(start, end);
      var failure, draft, projected := TryDraft(c, tokens, w, |out| - |drafts|, retained);
      assert failure == FailureAt(c, p, k);
      if failure.Some? {
        return Err(failure.value);
      }
      out := out + [draft];
      retained := projected;
      k := k + 1;
      if end == n {
        return Ok(Appended(out, documentTokens, retained));
      }
      start := end - p.overlapTokens;
    }
  }

  lemma NextWindow(n: nat, start: nat, p: Profile, ws: seq<Window>, k: nat)
    requires p.Valid() && start < n && k < |ws| && ws[k..] == Windows(n, start, p)
    ensures var end := start + Take(n - start, p);
            && ws[k] == Window(start, end)
            && (if end == n then |ws| == k + 1 else k + 1 < |ws| && ws[k + 1..] == Windows(n, end - p.overlapTokens, p))
  {
    hide Take;
    assert ws[k] == ws[k..][0] && ws[k + 1..] == ws[k..][1..];
    var end := start + Take(n - start, p);
    if end < n {
      FirstWindow(n, end - p.overlapTokens, p);
    }
  }

  function Min(a: nat, b: nat): nat {
    if a < b then a else b
  }

  /** The window size as computed step by step: target, then widened if what follows would be too short. */
  method WindowTokens(remaining: nat, p: Profile) returns (windowTokens: nat)
    requires p.Valid() && remaining > 0
    ensures windowTokens == Take(remaining, p)
  {
    windowTokens := if remaining <= p.maxTokens then remaining else p.targetTokens;
    if remaining > windowTokens {
      var nextRemaining := remaining - (windowTokens - p.overlapTokens);
      if nextRemaining < p.minTokens {
        windowTokens := Min(remaining, p.maxTokens);
      }
    }
  }

  /** Checks one window in source order and admits its draft to the retained bytes. */
  method TryDraft(c: Context, tokens: seq<Token>, w: Window, k: nat, retained: nat)
    returns (failure: Option<TokenChunkError>, draft: Draft, projected: nat)
    requires w.start < w.end <= |tokens| && Ordered(tokens)
    ensures failure == Failure(c, tokens, w, k, retained)
    ensures failure.None? ==> draft == DraftOf(c.block, tokens, w)
    ensures failure.None? ==> projected == retained + RecordBytes(c.block, c.sizes, tokens, w)
    ensures failure.None? ==> projected <= MAX_TOKEN_CHUNK_OUTPUT_BYTES
  {
    hide RecordBytes;
    draft := Draft(c.block.startByte, c.block.endByte, w.end - w.start);
    projected := retained;
    if !c.checkpoint(PollsBefore(c) + k) {
      return Some(DeadlineExceeded), draft, projected;
    }
    if c.existing + k >= Chunking.MAX_CHUNKS_PER_DOCUMENT {
      return Some(TooManyChunks), draft, projected;
    }
    var isCompleteBlock := w.start == 0 && w.end == |tokens|;
    if c.block.retrievalMapsSource && !isCompleteBlock {
      var from, to := tokens[w.start].start, tokens[w.end - 1].end;
      draft := Draft(c.block.startByte + from, c.block.startByte + to, w.end - w.start);
    }
    if draft.endByte > c.sourceLen || draft.startByte >= draft.endByte {
      return Some(ArithmeticOverflow), draft, projected;
    }
    projected := retained + RecordBytes(c.block, c.sizes, tokens, w);
    failure := AdmissionFailure(projected);
  }
}
