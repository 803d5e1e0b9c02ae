/** Word tokens of a text (crates/context-build/src/token_chunking.rs). The Unicode alphanumeric test is a parameter. */
module Words {
  import opened Wrappers
  import opened Utf8

  const MAX_TOKENS_PER_DOCUMENT: nat := 2_000_000
  const CHARACTERS_PER_POLL: nat := 4096

  /** Why chunking by tokens may fail. */
  datatype TokenChunkError = DeadlineExceeded | TooManyTokens | TooManyChunks | ArithmeticOverflow
    | StructureLimitExceeded

  /** A word by byte offsets. */
  datatype Token = Token(start: nat, end: nat)

  /** A word by character positions. */
  datatype Run = Run(start: nat, end: nat)

  /** Character i belongs to a word: alphanumeric, or an apostrophe inside a word. */
  predicate InWord(s: string, alphanumeric: char -> bool, i: nat)
    requires i < |s|
  {
    || alphanumeric(s[i])
    || (s[i] == '\'' && i > 0 && InWord(s, alphanumeric, i - 1) && i + 1 < |s| && alphanumeric(s[i + 1]))
  }

  predicate Holds(runs: seq<Run>, i: nat) {
    exists k :: 0 <= k < |runs| && runs[k].start <= i < runs[k].end
  }

  /** Non-empty runs in order, each followed by at least one character outside any run. */
  predicate Separated(runs: seq<Run>) {
    && (forall k :: 0 <= k < |runs| ==> runs[k].start < runs[k].end)
    && (forall j, k :: 0 <= j < k < |runs| ==> runs[j].end < runs[k].start)
  }

  /** These runs are exactly the maximal stretches of word characters before position n. */
  ghost predicate AreWords(runs: seq<Run>, s: string, alphanumeric: char -> bool, n: nat)
    requires n <= |s|
  {
    && Separated(runs)
    && (forall k :: 0 <= k < |runs| ==> runs[k].end <= n)
    && (forall i :: 0 <= i < n ==> (InWord(s, alphanumeric, i) <==> Holds(runs, i)))
  }

  ghost predicate InBytes(tokens: seq<Token>, runs: seq<Run>, s: string) {
    && |tokens| == |runs|
    && forall k :: 0 <= k < |runs| ==>
         runs[k].start <= runs[k].end <= |s|
         && tokens[k] == Token(ByteLen(s[..runs[k].start]), ByteLen(s[..runs[k].end]))
  }

  lemma AddRun(runs: seq<Run>, s: string, alphanumeric: char -> bool, start: nat, end: nat)
    requires start < end <= |s| && AreWords(runs, s, alphanumeric, start)
    requires runs != [] ==> runs[|runs| - 1].end < start
    requires forall i :: start <= i < end ==> InWord(s, alphanumeric, i)
    ensures AreWords(runs + [Run(start, end)], s, alphanumeric, end)
  {
    hide InWord;
    var more := runs + [Run(start, end)];
    forall i | 0 <= i < end ensures InWord(s, alphanumeric, i) <==> Holds(more, i) {
      if i < start {
        if Holds(runs, i) {
          var k :| 0 <= k < |runs| && runs[k].start <= i < runs[k].end;
          assert more[k] == runs[k];
        }
        if Holds(more, i) {
          var k :| 0 <= k < |more| && more[k].start <= i < more[k].end;
          assert more[k] == runs[k];
        }
      } else {
        assert more[|runs|] == Run(start, end);
      }
    }
  }

  lemma SkipCharacter(runs: seq<Run>, s: string, alphanumeric: char -> bool, n: nat)
    requires n < |s| && AreWords(runs, s, alphanumeric, n) && !InWord(s, alphanumeric, n)
    ensures AreWords(runs, s, alphanumeric, n + 1)
  {
    hide InWord;
  }

  /** The deadline checkpoint, polled once every so many steps from poll number `first` on, lets n steps pass. */
  ghost predicate PollsPass(checkpoint: nat -> bool, first: nat, period: nat, n: nat) {
    period > 0 && forall i :: 0 <= i < n && i % period == 0 ==> checkpoint(first + i / period)
  }

  /** Non-empty runs that end by position n. */
  predicate Within(runs: seq<Run>, n: nat) {
    forall k :: 0 <= k < |runs| ==> runs[k].start < runs[k].end <= n
  }

  lemma NextPoll(checkpoint: nat -> bool, first: nat, period: nat, i: nat, n: nat)
    requires i < n && PollsPass(checkpoint, first, period, i)
    ensures period > 0
    ensures if i % period == 0 && !checkpoint(first + i / period) then !PollsPass(checkpoint, first, period, n)
            else PollsPass(checkpoint, first, period, i + 1)
  {
  }

  /** The words among the first n characters, the last of them possibly unfinished. */
  function RunsTo(s: string, alphanumeric: char -> bool, n: nat): (r: seq<Run>)
    requires n <= |s|
    ensures Within(r, n)
  {
    if n == 0 then
      []
    else
      var r := RunsTo(s, alphanumeric, n - 1);
      if !InWord(s, alphanumeric, n - 1) then r
      else if r != [] && r[|r| - 1].end == n - 1 then r[..|r| - 1] + [Run(r[|r| - 1].start, n)]
      else r + [Run(n - 1, n)]
  }

  /** The last run is open exactly after a word character. */
  lemma RunsOpen(s: string, alphanumeric: char -> bool, n: nat)
    requires n <= |s|
    ensures var r := RunsTo(s, alphanumeric, n);
            n > 0 && InWord(s, alphanumeric, n - 1) <==> r != [] && r[|r| - 1].end == n
  {
    hide InWord;
  }

  lemma {:induction false} RunsAreWords(s: string, alphanumeric: char -> bool, n: nat)
    requires n <= |s|
    ensures AreWords(RunsTo(s, alphanumeric, n), s, alphanumeric, n)
  {
    hide InWord, AreWords, RunsTo, Within;
    if n == 0 {
      NoWords(s, alphanumeric);
    } else {
      RunsAreWords(s, alphanumeric, n - 1);
      RunsStep(s, alphanumeric, n - 1);
      RunsOpen(s, alphanumeric, n - 1);
      GrowWords(RunsTo(s, alphanumeric, n - 1), s, alphanumeric, n - 1);
    }
  }

  /** What one more character does to the words so far. */
  lemma GrowWords(r: seq<Run>, s: string, alphanumeric: char -> bool, n: nat)
    requires n < |s| && Within(r, n) && AreWords(r, s, alphanumeric, n)
    requires n > 0 && InWord(s, alphanumeric, n - 1) <==> r != [] && r[|r| - 1].end == n
    ensures AreWords(if !InWord(s, alphanumeric, n) then r
                     else if n > 0 && InWord(s, alphanumeric, n - 1)
                     then r[..|r| - 1] + [Run(r[|r| - 1].start, n + 1)]
                     else r + [Run(n, n + 1)], s, alphanumeric, n + 1)
  {
    hide InWord, AreWords;
    if !InWord(s, alphanumeric, n) {
      SkipCharacter(r, s, alphanumeric, n);
    } else if r != [] && r[|r| - 1].end == n {
      ExtendRun(r, s, alphanumeric, n);
    } else {
      AddRun(r, s, alphanumeric, n, n + 1);
    }
  }

  lemma ExtendRun(runs: seq<Run>, s: string, alphanumeric: char -> bool, n: nat)
    requires n < |s| && AreWords(runs, s, alphanumeric, n) && InWord(s, alphanumeric, n)
    requires runs != [] && runs[|runs| - 1].end == n
    ensures AreWords(runs[..|runs| - 1] + [Run(runs[|runs| - 1].start, n + 1)], s, alphanumeric, n + 1)
  {
    hide InWord;
    var k := |runs| - 1;
    var longer := runs[..k] + [Run(runs[k].start, n + 1)];
    forall i | 0 <= i < n + 1 ensures InWord(s, alphanumeric, i) <==> Holds(longer, i) {
      if i == n {
        assert longer[k].start <= i < longer[k].end;
      } else {
        if Holds(runs, i) {
          var m :| 0 <= m < |runs| && runs[m].start <= i < runs[m].end;
          assert longer[m].start <= i < longer[m].end;
        }
        if Holds(longer, i) {
          var m :| 0 <= m < |longer| && longer[m].start <= i < longer[m].end;
          assert runs[m].start <= i < runs[m].end;
        }
      }
    }
  }

  /** A prefix has no more words than the text. */
  lemma {:induction false} PrefixHasNoMoreWords(s: string, alphanumeric: char -> bool, m: nat, n: nat)
    requires m <= n <= |s|
    ensures |RunsTo(s, alphanumeric, m)| <= |RunsTo(s, alphanumeric, n)|
  {
    if m < n {
      PrefixHasNoMoreWords(s, alphanumeric, m, n - 1);
    }
  }

  function AsTokens(s: string, runs: seq<Run>): (r: seq<Token>)
    requires Within(runs, |s|)
    ensures InBytes(r, runs, s)
  {
    seq(|runs|, k requires 0 <= k < |runs| => Token(ByteLen(s[..runs[k].start]), ByteLen(s[..runs[k].end])))
  }

  /** The word tokens of a text. */
  function TokensOf(s: string, alphanumeric: char -> bool): (r: seq<Token>)
    ensures Ordered(r) && forall i :: 0 <= i < |r| ==> r[i].end <= ByteLen(s)
  {
    var runs := RunsTo(s, alphanumeric, |s|);
    RunsAreWords(s, alphanumeric, |s|);
    WordsAreOrdered(AsTokens(s, runs), runs, s);
    AsTokens(s, runs)
  }

  /** They are the only tokens that mark exactly the maximal stretches of word characters. */
  lemma TokensAreWords(s: string, alphanumeric: char -> bool, tokens: seq<Token>)
    ensures tokens == TokensOf(s, alphanumeric) <==>
            exists runs :: AreWords(runs, s, alphanumeric, |s|) && InBytes(tokens, runs, s)
  {
    hide AreWords, RunsTo;
    var words := RunsTo(s, alphanumeric, |s|);
    RunsAreWords(s, alphanumeric, |s|);
    if exists runs :: AreWords(runs, s, alphanumeric, |s|) && InBytes(tokens, runs, s) {
      var runs :| AreWords(runs, s, alphanumeric, |s|) && InBytes(tokens, runs, s);
      WordsAreUnique(runs, words, s, alphanumeric);
      assert tokens == AsTokens(s, words);
    }
  }

  /** The words of a text, in order, exactly when the deadline and the token ceiling allow. */
  method UnicodeWords(s: string, alphanumeric: char -> bool, checkpoint: nat -> bool, first: nat)
    returns (r: Result<seq<Token>, TokenChunkError>)
    ensures r.Ok? <==> PollsPass(checkpoint, first, CHARACTERS_PER_POLL, |s|)
                       && |TokensOf(s, alphanumeric)| <= MAX_TOKENS_PER_DOCUMENT
    ensures r.Ok? ==> r.value == TokensOf(s, alphanumeric)
    ensures r.Err? ==> r.error == DeadlineExceeded || r.error == TooManyTokens
    ensures r == Err(DeadlineExceeded) ==> !PollsPass(checkpoint, first, CHARACTERS_PER_POLL, |s|)
    ensures r == Err(TooManyTokens) ==> |TokensOf(s, alphanumeric)| > MAX_TOKENS_PER_DOCUMENT
  {
    hide InWord, ByteLen, Width, RunsTo, AreWords, Ordered, TokensOf, AsTokens, PollsPass, InBytes, Within;
    var tokens: seq<Token> := [];
    ghost var runs: seq<Run> := [];
    var start: Option<nat> := None;
    ghost var begun := 0;
    var offset := 0;
    NoWords(s, alphanumeric);
    NoPolls(checkpoint, first);
    for i := 0 to |s|
      invariant offset == ByteLen(s[..i]) && PollsPass(checkpoint, first, CHARACTERS_PER_POLL, i)
      invariant start.Some? <==> i > 0 && InWord(s, alphanumeric, i - 1)
      invariant start.Some? ==> begun < i && start.value == ByteLen(s[..begun])
      invariant RunsTo(s, alphanumeric, i) == if start.Some? then runs + [Run(begun, i)] else runs
      invariant InBytes(tokens, runs, s) && |tokens| == |runs| <= MAX_TOKENS_PER_DOCUMENT
    {
      NextPoll(checkpoint, first, CHARACTERS_PER_POLL, i, |s|);
      if i % CHARACTERS_PER_POLL == 0 && !checkpoint(first + i / CHARACTERS_PER_POLL) {
        return Err(DeadlineExceeded);
      }
      WordStep(s, alphanumeric, i);
      RunsStep(s, alphanumeric, i);
      PrefixStep(s, i);
      var word := alphanumeric(s[i]) || (s[i] == '\'' && start.Some? && i + 1 < |s| && alphanumeric(s[i + 1]));
      if start.None? && word {
        start := Some(offset);
        begun := i;
      } else if start.Some? && !word {
        if |tokens| >= MAX_TOKENS_PER_DOCUMENT {
          RunsBoundTokens(s, alphanumeric, i);
          return Err(TooManyTokens);
        }
        AppendToken(s, tokens, runs, begun, i);
        tokens := tokens + [Token(start.value, offset)];
        runs := runs + [Run(begun, i)];
        start := None;
      }
      offset := offset + Width(s[i]);
    }
    assert s[..|s|] == s;
    RunsBoundTokens(s, alphanumeric, |s|);
    if start.Some? {
      if |tokens| >= MAX_TOKENS_PER_DOCUMENT {
        return Err(TooManyTokens);
      }
      AppendToken(s, tokens, runs, begun, |s|);
      tokens := tokens + [Token(start.value, ByteLen(s))];
      runs := runs + [Run(begun, |s|)];
    }
    TokensFromRuns(s, alphanumeric, tokens);
    return Ok(tokens);
  }

  lemma AppendToken(s: string, tokens: seq<Token>, runs: seq<Run>, start: nat, end: nat)
    requires InBytes(tokens, runs, s) && start < end <= |s|
    ensures |tokens| == |runs|
    ensures InBytes(tokens + [Token(ByteLen(s[..start]), ByteLen(s[..end]))], runs + [Run(start, end)], s)
  {
    hide ByteLen;
  }

  lemma RunsBoundTokens(s: string, alphanumeric: char -> bool, n: nat)
    requires n <= |s|
    ensures |RunsTo(s, alphanumeric, n)| <= |TokensOf(s, alphanumeric)|
  {
    hide RunsTo;
    PrefixHasNoMoreWords(s, alphanumeric, n, |s|);
  }

  lemma TokensFromRuns(s: string, alphanumeric: char -> bool, tokens: seq<Token>)
    requires InBytes(tokens, RunsTo(s, alphanumeric, |s|), s)
    ensures tokens == TokensOf(s, alphanumeric)
  {
    hide RunsTo, ByteLen, Ordered, Within;
    var runs := RunsTo(s, alphanumeric, |s|);
    var all := AsTokens(s, runs);
    assert forall k :: 0 <= k < |runs| ==> tokens[k] == all[k];
  }

  lemma RunsStep(s: string, alphanumeric: char -> bool, n: nat)
    requires n < |s|
    ensures var r := RunsTo(s, alphanumeric, n);
            && (n > 0 && InWord(s, alphanumeric, n - 1) ==> r != [])
            && RunsTo(s, alphanumeric, n + 1) ==
            if !InWord(s, alphanumeric, n) then r
            else if n > 0 && InWord(s, alphanumeric, n - 1) then r[..|r| - 1] + [Run(r[|r| - 1].start, n + 1)]
            else r + [Run(n, n + 1)]
  {
    hide InWord;
    RunsOpen(s, alphanumeric, n);
  }

  lemma NoPolls(checkpoint: nat -> bool, first: nat)
    ensures PollsPass(checkpoint, first, CHARACTERS_PER_POLL, 0)
  {
  }

  lemma NoWords(s: string, alphanumeric: char -> bool)
    ensures RunsTo(s, alphanumeric, 0) == [] && AreWords([], s, alphanumeric, 0)
    ensures ByteLen(s[..0]) == 0 && InBytes([], [], s)
  {
  }

  lemma WordStep(s: string, alphanumeric: char -> bool, i: nat)
    requires i < |s|
    ensures InWord(s, alphanumeric, i) <==>
            || alphanumeric(s[i])
            || (s[i] == '\'' && i > 0 && InWord(s, alphanumeric, i - 1) && i + 1 < |s| && alphanumeric(s[i + 1]))
  {
  }

  /** Tokens come in order and do not touch. */
  predicate Ordered(tokens: seq<Token>) {
    && (forall i :: 0 <= i < |tokens| ==> tokens[i].start < tokens[i].end)
    && (forall i, j :: 0 <= i < j < |tokens| ==> tokens[i].end < tokens[j].start)
  }

  lemma WordsAreOrdered(tokens: seq<Token>, runs: seq<Run>, s: string)
    requires Separated(runs) && InBytes(tokens, runs, s)
    ensures Ordered(tokens)
    ensures forall i :: 0 <= i < |tokens| ==> tokens[i].end <= ByteLen(s)
  {
    hide ByteLen;
    forall i | 0 <= i < |tokens| ensures tokens[i].start < tokens[i].end <= ByteLen(s) {
      PrefixesGrow(s, runs[i].start, runs[i].end);
      SliceOf(s, runs[i].end, |s|);
      assert s[..|s|] == s;
    }
    forall i, j | 0 <= i < j < |tokens| ensures tokens[i].end < tokens[j].start {
      PrefixesGrow(s, runs[i].end, runs[j].start);
    }
  }

  /** A text has one list of words only. */
  lemma WordsAreUnique(a: seq<Run>, b: seq<Run>, s: string, alphanumeric: char -> bool)
    requires AreWords(a, s, alphanumeric, |s|) && AreWords(b, s, alphanumeric, |s|)
    ensures a == b
  {
    hide AreWords;
    AgreeUpTo(a, b, s, alphanumeric, |a|);
    AgreeUpTo(b, a, s, alphanumeric, |b|);
  }

  lemma {:induction false} AgreeUpTo(a: seq<Run>, b: seq<Run>, s: string, alphanumeric: char -> bool, k: nat)
    requires AreWords(a, s, alphanumeric, |s|) && AreWords(b, s, alphanumeric, |s|)
    requires k <= |a|
    ensures k <= |b| && a[..k] == b[..k]
  {
    hide AreWords;
    if k > 0 {
      AgreeUpTo(a, b, s, alphanumeric, k - 1);
      assert forall j :: 0 <= j < k - 1 ==> a[j] == a[..k - 1][j] == b[..k - 1][j] == b[j];
      StartsNoLater(a, b, s, alphanumeric, k - 1);
      StartsNoLater(b, a, s, alphanumeric, k - 1);
      EndsNoEarlier(a, b, s, alphanumeric, k - 1);
      EndsNoEarlier(b, a, s, alphanumeric, k - 1);
    }
  }

  lemma StartsNoLater(a: seq<Run>, b: seq<Run>, s: string, alphanumeric: char -> bool, k: nat)
    requires AreWords(a, s, alphanumeric, |s|) && AreWords(b, s, alphanumeric, |s|)
    requires k < |a| && k <= |b|
    requires forall j :: 0 <= j < k ==> a[j] == b[j]
    ensures k < |b| && b[k].start <= a[k].start
  {
    hide InWord;
    var x := a[k].start;
    assert Holds(a, x) && InWord(s, alphanumeric, x);
    var m :| 0 <= m < |b| && b[m].start <= x < b[m].end;
  }

  lemma EndsNoEarlier(a: seq<Run>, b: seq<Run>, s: string, alphanumeric: char -> bool, k: nat)
    requires AreWords(a, s, alphanumeric, |s|) && AreWords(b, s, alphanumeric, |s|)
    requires k < |a| && k < |b| && a[k].start == b[k].start
    ensures b[k].end >= a[k].end
  {
    hide InWord;
    assert !Holds(b, b[k].end);
    assert b[k].end < |s| ==> !Holds(a, b[k].end);
  }
}
