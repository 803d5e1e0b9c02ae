/**
 Bounded IVF probing over read ports (crates/context-index/src/ivf.rs).

 A query is fixed: the index gives the score of every centroid and posting against it, or
 nothing where a read or the metric fails. Cancellation is a function of how often it was polled.
 */
module Ivf {
  import opened Ranking
  import opened Wrappers

  const USIZE_MAX: nat := 0xffff_ffff_ffff_ffff

  datatype Posting = Posting(id: nat, score: Option<real>)

  type PostingList = seq<Option<Posting>>

  datatype Index = Index(order: ScoreOrder, centroids: seq<Option<real>>, lists: seq<Option<PostingList>>)

  datatype Config = Config(lists: nat, probes: nat, maxProbes: nat)

  /** A non-empty half-open range of probe ranks. */
  datatype Window = Window(start: nat, end: nat)

  datatype IvfError =
    | ListCountMismatch
    | InvalidConfig
    | Cancelled
    | CandidateBudgetExhausted(visited: nat)
    | ReadFailed

  datatype Outcome = Outcome(hits: seq<Hit>, visitedLists: nat, visitedPostings: nat, wideningRounds: nat,
                             complete: bool)

  // ---------- probe order ----------

  ghost predicate CentroidsReadable(ix: Index) {
    forall i :: 0 <= i < |ix.centroids| ==> ix.centroids[i].Some?
  }

  function CentroidHits(cs: seq<Option<real>>): (r: seq<Hit>)
    requires forall i :: 0 <= i < |cs| ==> cs[i].Some?
    ensures |r| == |cs|
    ensures forall i :: 0 <= i < |r| ==> r[i] == Hit(i, cs[i].value)
  {
    if cs == [] then [] else CentroidHits(cs[..|cs| - 1]) + [Hit(|cs| - 1, cs[|cs| - 1].value)]
  }

  /** Lists by (score of their centroid, list id). */
  function ProbeOrder(ix: Index): seq<nat>
    requires CentroidsReadable(ix)
  {
    Ids(Sort(ix.order, CentroidHits(ix.centroids)))
  }

  method IvfProbeOrder(ix: Index) returns (r: Result<seq<nat>, IvfError>)
    ensures r.Ok? <==> CentroidsReadable(ix)
    ensures r.Ok? ==> r.value == ProbeOrder(ix)
    ensures r.Err? ==> r.error == ReadFailed
  {
    var scores: seq<Hit> := [];
    for i := 0 to |ix.centroids|
      invariant |scores| == i
      invariant forall k :: 0 <= k < i ==> ix.centroids[k].Some? && scores[k] == Hit(k, ix.centroids[k].value)
    {
      if ix.centroids[i].None? {
        return Err(ReadFailed);
      }
      scores := scores + [Hit(i, ix.centroids[i].value)];
    }
    assert scores == CentroidHits(ix.centroids);
    return Ok(Ids(Sort(ix.order, scores)));
  }

  lemma {:induction false} IdsKeepMultiset(a: seq<Hit>, b: seq<Hit>)
    requires multiset(a) == multiset(b)
    ensures multiset(Ids(a)) == multiset(Ids(b))
  {
    hide Ids;
    assert |a| == |multiset(a)| == |multiset(b)| == |b|;
    if a == [] {
      assert a == b;
    } else {
      assert a[0] in multiset(b);
      var k :| 0 <= k < |b| && b[k] == a[0];
      RemoveSame(a, b, k);
      IdsKeepMultiset(a[..0] + a[1..], b[..k] + b[k + 1..]);
      IdsWithout(a, 0);
      IdsWithout(b, k);
    }
  }

  lemma IdsWithout(a: seq<Hit>, k: nat)
    requires k < |a|
    ensures multiset(Ids(a)) == multiset{a[k].id} + multiset(Ids(a[..k] + a[k + 1..]))
  {
    RemoveAt(Ids(a), k);
    assert Ids(a)[..k] + Ids(a)[k + 1..] == Ids(a[..k] + a[k + 1..]);
  }

  lemma RemoveAt<T>(s: seq<T>, k: nat)
    requires k < |s|
    ensures multiset(s) == multiset{s[k]} + multiset(s[..k] + s[k + 1..])
  {
    assert s == s[..k] + [s[k]] + s[k + 1..];
  }

  lemma RemoveSame<T>(a: seq<T>, b: seq<T>, k: nat)
    requires multiset(a) == multiset(b) && a != [] && k < |b| && b[k] == a[0]
    ensures multiset(a[..0] + a[1..]) == multiset(b[..k] + b[k + 1..])
  {
    RemoveAt(a, 0);
    RemoveAt(b, k);
    assert multiset(a[..0] + a[1..]) == multiset(a) - multiset{a[0]};
    assert multiset(b[..k] + b[k + 1..]) == multiset(b) - multiset{a[0]};
  }

  /** Every list is probed exactly once. */
  lemma ProbeOrderIsPermutation(ix: Index)
    requires CentroidsReadable(ix)
    ensures multiset(ProbeOrder(ix)) == multiset(seq(|ix.centroids|, i => i))
    ensures |ProbeOrder(ix)| == |ix.centroids|
    ensures forall i :: 0 <= i < |ProbeOrder(ix)| ==> ProbeOrder(ix)[i] < |ix.centroids|
  {
    var hits := CentroidHits(ix.centroids);
    var sorted := Sort(ix.order, hits);
    IdsKeepMultiset(sorted, hits);
    assert Ids(hits) == seq(|ix.centroids|, i => i);
    forall i | 0 <= i < |sorted| ensures sorted[i].id < |ix.centroids| {
      assert sorted[i] in multiset(hits);
    }
  }

  /** Lists are probed from the closest centroid to the farthest, the smaller list first among equals. */
  lemma ClosestListsFirst(ix: Index, i: nat, j: nat)
    requires CentroidsReadable(ix) && i < j < |ProbeOrder(ix)|
    ensures ProbeOrder(ix)[i] < |ix.centroids| && ProbeOrder(ix)[j] < |ix.centroids|
    ensures var a, b := ProbeOrder(ix)[i], ProbeOrder(ix)[j];
            Listed(ix.order, Hit(a, ix.centroids[a].value), Hit(b, ix.centroids[b].value))
  {
    var hits := CentroidHits(ix.centroids);
    var sorted := Sort(ix.order, hits);
    SortKeepsDistinct(ix.order, hits);
    forall k | 0 <= k < |sorted|
      ensures sorted[k].id < |ix.centroids| && sorted[k].score == ix.centroids[sorted[k].id].value
    {
      assert sorted[k] in multiset(hits);
    }
    assert !Precedes(ix.order, sorted[j], sorted[i]) && sorted[i] != sorted[j];
  }

  // ---------- what the lists hold ----------

  /** Every posting can be read, and every eligible one scored. */
  ghost predicate Readable(list: PostingList, mask: nat -> bool) {
    forall i :: 0 <= i < |list| ==> list[i].Some? && (mask(list[i].value.id) ==> list[i].value.score.Some?)
  }

  /** The eligible postings of a list, scored. */
  ghost function Eligible(list: PostingList, mask: nat -> bool): seq<Hit>
    requires Readable(list, mask)
  {
    if list == [] then
      []
    else
      var p := list[|list| - 1].value;
      Eligible(list[..|list| - 1], mask) + if mask(p.id) then [Hit(p.id, p.score.value)] else []
  }

  ghost predicate ListReadable(ix: Index, mask: nat -> bool, id: nat) {
    id < |ix.lists| && ix.lists[id].Some? && Readable(ix.lists[id].value, mask)
  }

  ghost predicate ReadableTo(ix: Index, mask: nat -> bool, lists: seq<nat>, n: nat)
    requires n <= |lists|
  {
    forall i :: 0 <= i < n ==> ListReadable(ix, mask, lists[i])
  }

  /** The eligible postings of the first n lists, list after list. */
  ghost function HitsOf(ix: Index, mask: nat -> bool, lists: seq<nat>, n: nat): seq<Hit>
    requires n <= |lists| && ReadableTo(ix, mask, lists, n)
  {
    if n == 0 then [] else HitsOf(ix, mask, lists, n - 1) + Eligible(ix.lists[lists[n - 1]].value, mask)
  }

  ghost function PostingCount(ix: Index, mask: nat -> bool, lists: seq<nat>, n: nat): nat
    requires n <= |lists| && ReadableTo(ix, mask, lists, n)
  {
    if n == 0 then 0 else PostingCount(ix, mask, lists, n - 1) + |ix.lists[lists[n - 1]].value|
  }

  // ---------- one window ----------

  /** The lists of the window, in probe order. */
  function WindowLists(order: seq<nat>, w: Window): seq<nat>
    requires w.start < w.end <= |order|
  {
    order[w.start..w.end]
  }

  /** None of the first v non-empty prefixes holds enough eligible postings. */
  ghost predicate StillShort(ix: Index, mask: nat -> bool, lists: seq<nat>, v: nat, limit: nat) {
    && v <= |lists| && ReadableTo(ix, mask, lists, v)
    && forall u :: 1 <= u <= v ==> |HitsOf(ix, mask, lists, u)| < limit
  }

  /** v is the length of the shortest non-empty prefix that holds enough, or of the whole window. */
  ghost predicate StopsAfter(ix: Index, mask: nat -> bool, lists: seq<nat>, v: nat, limit: nat) {
    && 1 <= v <= |lists| && ReadableTo(ix, mask, lists, v)
    && StillShort(ix, mask, lists, v - 1, limit)
    && (|HitsOf(ix, mask, lists, v)| >= limit || v == |lists|)
  }

  lemma StopIsUnique(ix: Index, mask: nat -> bool, lists: seq<nat>, v: nat, w: nat, limit: nat)
    requires StopsAfter(ix, mask, lists, v, limit) && StopsAfter(ix, mask, lists, w, limit)
    ensures v == w
  {
  }

  /** Poll n is the first that reports a cancellation. */
  ghost predicate FirstCancelled(cancelled: nat -> bool, n: nat) {
    cancelled(n) && forall m: nat :: m < n ==> !cancelled(m)
  }

  /** Postings of a list, none if it cannot be read. */
  ghost function ListSize(ix: Index, id: nat): nat {
    if id < |ix.lists| && ix.lists[id].Some? then |ix.lists[id].value| else 0
  }

  /**
   Why a search of these lists fails. Lists beyond the first that holds enough play no part.
   Cancellation is polled once for every list and once for every posting.
   */
  ghost predicate FailsBecause(ix: Index, mask: nat -> bool, lists: seq<nat>, previous: nat, budget: nat, limit: nat,
                               cancelled: nat -> bool, e: IvfError) {
    exists v ::
      && 0 <= v < |lists| && StillShort(ix, mask, lists, v, limit)
      && var before := PostingCount(ix, mask, lists, v);
         match e
         case Cancelled =>
           exists n :: v + before <= n <= v + before + ListSize(ix, lists[v]) && FirstCancelled(cancelled, n)
         case ReadFailed => !ListReadable(ix, mask, lists[v])
         case CandidateBudgetExhausted(visited) =>
           && (visited > budget || visited == USIZE_MAX)
           && ListSize(ix, lists[v]) > 0 && previous + before + ListSize(ix, lists[v]) > budget
         case _ => false
  }

  /** What reading one list can come to. */
  datatype ListVisit =
    | Visited(hits: seq<Hit>)
    | Stopped(error: IvfError)

  /** One list, polling for cancellation before each posting, from poll number `poll` on. */
  method VisitList(list: PostingList, mask: nat -> bool, previous: nat, visited: nat, budget: nat,
                   cancelled: nat -> bool, poll: nat)
    returns (r: ListVisit)
    requires budget <= USIZE_MAX
    ensures r.Visited? ==> Readable(list, mask) && r.hits == Eligible(list, mask)
    ensures r.Visited? ==> forall m: nat :: poll <= m < poll + |list| ==> !cancelled(m)
    ensures r.Visited? && list != [] ==> previous + visited + |list| <= budget
    ensures r.Stopped? ==>
              match r.error
              case Cancelled =>
                exists n: nat :: poll <= n < poll + |list| && cancelled(n)
                  && forall m: nat :: poll <= m < n ==> !cancelled(m)
              case ReadFailed => !Readable(list, mask)
              case CandidateBudgetExhausted(v) =>
                list != [] && previous + visited + |list| > budget && (v > budget || v == USIZE_MAX)
              case _ => false
  {
    var hits: seq<Hit> := [];
    for offset := 0 to |list|
      invariant Readable(list[..offset], mask) && hits == Eligible(list[..offset], mask)
      invariant forall m: nat :: poll <= m < poll + offset ==> !cancelled(m)
      invariant offset > 0 ==> previous + visited + offset <= budget
    {
      if cancelled(poll + offset) {
        return Stopped(Cancelled);
      }
      var total := previous + visited + offset + 1;
      if total > USIZE_MAX {
        return Stopped(CandidateBudgetExhausted(USIZE_MAX));
      }
      if total > budget {
        return Stopped(CandidateBudgetExhausted(total));
      }
      var posting := list[offset];
      if posting.None? {
        return Stopped(ReadFailed);
      }
      assert list[..offset + 1][..offset] == list[..offset];
      if mask(posting.value.id) {
        if posting.value.score.None? {
          return Stopped(ReadFailed);
        }
        hits := hits + [Hit(posting.value.id, posting.value.score.value)];
      }
    }
    assert list[..|list|] == list;
    return Visited(hits);
  }

  /** The outcome of a search that stops after v of these lists. */
  ghost predicate Answers(o: Outcome, ix: Index, mask: nat -> bool, lists: seq<nat>, previous: nat, budget: nat,
                          limit: nat) {
    && StopsAfter(ix, mask, lists, o.visitedLists, limit)
    && o.hits == TakeTop(ix.order, HitsOf(ix, mask, lists, o.visitedLists), limit)
    && o.visitedPostings == PostingCount(ix, mask, lists, o.visitedLists)
    && (o.visitedPostings > 0 ==> previous + o.visitedPostings <= budget)
  }

  method VisitLists(ix: Index, mask: nat -> bool, lists: seq<nat>, previous: nat, budget: nat, limit: nat,
                    cancelled: nat -> bool)
    returns (r: Result<(seq<Hit>, nat, nat), IvfError>)
    requires budget <= USIZE_MAX && limit > 0 && lists != []
    ensures r.Ok? ==> StopsAfter(ix, mask, lists, r.value.1, limit)
                      && r.value.0 == HitsOf(ix, mask, lists, r.value.1)
                      && r.value.2 == PostingCount(ix, mask, lists, r.value.1)
                      && (r.value.2 > 0 ==> previous + r.value.2 <= budget)
    ensures r.Ok? ==> forall m: nat :: m < r.value.1 + r.value.2 ==> !cancelled(m)
    ensures r.Err? ==> FailsBecause(ix, mask, lists, previous, budget, limit, cancelled, r.error)
  {
    hide Readable, Eligible;
    var hits: seq<Hit> := [];
    var v: nat, visited: nat := 0, 0;
    while v < |lists|
      invariant StillShort(ix, mask, lists, v, limit)
      invariant hits == HitsOf(ix, mask, lists, v) && visited == PostingCount(ix, mask, lists, v)
      invariant visited > 0 ==> previous + visited <= budget
      invariant forall m: nat :: m < v + visited ==> !cancelled(m)
    {
      if cancelled(v + visited) {
        assert FirstCancelled(cancelled, v + visited);
        return Err(Cancelled);
      }
      var id := lists[v];
      if id >= |ix.lists| || ix.lists[id].None? {
        assert !ListReadable(ix, mask, lists[v]);
        return Err(ReadFailed);
      }
      var visit := VisitList(ix.lists[id].value, mask, previous, visited, budget, cancelled, v + visited + 1);
      if visit.Stopped? {
        StopIsJustified(ix, mask, lists, previous, budget, limit, cancelled, v, visit.error);
        return Err(visit.error);
      }
      assert ListReadable(ix, mask, lists[v]);
      hits, visited := hits + visit.hits, visited + |ix.lists[id].value|;
      v := v + 1;
      if |hits| >= limit {
        break;
      }
    }
    return Ok((hits, v, visited));
  }

  /** What stopped the visit of list v is a reason for the whole search to fail. */
  lemma StopIsJustified(ix: Index, mask: nat -> bool, lists: seq<nat>, previous: nat, budget: nat, limit: nat,
                        cancelled: nat -> bool, v: nat, e: IvfError)
    requires v < |lists| && StillShort(ix, mask, lists, v, limit) && lists[v] < |ix.lists| && ix.lists[lists[v]].Some?
    requires var before := PostingCount(ix, mask, lists, v);
             var list := ix.lists[lists[v]].value;
             && (forall m: nat :: m < v + before + 1 ==> !cancelled(m))
             && match e
                case Cancelled =>
                  exists n: nat :: v + before + 1 <= n < v + before + 1 + |list| && cancelled(n)
                    && forall m: nat :: v + before + 1 <= m < n ==> !cancelled(m)
                case ReadFailed => !Readable(list, mask)
                case CandidateBudgetExhausted(visited) =>
                  list != [] && previous + before + |list| > budget && (visited > budget || visited == USIZE_MAX)
                case _ => false
    ensures FailsBecause(ix, mask, lists, previous, budget, limit, cancelled, e)
  {
    hide Readable, PostingCount;
    var before := PostingCount(ix, mask, lists, v);
    if e == Cancelled {
      var n: nat :| v + before + 1 <= n < v + before + 1 + |ix.lists[lists[v]].value| && cancelled(n)
        && forall m: nat :: v + before + 1 <= m < n ==> !cancelled(m);
      assert FirstCancelled(cancelled, n);
    }
  }

  /**
   Searches one window: the closest lists until enough eligible postings are found, then the
   best of everything seen.
   */
  method SearchProbeWindow(ix: Index, config: Config, w: Window, budget: nat, previous: nat, limit: nat,
                           mask: nat -> bool, cancelled: nat -> bool)
    returns (r: Result<Outcome, IvfError>)
    requires w.start < w.end && budget <= USIZE_MAX
    ensures |ix.centroids| != config.lists ==> r == Err(ListCountMismatch)
    ensures |ix.centroids| == config.lists && (w.end > config.maxProbes || w.end > |ix.centroids|)
            ==> r == Err(InvalidConfig)
    ensures |ix.centroids| == config.lists && w.end <= config.maxProbes && w.end <= |ix.centroids| ==>
              if limit == 0 then r == Ok(Outcome([], 0, 0, 0, true))
              else if !CentroidsReadable(ix) then r == Err(ReadFailed)
              else var order := ProbeOrder(ix);
                |order| == |ix.centroids| &&
                match r
                case Ok(o) =>
                  && Answers(o, ix, mask, WindowLists(order, w), previous, budget, limit)
                  && o.wideningRounds == (if w.end > config.probes then w.end - config.probes else 0)
                  && (o.complete <==> |o.hits| >= limit || w.end == |ix.centroids|)
                  && (forall m: nat :: m < o.visitedLists + o.visitedPostings ==> !cancelled(m))
                case Err(e) => FailsBecause(ix, mask, WindowLists(order, w), previous, budget, limit, cancelled, e)
  {
    hide CentroidsReadable, ProbeOrder, StopsAfter, FailsBecause, HitsOf, PostingCount, TakeTop;
    if |ix.centroids| != config.lists {
      return Err(ListCountMismatch);
    }
    if w.end > config.maxProbes || w.end > |ix.centroids| {
      return Err(InvalidConfig);
    }
    if limit == 0 {
      return Ok(Outcome([], 0, 0, 0, true));
    }
    var order := IvfProbeOrder(ix);
    if order.Err? {
      return Err(order.error);
    }
    ProbeOrderIsPermutation(ix);
    var seen := VisitLists(ix, mask, WindowLists(order.value, w), previous, budget, limit, cancelled);
    if seen.Err? {
      return Err(seen.error);
    }
    var hits := TakeTop(ix.order, seen.value.0, limit);
    var complete := |hits| >= limit || w.end == |ix.centroids|;
    var widened := if w.end > config.probes then w.end - config.probes else 0;
    return Ok(Outcome(hits, seen.value.1, seen.value.2, widened, complete));
  }

  // ---------- several windows ----------

  /** One round of a scan: the window searched, how many hits were wanted, and what came back. */
  datatype Round = Round(window: Window, limit: nat, outcome: Outcome)

  ghost function TotalVisited(rounds: seq<Round>): nat {
    if rounds == [] then 0
    else TotalVisited(rounds[..|rounds| - 1]) + rounds[|rounds| - 1].outcome.visitedPostings
  }

  /** What a successful search of the round's window promises, with this many postings visited before. */
  ghost predicate RoundAnswers(r: Round, ix: Index, mask: nat -> bool, previous: nat, budget: nat)
    requires CentroidsReadable(ix)
  {
    && r.window.start < r.window.end <= |ProbeOrder(ix)|
    && if r.limit == 0 then r.outcome == Outcome([], 0, 0, 0, true)
       else Answers(r.outcome, ix, mask, WindowLists(ProbeOrder(ix), r.window), previous, budget, r.limit)
  }

  /** A scan: each round passes on the postings visited by the rounds before it, starting from zero. */
  ghost predicate IsScan(rounds: seq<Round>, ix: Index, mask: nat -> bool, budget: nat)
    requires CentroidsReadable(ix)
  {
    forall k :: 0 <= k < |rounds| ==> RoundAnswers(rounds[k], ix, mask, TotalVisited(rounds[..k]), budget)
  }

  /** The rounds of a scan never exceed the scan-global budget together. */
  lemma {:induction false} RoundsStayInBudget(rounds: seq<Round>, ix: Index, mask: nat -> bool, budget: nat)
    requires CentroidsReadable(ix) && IsScan(rounds, ix, mask, budget)
    ensures TotalVisited(rounds) <= budget
  {
    hide ProbeOrder, StopsAfter, PostingCount, HitsOf, TakeTop;
    if rounds != [] {
      var k := |rounds| - 1;
      var before := rounds[..k];
      forall i | 0 <= i < |before| ensures RoundAnswers(before[i], ix, mask, TotalVisited(before[..i]), budget) {
        assert before[..i] == rounds[..i] && before[i] == rounds[i];
      }
      RoundsStayInBudget(before, ix, mask, budget);
      assert RoundAnswers(rounds[k], ix, mask, TotalVisited(before), budget);
    }
  }

  /** The lists a round has visited. */
  ghost function VisitedIds(r: Round, ix: Index): seq<nat>
    requires CentroidsReadable(ix) && r.window.start < r.window.end <= |ProbeOrder(ix)|
    requires r.outcome.visitedLists <= r.window.end - r.window.start
  {
    WindowLists(ProbeOrder(ix), r.window)[..r.outcome.visitedLists]
  }

  ghost predicate Consecutive(rounds: seq<Round>) {
    forall k :: 0 <= k < |rounds| - 1 ==> rounds[k + 1].window.start == rounds[k].window.end
  }

  lemma {:induction false} ConsecutiveWindowsAscend(rounds: seq<Round>, j: nat, k: nat)
    requires Consecutive(rounds) && j < k < |rounds|
    requires forall i :: 0 <= i < |rounds| ==> rounds[i].window.start < rounds[i].window.end
    ensures rounds[j].window.end <= rounds[k].window.start
  {
    assert rounds[k - 1 + 1].window.start == rounds[k - 1].window.end;
    if j < k - 1 {
      ConsecutiveWindowsAscend(rounds, j, k - 1);
    }
  }

  lemma ProbeOrderIsDistinct(ix: Index)
    requires CentroidsReadable(ix)
    ensures Distinct(ProbeOrder(ix))
  {
    hide ProbeOrder;
    var all := seq(|ix.centroids|, i => i);
    ProbeOrderIsPermutation(ix);
    assert Distinct(all);
    DistinctMultiset(all);
    MultisetDistinct(ProbeOrder(ix));
  }

  /** In a scan over consecutive windows no list is visited in two rounds. */
  lemma NoListIsVisitedTwice(rounds: seq<Round>, ix: Index, mask: nat -> bool, budget: nat, j: nat, k: nat, id: nat)
    requires CentroidsReadable(ix) && IsScan(rounds, ix, mask, budget) && Consecutive(rounds) && j < k < |rounds|
    ensures rounds[j].outcome.visitedLists <= rounds[j].window.end - rounds[j].window.start
    ensures rounds[k].outcome.visitedLists <= rounds[k].window.end - rounds[k].window.start
    ensures rounds[j].window.start < rounds[j].window.end <= |ProbeOrder(ix)|
    ensures rounds[k].window.start < rounds[k].window.end <= |ProbeOrder(ix)|
    ensures !(id in VisitedIds(rounds[j], ix) && id in VisitedIds(rounds[k], ix))
  {
    hide ProbeOrder, HitsOf, PostingCount, TakeTop, StillShort;
    var a, b := rounds[j], rounds[k];
    forall i | 0 <= i < |rounds| ensures rounds[i].window.start < rounds[i].window.end {
      assert RoundAnswers(rounds[i], ix, mask, TotalVisited(rounds[..i]), budget);
    }
    assert RoundAnswers(a, ix, mask, TotalVisited(rounds[..j]), budget);
    assert RoundAnswers(b, ix, mask, TotalVisited(rounds[..k]), budget);
    ConsecutiveWindowsAscend(rounds, j, k);
    ProbeOrderIsDistinct(ix);
    SlicesAreDisjoint(ProbeOrder(ix), a.window.start, a.window.start + a.outcome.visitedLists,
                      b.window.start, b.window.start + b.outcome.visitedLists, id);
    assert VisitedIds(a, ix) == ProbeOrder(ix)[a.window.start..a.window.start + a.outcome.visitedLists];
    assert VisitedIds(b, ix) == ProbeOrder(ix)[b.window.start..b.window.start + b.outcome.visitedLists];
  }

  lemma SlicesAreDisjoint(s: seq<nat>, a: nat, b: nat, c: nat, d: nat, x: nat)
    requires Distinct(s) && a <= b <= c <= d <= |s|
    ensures !(x in s[a..b] && x in s[c..d])
  {
  }

  // ---------- all lists ----------

  lemma {:induction false} HitsOfSplit(ix: Index, mask: nat -> bool, a: seq<nat>, b: seq<nat>, n: nat)
    requires ReadableTo(ix, mask, a, |a|) && ReadableTo(ix, mask, b, |b|) && n <= |b|
    ensures ReadableTo(ix, mask, a + b, |a| + n)
    ensures HitsOf(ix, mask, a + b, |a| + n) == HitsOf(ix, mask, a, |a|) + HitsOf(ix, mask, b, n)
  {
    hide Eligible, ListReadable;
    forall i | 0 <= i < |a| + n ensures ListReadable(ix, mask, (a + b)[i]) {
      assert (a + b)[i] == if i < |a| then a[i] else b[i - |a|];
    }
    if n == 0 {
      HitsOfPrefix(ix, mask, a, b, |a|);
    } else {
      HitsOfSplit(ix, mask, a, b, n - 1);
      assert (a + b)[|a| + n - 1] == b[n - 1];
      assert ListReadable(ix, mask, b[n - 1]);
    }
  }

  lemma {:induction false} HitsOfPrefix(ix: Index, mask: nat -> bool, a: seq<nat>, b: seq<nat>, n: nat)
    requires n <= |a| && ReadableTo(ix, mask, a, n)
    ensures ReadableTo(ix, mask, a + b, n) && HitsOf(ix, mask, a + b, n) == HitsOf(ix, mask, a, n)
  {
    hide Eligible, ListReadable;
    if n > 0 {
      HitsOfPrefix(ix, mask, a, b, n - 1);
      assert (a + b)[n - 1] == a[n - 1];
      assert ListReadable(ix, mask, a[n - 1]);
    }
  }

  lemma HitsWithout(ix: Index, mask: nat -> bool, ids: seq<nat>, k: nat)
    requires k < |ids| && ReadableTo(ix, mask, ids, |ids|)
    ensures var others := ids[..k] + ids[k + 1..];
            && ListReadable(ix, mask, ids[k]) && ReadableTo(ix, mask, others, |others|)
            && multiset(HitsOf(ix, mask, ids, |ids|))
               == multiset(Eligible(ix.lists[ids[k]].value, mask)) + multiset(HitsOf(ix, mask, others, |others|))
  {
    hide Eligible, ListReadable, HitsOf;
    assert ListReadable(ix, mask, ids[k]);
    var a, b := ids[..k], ids[k + 1..];
    HitsOfSplit(ix, mask, a, b, |b|);
    HitsAround(ix, mask, a, ids[k], b);
    assert ids == (a + [ids[k]]) + b;
  }

  lemma HitsAround(ix: Index, mask: nat -> bool, a: seq<nat>, x: nat, b: seq<nat>)
    requires ReadableTo(ix, mask, a, |a|) && ListReadable(ix, mask, x) && ReadableTo(ix, mask, b, |b|)
    ensures var ids := (a + [x]) + b;
            && ReadableTo(ix, mask, ids, |ids|)
            && HitsOf(ix, mask, ids, |ids|)
               == HitsOf(ix, mask, a, |a|) + Eligible(ix.lists[x].value, mask) + HitsOf(ix, mask, b, |b|)
  {
    hide Eligible, ListReadable, HitsOf;
    OneList(ix, mask, x);
    HitsOfSplit(ix, mask, a, [x], 1);
    HitsOfSplit(ix, mask, a + [x], b, |b|);
  }

  lemma OneList(ix: Index, mask: nat -> bool, id: nat)
    requires ListReadable(ix, mask, id)
    ensures ReadableTo(ix, mask, [id], 1) && HitsOf(ix, mask, [id], 1) == Eligible(ix.lists[id].value, mask)
  {
    hide Eligible;
    assert HitsOf(ix, mask, [id], 0) == [];
  }

  /** Visiting the same lists in another order finds the same postings. */
  lemma {:induction false} VisitOrderIsIrrelevant(ix: Index, mask: nat -> bool, a: seq<nat>, b: seq<nat>)
    requires multiset(a) == multiset(b) && ReadableTo(ix, mask, a, |a|) && ReadableTo(ix, mask, b, |b|)
    ensures multiset(HitsOf(ix, mask, a, |a|)) == multiset(HitsOf(ix, mask, b, |b|))
    decreases |a|
  {
    hide Eligible, ListReadable, HitsOf;
    assert |a| == |multiset(a)| == |multiset(b)| == |b|;
    if a == [] {
      assert a == b;
    } else {
      assert a[0] in multiset(b);
      var k :| 0 <= k < |b| && b[k] == a[0];
      RemoveSame(a, b, k);
      HitsWithout(ix, mask, a, 0);
      HitsWithout(ix, mask, b, k);
      VisitOrderIsIrrelevant(ix, mask, a[..0] + a[1..], b[..k] + b[k + 1..]);
    }
  }

  /** A search that goes through all lists returns the exact best postings of the whole index. */
  lemma FullProbeIsExact(ix: Index, o: Outcome, mask: nat -> bool, previous: nat, budget: nat, limit: nat)
    requires CentroidsReadable(ix) && |ix.centroids| > 0 && |ProbeOrder(ix)| == |ix.centroids|
    requires Answers(o, ix, mask, WindowLists(ProbeOrder(ix), Window(0, |ix.centroids|)), previous, budget, limit)
    requires o.visitedLists == |ix.centroids|
    ensures var all := seq(|ix.centroids|, i => i);
            ReadableTo(ix, mask, all, |all|) && o.hits == TakeTop(ix.order, HitsOf(ix, mask, all, |all|), limit)
  {
    hide ProbeOrder, HitsOf, ListReadable, Sort;
    var n := |ix.centroids|;
    var order, all := ProbeOrder(ix), seq(n, i => i);
    ProbeOrderIsPermutation(ix);
    assert WindowLists(order, Window(0, n)) == order;
    forall i | 0 <= i < |all| ensures ListReadable(ix, mask, all[i]) {
      assert all[i] in multiset(order);
      var k :| 0 <= k < |order| && order[k] == all[i];
    }
    VisitOrderIsIrrelevant(ix, mask, order, all);
    SortIgnoresInputOrder(ix.order, HitsOf(ix, mask, order, n), HitsOf(ix, mask, all, n));
  }
}
