/**
 The shared comparison budget (crates/context-index/src/hnsw_hierarchy.rs): any number of
 clones reserve batches from one atomic counter.

 A reservation is the load and compare-and-swap loop of an atomic fetch-and-update. Each
 load, successful swap, failed swap and refusal is one step, and a run is any interleaving
 of the steps of any number of threads. A weak swap may fail for no reason, so a failed swap
 is possible whenever a swap is.
 */
module ComparisonBudget {

  const USIZE_MAX: nat := 0xffff_ffff_ffff_ffff

  datatype Phase = Idle | Loaded(count: nat, seen: nat)

  /** One finished reservation. */
  datatype Verdict = Verdict(count: nat, granted: bool)

  datatype Budget = Budget(
    maximum: nat,
    consumed: nat,
    threads: map<nat, Phase>,
    log: seq<Verdict>)   // finished reservations, in the order they finished

  datatype Event =
    | Load(thread: nat, count: nat)
    | Swap(thread: nat)
    | SwapFails(thread: nat)
    | Refuse(thread: nat)

  /** The update closure: the next counter value exists and stays within the maximum. */
  predicate Fits(b: Budget, seen: nat, count: nat) {
    seen + count <= USIZE_MAX && seen + count <= b.maximum
  }

  function PhaseOf(b: Budget, t: nat): Phase {
    if t in b.threads then b.threads[t] else Idle
  }

  predicate Enabled(b: Budget, e: Event) {
    match e
    case Load(t, count) => PhaseOf(b, t).Idle? && count <= USIZE_MAX
    case Swap(t) =>
      var p := PhaseOf(b, t);
      p.Loaded? && Fits(b, p.seen, p.count) && p.seen == b.consumed
    case SwapFails(t) =>
      var p := PhaseOf(b, t);
      p.Loaded? && Fits(b, p.seen, p.count)
    case Refuse(t) =>
      var p := PhaseOf(b, t);
      p.Loaded? && !Fits(b, p.seen, p.count)
  }

  function Apply(b: Budget, e: Event): Budget
    requires Enabled(b, e)
  {
    match e
    case Load(t, count) => b.(threads := b.threads[t := Loaded(count, b.consumed)])
    case Swap(t) =>
      var p := PhaseOf(b, t);
      b.(consumed := p.seen + p.count, threads := b.threads[t := Idle], log := b.log + [Verdict(p.count, true)])
    case SwapFails(t) => b.(threads := b.threads[t := Loaded(PhaseOf(b, t).count, b.consumed)])
    case Refuse(t) => b.(threads := b.threads[t := Idle], log := b.log + [Verdict(PhaseOf(b, t).count, false)])
  }

  /** The budgets a run passes through, from a new one on. */
  ghost predicate IsRun(run: seq<Budget>, events: seq<Event>, maximum: nat) {
    && |run| == |events| + 1
    && run[0] == Budget(maximum, 0, map[], [])
    && forall i :: 0 <= i < |events| ==> Enabled(run[i], events[i]) && run[i + 1] == Apply(run[i], events[i])
  }

  ghost function Reserved(log: seq<Verdict>): nat {
    if log == [] then
      0
    else
      var last := log[|log| - 1];
      Reserved(log[..|log| - 1]) + if last.granted then last.count else 0
  }

  /** Every reservation got the answer it would have got alone, in the order they finished. */
  ghost predicate Sequential(log: seq<Verdict>, maximum: nat) {
    forall i :: 0 <= i < |log| ==> (log[i].granted <==> Reserved(log[..i]) + log[i].count <= maximum)
  }

  ghost predicate Inv(b: Budget) {
    && b.maximum <= USIZE_MAX
    && b.consumed == Reserved(b.log) <= b.maximum
    && (forall t :: t in b.threads && b.threads[t].Loaded? ==> b.threads[t].seen <= b.consumed)
    && Sequential(b.log, b.maximum)
  }

  lemma SequentialAppend(log: seq<Verdict>, v: Verdict, maximum: nat)
    requires Sequential(log, maximum) && (v.granted <==> Reserved(log) + v.count <= maximum)
    ensures Sequential(log + [v], maximum)
    ensures Reserved(log + [v]) == Reserved(log) + if v.granted then v.count else 0
  {
    var longer := log + [v];
    assert longer[..|log|] == log;
    forall i | 0 <= i < |longer|
      ensures longer[i].granted <==> Reserved(longer[..i]) + longer[i].count <= maximum
    {
      if i < |log| {
        assert longer[..i] == log[..i];
      }
    }
  }

  lemma StepKeepsInv(b: Budget, e: Event)
    requires Inv(b) && Enabled(b, e)
    ensures Inv(Apply(b, e)) && Apply(b, e).maximum == b.maximum
    ensures b.consumed <= Apply(b, e).consumed
  {
    match e
    case Swap(t) => SequentialAppend(b.log, Verdict(PhaseOf(b, t).count, true), b.maximum);
    case Refuse(t) => SequentialAppend(b.log, Verdict(PhaseOf(b, t).count, false), b.maximum);
    case _ =>
  }

  /**
   In every interleaving the counter equals the sum of the granted reservations, never
   exceeds the maximum, and the answers are those of some sequential order.
   */
  lemma {:induction false} BudgetIsExact(run: seq<Budget>, events: seq<Event>, maximum: nat, i: nat)
    requires maximum <= USIZE_MAX && IsRun(run, events, maximum) && i < |run|
    ensures run[i].maximum == maximum
    ensures run[i].consumed == Reserved(run[i].log) <= maximum
    ensures Sequential(run[i].log, maximum)
    ensures Inv(run[i])
  {
    if i > 0 {
      BudgetIsExact(run, events, maximum, i - 1);
      assert run[i - 1 + 1] == Apply(run[i - 1], events[i - 1]);
      StepKeepsInv(run[i - 1], events[i - 1]);
    }
  }

  /** A refused batch leaves the counter unchanged and would not fit even at the moment it is refused. */
  lemma RefusalIsJustified(run: seq<Budget>, events: seq<Event>, maximum: nat, i: nat)
    requires maximum <= USIZE_MAX && IsRun(run, events, maximum) && i < |events| && events[i].Refuse?
    ensures run[i + 1].consumed == run[i].consumed
    ensures run[i].consumed + PhaseOf(run[i], events[i].thread).count > maximum
  {
    BudgetIsExact(run, events, maximum, i);
    assert Enabled(run[i], events[i]);
  }
}
