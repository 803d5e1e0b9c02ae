/**
 Exact scan of the append-only delta segment, its merge with base-graph candidates, and the
 compaction fold (crates/context-index/src/delta_scan.rs).

 Scores are exact reals. The metric with its query is a parameter `score`, so every result
 holds for every metric; `None` stands for a vector the metric rejects.
 */
module DeltaScan {
  import opened Wrappers
  import opened Ranking

  type Vector = seq<real>

  type Scorer = Vector -> Option<real>

  datatype Entry = Live(tid: nat, vector: Vector) | Tombstone(tid: nat)

  datatype Row = Row(tid: nat, vector: Vector)

  datatype Outcome = Outcome(hits: seq<Hit>, retired: set<nat>, scoredCount: nat)

  datatype ScanError = DistanceFailed(tid: nat)

  // ---------- last write wins ----------

  /** The newest entry for a TID, if the stream mentions it. */
  ghost function LastWrite(entries: seq<Entry>, tid: nat): Option<Entry> {
    if entries == [] then
      None
    else
      var last := entries[|entries| - 1];
      if last.tid == tid then Some(last) else LastWrite(entries[..|entries| - 1], tid)
  }

  /** Every TID the stream mentions. */
  ghost function Retired(entries: seq<Entry>): set<nat> {
    if entries == [] then
      {}
    else
      Retired(entries[..|entries| - 1]) + {entries[|entries| - 1].tid}
  }

  /** The map a stream leaves behind: every TID whose newest entry is live. */
  ghost function LiveState(entries: seq<Entry>): map<nat, Vector> {
    if entries == [] then
      map[]
    else
      var before := LiveState(entries[..|entries| - 1]);
      match entries[|entries| - 1]
      case Live(tid, vector) => before[tid := vector]
      case Tombstone(tid) => before - {tid}
  }

  /** One pass over the stream, updating the live map and the retirement set. */
  method FoldLiveState(entries: seq<Entry>) returns (live: map<nat, Vector>, retired: set<nat>)
    ensures live == LiveState(entries)
    ensures retired == Retired(entries)
  {
    live, retired := map[], {};
    for i := 0 to |entries|
      invariant live == LiveState(entries[..i])
      invariant retired == Retired(entries[..i])
    {
      assert entries[..i + 1][..i] == entries[..i];
      assert entries[..i + 1] == entries[..i] + [entries[i]];
      match entries[i] {
        case Live(tid, vector) =>
          retired := retired + {tid};
          live := live[tid := vector];
        case Tombstone(tid) =>
          retired := retired + {tid};
          live := live - {tid};
      }
    }
    assert entries[..|entries|] == entries;
  }

  ghost predicate Increasing(s: seq<nat>) {
    forall i, j :: 0 <= i < j < |s| ==> s[i] < s[j]
  }

  /** The keys of an ordered map, ascending. */
  function Ascending(keys: set<nat>): (r: seq<nat>)
    ensures |r| == |keys|
    ensures forall x :: x in r <==> x in keys
    ensures Increasing(r)
  {
    if keys == {} then
      []
    else
      var rest := Ascending(keys - {Least(keys)});
      IncreasingCons(Least(keys), rest);
      [Least(keys)] + rest
  }

  lemma IncreasingCons(x: nat, rest: seq<nat>)
    requires Increasing(rest)
    requires forall y :: y in rest ==> x < y
    ensures Increasing([x] + rest)
  {
    var r := [x] + rest;
    forall i, j | 0 <= i < j < |r| ensures r[i] < r[j] {
      assert r[j] == rest[j - 1] && rest[j - 1] in rest;
    }
  }

  function Least(keys: set<nat>): (least: nat)
    requires keys != {}
    ensures least in keys
    ensures forall x :: x in keys ==> least <= x
  {
    LeastExists(keys);
    var least :| least in keys && forall x :: x in keys ==> least <= x;
    least
  }

  lemma LeastExists(keys: set<nat>)
    requires keys != {}
    ensures exists least :: least in keys && forall x :: x in keys ==> least <= x
  {
    var _ := FindLeast(keys);
  }

  lemma {:induction false} FindLeast(keys: set<nat>) returns (least: nat)
    requires keys != {}
    ensures least in keys && forall x :: x in keys ==> least <= x
  {
    least :| least in keys;
    if keys != {least} {
      var other := FindLeast(keys - {least});
      assert forall x :: x in keys ==> x == least || x in keys - {least};
      if other < least {
        least := other;
      }
    }
  }

  /** The compacted rows in TID order: the same live set always numbers its nodes the same way. */
  method FoldCompactionLiveRows(entries: seq<Entry>) returns (rows: seq<Row>)
    ensures rows == Rows(LiveState(entries))
  {
    var live, _ := FoldLiveState(entries);
    var tids := Ascending(live.Keys);
    rows := seq(|tids|, i requires 0 <= i < |tids| => Row(tids[i], live[tids[i]]));
  }

  ghost function Rows(live: map<nat, Vector>): seq<Row> {
    var tids := Ascending(live.Keys);
    seq(|tids|, i requires 0 <= i < |tids| => Row(tids[i], live[tids[i]]))
  }

  /** Compacted rows read back as the start of a new stream. */
  ghost function AsEntries(rows: seq<Row>): seq<Entry> {
    seq(|rows|, i requires 0 <= i < |rows| => Live(rows[i].tid, rows[i].vector))
  }

  // ---------- scan and merge ----------

  ghost predicate Scorable(live: map<nat, Vector>, score: Scorer) {
    forall tid :: tid in live ==> score(live[tid]).Some?
  }

  /** The listed rows with their exact scores, in list order. */
  ghost function ScoreEach(rows: seq<Row>, score: Scorer): seq<Hit>
    requires forall row :: row in rows ==> score(row.vector).Some?
  {
    if rows == [] then
      []
    else
      var last := rows[|rows| - 1];
      ScoreEach(rows[..|rows| - 1], score) + [Hit(last.tid, score(last.vector).value)]
  }

  /** Every row of a live state with its exact score, in TID order. */
  ghost function Hits(live: map<nat, Vector>, score: Scorer): seq<Hit>
    requires Scorable(live, score)
  {
    RowsOf(live);
    ScoreEach(Rows(live), score)
  }

  lemma RowsOf(live: map<nat, Vector>)
    ensures forall row :: row in Rows(live) <==> row.tid in live && row.vector == live[row.tid]
    ensures forall i, j :: 0 <= i < j < |Rows(live)| ==> Rows(live)[i].tid < Rows(live)[j].tid
  {
    var tids := Ascending(live.Keys);
    var rows := Rows(live);
    forall row: Row | row.tid in live && row.vector == live[row.tid] ensures row in rows {
      assert row.tid in tids;
      var i :| 0 <= i < |tids| && tids[i] == row.tid;
      assert rows[i] == row;
    }
  }

  /** What a scan that meets no scoring failure returns. */
  ghost function ScanOf(entries: seq<Entry>, score: Scorer, k: nat): Outcome
    requires Scorable(LiveState(entries), score)
  {
    var live := LiveState(entries);
    Outcome(TakeTop(LowerIsBetter, Hits(live, score), k), Retired(entries), |live|)
  }

  method ScanDeltaTopK(entries: seq<Entry>, score: Scorer, k: nat) returns (r: Result<Outcome, ScanError>)
    ensures r.Ok? <==> Scorable(LiveState(entries), score)
    ensures r.Ok? ==> r.value == ScanOf(entries, score, k)
  {
    var live, retired := FoldLiveState(entries);
    RowsOf(live);
    var tids := Ascending(live.Keys);
    var rows := seq(|tids|, i requires 0 <= i < |tids| => Row(tids[i], live[tids[i]]));
    var scored := ScoreRows(rows, score);
    match scored {
      case Err(e) =>
        r := Err(e);
      case Ok(hits) =>
        assert Scorable(live, score) by {
          forall tid | tid in live ensures score(live[tid]).Some? {
            assert Row(tid, live[tid]) in rows;
          }
        }
        r := Ok(Outcome(TakeTop(LowerIsBetter, hits, k), retired, |live|));
    }
  }

  method ScoreRows(rows: seq<Row>, score: Scorer) returns (r: Result<seq<Hit>, ScanError>)
    ensures r.Ok? <==> forall row :: row in rows ==> score(row.vector).Some?
    ensures r.Ok? ==> r.value == ScoreEach(rows, score)
  {
    var hits: seq<Hit> := [];
    for i := 0 to |rows|
      invariant forall row :: row in rows[..i] ==> score(row.vector).Some?
      invariant hits == ScoreEach(rows[..i], score)
    {
      var s := score(rows[i].vector);
      if s.None? {
        return Err(DistanceFailed(rows[i].tid));
      }
      assert rows[..i + 1] == rows[..i] + [rows[i]];
      assert rows[..i + 1][..i] == rows[..i];
      hits := hits + [Hit(rows[i].tid, s.value)];
    }
    assert rows[..|rows|] == rows;
    r := Ok(hits);
  }

  /** Base candidates whose TID the delta never mentions. */
  function Surviving(base: seq<Hit>, retired: set<nat>): (r: seq<Hit>)
    ensures forall h :: h in r <==> h in base && h.id !in retired
    ensures Distinct(base) ==> Distinct(r)
  {
    if base == [] then
      []
    else
      var rest := Surviving(base[1..], retired);
      if base[0].id in retired then rest else [base[0]] + rest
  }

  /** Merges base candidates with a delta scan, applying the delta's base retirement. */
  function MergeTopK(base: seq<Hit>, delta: Outcome, k: nat): seq<Hit> {
    TakeTop(LowerIsBetter, Surviving(base, delta.retired) + delta.hits, k)
  }

  // ---------- folding laws ----------

  /** A TID is live exactly when its newest entry is, and then holds that entry's vector. */
  lemma {:induction false} LastWriteWins(entries: seq<Entry>, tid: nat)
    ensures tid in Retired(entries) <==> LastWrite(entries, tid).Some?
    ensures tid in LiveState(entries) <==> LastWrite(entries, tid).Some? && LastWrite(entries, tid).value.Live?
    ensures tid in LiveState(entries) ==> LastWrite(entries, tid) == Some(Live(tid, LiveState(entries)[tid]))
  {
    if entries != [] {
      var n := |entries| - 1;
      assert entries == entries[..n] + [entries[n]];
      LastWriteWins(entries[..n], tid);
    }
  }

  lemma {:induction false} LastWriteAppend(a: seq<Entry>, b: seq<Entry>, tid: nat)
    ensures LastWrite(a + b, tid) == if LastWrite(b, tid).Some? then LastWrite(b, tid) else LastWrite(a, tid)
  {
    if b == [] {
      assert a + b == a;
    } else {
      assert (a + b)[..|a + b| - 1] == a + b[..|b| - 1];
      LastWriteAppend(a, b[..|b| - 1], tid);
    }
  }

  /** `all` is `base` without the retired rows, plus the rows of `delta`, which are all retired from the base. */
  ghost predicate Overlay(all: map<nat, Vector>, base: map<nat, Vector>, delta: map<nat, Vector>, retired: set<nat>) {
    && (forall tid :: tid in all <==> (tid in base && tid !in retired) || tid in delta)
    && (forall tid :: tid in delta ==> tid in retired && tid in all && all[tid] == delta[tid])
    && (forall tid :: tid in base && tid !in retired ==> tid in all && all[tid] == base[tid])
  }

  /** Later entries hide every earlier row they mention and add their own live rows. */
  lemma LiveStateAppend(a: seq<Entry>, b: seq<Entry>)
    ensures Overlay(LiveState(a + b), LiveState(a), LiveState(b), Retired(b))
  {
    forall tid: nat
      ensures tid in LiveState(a + b) <==> (tid in LiveState(a) && tid !in Retired(b)) || tid in LiveState(b)
      ensures tid in LiveState(b) ==> tid in Retired(b) && LiveState(a + b)[tid] == LiveState(b)[tid]
      ensures tid in LiveState(a) && tid !in Retired(b) ==> LiveState(a + b)[tid] == LiveState(a)[tid]
    {
      LastWriteAppend(a, b, tid);
      LastWriteWins(a, tid);
      LastWriteWins(b, tid);
      LastWriteWins(a + b, tid);
    }
  }

  lemma {:induction false} LastWriteOfRows(rows: seq<Row>, tid: nat)
    requires forall i, j :: 0 <= i < j < |rows| ==> rows[i].tid < rows[j].tid
    ensures LastWrite(AsEntries(rows), tid).Some? <==> exists i :: 0 <= i < |rows| && rows[i].tid == tid
    ensures forall i :: 0 <= i < |rows| && rows[i].tid == tid ==>
                          LastWrite(AsEntries(rows), tid) == Some(Live(tid, rows[i].vector))
  {
    if rows != [] {
      var n := |rows| - 1;
      assert AsEntries(rows)[..n] == AsEntries(rows[..n]);
      LastWriteOfRows(rows[..n], tid);
      assert forall i :: 0 <= i < n ==> rows[..n][i] == rows[i];
    }
  }

  /** Compacting a live state and reading the rows back loses nothing. */
  lemma CompactedRowsKeepLiveState(live: map<nat, Vector>)
    ensures LiveState(AsEntries(Rows(live))) == live
  {
    forall tid: nat
      ensures tid in LiveState(AsEntries(Rows(live))) <==> tid in live
      ensures tid in live ==> LiveState(AsEntries(Rows(live)))[tid] == live[tid]
    {
      CompactedRowAt(live, tid);
    }
  }

  lemma CompactedRowAt(live: map<nat, Vector>, tid: nat)
    ensures tid in LiveState(AsEntries(Rows(live))) <==> tid in live
    ensures tid in live ==> LiveState(AsEntries(Rows(live)))[tid] == live[tid]
  {
    var rows := Rows(live);
    var tids := Ascending(live.Keys);
    LastWriteOfRows(rows, tid);
    LastWriteWins(AsEntries(rows), tid);
    assert forall i :: 0 <= i < |rows| ==> rows[i].tid == tids[i];
    if tid in live {
      assert tid in tids;
      var i :| 0 <= i < |tids| && tids[i] == tid;
      assert rows[i] == Row(tid, live[tid]);
    }
  }

  // ---------- the merge is exact ----------

  lemma {:induction false} ScoreEachAt(rows: seq<Row>, score: Scorer)
    requires forall row :: row in rows ==> score(row.vector).Some?
    ensures |ScoreEach(rows, score)| == |rows|
    ensures forall i :: 0 <= i < |rows| ==> ScoreEach(rows, score)[i] == Hit(rows[i].tid, score(rows[i].vector).value)
  {
    if rows != [] {
      ScoreEachAt(rows[..|rows| - 1], score);
    }
  }

  lemma ScoreEachOf(rows: seq<Row>, score: Scorer)
    requires forall i, j :: 0 <= i < j < |rows| ==> rows[i].tid < rows[j].tid
    requires forall row :: row in rows ==> score(row.vector).Some?
    ensures UniqueIds(ScoreEach(rows, score))
    ensures forall h :: h in ScoreEach(rows, score)
                        <==> exists row :: row in rows && h == Hit(row.tid, score(row.vector).value)
  {
    hide ScoreEach;
    ScoreEachAt(rows, score);
    var hits := ScoreEach(rows, score);
    forall row | row in rows ensures Hit(row.tid, score(row.vector).value) in hits {
      var i :| 0 <= i < |rows| && rows[i] == row;
      assert hits[i] == Hit(row.tid, score(row.vector).value);
    }
    forall h | h in hits ensures exists row :: row in rows && h == Hit(row.tid, score(row.vector).value) {
      var i :| 0 <= i < |hits| && hits[i] == h;
      assert rows[i] in rows;
    }
  }

  lemma HitsOf(live: map<nat, Vector>, score: Scorer)
    requires Scorable(live, score)
    ensures UniqueIds(Hits(live, score))
    ensures forall h :: h in Hits(live, score) <==> h.id in live && h.score == score(live[h.id]).value
  {
    RowsOf(live);
    ScoreEachOf(Rows(live), score);
    forall h: Hit | h.id in live && h.score == score(live[h.id]).value ensures h in Hits(live, score) {
      assert Row(h.id, live[h.id]) in Rows(live);
    }
  }

  /** At most |ids| hits with distinct identifiers carry an identifier in ids. */
  lemma {:induction false} HitsInIds(hits: set<Hit>, ids: set<nat>)
    requires forall a, b :: a in hits && b in hits && a.id == b.id ==> a == b
    requires forall h :: h in hits ==> h.id in ids
    ensures |hits| <= |ids|
  {
    if hits != {} {
      var h :| h in hits;
      HitsInIds(hits - {h}, ids - {h.id});
    }
  }

  /**
   Base candidates good enough for an exact answer: real base hits, without repetition,
   containing at least the n best. A complete base list and an exact over-fetched base
   search are both of this kind.
   */
  ghost predicate SufficientBase(base: seq<Hit>, all: seq<Hit>, n: nat) {
    && Distinct(base)
    && (forall x :: x in base ==> x in all)
    && (forall x :: x in TakeTop(LowerIsBetter, all, n) ==> x in base)
  }

  ghost predicate UniqueIds(hits: seq<Hit>) {
    && Distinct(hits)
    && forall a, b :: a in hits && b in hits && a.id == b.id ==> a == b
  }

  lemma RetirementLeavesEnough(base: seq<Hit>, all: seq<Hit>, retired: set<nat>, k: nat, x: Hit)
    requires UniqueIds(all) && SufficientBase(base, all, k + |retired|)
    requires x in all && x !in base
    ensures |Better(LowerIsBetter, Elements(Surviving(base, retired)), x)| >= k
  {
    var top := TakeTop(LowerIsBetter, all, k + |retired|);
    OutsideTopIsDominated(LowerIsBetter, all, k + |retired|, x);
    TakeTopIsTop(LowerIsBetter, all, k + |retired|);
    TakeTopSubset(LowerIsBetter, all, k + |retired|);
    DroppingRetired(top, all, retired, k, x);
    var kept := Surviving(base, retired);
    var dropped := Surviving(top, retired);
    assert Better(LowerIsBetter, Elements(dropped), x) <= Better(LowerIsBetter, Elements(kept), x);
    SubsetSize(Better(LowerIsBetter, Elements(dropped), x), Better(LowerIsBetter, Elements(kept), x));
  }

  lemma DroppingRetired(top: seq<Hit>, all: seq<Hit>, retired: set<nat>, k: nat, x: Hit)
    requires UniqueIds(all) && Distinct(top) && |top| == k + |retired|
    requires forall h :: h in top ==> h in all && Precedes(LowerIsBetter, h, x)
    ensures |Better(LowerIsBetter, Elements(Surviving(top, retired)), x)| >= k
  {
    DistinctMultiset(top);
    var gone := set h | h in top && h.id in retired;
    HitsInIds(gone, retired);
    assert Elements(top) == gone + Elements(Surviving(top, retired));
    assert Better(LowerIsBetter, Elements(Surviving(top, retired)), x) == Elements(Surviving(top, retired));
  }

  /** The merge of reduced base and delta lists has the top k of everything that is live. */
  lemma MergeOfLists(all: seq<Hit>, baseAll: seq<Hit>, deltaAll: seq<Hit>, base: seq<Hit>, retired: set<nat>, k: nat)
    requires Distinct(all) && UniqueIds(baseAll) && Distinct(deltaAll)
    requires forall x :: x in all <==> (x in baseAll && x.id !in retired) || x in deltaAll
    requires forall x :: x in deltaAll ==> x.id in retired
    requires SufficientBase(base, baseAll, k + |retired|)
    ensures TakeTop(LowerIsBetter, Surviving(base, retired) + TakeTop(LowerIsBetter, deltaAll, k), k)
         == TakeTop(LowerIsBetter, all, k)
  {
    var top := TakeTop(LowerIsBetter, deltaAll, k);
    var survivors := Surviving(base, retired);
    var part := survivors + top;
    TakeTopIsTop(LowerIsBetter, deltaAll, k);
    TakeTopSubset(LowerIsBetter, deltaAll, k);
    forall x | x in Elements(all) - Elements(part)
      ensures |Better(LowerIsBetter, Elements(part), x)| >= k
    {
      if x in deltaAll {
        OutsideTopIsDominated(LowerIsBetter, deltaAll, k, x);
        SubsetSize(Better(LowerIsBetter, Elements(top), x), Better(LowerIsBetter, Elements(part), x));
      } else {
        RetirementLeavesEnough(base, baseAll, retired, k, x);
        SubsetSize(Better(LowerIsBetter, Elements(survivors), x), Better(LowerIsBetter, Elements(part), x));
      }
    }
    TakeTopOfReduced(LowerIsBetter, all, part, k);
  }

  /** MergeOfLists for the hits of live states. */
  lemma MergeOfStates(all: map<nat, Vector>, base: map<nat, Vector>, delta: map<nat, Vector>, retired: set<nat>,
                      score: Scorer, k: nat, baseHits: seq<Hit>)
    requires Overlay(all, base, delta, retired)
    requires Scorable(base, score) && Scorable(delta, score)
    requires SufficientBase(baseHits, Hits(base, score), k + |retired|)
    ensures Scorable(all, score)
    ensures MergeTopK(baseHits, Outcome(TakeTop(LowerIsBetter, Hits(delta, score), k), retired, |delta|), k)
         == TakeTop(LowerIsBetter, Hits(all, score), k)
  {
    hide Hits, TakeTop, SufficientBase, Surviving, Distinct;
    HitsOf(base, score);
    HitsOf(delta, score);
    HitsOf(all, score);
    MergeOfLists(Hits(all, score), Hits(base, score), Hits(delta, score), baseHits, retired, k);
  }

  /** Merging a delta scan into sufficient base candidates answers exactly as the compacted rows would. */
  lemma MergeIsExact(base: seq<Entry>, delta: seq<Entry>, score: Scorer, k: nat, baseHits: seq<Hit>)
    requires Scorable(LiveState(base), score) && Scorable(LiveState(delta), score)
    requires SufficientBase(baseHits, Hits(LiveState(base), score), k + |Retired(delta)|)
    ensures Scorable(LiveState(base + delta), score)
    ensures MergeTopK(baseHits, ScanOf(delta, score, k), k)
         == TakeTop(LowerIsBetter, Hits(LiveState(base + delta), score), k)
  {
    LiveStateAppend(base, delta);
    MergeOfStates(LiveState(base + delta), LiveState(base), LiveState(delta), Retired(delta), score, k, baseHits);
  }

  lemma SuffixScorable(first: seq<Entry>, second: seq<Entry>, score: Scorer)
    requires Scorable(LiveState(first + second), score)
    ensures Scorable(LiveState(second), score)
  {
    LiveStateAppend(first, second);
  }

  /**
   Compacting a prefix of the delta at any point changes no later answer: `compacted` is any
   stream with the live state of the compacted prefix, such as the rows compaction writes.
   */
  lemma CompactionIsInvisible(base: seq<Entry>, first: seq<Entry>, second: seq<Entry>, compacted: seq<Entry>,
                              score: Scorer, k: nat, before: seq<Hit>, after: seq<Hit>)
    requires LiveState(compacted) == LiveState(base + first)
    requires Scorable(LiveState(base), score) && Scorable(LiveState(first + second), score)
    requires Scorable(LiveState(compacted), score)
    requires SufficientBase(before, Hits(LiveState(base), score), k + |Retired(first + second)|)
    requires SufficientBase(after, Hits(LiveState(compacted), score), k + |Retired(second)|)
    ensures Scorable(LiveState(second), score)
    ensures MergeTopK(after, ScanOf(second, score, k), k) == MergeTopK(before, ScanOf(first + second, score, k), k)
  {
    SuffixScorable(first, second, score);
    MergeIsExact(base, first + second, score, k, before);
    MergeIsExact(compacted, second, score, k, after);
    SameStateSameFuture(compacted, base + first, second);
    AppendAssociates(base, first, second);
  }

  lemma AppendAssociates(a: seq<Entry>, b: seq<Entry>, c: seq<Entry>)
    ensures a + (b + c) == a + b + c
  {
  }

  lemma SameStateSameFuture(a: seq<Entry>, b: seq<Entry>, rest: seq<Entry>)
    requires LiveState(a) == LiveState(b)
    ensures LiveState(a + rest) == LiveState(b + rest)
  {
    LiveStateAppend(a, rest);
    LiveStateAppend(b, rest);
  }

  /** The two kinds of base search the query path uses are sufficient. */
  lemma CompleteAndOverfetchedBasesSuffice(all: seq<Hit>, n: nat, base: seq<Hit>)
    requires Distinct(all)
    requires multiset(base) == multiset(all) || base == TakeTop(LowerIsBetter, all, n)
    ensures SufficientBase(base, all, n)
  {
    TakeTopIsTop(LowerIsBetter, all, n);
    TakeTopSubset(LowerIsBetter, all, n);
    if multiset(base) == multiset(all) {
      DistinctMultiset(all);
      forall x | x in multiset(base) ensures multiset(base)[x] == 1 {
        assert multiset(base)[x] == multiset(Elements(all))[x];
      }
      MultisetDistinct(base);
      assert forall x :: x in base <==> x in multiset(base);
      assert forall x :: x in all <==> x in multiset(all);
    }
  }
}
