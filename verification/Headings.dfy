/** Heading parents of chunk drafts (crates/context-build/src/token_chunking.rs). */
module Headings {
  import opened Wrappers

  /** A path of heading titles; `<=` on paths is "is a prefix of". */
  type Path = seq<string>

  datatype Draft = Draft(heading: bool, path: Path)

  // ---------- the direct definition ----------

  /** Heading j is still open at i: no heading since has a path that j's path starts with. */
  ghost predicate Open(drafts: seq<Draft>, i: nat, j: nat)
    requires i <= |drafts|
  {
    && j < i && drafts[j].heading
    && forall k :: j < k < i && drafts[k].heading ==> !(drafts[k].path <= drafts[j].path)
  }

  /** How much of its own path a draft may use: a heading is not its own parent. */
  function MaximumDepth(d: Draft): nat {
    if d.heading && |d.path| > 0 then |d.path| - 1 else if d.heading then 0 else |d.path|
  }

  /** Heading j is open at i and covers draft i; the path of another heading is longer than its own. */
  ghost predicate Encloses(drafts: seq<Draft>, i: nat, j: nat)
    requires i < |drafts|
  {
    && Open(drafts, i, j) && drafts[j].path != []
    && if drafts[i].heading then drafts[j].path < drafts[i].path else drafts[j].path <= drafts[i].path
  }

  /** The parent of draft i is the deepest open heading that covers it, if any. */
  ghost predicate IsParent<Id(!new)>(drafts: seq<Draft>, ids: seq<Id>, i: nat, parent: Option<Id>)
    requires i < |drafts| <= |ids|
  {
    match parent
    case None => forall j: nat :: !Encloses(drafts, i, j)
    case Some(id) =>
      exists j: nat :: Encloses(drafts, i, j) && id == ids[j]
        && forall other: nat :: Encloses(drafts, i, other) ==> |drafts[other].path| <= |drafts[j].path|
  }

  /** Two open headings have different paths, so the parent is one heading only. */
  lemma OpenPathsDiffer(drafts: seq<Draft>, i: nat, j: nat, k: nat)
    requires i <= |drafts| && Open(drafts, i, j) && Open(drafts, i, k) && drafts[j].path == drafts[k].path
    ensures j == k
  {
  }

  lemma ParentIsUnique<Id(!new)>(drafts: seq<Draft>, ids: seq<Id>, i: nat, a: Option<Id>, b: Option<Id>)
    requires i < |drafts| <= |ids| && IsParent(drafts, ids, i, a) && IsParent(drafts, ids, i, b)
    ensures a == b
  {
    if a.Some? && b.Some? {
      var j: nat :| Encloses(drafts, i, j) && a.value == ids[j]
        && forall other: nat :: Encloses(drafts, i, other) ==> |drafts[other].path| <= |drafts[j].path|;
      var k: nat :| Encloses(drafts, i, k) && b.value == ids[k]
        && forall other: nat :: Encloses(drafts, i, other) ==> |drafts[other].path| <= |drafts[k].path|;
      SameDepthSameHeading(drafts, i, j, k);
    }
  }

  lemma SameDepthSameHeading(drafts: seq<Draft>, i: nat, j: nat, k: nat)
    requires i < |drafts| && Encloses(drafts, i, j) && Encloses(drafts, i, k) && |drafts[j].path| == |drafts[k].path|
    ensures j == k
  {
    var p := drafts[i].path;
    assert drafts[j].path == p[..|drafts[j].path|] && drafts[k].path == p[..|drafts[k].path|];
    OpenPathsDiffer(drafts, i, j, k);
  }

  // ---------- the running map ----------

  /** The map holds exactly the open headings, by path. */
  ghost predicate HoldsOpen<Id(!new)>(headings: map<Path, Id>, drafts: seq<Draft>, ids: seq<Id>, i: nat)
    requires i <= |drafts| <= |ids|
  {
    && (forall j: nat :: Open(drafts, i, j) ==> drafts[j].path in headings && headings[drafts[j].path] == ids[j])
    && (forall path :: path in headings ==> exists j: nat :: Open(drafts, i, j) && drafts[j].path == path)
  }

  lemma OpenStep(drafts: seq<Draft>, i: nat, j: nat)
    requires i < |drafts|
    ensures Open(drafts, i + 1, j) <==>
            if j == i then drafts[i].heading
            else Open(drafts, i, j) && !(drafts[i].heading && drafts[i].path <= drafts[j].path)
  {
  }

  function Pruned<Id>(headings: map<Path, Id>, path: Path): map<Path, Id> {
    map p | p in headings && !(path <= p) :: headings[p]
  }

  lemma HeadingStep<Id(!new)>(headings: map<Path, Id>, drafts: seq<Draft>, ids: seq<Id>, i: nat)
    requires i < |drafts| <= |ids| && HoldsOpen(headings, drafts, ids, i) && drafts[i].heading
    ensures HoldsOpen(Pruned(headings, drafts[i].path)[drafts[i].path := ids[i]], drafts, ids, i + 1)
  {
    var next := Pruned(headings, drafts[i].path)[drafts[i].path := ids[i]];
    forall j: nat | Open(drafts, i + 1, j) ensures drafts[j].path in next && next[drafts[j].path] == ids[j] {
      OpenStep(drafts, i, j);
    }
    forall path | path in next ensures exists j: nat :: Open(drafts, i + 1, j) && drafts[j].path == path {
      if path == drafts[i].path {
        OpenStep(drafts, i, i);
      } else {
        var j: nat :| Open(drafts, i, j) && drafts[j].path == path;
        OpenStep(drafts, i, j);
      }
    }
  }

  lemma OtherStep<Id(!new)>(headings: map<Path, Id>, drafts: seq<Draft>, ids: seq<Id>, i: nat)
    requires i < |drafts| <= |ids| && HoldsOpen(headings, drafts, ids, i) && !drafts[i].heading
    ensures HoldsOpen(headings, drafts, ids, i + 1)
  {
    forall j: nat ensures Open(drafts, i + 1, j) <==> Open(drafts, i, j) {
      OpenStep(drafts, i, j);
    }
  }

  /** The deepest prefix of the draft's path that the map knows, from the longest down. */
  method FindParent<Id(!new)>(headings: map<Path, Id>, ghost drafts: seq<Draft>, ghost ids: seq<Id>, ghost i: nat,
                       d: Draft)
    returns (parent: Option<Id>)
    requires i < |drafts| <= |ids| && HoldsOpen(headings, drafts, ids, i) && d == drafts[i]
    ensures IsParent(drafts, ids, i, parent)
  {
    var depth := MaximumDepth(d);
    while depth > 0
      invariant depth <= MaximumDepth(d)
      invariant forall j: nat :: Encloses(drafts, i, j) ==> |drafts[j].path| <= depth
    {
      if d.path[..depth] in headings {
        ghost var j: nat :| Open(drafts, i, j) && drafts[j].path == d.path[..depth];
        assert Encloses(drafts, i, j);
        return Some(headings[d.path[..depth]]);
      }
      forall j: nat | Encloses(drafts, i, j) ensures |drafts[j].path| <= depth - 1 {
        assert drafts[j].path == d.path[..|drafts[j].path|];
      }
      depth := depth - 1;
    }
    return None;
  }

  /** Every draft gets the deepest heading that is still open above it. */
  method ParentOccurrences<Id(!new)>(drafts: seq<Draft>, ids: seq<Id>) returns (parents: seq<Option<Id>>)
    requires |drafts| <= |ids|
    ensures |parents| == |drafts|
    ensures forall i :: 0 <= i < |drafts| ==> IsParent(drafts, ids, i, parents[i])
  {
    hide IsParent;
    var headings: map<Path, Id> := map[];
    parents := [];
    NoneOpen(drafts, ids);
    for i := 0 to |drafts|
      invariant |parents| == i
      invariant forall k :: 0 <= k < i ==> IsParent(drafts, ids, k, parents[k])
      invariant HoldsOpen(headings, drafts, ids, i)
    {
      var parent := FindParent(headings, drafts, ids, i, drafts[i]);
      parents := parents + [parent];
      if drafts[i].heading {
        HeadingStep(headings, drafts, ids, i);
        headings := Pruned(headings, drafts[i].path)[drafts[i].path := ids[i]];
      } else {
        OtherStep(headings, drafts, ids, i);
      }
    }
  }

  lemma NoneOpen<Id(!new)>(drafts: seq<Draft>, ids: seq<Id>)
    requires |drafts| <= |ids|
    ensures HoldsOpen(map[], drafts, ids, 0)
  {
  }
}
