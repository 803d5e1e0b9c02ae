/**
 What JSON objects write down, member by member (crates/context-filter/src/lib.rs): which forms
 mean the same, which members count, and what is refused.
 */
module FilterForms {
  import opened Filters
  import opened FilterParser
  import Utf8
  import opened Wrappers

  // ---------- members ----------

  /** A name stands for the value of the last member that has it. */
  lemma {:induction false} LookupIsLast(members: seq<Member>, name: string, v: Json)
    ensures Lookup(members, name) == Some(v) <==>
            exists i :: 0 <= i < |members| && members[i] == Member(name, v)
              && forall k :: i < k < |members| ==> members[k].name != name
    ensures Lookup(members, name).Some? <==> exists i :: 0 <= i < |members| && members[i].name == name
  {
    if members != [] {
      var n := |members| - 1;
      var init := members[..n];
      LookupIsLast(init, name, v);
      assert forall i :: 0 <= i < n ==> init[i] == members[i];
      if members[n].name == name {
        assert members[n] == Member(name, members[n].value);
      } else if i :| 0 <= i < n && init[i] == Member(name, v) && forall k :: i < k < n ==> init[k].name != name {
        assert members[i] == Member(name, v);
      }
      if i :| 0 <= i < n && init[i].name == name {
        assert members[i].name == name;
      }
    }
  }

  /** A condition with a list of conditions under one of the three names is a nested filter, any other a field's. */
  lemma NestedIff(members: seq<Member>)
    ensures IsNestedFilter(members) <==>
            exists i :: 0 <= i < |members| && members[i].name in {"must", "should", "must_not"}
  {
    hide Lookup;
    LookupIsLast(members, "must", JNull);
    LookupIsLast(members, "should", JNull);
    LookupIsLast(members, "must_not", JNull);
  }

  // ---------- the bare form of a match ----------

  lemma {:induction false} LookupSkips(before: seq<Member>, m: Member, n: Member, after: seq<Member>, name: string)
    requires m.name == n.name != name
    ensures Lookup(before + [m] + after, name) == Lookup(before + [n] + after, name)
  {
    var a, b := before + [m] + after, before + [n] + after;
    if after == [] {
      assert a[..|a| - 1] == before && b[..|b| - 1] == before;
    } else {
      var init := after[..|after| - 1];
      assert a[..|a| - 1] == before + [m] + init && b[..|b| - 1] == before + [n] + init;
      assert a[|a| - 1] == after[|after| - 1] == b[|b| - 1];
      LookupSkips(before, m, n, init, name);
    }
  }

  lemma {:induction false} PredicatesAgree(before: seq<Member>, m: Member, n: Member, after: seq<Member>)
    requires m.name == n.name == "match" && DenotePredicate(m) == DenotePredicate(n)
    ensures DenotePredicates(before + [m] + after) == DenotePredicates(before + [n] + after)
  {
    hide DenotePredicate;
    var a, b := before + [m] + after, before + [n] + after;
    if after == [] {
      assert a[..|a| - 1] == before && b[..|b| - 1] == before;
      assert a[|a| - 1] == m && b[|b| - 1] == n;
    } else {
      var init := after[..|after| - 1];
      assert a[..|a| - 1] == before + [m] + init && b[..|b| - 1] == before + [n] + init;
      assert a[|a| - 1] == after[|after| - 1] == b[|b| - 1];
      PredicatesAgree(before, m, n, init);
    }
  }

  /**
   Wherever it stands among the members of a condition, `"match": v` means `"match": {"value": v}`,
   for every v that is not itself an object: both are refused or both give the same condition.
   */
  lemma BareMatchIsShorthand(before: seq<Member>, v: Json, after: seq<Member>)
    requires !v.JObject?
    ensures DenoteCondition(JObject(before + [Member("match", v)] + after))
         == DenoteCondition(JObject(before + [Member("match", JObject([Member("value", v)]))] + after))
  {
    var m, n := Member("match", v), Member("match", JObject([Member("value", v)]));
    assert DenotePredicate(m) == DenotePredicate(n);
    var a, b := before + [m] + after, before + [n] + after;
    LookupSkips(before, m, n, after, "key");
    LookupSkips(before, m, n, after, "must");
    LookupSkips(before, m, n, after, "should");
    LookupSkips(before, m, n, after, "must_not");
    if IsNestedFilter(a) {
      StrangerIsRefused(a, |before|);
      StrangerIsRefused(b, |before|);
    } else {
      PredicatesAgree(before, m, n, after);
    }
  }

  // ---------- filter objects ----------

  /** A filter object with a member of any other name is refused. */
  lemma {:induction false} StrangerIsRefused(members: seq<Member>, i: nat)
    requires i < |members| && members[i].name !in {"must", "should", "must_not"}
    ensures DenoteMembers(members).None? && DenoteFilter(JObject(members)).None?
  {
    var n := |members| - 1;
    if i < n {
      StrangerIsRefused(members[..n], i);
    }
  }

  /** The conditions of the member with this name, none if there is no such member. */
  function ListNamed(members: seq<Member>, name: string): seq<Condition<string>> {
    match Lookup(members, name)
    case Some(v) => if DenoteArray(v).Some? then DenoteArray(v).value else []
    case None => []
  }

  /** Every member is one of the three condition lists. */
  predicate ListsOnly(members: seq<Member>) {
    forall i :: 0 <= i < |members| ==>
      members[i].name in {"must", "should", "must_not"} && DenoteArray(members[i].value).Some?
  }

  lemma {:induction false} MembersIff(members: seq<Member>)
    ensures DenoteMembers(members) ==
            if ListsOnly(members)
            then Some(Filter(ListNamed(members, "must"), ListNamed(members, "should"), ListNamed(members, "must_not")))
            else None
  {
    hide DenoteArray;
    if members != [] {
      var n := |members| - 1;
      MembersIff(members[..n]);
      assert ListsOnly(members) <==>
        && ListsOnly(members[..n])
        && members[n].name in {"must", "should", "must_not"} && DenoteArray(members[n].value).Some?;
    }
  }

  /**
   A filter object is accepted exactly when it holds condition lists only, not all of them empty,
   and means the lists of its names: their order in the object does not matter.
   */
  lemma FilterObjectIff(members: seq<Member>)
    ensures var f := Filter(ListNamed(members, "must"), ListNamed(members, "should"), ListNamed(members, "must_not"));
            DenoteFilter(JObject(members)) == if ListsOnly(members) && f != Filter([], [], []) then Some(f) else None
  {
    hide ListNamed, ListsOnly;
    MembersIff(members);
  }

  // ---------- ranges ----------

  function BoundNamed(members: seq<Member>, name: string): Option<RangeBound> {
    match Lookup(members, name)
    case Some(v) => ParseBound(v)
    case None => None
  }

  predicate BoundsOnly(members: seq<Member>) {
    forall i :: 0 <= i < |members| ==>
      members[i].name in {"gt", "gte", "lt", "lte"} && (members[i].value.JNumber? || members[i].value.JString?)
  }

  lemma {:induction false} BoundsIff(members: seq<Member>)
    ensures DenoteBounds(members) ==
            if BoundsOnly(members)
            then Some(Range(BoundNamed(members, "gt"), BoundNamed(members, "gte"),
                            BoundNamed(members, "lt"), BoundNamed(members, "lte")))
            else None
  {
    if members != [] {
      var n := |members| - 1;
      BoundsIff(members[..n]);
      var m := members[n];
      assert ParseBound(m.value).Some? <==> m.value.JNumber? || m.value.JString?;
      hide ParseBound;
      assert BoundsOnly(members) <==>
        BoundsOnly(members[..n]) && m.name in {"gt", "gte", "lt", "lte"} && (m.value.JNumber? || m.value.JString?);
    }
  }

  /** A range is accepted exactly when it holds at least one bound and bounds only, each under its own name. */
  lemma RangeObjectIff(members: seq<Member>)
    ensures DenoteRange(JObject(members)) ==
            if BoundsOnly(members) && members != []
            then Some(Range(BoundNamed(members, "gt"), BoundNamed(members, "gte"),
                            BoundNamed(members, "lt"), BoundNamed(members, "lte")))
            else None
  {
    BoundsIff(members);
    if BoundsOnly(members) && members != [] {
      var m := members[|members| - 1];
      assert Lookup(members, m.name) == Some(m.value);
      assert BoundNamed(members, m.name).Some?;
    }
  }

  /** Whole numbers of 64 bits are compared as integers, other numbers as they are, strings as text. */
  lemma BoundKinds(name: string, v: Json)
    requires name in {"gt", "gte", "lt", "lte"}
    ensures BoundNamed([Member(name, v)], name) ==
            match v {
              case JNumber(Int(i)) =>
                if -0x8000_0000_0000_0000 <= i < 0x8000_0000_0000_0000 then Some(Integer(i)) else Some(Fraction(Int(i)))
              case JNumber(n) => Some(Fraction(n))
              case JString(s) => Some(Lexical(s))
              case _ => None
            }
  {
  }

  // ---------- tests ----------

  lemma PayloadIff(v: Json, x: PayloadValue)
    ensures ParsePayload(v) == Some(x) <==> v == WritePayload(x)
  {
  }

  lemma {:induction false} PayloadsIff(items: seq<Json>, xs: seq<PayloadValue>)
    ensures ParsePayloads(items) == Some(xs) <==> items == WritePayloads(xs)
  {
    PayloadsRoundTrip(xs);
    if items != [] && ParsePayloads(items) == Some(xs) {
      PayloadIff(items[0], xs[0]);
      assert xs[1..] == ParsePayloads(items[1..]).value;
      PayloadsIff(items[1..], xs[1..]);
      assert items == [items[0]] + items[1..];
    }
  }

  lemma PayloadArrayIff(v: Json, xs: seq<PayloadValue>)
    ensures ParsePayloadArray(v) == Some(xs) <==> xs != [] && v == JArray(WritePayloads(xs))
  {
    if v.JArray? {
      PayloadsIff(v.items, xs);
    }
  }

  /** The members that write a test. */
  ghost predicate Writes(m: Member, p: Predicate) {
    match p
    case Match(Value(x)) =>
      m.name == "match" && (m.value == WritePayload(x) || m.value == JObject([Member("value", WritePayload(x))]))
    case Match(Any(xs)) => xs != [] && m == Member("match", JObject([Member("any", JArray(WritePayloads(xs)))]))
    case Match(Except(xs)) => xs != [] && m == Member("match", JObject([Member("except", JArray(WritePayloads(xs)))]))
    case Range(gt, gte, lt, lte) =>
      && m.name == "range" && m.value.JObject? && BoundsOnly(m.value.members) && m.value.members != []
      && gt == BoundNamed(m.value.members, "gt") && gte == BoundNamed(m.value.members, "gte")
      && lt == BoundNamed(m.value.members, "lt") && lte == BoundNamed(m.value.members, "lte")
    case IsNull(expected) => m == Member("is_null", JBool(expected))
    case IsEmpty(expected) => m == Member("is_empty", JBool(expected))
  }

  /** A member is read as a test exactly when it writes that test: every other form is refused. */
  lemma TestIffWritten(m: Member, p: Predicate)
    ensures DenotePredicate(m) == Some(p) <==> Writes(m, p)
  {
    hide BoundsOnly, BoundNamed, DenoteRange, ParsePayload, ParsePayloadArray, WritePayload, WritePayloads;
    if m.name == "range" {
      if m.value.JObject? {
        RangeObjectIff(m.value.members);
      } else {
        OnlyObjectsAreRanges(m.value);
      }
    } else if m.name == "match" {
      MatchIffWritten(m, p);
    }
  }

  lemma OnlyObjectsAreRanges(v: Json)
    requires !v.JObject?
    ensures DenoteRange(v).None?
  {
  }

  lemma PayloadsAreNoObjects(x: PayloadValue)
    ensures !WritePayload(x).JObject?
  {
  }

  lemma MatchIffWritten(m: Member, p: Predicate)
    requires m.name == "match"
    ensures DenotePredicate(m) == Some(p) <==> Writes(m, p)
  {
    hide ParsePayload, ParsePayloadArray, WritePayload, WritePayloads;
    match p
    case Match(Value(x)) =>
      PayloadsAreNoObjects(x);
      PayloadIff(m.value, x);
      if m.value.JObject? && |m.value.members| == 1 {
        assert m.value.members == [m.value.members[0]];
        PayloadIff(m.value.members[0].value, x);
      }
    case Match(Any(xs)) =>
      if m.value.JObject? && |m.value.members| == 1 {
        assert m.value.members == [m.value.members[0]];
        PayloadArrayIff(m.value.members[0].value, xs);
      }
    case Match(Except(xs)) =>
      if m.value.JObject? && |m.value.members| == 1 {
        assert m.value.members == [m.value.members[0]];
        PayloadArrayIff(m.value.members[0].value, xs);
      }
    case _ =>
  }

  // ---------- field conditions ----------

  /** Position i holds the last member that is not the key. */
  predicate LastTest(members: seq<Member>, i: nat) {
    i < |members| && members[i].name != "key" && forall k :: i < k < |members| ==> members[k].name == "key"
  }

  lemma {:induction false} AllTestsCount(members: seq<Member>)
    ensures DenotePredicates(members).Some? <==>
            forall i :: 0 <= i < |members| && members[i].name != "key" ==> DenotePredicate(members[i]).Some?
  {
    hide DenotePredicate;
    if members != [] {
      var n := |members| - 1;
      AllTestsCount(members[..n]);
      assert forall i :: 0 <= i < n ==> members[..n][i] == members[i];
    }
  }

  lemma {:induction false} LastTestCounts(members: seq<Member>, i: nat)
    requires DenotePredicates(members).Some? && LastTest(members, i)
    ensures DenotePredicates(members).value == DenotePredicate(members[i])
  {
    hide DenotePredicate;
    var n := |members| - 1;
    if i < n {
      assert members[n].name == "key";
      assert LastTest(members[..n], i);
      LastTestCounts(members[..n], i);
    }
  }

  lemma {:induction false} KeysAreNoTests(members: seq<Member>)
    ensures (forall i :: 0 <= i < |members| ==> members[i].name == "key") ==> DenotePredicates(members) == Some(None)
  {
    hide DenotePredicate;
    if members != [] {
      KeysAreNoTests(members[..|members| - 1]);
    }
  }

  lemma TestIffWritable(m: Member)
    ensures DenotePredicate(m).Some? <==> exists p :: Writes(m, p)
  {
    hide DenotePredicate, Writes;
    forall p ensures DenotePredicate(m) == Some(p) <==> Writes(m, p) {
      TestIffWritten(m, p);
    }
    if DenotePredicate(m).Some? {
      assert Writes(m, DenotePredicate(m).value);
    }
  }

  lemma {:induction false} LastTestExists(members: seq<Member>) returns (i: nat)
    requires exists k :: 0 <= k < |members| && members[k].name != "key"
    ensures LastTest(members, i)
  {
    i := |members| - 1;
    if members[i].name == "key" {
      assert exists k :: 0 <= k < |members[..i]| && members[..i][k].name != "key";
      i := LastTestExists(members[..i]);
    }
  }

  /** Every member besides the key writes a test, and the last one of them writes this test. */
  ghost predicate TestedBy(members: seq<Member>, p: Predicate) {
    && (forall k :: 0 <= k < |members| && members[k].name != "key" ==> exists q :: Writes(members[k], q))
    && exists i: nat :: LastTest(members, i) && Writes(members[i], p)
  }

  lemma TestedIff(members: seq<Member>, p: Predicate)
    ensures DenotePredicates(members) == Some(Some(p)) <==> TestedBy(members, p)
  {
    hide DenotePredicate, DenotePredicates, Writes;
    AllTestsCount(members);
    forall k | 0 <= k < |members|
      ensures DenotePredicate(members[k]).Some? <==> exists q :: Writes(members[k], q)
      ensures DenotePredicate(members[k]) == Some(p) <==> Writes(members[k], p)
    {
      TestIffWritable(members[k]);
      TestIffWritten(members[k], p);
    }
    if DenotePredicates(members) == Some(Some(p)) {
      KeysAreNoTests(members);
      var i := LastTestExists(members);
      LastTestCounts(members, i);
    } else if TestedBy(members, p) {
      var i: nat :| LastTest(members, i) && Writes(members[i], p);
      LastTestCounts(members, i);
    }
  }

  /** A field condition is accepted exactly when its key is a valid one and its other members test it. */
  lemma FieldConditionIff(members: seq<Member>, key: string, p: Predicate)
    requires !IsNestedFilter(members)
    ensures DenoteCondition(JObject(members)) == Some(Field(key, p)) <==>
            Lookup(members, "key") == Some(JString(key)) && ValidKey(key) && TestedBy(members, p)
  {
    hide DenotePredicates, IsNestedFilter, TestedBy, ValidKey, Lookup;
    TestedIff(members, p);
  }

  // ---------- keys ----------

  function JoinDots(segments: seq<string>): string
    requires segments != []
  {
    if |segments| == 1 then segments[0] else segments[0] + "." + JoinDots(segments[1..])
  }

  predicate DotFree(segments: seq<string>) {
    forall i :: 0 <= i < |segments| ==> '.' !in segments[i]
  }

  lemma {:induction false} SplitJoins(s: string)
    ensures JoinDots(Split(s)) == s && DotFree(Split(s))
  {
    if s != "" {
      SplitJoins(s[1..]);
      var rest := Split(s[1..]);
      var parts := Split(s);
      assert s == [s[0]] + s[1..];
      if s[0] == '.' {
        assert parts[1..] == rest;
      } else {
        assert parts[0] == [s[0]] + rest[0] && parts[1..] == rest[1..];
        assert forall i :: 1 <= i < |parts| ==> parts[i] == rest[i];
        if |rest| > 1 {
          assert [s[0]] + (rest[0] + "." + JoinDots(rest[1..])) == ([s[0]] + rest[0]) + "." + JoinDots(rest[1..]);
        }
      }
    }
  }

  lemma {:induction false} JoinSplits(segments: seq<string>)
    requires segments != [] && DotFree(segments)
    ensures Split(JoinDots(segments)) == segments
    decreases |JoinDots(segments)|
  {
    var s := JoinDots(segments);
    var first, rest := segments[0], segments[1..];
    if first == "" {
      if rest != [] {
        assert s == "." + JoinDots(rest) && s[1..] == JoinDots(rest);
        JoinSplits(rest);
        assert segments == [""] + rest;
      } else {
        assert segments == [""];
      }
    } else {
      var shorter := [first[1..]] + rest;
      assert s[0] == first[0];
      assert shorter[1..] == rest;
      assert s[1..] == JoinDots(shorter);
      JoinSplits(shorter);
      assert [first[0]] + first[1..] == first;
      assert segments == [first] + rest;
    }
  }

  /** The keys are the dotted paths of 1 to 16 non-empty segments, at most 512 bytes long and without a NUL. */
  lemma KeyIsDottedPath(key: string)
    ensures ValidKey(key) <==>
            exists segments: seq<string> ::
              && 1 <= |segments| <= 16 && DotFree(segments) && (forall i :: 0 <= i < |segments| ==> segments[i] != "")
              && key == JoinDots(segments) && '\0' !in key && Utf8.ByteLen(key) <= 512
  {
    hide JoinDots, Split, Utf8.ByteLen;
    if ValidKey(key) {
      SplitJoins(key);
      assert forall i :: 0 <= i < |Split(key)| ==> Split(key)[i] != "";
    }
    if segments: seq<string> :|
      && 1 <= |segments| <= 16 && DotFree(segments) && (forall i :: 0 <= i < |segments| ==> segments[i] != "")
      && key == JoinDots(segments) && '\0' !in key && Utf8.ByteLen(key) <= 512
    {
      JoinSplits(segments);
      EmptyHasOneSegment(segments);
    }
  }

  lemma EmptyHasOneSegment(segments: seq<string>)
    requires segments != [] && (forall i :: 0 <= i < |segments| ==> segments[i] != "")
    ensures JoinDots(segments) != ""
  {
    assert segments[0] != "";
  }
}
