/**
 Checksummed, memory-budgeted spill runs (crates/context-build/src/external.rs).

 The checksum is a parameter: the results hold for every function from payloads to 64-bit
 values. Sums of lengths cannot overflow a 64-bit `usize`: a vector holds at most 2^63 - 1
 bytes and a record that is admitted fits a 32-bit length.
 */
module SpillRuns {
  import opened Wrappers
  import opened LittleEndian

  const CHECKSUM_BYTES: nat := 8
  const LENGTH_BYTES: nat := 4
  const U32_MAX: nat := 0xffff_ffff

  type u64 = x: int | 0 <= x < 0x1_0000_0000_0000_0000

  type Record = seq<byte>

  type Checksum = seq<byte> -> u64

  datatype SpillError = RecordExceedsBudget | LengthOverflow | Truncated | ChecksumMismatch

  // ---------- the format ----------

  function Frame(r: Record): seq<byte> {
    Encode(|r|, LENGTH_BYTES) + r
  }

  function Payload(rs: seq<Record>): seq<byte> {
    if rs == [] then [] else Payload(rs[..|rs| - 1]) + Frame(rs[|rs| - 1])
  }

  function Finish(payload: seq<byte>, sum: Checksum): seq<byte> {
    payload + Encode(sum(payload), CHECKSUM_BYTES)
  }

  /** The records a payload holds, if it is a sequence of complete frames. */
  function Records(payload: seq<byte>): Option<seq<Record>>
    decreases |payload|
  {
    if payload == [] then
      Some([])
    else if |payload| < LENGTH_BYTES then
      None
    else
      var n := Decode(payload[..LENGTH_BYTES]);
      if LENGTH_BYTES + n > |payload| then
        None
      else
        match Records(payload[LENGTH_BYTES + n..])
        case None => None
        case Some(rest) => Some([payload[LENGTH_BYTES..LENGTH_BYTES + n]] + rest)
  }

  /** The payload of an encoded run whose checksum matches and whose frames are complete. */
  ghost predicate ValidRun(encoded: seq<byte>, sum: Checksum) {
    |encoded| >= CHECKSUM_BYTES && !ChecksumWrong(encoded, sum) && Records(RunPayload(encoded)).Some?
  }

  ghost function RunPayload(encoded: seq<byte>): seq<byte>
    requires |encoded| >= CHECKSUM_BYTES
  {
    encoded[..|encoded| - CHECKSUM_BYTES]
  }

  ghost predicate ChecksumWrong(encoded: seq<byte>, sum: Checksum) {
    |encoded| >= CHECKSUM_BYTES && sum(RunPayload(encoded)) != Decode(encoded[|encoded| - CHECKSUM_BYTES..])
  }

  // ---------- reading ----------

  method Validate(encoded: seq<byte>, sum: Checksum) returns (r: Result<seq<byte>, SpillError>)
    ensures r.Ok? <==> ValidRun(encoded, sum)
    ensures r.Ok? ==> r.value == RunPayload(encoded)
    ensures r.Err? ==> r.error == if ChecksumWrong(encoded, sum) then ChecksumMismatch else Truncated
  {
    if |encoded| < CHECKSUM_BYTES {
      return Err(Truncated);
    }
    var split := |encoded| - CHECKSUM_BYTES;
    var payload := encoded[..split];
    if sum(payload) != Decode(encoded[split..]) {
      return Err(ChecksumMismatch);
    }
    var cursor := 0;
    while cursor < |payload|
      invariant cursor <= |payload|
      invariant Records(payload).Some? <==> Records(payload[cursor..]).Some?
    {
      ghost var rest := payload[cursor..];
      var end := cursor + LENGTH_BYTES;
      if end > |payload| {
        return Err(Truncated);
      }
      assert rest[..LENGTH_BYTES] == payload[cursor..end];
      var length := Decode(payload[cursor..end]);
      cursor := end + length;
      if cursor > |payload| {
        return Err(Truncated);
      }
      assert rest[LENGTH_BYTES + length..] == payload[cursor..];
    }
    return Ok(payload);
  }

  /** Any run that passes validation decodes without error. */
  method ReadRecords(encoded: seq<byte>, sum: Checksum) returns (r: Result<seq<Record>, SpillError>)
    ensures r.Ok? <==> ValidRun(encoded, sum)
    ensures r.Ok? ==> Records(RunPayload(encoded)) == Some(r.value)
  {
    var validated := Validate(encoded, sum);
    if validated.Err? {
      return Err(validated.error);
    }
    var payload := validated.value;
    var cursor := 0;
    var records: seq<Record> := [];
    assert payload[0..] == payload && records + Records(payload).value == Records(payload).value;
    while cursor < |payload|
      invariant cursor <= |payload|
      invariant Records(payload[cursor..]).Some?
      invariant Records(payload) == Some(records + Records(payload[cursor..]).value)
    {
      ghost var rest := payload[cursor..];
      ghost var before := records;
      var end := cursor + LENGTH_BYTES;
      assert |rest| >= LENGTH_BYTES && rest[..LENGTH_BYTES] == payload[cursor..end];
      var length := Decode(payload[cursor..end]);
      cursor := end;
      end := cursor + length;
      assert rest[LENGTH_BYTES..LENGTH_BYTES + length] == payload[cursor..end];
      assert rest[LENGTH_BYTES + length..] == payload[end..];
      records := records + [payload[cursor..end]];
      cursor := end;
      assert before + Records(rest).value == records + Records(payload[cursor..]).value;
    }
    assert payload[cursor..] == [] && records + [] == records;
    return Ok(records);
  }

  // ---------- writing ----------

  ghost function Flatten(groups: seq<seq<Record>>): seq<Record> {
    if groups == [] then [] else Flatten(groups[..|groups| - 1]) + groups[|groups| - 1]
  }

  ghost predicate FitsBudget(r: Record, budget: nat) {
    |r| <= U32_MAX && LENGTH_BYTES + |r| + CHECKSUM_BYTES <= budget
  }

  /** These runs encode these groups of records, each within the budget and filled as far as possible. */
  ghost predicate Encodes(runs: seq<seq<byte>>, groups: seq<seq<Record>>, budget: nat, sum: Checksum) {
    && |runs| == |groups|
    && (forall i :: 0 <= i < |runs| ==> groups[i] != [] && runs[i] == Finish(Payload(groups[i]), sum))
    && (forall i :: 0 <= i < |runs| ==> |runs[i]| <= budget)
    && (forall i :: 0 <= i < |runs| - 1 ==> |runs[i]| + |Frame(groups[i + 1][0])| > budget)
  }

  /** Finished runs plus the payload of the records waiting for the next one. */
  ghost predicate Building(runs: seq<seq<byte>>, groups: seq<seq<Record>>, current: seq<byte>, pending: seq<Record>,
                           budget: nat, sum: Checksum) {
    && Encodes(runs, groups, budget, sum)
    && current == Payload(pending)
    && (pending != [] ==> |current| + CHECKSUM_BYTES <= budget)
    && (pending != [] && runs != [] ==> |runs[|runs| - 1]| + |Frame(pending[0])| > budget)
  }

  lemma PayloadSize(rs: seq<Record>)
    ensures |Payload(rs)| >= LENGTH_BYTES * |rs|
  {
  }

  lemma PushRecord(runs: seq<seq<byte>>, groups: seq<seq<Record>>, current: seq<byte>, pending: seq<Record>,
                   record: Record,
                   budget: nat, sum: Checksum)
    requires Building(runs, groups, current, pending, budget, sum)
    requires |current| + |Frame(record)| + CHECKSUM_BYTES <= budget
    requires pending == [] && runs != [] ==> |runs[|runs| - 1]| + |Frame(record)| > budget
    ensures Building(runs, groups, current + Frame(record), pending + [record], budget, sum)
  {
    hide Encodes, Frame;
    assert (pending + [record])[..|pending|] == pending;
    assert Payload(pending + [record]) == Payload(pending) + Frame(record);
  }

  lemma PushRun(runs: seq<seq<byte>>, groups: seq<seq<Record>>, current: seq<byte>, pending: seq<Record>,
                budget: nat, sum: Checksum)
    requires Building(runs, groups, current, pending, budget, sum) && pending != []
    ensures Building(runs + [Finish(current, sum)], groups + [pending], [], [], budget, sum)
    ensures Flatten(groups + [pending]) == Flatten(groups) + pending
  {
    hide Payload, Frame;
    PayloadOfNone();
    var more, moreGroups := runs + [Finish(current, sum)], groups + [pending];
    assert moreGroups[..|groups|] == groups;
    forall i | 0 <= i < |more| - 1 ensures |more[i]| + |Frame(moreGroups[i + 1][0])| > budget {
      assert more[i] == runs[i];
      if i + 1 < |runs| {
        assert moreGroups[i + 1] == groups[i + 1];
      }
    }
  }

  lemma PayloadOfNone()
    ensures Payload([]) == []
  {
  }

  /**
   Cuts records into runs, in order. Succeeds exactly when every record fits an otherwise
   empty run, and otherwise reports the first that does not; the groups say which records
   each run holds.
   */
  method Partition(records: seq<Record>, budget: nat, sum: Checksum)
    returns (r: Result<seq<seq<byte>>, SpillError>, ghost groups: seq<seq<Record>>)
    requires budget > 0
    ensures r.Ok? <==> forall i :: 0 <= i < |records| ==> FitsBudget(records[i], budget)
    ensures r.Ok? ==> Encodes(r.value, groups, budget, sum) && Flatten(groups) == records
    ensures r.Err? ==> exists i ::
                && 0 <= i < |records| && !FitsBudget(records[i], budget)
                && (forall j :: 0 <= j < i ==> FitsBudget(records[j], budget))
                && r.error == if |records[i]| > U32_MAX then LengthOverflow else RecordExceedsBudget
  {
    hide Payload, Encodes, Finish, Flatten;
    groups := [];
    var runs: seq<seq<byte>> := [];
    var current: seq<byte> := [];
    ghost var pending: seq<Record> := [];
    StartEmpty(budget, sum);
    for i := 0 to |records|
      invariant forall j :: 0 <= j < i ==> FitsBudget(records[j], budget)
      invariant Building(runs, groups, current, pending, budget, sum)
      invariant Flatten(groups) + pending == records[..i]
      invariant if i == 0 then pending == [] && runs == [] else pending != []
    {
      var record := records[i];
      PayloadSize(pending);
      if |record| > U32_MAX {
        return Err(LengthOverflow), groups;
      }
      var required := LENGTH_BYTES + |record| + CHECKSUM_BYTES;
      if required > budget {
        return Err(RecordExceedsBudget), groups;
      }
      if current != [] && |current| + required > budget {
        PushRun(runs, groups, current, pending, budget, sum);
        FinishSize(current, sum);
        runs, groups := runs + [Finish(current, sum)], groups + [pending];
        current, pending := [], [];
      }
      PushRecord(runs, groups, current, pending, record, budget, sum);
      ExtendsPrefix(records, i, Flatten(groups), pending);
      current := current + Encode(|record|, LENGTH_BYTES) + record;
      pending := pending + [record];
    }
    assert records[..|records|] == records;
    PayloadSize(pending);
    if current != [] {
      PushRun(runs, groups, current, pending, budget, sum);
      runs, groups := runs + [Finish(current, sum)], groups + [pending];
    }
    r := Ok(runs);
  }

  lemma StartEmpty(budget: nat, sum: Checksum)
    ensures Building([], [], [], [], budget, sum) && Flatten([]) == []
  {
  }

  lemma FinishSize(payload: seq<byte>, sum: Checksum)
    ensures |Finish(payload, sum)| == |payload| + CHECKSUM_BYTES
  {
  }

  lemma ExtendsPrefix(records: seq<Record>, i: nat, before: seq<Record>, pending: seq<Record>)
    requires i < |records| && before + pending == records[..i]
    ensures before + (pending + [records[i]]) == records[..i + 1]
  {
    assert before + (pending + [records[i]]) == (before + pending) + [records[i]];
  }

  // ---------- round trips ----------

  lemma FrameReads(r: Record, rest: seq<byte>)
    requires |r| <= U32_MAX
    ensures Records(Frame(r) + rest) == match Records(rest) { case None => None case Some(rs) => Some([r] + rs) }
  {
    var whole := Frame(r) + rest;
    Widths();
    DecodeEncode(|r|, LENGTH_BYTES);
    assert whole[..LENGTH_BYTES] == Encode(|r|, LENGTH_BYTES);
    assert whole[LENGTH_BYTES..LENGTH_BYTES + |r|] == r;
    assert whole[LENGTH_BYTES + |r|..] == rest;
  }

  lemma {:induction false} PayloadReads(rs: seq<Record>, rest: seq<byte>)
    requires forall r :: r in rs ==> |r| <= U32_MAX
    ensures Records(Payload(rs) + rest) == match Records(rest) { case None => None case Some(more) => Some(rs + more) }
  {
    hide Records, Frame;
    if rs == [] {
      assert Payload(rs) + rest == rest;
      if Records(rest).Some? {
        assert rs + Records(rest).value == Records(rest).value;
      }
    } else {
      var k := |rs| - 1;
      assert Payload(rs) + rest == Payload(rs[..k]) + (Frame(rs[k]) + rest);
      PayloadReads(rs[..k], Frame(rs[k]) + rest);
      FrameReads(rs[k], rest);
      if Records(rest).Some? {
        assert rs[..k] + ([rs[k]] + Records(rest).value) == rs + Records(rest).value;
      }
    }
  }

  /** A finished run passes validation and holds exactly its records. */
  lemma {:induction false} RunRoundTrip(rs: seq<Record>, sum: Checksum)
    requires forall r :: r in rs ==> |r| <= U32_MAX
    ensures var run := Finish(Payload(rs), sum);
            ValidRun(run, sum) && Records(RunPayload(run)) == Some(rs)
  {
    var run := Finish(Payload(rs), sum);
    Widths();
    DecodeEncode(sum(Payload(rs)), CHECKSUM_BYTES);
    assert run[..|run| - CHECKSUM_BYTES] == Payload(rs);
    assert run[|run| - CHECKSUM_BYTES..] == Encode(sum(Payload(rs)), CHECKSUM_BYTES);
    PayloadReads(rs, []);
    assert Payload(rs) + [] == Payload(rs);
    assert rs + [] == rs;
  }

  /** Decoding the runs of a partition one after the other gives back the records. */
  lemma PartitionRoundTrip(records: seq<Record>, runs: seq<seq<byte>>, groups: seq<seq<Record>>, budget: nat,
                           sum: Checksum)
    requires forall i :: 0 <= i < |records| ==> FitsBudget(records[i], budget)
    requires Encodes(runs, groups, budget, sum) && Flatten(groups) == records
    ensures forall i :: 0 <= i < |runs| ==> ValidRun(runs[i], sum)
    ensures DecodeAll(runs, sum) == Some(records)
  {
    forall i | 0 <= i < |runs| ensures ValidRun(runs[i], sum) && Records(RunPayload(runs[i])) == Some(groups[i]) {
      forall x | x in groups[i] ensures |x| <= U32_MAX {
        GroupMember(groups, i, x);
      }
      RunRoundTrip(groups[i], sum);
    }
    DecodeGroups(runs, groups, sum);
  }

  ghost function DecodeAll(runs: seq<seq<byte>>, sum: Checksum): Option<seq<Record>> {
    if runs == [] then
      Some([])
    else
      var last := runs[|runs| - 1];
      if !ValidRun(last, sum) then
        None
      else
        match DecodeAll(runs[..|runs| - 1], sum)
        case None => None
        case Some(before) => Some(before + Records(RunPayload(last)).value)
  }

  lemma {:induction false} DecodeGroups(runs: seq<seq<byte>>, groups: seq<seq<Record>>, sum: Checksum)
    requires |runs| == |groups|
    requires forall i :: 0 <= i < |runs| ==> ValidRun(runs[i], sum) && Records(RunPayload(runs[i])) == Some(groups[i])
    ensures DecodeAll(runs, sum) == Some(Flatten(groups))
  {
    if runs != [] {
      DecodeGroups(runs[..|runs| - 1], groups[..|runs| - 1], sum);
    }
  }

  lemma {:induction false} GroupMember(groups: seq<seq<Record>>, i: nat, x: Record)
    requires i < |groups| && x in groups[i]
    ensures x in Flatten(groups)
  {
    var k := |groups| - 1;
    if i < k {
      GroupMember(groups[..k], i, x);
    }
  }

  /** Nothing is lost on the way in either: a payload that reads as records is their encoding. */
  lemma {:induction false} RecordsRewrite(payload: seq<byte>)
    requires Records(payload).Some?
    ensures Payload(Records(payload).value) == payload
    decreases |payload|
  {
    hide Encode, Decode;
    if payload == [] {
      PayloadOfNone();
    } else {
      hide Payload;
      var n := Decode(payload[..LENGTH_BYTES]);
      var r, rest := payload[LENGTH_BYTES..LENGTH_BYTES + n], payload[LENGTH_BYTES + n..];
      RecordsRewrite(rest);
      EncodeDecode(payload[..LENGTH_BYTES]);
      PayloadCons(r, Records(rest).value);
      assert payload == Frame(r) + rest;
    }
  }

  lemma {:induction false} PayloadCons(r: Record, rs: seq<Record>)
    ensures Payload([r] + rs) == Frame(r) + Payload(rs)
  {
    hide Frame;
    var all := [r] + rs;
    if rs == [] {
      assert all[..0] == [] && all[0] == r;
    } else {
      var k := |rs| - 1;
      assert all[..|all| - 1] == [r] + rs[..k];
      PayloadCons(r, rs[..k]);
    }
  }
}
