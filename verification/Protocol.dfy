/** Reading what a test process printed: when a fixture counts as passing. */
module Protocol {
  import opened JsonValues
  import opened Options
  import opened Reports

  /** A printed line: not a record, a record that is not JSON, or a record. */
  datatype Line = Plain | Garbled | Record(event: Json)

  datatype Subtest = Subtest(name: string, status: int, message: Json)

  datatype Completion = Completion(status: int, message: Json)

  datatype Outcome =
    Outcome(status: string, subtests: seq<Subtest>, harness: Option<Completion>, returncode: Option<int>)

  predicate WellFormed(event: Json) {
    && event.Object?
    && Get(event.fields, "status").Integer?
    && (Get(event.fields, "message").Null? || Get(event.fields, "message").String?)
  }

  predicate IsResult(event: Json) {
    && WellFormed(event)
    && Get(event.fields, "type") == String("result")
    && Get(event.fields, "name").String?
    && SubtestStatus(Get(event.fields, "status"))
  }

  predicate IsComplete(event: Json) {
    && WellFormed(event)
    && Get(event.fields, "type") == String("complete")
    && 0 <= Get(event.fields, "status").n < 4
  }

  function AsSubtest(event: Json): Subtest
    requires IsResult(event)
  {
    Subtest(Get(event.fields, "name").s, Get(event.fields, "status").n, Get(event.fields, "message"))
  }

  function AsCompletion(event: Json): Completion
    requires IsComplete(event)
  {
    Completion(Get(event.fields, "status").n, Get(event.fields, "message"))
  }

  /** What the two kinds of records are, entry by entry. */
  lemma {:induction false} RecordsExactly(event: Json)
    ensures IsResult(event) <==>
      && event.Object? && Get(event.fields, "type") == String("result") && Get(event.fields, "name").String?
      && Get(event.fields, "status") in {Integer(0), Integer(1), Integer(2), Integer(3), Integer(4)}
      && (Get(event.fields, "message") == Null || Get(event.fields, "message").String?)
    ensures IsComplete(event) <==>
      && event.Object? && Get(event.fields, "type") == String("complete")
      && Get(event.fields, "status") in {Integer(0), Integer(1), Integer(2), Integer(3)}
      && (Get(event.fields, "message") == Null || Get(event.fields, "message").String?)
    ensures IsResult(event) ==>
        var t := AsSubtest(event);
        && Get(event.fields, "name") == String(t.name) && Get(event.fields, "status") == Integer(t.status)
        && Get(event.fields, "message") == t.message
    ensures IsComplete(event) ==>
        var c := AsCompletion(event);
        Get(event.fields, "status") == Integer(c.status) && Get(event.fields, "message") == c.message
  {
  }

  /** The records among the lines. */
  ghost function Records(lines: seq<Line>): (r: seq<Line>)
    ensures forall e | e in r :: !e.Plain?
  {
    if lines == [] then [] else
      var n := |lines| - 1;
      if lines[n].Plain? then Records(lines[..n]) else Records(lines[..n]) + [lines[n]]
  }

  /** Results of differently named subtests. */
  ghost predicate AllResults(records: seq<Line>) {
    && (forall i | 0 <= i < |records| :: records[i].Record? && IsResult(records[i].event))
    && (forall i, j | 0 <= i < j < |records| ::
          AsSubtest(records[i].event).name != AsSubtest(records[j].event).name)
  }

  /** Results, then one completion and nothing after it. */
  ghost predicate Completed(records: seq<Line>) {
    && records != []
    && AllResults(records[..|records| - 1])
    && records[|records| - 1].Record?
    && IsComplete(records[|records| - 1].event)
  }

  ghost function Subtests(records: seq<Line>): (r: seq<Subtest>)
    requires AllResults(records)
    ensures |r| == |records|
  {
    seq(|records|, i requires 0 <= i < |records| => AsSubtest(records[i].event))
  }

  /** Completed, with a harness status that is zero or not. */
  ghost predicate Finished(records: seq<Line>, clean: bool) {
    Completed(records) && (clean <==> AsCompletion(records[|records| - 1].event).status == 0)
  }

  /** Completion, at least one subtest, only passing subtests and a clean exit. */
  ghost predicate Passed(lines: seq<Line>, returncode: Option<int>) {
    var records := Records(lines);
    && (returncode.None? || returncode.value == 0)
    && Finished(records, true)
    && |records| > 1
    && (forall i | 0 <= i < |records| - 1 :: AsSubtest(records[i].event).status == PASS)
  }

  /** As Passed, but that some subtest did not pass. */
  ghost predicate Failed(lines: seq<Line>, returncode: Option<int>) {
    var records := Records(lines);
    && (returncode.None? || returncode.value == 0)
    && Finished(records, true)
    && (exists i | 0 <= i < |records| - 1 :: AsSubtest(records[i].event).status != PASS)
  }

  /** What was collected from the records read so far. */
  ghost predicate Collected(records: seq<Line>, subtests: seq<Subtest>, completion: Option<Completion>) {
    match completion
    case None => AllResults(records) && subtests == Subtests(records)
    case Some(c) =>
      Completed(records) && c == AsCompletion(records[|records| - 1].event) &&
      subtests == Subtests(records[..|records| - 1])
  }

  /** No way to go on from what was collected without a protocol error. */
  ghost predicate Refused(records: seq<Line>) {
    !AllResults(records) && !Completed(records)
  }

  /** Differently named subtests with known statuses. */
  ghost predicate SoundSubtests(subtests: seq<Subtest>) {
    && (forall t | t in subtests :: 0 <= t.status < 5)
    && (forall i, j | 0 <= i < j < |subtests| :: subtests[i].name != subtests[j].name)
  }

  lemma {:induction false} CollectedIsSound(records: seq<Line>, subtests: seq<Subtest>, completion: Option<Completion>)
    requires Collected(records, subtests, completion)
    ensures SoundSubtests(subtests)
  {
  }

  lemma {:induction false} ResultsOfPrefix(records: seq<Line>, more: seq<Line>)
    requires AllResults(records + more)
    ensures AllResults(records)
  {
    var all := records + more;
    forall i | 0 <= i < |records| ensures records[i] == all[i] {
    }
    forall i, j | 0 <= i < j < |records|
      ensures AsSubtest(records[i].event).name != AsSubtest(records[j].event).name
    {
      assert AsSubtest(all[i].event).name != AsSubtest(all[j].event).name;
    }
  }

  /** Once refused, no further record helps. */
  lemma {:induction false} RefusedForGood(records: seq<Line>, more: seq<Line>)
    requires Refused(records)
    ensures Refused(records + more)
  {
    var all := records + more;
    assert more == [] ==> all == records;
    if AllResults(all) {
      ResultsOfPrefix(records, more);
    }
    if Completed(all) {
      if more != [] {
        assert all[..|all| - 1] == records + more[..|more| - 1];
        ResultsOfPrefix(records, more[..|more| - 1]);
      }
    }
  }

  lemma {:induction false} RecordsSplit(lines: seq<Line>, i: nat)
    requires i <= |lines|
    ensures exists more :: Records(lines) == Records(lines[..i]) + more
    decreases |lines| - i
  {
    if i == |lines| {
      assert lines[..i] == lines;
      assert Records(lines) == Records(lines[..i]) + [];
    } else {
      RecordsSplit(lines, i + 1);
      var more :| Records(lines) == Records(lines[..i + 1]) + more;
      assert lines[..i + 1][..i] == lines[..i];
      if lines[i].Plain? {
        assert Records(lines) == Records(lines[..i]) + more;
      } else {
        assert Records(lines) == Records(lines[..i]) + ([lines[i]] + more);
      }
    }
  }

  lemma {:induction false} NothingAfterCompletion(records: seq<Line>, next: Line)
    requires Completed(records)
    ensures Refused(records + [next])
  {
    var all := records + [next];
    assert all[..|all| - 1] == records && all[|records| - 1] == records[|records| - 1];
  }

  /** One more record after results only. */
  lemma {:induction false} NextRecord(records: seq<Line>, next: Line, names: set<string>)
    requires AllResults(records)
    requires forall name :: name in names <==> exists k | 0 <= k < |records| :: AsSubtest(records[k].event).name == name
    ensures AllResults(records + [next]) <==>
      next.Record? && IsResult(next.event) && AsSubtest(next.event).name !in names
    ensures Completed(records + [next]) <==> next.Record? && IsComplete(next.event)
    ensures AllResults(records + [next]) ==> Subtests(records + [next]) == Subtests(records) + [AsSubtest(next.event)]
  {
    var all := records + [next];
    var n := |records|;
    assert all[..n] == records && all[n] == next;
    if next.Record? && IsResult(next.event) && AsSubtest(next.event).name !in names {
      forall i, j | 0 <= i < j < |all| ensures AsSubtest(all[i].event).name != AsSubtest(all[j].event).name {
        if j < n {
          assert AsSubtest(records[i].event).name != AsSubtest(records[j].event).name;
        } else {
          assert AsSubtest(records[i].event).name in names;
        }
      }
    }
    if AllResults(all) {
      assert IsResult(all[n].event);
      forall k | 0 <= k < n ensures AsSubtest(records[k].event).name != AsSubtest(next.event).name {
        assert all[k] == records[k];
      }
    }
  }

  /** An outcome that a report may contain. */
  ghost predicate Presentable(o: Outcome) {
    && o.status in FILE_STATUSES
    && SoundSubtests(o.subtests)
    && (o.status == "pass" ==> o.subtests != [] && forall t | t in o.subtests :: t.status == PASS)
  }

  function SubtestJson(t: Subtest): Json {
    Object(map["name" := String(t.name), "status" := Integer(t.status), "message" := t.message])
  }

  function HarnessJson(c: Option<Completion>): Json {
    match c
    case None => Null
    case Some(done) => Object(map["status" := Integer(done.status), "message" := done.message])
  }

  /** An outcome as a report states it. */
  function AsResult(o: Outcome, id: string): Json {
    Object(map["id" := String(id),
               "status" := String(o.status),
               "subtests" := Array(seq(|o.subtests|, i requires 0 <= i < |o.subtests| => SubtestJson(o.subtests[i]))),
               "harness" := HarnessJson(o.harness),
               "returncode" := if o.returncode.None? then Null else Integer(o.returncode.value)])
  }

  /** What the supervisor reports is valid, and its harness can be read. */
  lemma {:induction false} PresentableIsValid(o: Outcome, id: string)
    requires Presentable(o)
    ensures ValidResult(AsResult(o, id)) && Id(AsResult(o, id)) == id && Status(AsResult(o, id)) == o.status
    ensures Harness(AsResult(o, id).fields).Some?
  {
    var result := AsResult(o, id);
    var tests := Tests(result);
    forall i | 0 <= i < |tests|
      ensures ValidSubtest(tests[i]) && TestName(tests[i]) == o.subtests[i].name &&
        TestStatus(tests[i]) == o.subtests[i].status
    {
      assert tests[i] == SubtestJson(o.subtests[i]);
      assert o.subtests[i] in o.subtests;
    }
  }
}
