/** The supervisor's reading of one test process. */
module Supervisor {
  import opened JsonValues
  import opened Options
  import opened Reports
  import opened Protocol

  /** Read one record: it is refused exactly when no complete run of records starts this way. */
  method ReadRecord(line: Line, ghost records: seq<Line>, subtests: seq<Subtest>, completion: Option<Completion>,
                    names: set<string>)
    returns (refused: bool, subtests': seq<Subtest>, completion': Option<Completion>, names': set<string>)
    requires !line.Plain? && Collected(records, subtests, completion)
    requires forall name :: name in names <==> exists k | 0 <= k < |subtests| :: subtests[k].name == name
    ensures refused <==> Refused(records + [line])
    ensures refused ==> subtests' == subtests && completion' == completion
    ensures !refused ==> Collected(records + [line], subtests', completion')
    ensures !refused ==>
        forall name :: name in names' <==> exists k | 0 <= k < |subtests'| :: subtests'[k].name == name
  {
    refused, subtests', completion', names' := true, subtests, completion, names;
    if completion.Some? {
      NothingAfterCompletion(records, line);
    } else {
      assert forall k | 0 <= k < |records| :: subtests[k].name == AsSubtest(records[k].event).name;
      NextRecord(records, line, names);
    }
    if line.Garbled? || !line.event.Object? {
      return;
    }
    var event := line.event;
    var kind, status, message :=
      Get(event.fields, "type"), Get(event.fields, "status"), Get(event.fields, "message");
    if !status.Integer? || !(message.Null? || message.String?) || completion.Some? {
      return;
    }
    if kind == String("result") {
      var name := Get(event.fields, "name");
      if !name.String? || !SubtestStatus(status) || name.s in names {
        return;
      }
      refused, names', subtests' := false, names + {name.s}, subtests + [Subtest(name.s, status.n, message)];
      assert forall k | 0 <= k < |subtests| :: subtests'[k] == subtests[k];
      assert subtests'[|subtests|].name == name.s;
    } else if kind == String("complete") {
      if !(0 <= status.n < 4) {
        return;
      }
      refused, completion' := false, Some(Completion(status.n, message));
      assert (records + [line])[..|records|] == records;
    }
  }

  /** Read the records until the end or the first protocol error. */
  method ReadRecords(lines: seq<Line>)
    returns (subtests: seq<Subtest>, completion: Option<Completion>, protocolError: bool)
    ensures protocolError <==> Refused(Records(lines))
    ensures !protocolError ==> Collected(Records(lines), subtests, completion)
    ensures SoundSubtests(subtests)
  {
    subtests, completion, protocolError := [], None, false;
    var names: set<string> := {};
    for i := 0 to |lines|
      invariant Collected(Records(lines[..i]), subtests, completion)
      invariant forall name :: name in names <==> exists k | 0 <= k < |subtests| :: subtests[k].name == name
    {
      var line := lines[i];
      assert lines[..i + 1][..i] == lines[..i];
      if line.Plain? {
        continue;
      }
      CollectedIsSound(Records(lines[..i]), subtests, completion);
      protocolError, subtests, completion, names :=
        ReadRecord(line, Records(lines[..i]), subtests, completion, names);
      if protocolError {
        RecordsSplit(lines, i + 1);
        ghost var more :| Records(lines) == Records(lines[..i + 1]) + more;
        RefusedForGood(Records(lines[..i + 1]), more);
        return;
      }
    }
    assert lines[..|lines|] == lines;
    CollectedIsSound(Records(lines), subtests, completion);
  }

  /** A fixture passes only if everything it needs for that was seen. */
  method ParseOutput(lines: seq<Line>, returncode: Option<int>) returns (outcome: Outcome)
    ensures outcome.status == "pass" <==> Passed(lines, returncode)
    ensures outcome.status == "fail" <==> Failed(lines, returncode)
    ensures outcome.status == "protocol_error" <==>
        (returncode.None? || returncode.value == 0) && Refused(Records(lines))
    ensures outcome.status == "incomplete" <==>
        (returncode.None? || returncode.value == 0) && AllResults(Records(lines))
    ensures outcome.status == "harness_error" <==>
        (returncode.None? || returncode.value == 0) && Finished(Records(lines), false)
    ensures outcome.status == "no_tests" <==>
        (returncode.None? || returncode.value == 0) && Finished(Records(lines), true) && |Records(lines)| == 1
    ensures outcome.status == "crash" <==> returncode.Some? && returncode.value < 0
    ensures outcome.status == "execution_error" <==> returncode.Some? && returncode.value > 0
    ensures !Refused(Records(lines)) ==> Collected(Records(lines), outcome.subtests, outcome.harness)
    ensures Presentable(outcome) && outcome.returncode == returncode
  {
    var subtests, completion, protocolError := ReadRecords(lines);
    ghost var records := Records(lines);
    var status: string;
    if returncode.Some? && returncode.value != 0 {
      status := if returncode.value < 0 then "crash" else "execution_error";
    } else if protocolError {
      status := "protocol_error";
    } else if completion.None? {
      status := "incomplete";
    } else if completion.value.status != 0 {
      status := "harness_error";
    } else if subtests == [] {
      status := "no_tests";
    } else {
      status := if exists t | t in subtests :: t.status != PASS then "fail" else "pass";
    }
    if completion.Some? && !protocolError {
      assert forall i | 0 <= i < |records| - 1 :: subtests[i] == AsSubtest(records[i].event) && subtests[i] in subtests;
    }
    return Outcome(status, subtests, completion, returncode);
  }

  /** A process that could not be run to its end, or printed too much, overrules what it printed. */
  method ExecuteCommand(lines: seq<Line>, returncode: Option<int>, error: Option<string>, overflow: bool)
    returns (outcome: Outcome)
    requires error.Some? ==> error.value in {"timeout", "execution_error"}
    ensures outcome.status == "pass" <==> error.None? && !overflow && Passed(lines, returncode)
    ensures outcome.status == "fail" <==> error.None? && !overflow && Failed(lines, returncode)
    ensures Presentable(outcome)
  {
    outcome := ParseOutput(lines, returncode);
    if error.Some? {
      outcome := outcome.(status := error.value);
    } else if overflow {
      outcome := outcome.(status := "output_limit");
    }
  }
}
