/** Validating two reports and collecting the regressions of one against the other. */
module Gate {
  import opened JsonValues
  import opened Options
  import opened Reports
  import opened Regressions

  method ValidateSubtests(tests: seq<Json>) returns (valid: bool)
    ensures valid <==> ValidSubtests(tests)
  {
    var names: set<string> := {};
    for i := 0 to |tests|
      invariant ValidSubtests(tests[..i])
      invariant forall name :: name in names <==> exists k | 0 <= k < i :: TestName(tests[k]) == name
    {
      var subtest := tests[i];
      if !ValidSubtest(subtest) {
        return false;
      }
      if TestName(subtest) in names {
        return false;
      }
      names := names + {TestName(subtest)};
    }
    assert tests[..|tests|] == tests;
    return true;
  }

  method ValidateResult(result: Json) returns (valid: bool)
    ensures valid <==> ValidResult(result)
  {
    if !result.Object? || !Get(result.fields, "subtests").Array? || !Get(result.fields, "id").String? ||
       !Get(result.fields, "status").String? || Status(result) !in FILE_STATUSES {
      return false;
    }
    valid := ValidateSubtests(Tests(result));
    if valid && Status(result) == "pass" {
      valid := Tests(result) != [] && forall t | t in Tests(result) :: TestStatus(t) == PASS;
    }
  }

  method ValidateReport(report: Json) returns (valid: bool)
    ensures valid <==> ValidReport(report)
  {
    if !report.Object? || !Same(Get(report.fields, "schema_version"), Integer(1)) {
      return false;
    }
    if !Get(report.fields, "corpus_revision").String? || Get(report.fields, "corpus_revision").s == "" {
      return false;
    }
    if !Get(report.fields, "results").Array? || Results(report) == [] {
      return false;
    }
    var ids: set<string> := {};
    for i := 0 to |Results(report)|
      invariant ValidResults(Results(report)[..i])
      invariant forall id :: id in ids <==> exists k | 0 <= k < i :: Id(Results(report)[k]) == id
    {
      var result := Results(report)[i];
      valid := ValidateResult(result);
      if !valid {
        return false;
      }
      if Id(result) in ids {
        return false;
      }
      ids := ids + {Id(result)};
    }
    assert Results(report)[..|Results(report)|] == Results(report);
    return true;
  }

  /** The complaints about the status word of a fixture. */
  method CompareStatus(name: string, was: string, becomes: string) returns (regressions: seq<Regression>)
    ensures forall x :: x in regressions <==> StatusReported(name, was, becomes, x)
  {
    regressions := [];
    if was == "pass" && becomes != "pass" {
      regressions := [PassLost(name, becomes)];
    } else if was == "fail" && !Scored(becomes) {
      regressions := [FailureBecame(name, becomes)];
    } else if !Scored(was) && !Scored(becomes) && becomes != was {
      regressions := [ErrorBecame(name, becomes)];
    }
  }

  /** The complaints about the detail of an error that stayed; None where the source stops at an unreadable harness. */
  method CompareDetail(name: string, status: string, previous: map<string, Json>, current: map<string, Json>)
    returns (r: Option<seq<Regression>>)
    ensures r.None? <==> Harness(previous).None? || Harness(current).None?
    ensures r.Some? ==> forall x :: x in r.value <==>
        (x == ExitChanged(name, status) && !Same(Get(previous, "returncode"), Get(current, "returncode"))) ||
        (x == HarnessChanged(name, status) && Harness(previous) != Harness(current))
  {
    hide Same, Get, Harness;
    var regressions: seq<Regression> := [];
    if !Same(Get(previous, "returncode"), Get(current, "returncode")) {
      regressions := [ExitChanged(name, status)];
    }
    var oldHarness := Harness(previous);
    if oldHarness.None? {
      return None;
    }
    var newHarness := Harness(current);
    if newHarness.None? {
      return None;
    }
    if oldHarness != newHarness {
      regressions := regressions + [HarnessChanged(name, status)];
    }
    return Some(regressions);
  }

  /** The complaints about the subtests of a fixture. */
  method CompareTests(name: string, f: map<string, int>, g: map<string, int>) returns (regressions: seq<Regression>)
    ensures forall x :: x in regressions <==> TestReported(name, f, g, x)
  {
    regressions := [];
    var left := f.Keys - g.Keys;
    while left != {}
      invariant left <= f.Keys - g.Keys
      invariant forall x ::
          x in regressions <==> x.SubtestDisappeared? && x.name == name && x.test in f.Keys - g.Keys - left
      decreases left
    {
      var test :| test in left;
      regressions := regressions + [SubtestDisappeared(name, test)];
      left := left - {test};
    }
    ghost var before := regressions;
    left := g.Keys - f.Keys;
    while left != {}
      invariant left <= g.Keys - f.Keys
      invariant forall x :: x in regressions <==>
          x in before || (x.SubtestAdded? && x.name == name && x.test in g.Keys - f.Keys - left)
      decreases left
    {
      var test :| test in left;
      regressions := regressions + [SubtestAdded(name, test)];
      left := left - {test};
    }
    before := regressions;
    left := f.Keys * g.Keys;
    while left != {}
      invariant left <= f.Keys * g.Keys
      invariant forall x :: x in regressions <==>
          x in before || (TestReported(name, f, g, x) && OfCommonTest(x) && x.test !in left)
      decreases left
    {
      var test :| test in left;
      if f[test] == PASS && g[test] != PASS {
        regressions := regressions + [SubtestFailed(name, test)];
      } else if g[test] != PASS && g[test] != f[test] {
        regressions := regressions + [SubtestChanged(name, test, f[test], g[test])];
      }
      left := left - {test};
    }
  }

  lemma {:induction false} DetailIs(name: string, previous: Json, current: Json, x: Regression)
    requires ValidResult(previous) && ValidResult(current)
    ensures var p, c := previous.fields, current.fields;
      DetailReported(name, Outline(previous), Outline(current), x) <==>
      SameError(Outline(previous), Outline(current)) &&
      ((x == ExitChanged(name, Status(current)) && !Same(Get(p, "returncode"), Get(c, "returncode"))) ||
       (x == HarnessChanged(name, Status(current)) && Harness(p) != Harness(c)))
  {
    OutlineParts(previous);
    OutlineParts(current);
    hide ValidResult, Outline, Harness, Canon, Get;
  }

  method CompareFixture(name: string, previous: Json, current: Json) returns (r: Option<seq<Regression>>)
    requires ValidResult(previous) && ValidResult(current)
    ensures r.None? <==> Unreadable(previous, current)
    ensures r.Some? ==> forall x :: x in r.value <==> FixtureReported(name, Outline(previous), Outline(current), x)
  {
    OutlineParts(previous);
    OutlineParts(current);
    var status := CompareStatus(name, Status(previous), Status(current));
    var detail: seq<Regression> := [];
    if !Scored(Status(previous)) && Status(current) == Status(previous) {
      var compared := CompareDetail(name, Status(current), previous.fields, current.fields);
      if compared.None? {
        return None;
      }
      detail := compared.value;
    }
    forall x ensures x in detail <==> DetailReported(name, Outline(previous), Outline(current), x) {
      DetailIs(name, previous, current, x);
    }
    var tests := CompareTests(name, ByName(Tests(previous)), ByName(Tests(current)));
    return Some(status + detail + tests);
  }

  /** The complaints about the fixtures that both reports have. */
  method CompareCommon(old_: map<string, Json>, new_: map<string, Json>) returns (r: Option<seq<Regression>>)
    requires forall name | name in old_ :: ValidResult(old_[name])
    requires forall name | name in new_ :: ValidResult(new_[name])
    ensures r.None? <==> exists name | name in old_ && name in new_ :: Unreadable(old_[name], new_[name])
    ensures r.Some? ==> forall x :: x in r.value <==> CommonReported(old_, new_, x)
  {
    hide ValidResult, Outline, FixtureReported, SameError;
    var regressions: seq<Regression> := [];
    var left := old_.Keys * new_.Keys;
    while left != {}
      invariant left <= old_.Keys * new_.Keys
      invariant forall name | name in old_.Keys * new_.Keys - left :: !Unreadable(old_[name], new_[name])
      invariant forall x :: x in regressions <==> CommonReported(old_, new_, x) && x.name !in left
      decreases left
    {
      var name :| name in left;
      var fixture := CompareFixture(name, old_[name], new_[name]);
      ReportedByName(name, Outline(old_[name]), Outline(new_[name]));
      if fixture.None? {
        return None;
      }
      assert forall x :: x in regressions + fixture.value <==> x in regressions || x in fixture.value;
      regressions := regressions + fixture.value;
      left := left - {name};
    }
    return Some(regressions);
  }

  /** The complaints about the pinned setting. */
  method CompareSettings(before: map<string, Json>, after: map<string, Json>) returns (regressions: seq<Regression>)
    ensures forall x :: x in regressions <==> SettingReported(before, after, x)
  {
    hide Canon, Get;
    regressions := [];
    var keys := PINNED;
    while keys != {}
      invariant keys <= PINNED
      invariant forall x :: x in regressions <==> SettingReported(before, after, x) && x.key !in keys
      decreases keys
    {
      var key :| key in keys;
      if !Same(Get(before, key), Get(after, key)) {
        regressions := regressions + [KeyChanged(key)];
      }
      keys := keys - {key};
    }
  }

  /** The complaints about fixtures that only one report has. */
  method CompareNames(old_: set<string>, new_: set<string>) returns (regressions: seq<Regression>)
    ensures forall x :: x in regressions <==> NamesReported(old_, new_, x)
  {
    regressions := [];
    var left := old_ - new_;
    while left != {}
      invariant left <= old_ - new_
      invariant forall x :: x in regressions <==> x.FixtureDisappeared? && x.name in old_ - new_ - left
      decreases left
    {
      var name :| name in left;
      regressions := regressions + [FixtureDisappeared(name)];
      left := left - {name};
    }
    left := new_ - old_;
    while left != {}
      invariant left <= new_ - old_
      invariant forall x :: x in regressions <==> NamesReported(old_, new_, x) && (x.FixtureAdded? ==> x.name !in left)
      decreases left
    {
      var name :| name in left;
      regressions := regressions + [FixtureAdded(name)];
      left := left - {name};
    }
  }

  predicate OfReport(x: Regression) {
    x.KeyChanged? || x.FixtureDisappeared? || x.FixtureAdded?
  }

  lemma {:induction false} ReportPart(a: Summary, b: Summary, before: map<string, Json>, after: map<string, Json>,
                                      old_: map<string, Json>, new_: map<string, Json>, x: Regression)
    requires Summarizes(a, before, old_) && Summarizes(b, after, new_) && OfReport(x)
    ensures Reported(a, b, x) <==> SettingReported(before, after, x) || NamesReported(old_.Keys, new_.Keys, x)
    ensures !CommonReported(old_, new_, x)
  {
    hide ValidResult, Outline, Canon, Get;
  }

  lemma {:induction false} CommonPart(a: Summary, b: Summary, before: map<string, Json>, after: map<string, Json>,
                                      old_: map<string, Json>, new_: map<string, Json>, x: Regression)
    requires Summarizes(a, before, old_) && Summarizes(b, after, new_) && !OfReport(x)
    ensures Reported(a, b, x) <==> CommonReported(old_, new_, x)
    ensures !SettingReported(before, after, x) && !NamesReported(old_.Keys, new_.Keys, x)
  {
    hide ValidResult, Outline, FixtureReported, Canon, Get;
  }

  /** Comparing part by part is comparing the summaries. */
  lemma {:induction false} PartsAreAll(a: Summary, b: Summary, before: map<string, Json>, after: map<string, Json>,
                                       old_: map<string, Json>, new_: map<string, Json>, x: Regression)
    requires Summarizes(a, before, old_) && Summarizes(b, after, new_)
    ensures Reported(a, b, x) <==>
      SettingReported(before, after, x) || NamesReported(old_.Keys, new_.Keys, x) || CommonReported(old_, new_, x)
  {
    hide *;
    if OfReport(x) {
      ReportPart(a, b, before, after, old_, new_, x);
    } else {
      CommonPart(a, b, before, after, old_, new_, x);
    }
  }

  lemma {:induction false} ComparablePart(a: Summary, b: Summary, before: map<string, Json>, after: map<string, Json>,
                                          old_: map<string, Json>, new_: map<string, Json>)
    requires Summarizes(a, before, old_) && Summarizes(b, after, new_)
    ensures Comparable(a, b) <==> !exists name | name in old_ && name in new_ :: Unreadable(old_[name], new_[name])
  {
    hide ValidResult, Outline, SameError;
  }

  datatype Comparison =
    | Rejected
    | Stopped
    | Compared(regressions: seq<Regression>)

  /** The comparison of two reports complains about nothing. */
  ghost predicate Silent(before: Json, after: Json) {
    && ValidReport(before) && ValidReport(after)
    && Comparable(Summarize(before), Summarize(after)) && NoWorse(Summarize(before), Summarize(after))
  }

  /** Rejected for an invalid report, Stopped at an unreadable harness, and otherwise exactly what got worse. */
  method CompareBaseline(before: Json, after: Json) returns (r: Comparison)
    ensures r.Rejected? <==> !ValidReport(before) || !ValidReport(after)
    ensures !r.Rejected? ==> (r.Stopped? <==> !Comparable(Summarize(before), Summarize(after)))
    ensures r.Compared? ==> forall x :: x in r.regressions <==> Reported(Summarize(before), Summarize(after), x)
    ensures r == Compared([]) <==> Silent(before, after)
  {
    var validBefore := ValidateReport(before);
    if !validBefore {
      return Rejected;
    }
    var validAfter := ValidateReport(after);
    if !validAfter {
      return Rejected;
    }
    hide ValidReport, Summarize, ById, Reported, Comparable, NoWorse;
    hide SettingReported, NamesReported, CommonReported, Unreadable;
    ghost var a, b := Summarize(before), Summarize(after);
    SummaryParts(before);
    SummaryParts(after);
    var old_, new_ := ById(Results(before)), ById(Results(after));
    var setting := CompareSettings(before.fields, after.fields);
    var names := CompareNames(old_.Keys, new_.Keys);
    var common := CompareCommon(old_, new_);
    ComparablePart(a, b, before.fields, after.fields, old_, new_);
    if common.None? {
      return Stopped;
    }
    var regressions := setting + names + common.value;
    forall x ensures x in regressions <==> Reported(Summarize(before), Summarize(after), x) {
      PartsAreAll(a, b, before.fields, after.fields, old_, new_, x);
    }
    CleanIffNoWorse(Summarize(before), Summarize(after));
    assert regressions == [] <==> forall x :: x !in regressions by {
      if regressions != [] {
        assert regressions[0] in regressions;
      }
    }
    return Compared(regressions);
  }

  /** If nothing is reported from a to b and from b to c, nothing is reported from a to c. */
  lemma {:induction false} SilenceComposes(a: Json, b: Json, c: Json)
    requires Silent(a, b) && Silent(b, c)
    ensures Silent(a, c)
  {
    hide ValidReport, Summarize, Comparable, NoWorse;
    NoWorseTransitive(Summarize(a), Summarize(b), Summarize(c));
    ComparableTransitive(Summarize(a), Summarize(b), Summarize(c));
  }

  lemma {:induction false} SelfComparable(a: Summary, fields: map<string, Json>, m: map<string, Json>)
    requires Summarizes(a, fields, m)
    ensures Comparable(a, a) <==> Readable(m)
  {
    forall name | name in m
      ensures a.fixtures[name].status == Status(m[name]) && a.fixtures[name].harness == Harness(m[name].fields)
    {
      OutlineParts(m[name]);
    }
    hide Outline, Harness, Status, Scored;
  }

  /** A report compared with itself: silence, unless a fixture in error has an unreadable harness. */
  lemma {:induction false} SelfComparison(report: Json)
    requires ValidReport(report)
    ensures NoWorse(Summarize(report), Summarize(report))
    ensures Comparable(Summarize(report), Summarize(report)) <==> Readable(ById(Results(report)))
  {
    SummaryParts(report);
    NoWorseReflexive(Summarize(report));
    SelfComparable(Summarize(report), report.fields, ById(Results(report)));
  }

  /** A valid report that cannot be compared with itself: its one fixture crashed and has a list as its harness. */
  lemma {:induction false} UnreadableHarness() returns (report: Json)
    ensures ValidReport(report) && !Comparable(Summarize(report), Summarize(report))
  {
    var result := Object(map["id" := String("a"), "status" := String("crash"), "subtests" := Array([]),
                             "harness" := Array([Null])]);
    report := Object(map["schema_version" := Integer(1), "corpus_revision" := String("r"),
                         "results" := Array([result])]);
    assert ValidResult(result);
    assert Results(report) == [result];
    assert ById([result])["a"] == result;
    SelfComparison(report);
  }
}
