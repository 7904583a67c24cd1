/** What an empty comparison means for the two reports as they were read. */
module Silence {
  import opened JsonValues
  import opened Reports
  import opened Regressions
  import opened Gate
  import opened Improvement

  lemma {:induction false} LastingTestsKept(a: seq<Json>, b: seq<Json>)
    requires ValidSubtests(a) && ValidSubtests(b) && TestsLast(a, b) && TestsKnown(a, b)
    ensures ByName(a).Keys == ByName(b).Keys && forall n | n in ByName(a) :: TestKept(ByName(a)[n], ByName(b)[n])
  {
    hide TestsLast, TestsKnown, ByName, TestKept;
    forall n | n in ByName(a) ensures n in ByName(b) && TestKept(ByName(a)[n], ByName(b)[n]) {
      NameStays(a, b, n);
    }
    forall n | n in ByName(b) ensures n in ByName(a) {
      NameWas(a, b, n);
    }
  }

  lemma {:induction false} StayingIsKept(r: Json, s: Json)
    requires ValidResult(r) && ValidResult(s) && ResultStays(r, s)
    ensures OutlineStays(Outline(r), Outline(s))
  {
    OutlineParts(r);
    OutlineParts(s);
    LastingTestsKept(Tests(r), Tests(s));
    StatusAgrees(Outline(r), Outline(s));
    hide Harness, SameDetail, TestsLast, TestsKnown, ByName, Scored, StatusKept, StatusStays, TestKept, Canon;
    if SameError(Outline(r), Outline(s)) {
      SameDetailEqual(r, s);
    }
  }

  lemma {:induction false} KeptIsStaying(r: Json, s: Json)
    requires ValidResult(r) && ValidResult(s) && OutlineStays(Outline(r), Outline(s))
    ensures ResultStays(r, s)
  {
    OutlineParts(r);
    OutlineParts(s);
    StatusAgrees(Outline(r), Outline(s));
    if SameError(Outline(r), Outline(s)) {
      EqualDetailSame(r, s);
    }
    hide ValidResult, Outline, Harness, SameDetail, TestsLast, TestsKnown, ByName, Get;
    hide Scored, SameError, StatusKept, StatusStays, TestKept;
    KeptTestsLast(Tests(r), Tests(s));
    KeptTestsKnown(Tests(r), Tests(s));
  }

  lemma {:induction false} SettingSame(a: Summary, b: Summary, f: map<string, Json>, g: map<string, Json>,
                                       old_: map<string, Json>, new_: map<string, Json>)
    requires Summarizes(a, f, old_) && Summarizes(b, g, new_)
    ensures a.setting == b.setting <==> PinnedStay(f, g)
  {
    hide ValidResult, Outline, Get, Canon;
    if PinnedStay(f, g) {
      forall key | key in PINNED ensures a.setting[key] == b.setting[key] {
      }
    }
  }

  lemma {:induction false} PinnedSame(before: Json, after: Json)
    requires ValidReport(before) && ValidReport(after)
    ensures Summarize(before).setting == Summarize(after).setting <==> PinnedStay(before.fields, after.fields)
  {
    SummaryParts(before);
    SummaryParts(after);
    SettingSame(Summarize(before), Summarize(after), before.fields, after.fields, ById(Results(before)),
                ById(Results(after)));
  }

  lemma {:induction false} FixtureOf(report: Json, r: Json)
    requires ValidReport(report) && r in Results(report)
    ensures ValidResult(r) && Id(r) in Summarize(report).fixtures && Summarize(report).fixtures[Id(r)] == Outline(r)
  {
    var i :| 0 <= i < |Results(report)| && Results(report)[i] == r;
    ByIdIs(Results(report), r);
  }

  lemma {:induction false} ResultOf(report: Json, name: string) returns (r: Json)
    requires ValidReport(report) && name in Summarize(report).fixtures
    ensures r in Results(report) && ValidResult(r) && Id(r) == name && Summarize(report).fixtures[name] == Outline(r)
  {
    r := ById(Results(report))[name];
    FixtureOf(report, r);
  }

  lemma {:induction false} PairStays(a: Summary, b: Summary, r: Json, s: Json)
    requires ValidResult(r) && ValidResult(s) && Id(r) == Id(s) && Comparable(a, b) && NoWorse(a, b)
    requires Id(r) in a.fixtures && a.fixtures[Id(r)] == Outline(r)
    requires Id(s) in b.fixtures && b.fixtures[Id(s)] == Outline(s)
    ensures ResultStays(r, s)
  {
    hide ValidResult, Outline, FixtureKept;
    KeptIsStaying(r, s);
  }

  lemma {:induction false} SilentResultsLast(before: Json, after: Json)
    requires Silent(before, after)
    ensures ResultsLast(Results(before), Results(after))
  {
    var a, b := Summarize(before), Summarize(after);
    hide ValidReport, ValidResult, Summarize, ResultStays, Outline;
    forall r | r in Results(before) && ValidResult(r)
      ensures exists s | s in Results(after) && ValidResult(s) :: Id(s) == Id(r) && ResultStays(r, s)
    {
      FixtureOf(before, r);
      var s := ResultOf(after, Id(r));
      PairStays(a, b, r, s);
    }
  }

  lemma {:induction false} SilentResultsKnown(before: Json, after: Json)
    requires Silent(before, after)
    ensures ResultsKnown(Results(before), Results(after))
  {
    var a, b := Summarize(before), Summarize(after);
    hide ValidReport, ValidResult, Summarize, ResultStays, Outline;
    forall s | s in Results(after) && ValidResult(s)
      ensures exists r | r in Results(before) && ValidResult(r) :: Id(s) == Id(r) && ResultStays(r, s)
    {
      FixtureOf(after, s);
      var r := ResultOf(before, Id(s));
      PairStays(a, b, r, s);
    }
  }

  lemma {:induction false} LastingFixture(before: Json, after: Json, name: string)
    requires ValidReport(before) && ValidReport(after) && ResultsLast(Results(before), Results(after))
    requires name in Summarize(before).fixtures
    ensures name in Summarize(after).fixtures
    ensures OutlineStays(Summarize(before).fixtures[name], Summarize(after).fixtures[name])
  {
    var r := ResultOf(before, name);
    var s :| s in Results(after) && ValidResult(s) && Id(s) == Id(r) && ResultStays(r, s);
    FixtureOf(after, s);
    StayingIsKept(r, s);
  }

  lemma {:induction false} KnownFixture(before: Json, after: Json, name: string)
    requires ValidReport(before) && ValidReport(after) && ResultsKnown(Results(before), Results(after))
    requires name in Summarize(after).fixtures
    ensures name in Summarize(before).fixtures
  {
    var s := ResultOf(after, name);
    var r :| r in Results(before) && ValidResult(r) && Id(s) == Id(r) && ResultStays(r, s);
    FixtureOf(before, r);
  }

  lemma {:induction false} StayingFixtures(a: Summary, b: Summary)
    requires a.setting == b.setting && forall name | name in b.fixtures :: name in a.fixtures
    requires forall name | name in a.fixtures ::
        name in b.fixtures && OutlineStays(a.fixtures[name], b.fixtures[name])
    ensures Comparable(a, b) && NoWorse(a, b)
  {
    hide FixtureKept, SameError;
  }

  lemma {:induction false} StayingIsSilent(before: Json, after: Json)
    requires ValidReport(before) && ValidReport(after) && ReportStays(before, after)
    ensures Silent(before, after)
  {
    PinnedSame(before, after);
    hide Summarize, ResultsLast, ResultsKnown, OutlineStays, Comparable, NoWorse, PinnedStay;
    var a, b := Summarize(before), Summarize(after);
    forall name | name in a.fixtures ensures name in b.fixtures && OutlineStays(a.fixtures[name], b.fixtures[name]) {
      LastingFixture(before, after, name);
    }
    forall name | name in b.fixtures ensures name in a.fixtures {
      KnownFixture(before, after, name);
    }
    StayingFixtures(a, b);
  }

  /** Nothing is reported exactly if the reports as read differ by nothing but improvements. */
  lemma {:induction false} SilentExactly(before: Json, after: Json)
    requires ValidReport(before) && ValidReport(after)
    ensures Silent(before, after) <==> ReportStays(before, after)
  {
    hide Comparable, Summarize, PinnedStay, ResultsLast, ResultsKnown;
    if Silent(before, after) {
      PinnedSame(before, after);
      SilentResultsLast(before, after);
      SilentResultsKnown(before, after);
    }
    if ReportStays(before, after) {
      StayingIsSilent(before, after);
    }
  }
}
