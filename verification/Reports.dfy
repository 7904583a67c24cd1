/** Reports of test runs: which are valid, and what one may not lose against another. */
module Reports {
  import opened JsonValues
  import opened Options

  const PASS := 0

  const FILE_STATUSES := {"pass", "fail", "timeout", "crash", "execution_error", "output_limit",
                          "protocol_error", "incomplete", "no_tests", "harness_error"}

  const PINNED := {"corpus_revision", "manifest_sha256", "configuration", "adapter_sha256"}

  predicate SubtestStatus(v: Json) {
    v.Integer? && 0 <= v.n < 5
  }

  predicate ValidSubtest(t: Json) {
    t.Object? && Get(t.fields, "name").String? && SubtestStatus(Get(t.fields, "status"))
  }

  function TestName(t: Json): string
    requires ValidSubtest(t)
  {
    Get(t.fields, "name").s
  }

  function TestStatus(t: Json): int
    requires ValidSubtest(t)
  {
    Get(t.fields, "status").n
  }

  ghost predicate ValidSubtests(tests: seq<Json>) {
    && (forall t | t in tests :: ValidSubtest(t))
    && (forall i, j | 0 <= i < j < |tests| :: TestName(tests[i]) != TestName(tests[j]))
  }

  /** A fixture is reported as passing only with subtests, all of which pass. */
  ghost predicate ValidResult(result: Json) {
    && result.Object?
    && Get(result.fields, "subtests").Array?
    && Get(result.fields, "id").String?
    && Get(result.fields, "status").String?
    && Get(result.fields, "status").s in FILE_STATUSES
    && var tests := Get(result.fields, "subtests").items;
      && ValidSubtests(tests)
      && (Get(result.fields, "status").s == "pass" ==> tests != [] && forall t | t in tests :: TestStatus(t) == PASS)
  }

  function Id(result: Json): string
    requires result.Object? && Get(result.fields, "id").String?
  {
    Get(result.fields, "id").s
  }

  function Status(result: Json): string
    requires result.Object? && Get(result.fields, "status").String?
  {
    Get(result.fields, "status").s
  }

  function Tests(result: Json): seq<Json>
    requires result.Object? && Get(result.fields, "subtests").Array?
  {
    Get(result.fields, "subtests").items
  }

  ghost predicate ValidResults(results: seq<Json>) {
    && (forall i | 0 <= i < |results| :: ValidResult(results[i]))
    && (forall i, j | 0 <= i < j < |results| :: Id(results[i]) != Id(results[j]))
  }

  ghost predicate ValidReport(report: Json) {
    && report.Object?
    && Same(Get(report.fields, "schema_version"), Integer(1))
    && Get(report.fields, "corpus_revision").String?
    && Get(report.fields, "corpus_revision").s != ""
    && Get(report.fields, "results").Array?
    && Get(report.fields, "results").items != []
    && ValidResults(Get(report.fields, "results").items)
  }

  function Results(report: Json): seq<Json>
    requires report.Object? && Get(report.fields, "results").Array?
  {
    Get(report.fields, "results").items
  }

  /** Fixtures by their id. */
  function ById(results: seq<Json>): (m: map<string, Json>)
    requires forall r | r in results :: r.Object? && Get(r.fields, "id").String?
    ensures forall k | k in m :: m[k] in results && Id(m[k]) == k
    ensures forall r | r in results :: Id(r) in m
  {
    if results == [] then map[] else
      var n := |results| - 1;
      ById(results[..n])[Id(results[n]) := results[n]]
  }

  /** Subtests by their name. */
  function ByName(tests: seq<Json>): (m: map<string, int>)
    requires forall t | t in tests :: ValidSubtest(t)
    ensures forall k | k in m :: exists t | t in tests :: TestName(t) == k && TestStatus(t) == m[k]
    ensures forall t | t in tests :: TestName(t) in m
  {
    if tests == [] then map[] else
      var n := |tests| - 1;
      ByName(tests[..n])[TestName(tests[n]) := TestStatus(tests[n])]
  }

  predicate Scored(status: string) {
    status == "pass" || status == "fail"
  }

  /** The status that the harness of a fixture reported; there is none for a harness that is not a dictionary. */
  function Harness(fields: map<string, Json>): Option<Canonical> {
    var harness := Get(fields, "harness");
    if !Truthy(harness) then Some(Canon(Null))
    else if harness.Object? then Some(Canon(Get(harness.fields, "status")))
    else None
  }

  /** What a comparison looks at: a fixture, and a report. */
  datatype Fixture = Fixture(status: string, tests: map<string, int>, exit: Canonical, harness: Option<Canonical>)

  datatype Summary = Summary(setting: map<string, Canonical>, fixtures: map<string, Fixture>)

  ghost function Outline(result: Json): Fixture
    requires ValidResult(result)
  {
    Fixture(Status(result), ByName(Tests(result)), Canon(Get(result.fields, "returncode")), Harness(result.fields))
  }

  lemma {:induction false} OutlineParts(result: Json)
    requires ValidResult(result)
    ensures result.Object? && Get(result.fields, "status").String? && Get(result.fields, "subtests").Array?
    ensures Outline(result).status == Status(result) && Outline(result).harness == Harness(result.fields)
    ensures Outline(result).exit == Canon(Get(result.fields, "returncode"))
    ensures Outline(result).tests == ByName(Tests(result)) && ValidSubtests(Tests(result))
  {
  }

  ghost function Summarize(report: Json): Summary
    requires ValidReport(report)
  {
    var byId := ById(Results(report));
    Summary(map key | key in PINNED :: Canon(Get(report.fields, key)), map name | name in byId :: Outline(byId[name]))
  }

  /** The summary of a report with these fields and these results. */
  ghost predicate Summarizes(a: Summary, fields: map<string, Json>, byId: map<string, Json>) {
    && a.setting.Keys == PINNED
    && (forall key | key in PINNED :: a.setting[key] == Canon(Get(fields, key)))
    && a.fixtures.Keys == byId.Keys
    && (forall name | name in byId :: ValidResult(byId[name]) && a.fixtures[name] == Outline(byId[name]))
  }

  lemma {:induction false} SummaryParts(report: Json)
    requires ValidReport(report)
    ensures Summarizes(Summarize(report), report.fields, ById(Results(report)))
  {
  }

  /** The harness of every fixture in error can be read. */
  ghost predicate Readable(byId: map<string, Json>) {
    forall name | name in byId :: ValidResult(byId[name]) &&
      (Scored(Status(byId[name])) || Harness(byId[name].fields).Some?)
  }

  /** What is asked of a report, entry by entry. */
  lemma {:induction false} ValidExactly(report: Json)
    ensures ValidReport(report) <==>
      && report.Object? && Same(Get(report.fields, "schema_version"), Integer(1))
      && Get(report.fields, "corpus_revision").String? && Get(report.fields, "corpus_revision") != String("")
      && Get(report.fields, "results").Array? && Get(report.fields, "results").items != []
      && var results := Get(report.fields, "results").items;
        && (forall i | 0 <= i < |results| :: ResultInOrder(results[i]))
        && forall i, j | 0 <= i < j < |results| ::
             Get(results[i].fields, "id") != Get(results[j].fields, "id")
  {
    if report.Object? && Get(report.fields, "results").Array? {
      var results := Get(report.fields, "results").items;
      forall i | 0 <= i < |results| ensures ValidResult(results[i]) <==> ResultInOrder(results[i]) {
        ResultExactly(results[i]);
      }
    }
  }

  /** What is asked of one result. */
  ghost predicate ResultInOrder(r: Json) {
    && r.Object? && Get(r.fields, "subtests").Array? && Get(r.fields, "id").String?
    && Get(r.fields, "status") in {String("pass"), String("fail"), String("timeout"), String("crash"),
                                   String("execution_error"), String("output_limit"), String("protocol_error"),
                                   String("incomplete"), String("no_tests"), String("harness_error")}
    && var tests := Get(r.fields, "subtests").items;
      && (forall i | 0 <= i < |tests| ::
            && tests[i].Object? && Get(tests[i].fields, "name").String?
            && Get(tests[i].fields, "status") in {Integer(0), Integer(1), Integer(2), Integer(3), Integer(4)})
      && (forall i, j | 0 <= i < j < |tests| :: Get(tests[i].fields, "name") != Get(tests[j].fields, "name"))
      && (Get(r.fields, "status") == String("pass") ==>
            tests != [] && forall i | 0 <= i < |tests| :: Get(tests[i].fields, "status") == Integer(0))
  }

  lemma {:induction false} ResultExactly(r: Json)
    ensures ValidResult(r) <==> ResultInOrder(r)
  {
    if r.Object? && Get(r.fields, "subtests").Array? && Get(r.fields, "status").String? {
      var tests := Get(r.fields, "subtests").items;
      assert forall i | 0 <= i < |tests| :: tests[i] in tests;
    }
  }
}
