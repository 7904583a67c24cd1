/** When a report differs from another one by nothing but improvements, said of the reports as they were read. */
module Improvement {
  import opened JsonValues
  import opened Options
  import opened Reports
  import opened Regressions

  /** A pass must stay a pass, a failure may turn into a pass, and an error may only stay or turn into either. */
  predicate StatusStays(was: string, becomes: string) {
    || becomes == "pass"
    || (becomes == "fail" && was != "pass")
    || (becomes == was && was != "pass")
  }

  /** The status entry of a harness: null for a missing or empty harness, none for any other that is no object. */
  ghost predicate HarnessStatus(result: Json, v: Json)
    requires result.Object?
  {
    var harness := Get(result.fields, "harness");
    if harness.Object? then v == Get(harness.fields, "status")
    else harness in {Null, Boolean(false), Integer(0), Float(0.0), String(""), Array([])} && v == Null
  }

  /** A fixture whose error stayed has the same exit status and the same harness status. */
  ghost predicate SameDetail(r: Json, s: Json)
    requires r.Object? && s.Object?
  {
    && Same(Get(r.fields, "returncode"), Get(s.fields, "returncode"))
    && exists v, w :: HarnessStatus(r, v) && HarnessStatus(s, w) && Same(v, w)
  }

  /** Subtest u is subtest t again, and passes or has the same status. */
  ghost predicate TestStays(t: Json, u: Json)
    requires t.Object? && u.Object?
  {
    && Get(u.fields, "name") == Get(t.fields, "name")
    && (Get(u.fields, "status") == Integer(0) || Get(u.fields, "status") == Get(t.fields, "status"))
  }

  ghost predicate TestsLast(a: seq<Json>, b: seq<Json>)
    requires ValidSubtests(a) && ValidSubtests(b)
  {
    forall t | t in a :: exists u | u in b :: TestStays(t, u)
  }

  ghost predicate TestsKnown(a: seq<Json>, b: seq<Json>)
    requires ValidSubtests(a) && ValidSubtests(b)
  {
    forall u | u in b :: exists t | t in a :: TestStays(t, u)
  }

  ghost predicate ResultStays(r: Json, s: Json)
    requires ValidResult(r) && ValidResult(s)
  {
    var was, becomes := Get(r.fields, "status").s, Get(s.fields, "status").s;
    && StatusStays(was, becomes)
    && (was !in {"pass", "fail"} && becomes == was ==> SameDetail(r, s))
    && TestsLast(Tests(r), Tests(s)) && TestsKnown(Tests(r), Tests(s))
  }

  ghost predicate ResultsLast(a: seq<Json>, b: seq<Json>) {
    forall r | r in a && ValidResult(r) :: exists s | s in b && ValidResult(s) :: Id(s) == Id(r) && ResultStays(r, s)
  }

  ghost predicate ResultsKnown(a: seq<Json>, b: seq<Json>) {
    forall s | s in b && ValidResult(s) :: exists r | r in a && ValidResult(r) :: Id(s) == Id(r) && ResultStays(r, s)
  }

  ghost predicate PinnedStay(f: map<string, Json>, g: map<string, Json>) {
    && Same(Get(f, "corpus_revision"), Get(g, "corpus_revision"))
    && Same(Get(f, "manifest_sha256"), Get(g, "manifest_sha256"))
    && Same(Get(f, "configuration"), Get(g, "configuration"))
    && Same(Get(f, "adapter_sha256"), Get(g, "adapter_sha256"))
  }

  ghost predicate ReportStays(before: Json, after: Json)
    requires ValidReport(before) && ValidReport(after)
  {
    && PinnedStay(before.fields, after.fields)
    && ResultsLast(Results(before), Results(after)) && ResultsKnown(Results(before), Results(after))
  }

  lemma {:induction false} ByIdIs(results: seq<Json>, r: Json)
    requires ValidResults(results) && r in results
    ensures forall x | x in results :: x.Object? && Get(x.fields, "id").String?
    ensures Id(r) in ById(results) && ById(results)[Id(r)] == r
  {
    forall x | x in results ensures ValidResult(x) {
      var i :| 0 <= i < |results| && results[i] == x;
    }
    var s := ById(results)[Id(r)];
    var i :| 0 <= i < |results| && results[i] == r;
    var j :| 0 <= j < |results| && results[j] == s;
  }

  lemma {:induction false} ByNameIs(tests: seq<Json>, t: Json)
    requires ValidSubtests(tests) && t in tests
    ensures TestName(t) in ByName(tests) && ByName(tests)[TestName(t)] == TestStatus(t)
  {
    var u :| u in tests && TestName(u) == TestName(t) && TestStatus(u) == ByName(tests)[TestName(t)];
    var i :| 0 <= i < |tests| && tests[i] == t;
    var j :| 0 <= j < |tests| && tests[j] == u;
  }

  lemma {:induction false} HarnessReads(r: Json)
    requires ValidResult(r)
    ensures Harness(r.fields).Some? ==> exists v :: HarnessStatus(r, v) && Harness(r.fields) == Some(Canon(v))
    ensures forall v :: HarnessStatus(r, v) ==> Harness(r.fields) == Some(Canon(v))
  {
    var harness := Get(r.fields, "harness");
    if Harness(r.fields).Some? {
      assert HarnessStatus(r, if harness.Object? then Get(harness.fields, "status") else Null);
    }
  }

  /** The detail of an error that stayed was read and found equal. */
  ghost predicate DetailEqual(f: Fixture, g: Fixture) {
    f.exit == g.exit && f.harness.Some? && f.harness == g.harness
  }

  lemma {:induction false} SameDetailEqual(r: Json, s: Json)
    requires ValidResult(r) && ValidResult(s) && SameDetail(r, s)
    ensures DetailEqual(Outline(r), Outline(s))
  {
    var v, w :| HarnessStatus(r, v) && HarnessStatus(s, w) && Same(v, w);
    HarnessReads(r);
    HarnessReads(s);
    OutlineParts(r);
    OutlineParts(s);
  }

  lemma {:induction false} EqualDetailSame(r: Json, s: Json)
    requires ValidResult(r) && ValidResult(s) && DetailEqual(Outline(r), Outline(s))
    ensures SameDetail(r, s)
  {
    HarnessReads(r);
    HarnessReads(s);
    OutlineParts(r);
    OutlineParts(s);
    hide ValidResult, Outline, Harness, HarnessStatus, Canon, Get;
    var v :| HarnessStatus(r, v) && Harness(r.fields) == Some(Canon(v));
    var w :| HarnessStatus(s, w) && Harness(s.fields) == Some(Canon(w));
    assert Same(v, w);
  }

  lemma {:induction false} NameStays(a: seq<Json>, b: seq<Json>, n: string)
    requires ValidSubtests(a) && ValidSubtests(b) && n in ByName(a)
    requires TestsLast(a, b)
    ensures n in ByName(b) && TestKept(ByName(a)[n], ByName(b)[n])
  {
    var t :| t in a && TestName(t) == n;
    var u :| u in b && TestStays(t, u);
    ByNameIs(a, t);
    ByNameIs(b, u);
  }

  lemma {:induction false} NameWas(a: seq<Json>, b: seq<Json>, n: string)
    requires ValidSubtests(a) && ValidSubtests(b) && n in ByName(b)
    requires TestsKnown(a, b)
    ensures n in ByName(a)
  {
    var u :| u in b && TestName(u) == n;
    var t :| t in a && TestStays(t, u);
    ByNameIs(a, t);
  }

  lemma {:induction false} KeptTestsLast(a: seq<Json>, b: seq<Json>)
    requires ValidSubtests(a) && ValidSubtests(b)
    requires ByName(a).Keys == ByName(b).Keys && forall n | n in ByName(a) :: TestKept(ByName(a)[n], ByName(b)[n])
    ensures TestsLast(a, b)
  {
    forall t | t in a ensures exists u | u in b :: TestStays(t, u) {
      ByNameIs(a, t);
      var u :| u in b && TestName(u) == TestName(t);
      ByNameIs(b, u);
      assert TestStays(t, u);
    }
  }

  lemma {:induction false} KeptTestsKnown(a: seq<Json>, b: seq<Json>)
    requires ValidSubtests(a) && ValidSubtests(b)
    requires ByName(a).Keys == ByName(b).Keys && forall n | n in ByName(a) :: TestKept(ByName(a)[n], ByName(b)[n])
    ensures TestsKnown(a, b)
  {
    forall u | u in b ensures exists t | t in a :: TestStays(t, u) {
      ByNameIs(b, u);
      var t :| t in a && TestName(t) == TestName(u);
      ByNameIs(a, t);
      assert TestStays(t, u);
    }
  }

  ghost predicate OutlineStays(f: Fixture, g: Fixture) {
    FixtureKept(f, g) && (SameError(f, g) ==> f.harness.Some? && g.harness.Some?)
  }

  lemma {:induction false} StatusAgrees(f: Fixture, g: Fixture)
    ensures StatusStays(f.status, g.status) <==> StatusKept(f.status, g.status)
    ensures f.status !in {"pass", "fail"} && g.status == f.status <==> SameError(f, g)
  {
  }
}
