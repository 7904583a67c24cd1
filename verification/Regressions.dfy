/** When one report is at least as good as another. */
module Regressions {
  import opened JsonValues
  import opened Reports

  /** What a baseline comparison can complain about. */
  datatype Regression =
    | KeyChanged(key: string)
    | FixtureDisappeared(name: string)
    | FixtureAdded(name: string)
    | PassLost(name: string, status: string)
    | FailureBecame(name: string, status: string)
    | ErrorBecame(name: string, status: string)
    | ExitChanged(name: string, status: string)
    | HarnessChanged(name: string, status: string)
    | SubtestDisappeared(name: string, test: string)
    | SubtestAdded(name: string, test: string)
    | SubtestFailed(name: string, test: string)
    | SubtestChanged(name: string, test: string, was: int, becomes: int)

  /** A pass stays, a failure may be mended, and an error that is not mended stays the same error. */
  predicate StatusKept(was: string, becomes: string) {
    if was == "pass" then becomes == "pass"
    else Scored(becomes) || (was != "fail" && becomes == was)
  }

  predicate TestKept(was: int, becomes: int) {
    becomes == PASS || becomes == was
  }

  /** The same error twice is compared in more detail. */
  predicate SameError(f: Fixture, g: Fixture) {
    !Scored(f.status) && g.status == f.status
  }

  /** That detail can be read. */
  ghost predicate Comparable(a: Summary, b: Summary) {
    forall name | name in a.fixtures && name in b.fixtures && SameError(a.fixtures[name], b.fixtures[name]) ::
      a.fixtures[name].harness.Some? && b.fixtures[name].harness.Some?
  }

  predicate OfCommonTest(x: Regression) {
    x.SubtestFailed? || x.SubtestChanged?
  }

  /** What is reported of the subtests of one fixture. */
  ghost predicate TestReported(name: string, f: map<string, int>, g: map<string, int>, x: Regression) {
    match x
    case SubtestDisappeared(n, test) => n == name && test in f && test !in g
    case SubtestAdded(n, test) => n == name && test in g && test !in f
    case SubtestFailed(n, test) => n == name && test in f && test in g && f[test] == PASS && g[test] != PASS
    case SubtestChanged(n, test, was, becomes) =>
      && n == name && test in f && test in g && was == f[test] && becomes == g[test]
      && was != PASS && becomes != PASS && becomes != was
    case _ => false
  }

  /** What is reported of the status word of a fixture. */
  ghost predicate StatusReported(name: string, was: string, becomes: string, x: Regression) {
    match x
    case PassLost(n, status) => n == name && status == becomes && was == "pass" && becomes != "pass"
    case FailureBecame(n, status) => n == name && status == becomes && was == "fail" && !Scored(becomes)
    case ErrorBecame(n, status) =>
      n == name && status == becomes && !Scored(was) && !Scored(becomes) && becomes != was
    case _ => false
  }

  /** What is reported of an error that stayed. */
  ghost predicate DetailReported(name: string, f: Fixture, g: Fixture, x: Regression) {
    match x
    case ExitChanged(n, status) => n == name && status == g.status && SameError(f, g) && f.exit != g.exit
    case HarnessChanged(n, status) => n == name && status == g.status && SameError(f, g) && f.harness != g.harness
    case _ => false
  }

  /** What is reported of one fixture. */
  ghost predicate FixtureReported(name: string, f: Fixture, g: Fixture, x: Regression) {
    || StatusReported(name, f.status, g.status, x)
    || DetailReported(name, f, g, x)
    || TestReported(name, f.tests, g.tests, x)
  }

  lemma {:induction false} ReportedByName(name: string, f: Fixture, g: Fixture)
    ensures forall x | FixtureReported(name, f, g, x) ::
        !x.KeyChanged? && !x.FixtureDisappeared? && !x.FixtureAdded? && x.name == name
  {
  }

  /** What a comparison of two reports complains about. */
  ghost predicate Reported(a: Summary, b: Summary, x: Regression) {
    match x
    case KeyChanged(key) => key in a.setting && key in b.setting && a.setting[key] != b.setting[key]
    case FixtureDisappeared(name) => name in a.fixtures && name !in b.fixtures
    case FixtureAdded(name) => name in b.fixtures && name !in a.fixtures
    case _ =>
      x.name in a.fixtures && x.name in b.fixtures &&
      FixtureReported(x.name, a.fixtures[x.name], b.fixtures[x.name], x)
  }

  /** What is reported of the fixtures that both reports have. */
  ghost predicate CommonReported(old_: map<string, Json>, new_: map<string, Json>, x: Regression)
    requires forall name | name in old_ :: ValidResult(old_[name])
    requires forall name | name in new_ :: ValidResult(new_[name])
  {
    && !x.KeyChanged? && x.name in old_ && x.name in new_
    && FixtureReported(x.name, Outline(old_[x.name]), Outline(new_[x.name]), x)
  }

  ghost predicate Unreadable(previous: Json, current: Json)
    requires ValidResult(previous) && ValidResult(current)
  {
    var f, g := Outline(previous), Outline(current);
    SameError(f, g) && (f.harness.None? || g.harness.None?)
  }

  ghost predicate SettingReported(before: map<string, Json>, after: map<string, Json>, x: Regression) {
    x.KeyChanged? && x.key in PINNED && !Same(Get(before, x.key), Get(after, x.key))
  }

  ghost predicate NamesReported(old_: set<string>, new_: set<string>, x: Regression) {
    (x.FixtureDisappeared? && x.name in old_ - new_) || (x.FixtureAdded? && x.name in new_ - old_)
  }

  /** One fixture is at least as good as before. */
  ghost predicate FixtureKept(f: Fixture, g: Fixture) {
    && StatusKept(f.status, g.status)
    && (SameError(f, g) ==> f.harness == g.harness && f.exit == g.exit)
    && f.tests.Keys == g.tests.Keys
    && (forall test | test in f.tests :: TestKept(f.tests[test], g.tests[test]))
  }

  /** The same setting, the same fixtures, and each of them at least as good as before. */
  ghost predicate NoWorse(a: Summary, b: Summary) {
    && a.setting == b.setting
    && a.fixtures.Keys == b.fixtures.Keys
    && (forall name | name in a.fixtures :: FixtureKept(a.fixtures[name], b.fixtures[name]))
  }

  lemma {:induction false} FixtureCleanIffKept(name: string, f: Fixture, g: Fixture)
    ensures (forall x :: !FixtureReported(name, f, g, x)) <==> FixtureKept(f, g)
  {
    if forall x :: !FixtureReported(name, f, g, x) {
      assert !FixtureReported(name, f, g, PassLost(name, g.status));
      assert !FixtureReported(name, f, g, FailureBecame(name, g.status));
      assert !FixtureReported(name, f, g, ErrorBecame(name, g.status));
      assert !FixtureReported(name, f, g, ExitChanged(name, g.status));
      assert !FixtureReported(name, f, g, HarnessChanged(name, g.status));
      forall test ensures test in f.tests <==> test in g.tests {
        assert !FixtureReported(name, f, g, SubtestDisappeared(name, test));
        assert !FixtureReported(name, f, g, SubtestAdded(name, test));
      }
      forall test | test in f.tests ensures TestKept(f.tests[test], g.tests[test]) {
        assert !FixtureReported(name, f, g, SubtestFailed(name, test));
        assert !FixtureReported(name, f, g, SubtestChanged(name, test, f.tests[test], g.tests[test]));
      }
    }
  }

  /** A comparison stays silent exactly when nothing got worse. */
  lemma {:induction false} CleanIffNoWorse(a: Summary, b: Summary)
    requires a.setting.Keys == b.setting.Keys
    ensures (forall x :: !Reported(a, b, x)) <==> NoWorse(a, b)
  {
    forall name | name in a.fixtures && name in b.fixtures
      ensures (forall x :: !FixtureReported(name, a.fixtures[name], b.fixtures[name], x)) <==>
        FixtureKept(a.fixtures[name], b.fixtures[name])
    {
      FixtureCleanIffKept(name, a.fixtures[name], b.fixtures[name]);
    }
    if forall x :: !Reported(a, b, x) {
      forall key | key in a.setting ensures a.setting[key] == b.setting[key] {
        assert !Reported(a, b, KeyChanged(key));
      }
      forall name ensures name in a.fixtures <==> name in b.fixtures {
        assert !Reported(a, b, FixtureDisappeared(name));
        assert !Reported(a, b, FixtureAdded(name));
      }
      forall name, x | name in a.fixtures ensures !FixtureReported(name, a.fixtures[name], b.fixtures[name], x) {
        assert !Reported(a, b, x);
      }
    }
  }

  /** NoWorse is a preorder, and its two-way part is sameness of all outcomes. */
  lemma {:induction false} NoWorseReflexive(a: Summary)
    ensures NoWorse(a, a)
  {
    forall name | name in a.fixtures ensures FixtureKept(a.fixtures[name], a.fixtures[name]) {
    }
  }

  lemma {:induction false} KeptTransitive(f: Fixture, g: Fixture, h: Fixture)
    requires FixtureKept(f, g) && FixtureKept(g, h)
    ensures FixtureKept(f, h)
  {
  }

  lemma {:induction false} NoWorseTransitive(a: Summary, b: Summary, c: Summary)
    requires NoWorse(a, b) && NoWorse(b, c)
    ensures NoWorse(a, c)
  {
    forall name | name in a.fixtures ensures FixtureKept(a.fixtures[name], c.fixtures[name]) {
      KeptTransitive(a.fixtures[name], b.fixtures[name], c.fixtures[name]);
    }
  }

  /** Along two steps that make nothing worse, what can be read stays readable. */
  lemma {:induction false} ComparableTransitive(a: Summary, b: Summary, c: Summary)
    requires NoWorse(a, b) && NoWorse(b, c) && Comparable(a, b) && Comparable(b, c)
    ensures Comparable(a, c)
  {
    forall name | name in a.fixtures && name in c.fixtures && SameError(a.fixtures[name], c.fixtures[name])
      ensures a.fixtures[name].harness.Some? && c.fixtures[name].harness.Some?
    {
      assert FixtureKept(a.fixtures[name], b.fixtures[name]) && FixtureKept(b.fixtures[name], c.fixtures[name]);
    }
  }

  lemma {:induction false} NoWorseAntisymmetric(a: Summary, b: Summary)
    requires NoWorse(a, b) && NoWorse(b, a)
    ensures a.fixtures.Keys == b.fixtures.Keys
    ensures forall name | name in a.fixtures ::
        a.fixtures[name].status == b.fixtures[name].status && a.fixtures[name].tests == b.fixtures[name].tests
    ensures forall name | name in a.fixtures && !Scored(a.fixtures[name].status) :: a.fixtures[name] == b.fixtures[name]
  {
    forall name | name in a.fixtures
      ensures a.fixtures[name].status == b.fixtures[name].status && a.fixtures[name].tests == b.fixtures[name].tests
    {
      assert FixtureKept(a.fixtures[name], b.fixtures[name]) && FixtureKept(b.fixtures[name], a.fixtures[name]);
    }
  }

  /** The subtests that pass, by fixture and name. */
  ghost function Passing(a: Summary): set<(string, string)> {
    set name, test | name in a.fixtures && test in a.fixtures[name].tests && a.fixtures[name].tests[test] == PASS ::
      (name, test)
  }

  lemma {:induction false} NoWorseKeepsPassing(a: Summary, b: Summary)
    requires NoWorse(a, b)
    ensures Passing(a) <= Passing(b)
  {
    forall name | name in a.fixtures ensures FixtureKept(a.fixtures[name], b.fixtures[name]) {
    }
  }
}
