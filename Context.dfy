/** CUnitContext, the process-wide registry, with the two pieces of code that
    touch it: the initialiser that CUNIT_TEST generates for every test, and
    `cunit_main`, which runs every registered test and tallies the results. */
module CUnit {
  import opened Names
  import opened Checks
  import opened Registry
  import opened Runner

  class Context {
    /** The group list, index 0 being the head (`groups`). */
    var groups: seq<Group>
    var totalTests: int
    var groupCount: int
    var passed: int
    var failed: int
    var skipped: int

    /** What registration and the runner keep true of the context. `skipped` is never
        written, so it stays at its initial 0. */
    ghost predicate Valid()
      reads this
    {
      && WellFormed(groups)
      && totalTests == SumCounts(groups) && totalTests >= 0
      && groupCount == |groups|
      && passed >= 0 && failed >= 0
      && skipped == 0
    }

    /** `CUNIT_GLOBALS`: the zero-initialised context. */
    constructor ()
      ensures Valid()
      ensures groups == [] && totalTests == 0 && groupCount == 0
      ensures passed == 0 && failed == 0 && skipped == 0
    {
      groups := [];
      totalTests, groupCount := 0, 0;
      passed, failed, skipped := 0, 0, 0;
    }

    /** The initialiser's `while` loop over the group list. */
    method FindGroup(name: CString) returns (found: Option<nat>)
      ensures found == Lookup(groups, name)
    {
      var i := 0;
      while i < |groups| && groups[i].name != name
        invariant 0 <= i <= |groups|
        invariant forall j :: 0 <= j < i ==> groups[j].name != name
      {
        i := i + 1;
      }
      found := if i < |groups| then Some(i) else None;
    }

    /** The initialiser CUNIT_TEST(decl.group, decl.name) generates; `groupAlloc` and
        `testAlloc` say whether its two `malloc` calls succeed. */
    method Register(decl: Declaration, groupAlloc: bool, testAlloc: bool)
      requires Valid()
      modifies this
      ensures Valid()
      ensures groups == Registered(old(groups), Registration(decl, groupAlloc, testAlloc))
      ensures groupCount == old(groupCount)
                + (if GroupAdded(old(groups), Registration(decl, groupAlloc, testAlloc)) then 1 else 0)
      ensures totalTests == old(totalTests)
                + (if TestAdded(old(groups), Registration(decl, groupAlloc, testAlloc)) then 1 else 0)
      ensures passed == old(passed) && failed == old(failed) && skipped == old(skipped)
    {
      ghost var reg := Registration(decl, groupAlloc, testAlloc);
      var target := FindGroup(decl.group);
      if target.None? && groupAlloc {
        groups := [NewGroup(decl.group)] + groups;
        groupCount := groupCount + 1;
        target := Some(0);
      }
      if target.Some? && testAlloc {
        var i := target.value;
        groups := groups[i := AppendTest(groups[i], NewTest(decl))];
        totalTests := totalTests + 1;
      }
      assert Lookup(old(groups), decl.group).None? && groupAlloc && testAlloc ==>
        groups == [AppendTest(NewGroup(decl.group), NewTest(decl))] + old(groups);
      RegisteredCounts(old(groups), reg);
      RegisteredWellFormed(old(groups), reg);
      SumCountsNonNegative(groups);
    }

    /** One iteration of the runner's inner loop: a zeroed result, the routine, and the
        `passed` or `failed` tally. */
    method RunTest(groupName: CString, test: Test) returns (report: Report)
      modifies this`passed, this`failed
      ensures report == ReportFor(groupName, test)
      ensures passed == old(passed) + (if report.passed then 1 else 0)
      ensures failed == old(failed) + (if report.passed then 0 else 1)
    {
      var result := new TestResult();
      RunRoutine(test.routine, result);
      if result.ret == 0 {
        passed := passed + 1;
      } else {
        failed := failed + 1;
      }
      report := Report(groupName, test.name, result.ret == 0, result.asserts, result.expects);
    }

    /** The runner's inner loop over one group's tests, from `testHead` along `next`. */
    method RunGroup(group: Group) returns (reports: seq<Report>)
      modifies this`passed, this`failed
      ensures reports == TestReports(group.name, group.tests)
      ensures passed == old(passed) + PassedCount(reports)
      ensures failed == old(failed) + FailedCount(reports)
    {
      reports := [];
      var ti := 0;
      while ti < |group.tests|
        invariant 0 <= ti <= |group.tests|
        invariant reports == TestReports(group.name, group.tests[..ti])
        invariant passed == old(passed) + PassedCount(reports)
        invariant failed == old(failed) + FailedCount(reports)
      {
        var report := RunTest(group.name, group.tests[ti]);
        TestReportsStep(group.name, group.tests, ti);
        CountsStep(reports, report);
        reports := reports + [report];
        ti := ti + 1;
      }
      assert group.tests[..ti] == group.tests;
    }

    /** `cunit_main`: run every test, groups from the head and tests from `testHead`,
        each on a zeroed result, and count it as passed when `ret` is still 0. The
        returned reports stand for the per-test status lines. */
    method RunAll() returns (status: int, reports: seq<Report>)
      requires Valid()
      modifies this`passed, this`failed
      ensures Valid()
      ensures status == 0
      ensures reports == Reports(groups)
      ensures passed == old(passed) + PassedCount(reports)
      ensures failed == old(failed) + FailedCount(reports)
      ensures passed + failed == old(passed) + old(failed) + totalTests
    {
      reports := [];
      var gi := 0;
      while gi < |groups|
        invariant 0 <= gi <= |groups|
        invariant reports == Reports(groups[..gi])
        invariant passed == old(passed) + PassedCount(reports)
        invariant failed == old(failed) + FailedCount(reports)
      {
        var groupReports := RunGroup(groups[gi]);
        CountsAppend(reports, groupReports);
        ReportsStep(groups, gi);
        reports := reports + groupReports;
        gi := gi + 1;
      }
      assert groups[..gi] == groups;
      ReportsLength(groups);
      PassedPlusFailed(reports);
      status := 0;
    }
  }

  /** A registry with group "math" holding "add_ok" (asserts 2 + 2 == 4, a condition
      of value 1) and "add_bad" (asserts 2 + 2 == 5, value 0), declared before a group
      "text" holding "same" (expects strcmp("a", "a") == 0). */
  const AddOk: seq<Check> := [Check(Assertion, Basic(1, true))]
  const AddBad: seq<Check> := [Check(Assertion, Basic(0, true))]
  const Same: seq<Check> := [Check(Expectation, StrCmp("a", "a", true))]

  const DeclAddOk := Declaration("math", "add_ok", AddOk)
  const DeclAddBad := Declaration("math", "add_bad", AddBad)
  const DeclSame := Declaration("text", "same", Same)

  const MathAfterOne := Group("math", 1, [Test("add_ok", AddOk)])
  const MathAfterTwo := Group("math", 2, [Test("add_ok", AddOk), Test("add_bad", AddBad)])
  const TextGroup := Group("text", 1, [Test("same", Same)])
  const ExampleGroups: seq<Group> := [TextGroup, MathAfterTwo]

  const ExampleReports: seq<Report> := [
    Report("text", "same", true, 0, 1),
    Report("math", "add_ok", true, 1, 0),
    Report("math", "add_bad", false, 1, 0)]

  /** The first declaration creates "math". */
  lemma ExampleFirstStep()
    ensures Registered([], Registration(DeclAddOk, true, true)) == [MathAfterOne]
  {
    assert Lookup([], "math") == None;
    assert NewGroup("math") == Group("math", 0, []);
    assert NewTest(DeclAddOk) == Test("add_ok", AddOk);
    assert AppendTest(NewGroup("math"), NewTest(DeclAddOk)) == MathAfterOne;
  }

  /** The second declaration finds "math" and appends at its tail. */
  lemma ExampleSecondStep()
    ensures Registered([MathAfterOne], Registration(DeclAddBad, true, true)) == [MathAfterTwo]
  {
    assert Lookup([MathAfterOne], "math") == Some(0);
    assert NewTest(DeclAddBad) == Test("add_bad", AddBad);
    assert AppendTest(MathAfterOne, NewTest(DeclAddBad)) == MathAfterTwo;
  }

  /** The third declaration prepends "text". */
  lemma ExampleThirdStep()
    ensures Registered([MathAfterTwo], Registration(DeclSame, true, true)) == ExampleGroups
  {
    assert Lookup([MathAfterTwo], "text") == None;
    assert NewGroup("text") == Group("text", 0, []);
    assert NewTest(DeclSame) == Test("same", Same);
    assert AppendTest(NewGroup("text"), NewTest(DeclSame)) == TextGroup;
  }

  /** The later group runs first, and within "math" the tests run in declaration order. */
  lemma ExampleReportsInOrder()
    ensures Reports(ExampleGroups) == ExampleReports
  {
    assert Run(AddOk) == Outcome(0, 1, 0);
    assert Run(AddBad) == Outcome(1, 1, 0);
    assert Run(Same) == Outcome(0, 0, 1);
    TestReportsAt("text", TextGroup.tests);
    TestReportsAt("math", MathAfterTwo.tests);
    assert TestReports("text", TextGroup.tests) == ExampleReports[..1];
    assert TestReports("math", MathAfterTwo.tests) == ExampleReports[1..];
    ReportsStep(ExampleGroups, 0);
    ReportsStep(ExampleGroups, 1);
    assert ExampleGroups[..0] == [] && ExampleGroups[..2] == ExampleGroups;
    assert ExampleReports == ExampleReports[..1] + ExampleReports[1..];
  }

  /** Two of the example's tests pass and one fails. */
  lemma ExampleTallies()
    ensures PassedCount(ExampleReports) == 2 && FailedCount(ExampleReports) == 1
  {
    CountsStep([], ExampleReports[0]);
    CountsStep(ExampleReports[..1], ExampleReports[1]);
    CountsStep(ExampleReports[..2], ExampleReports[2]);
    assert [] + [ExampleReports[0]] == ExampleReports[..1];
    assert ExampleReports[..1] + [ExampleReports[1]] == ExampleReports[..2];
    assert ExampleReports[..2] + [ExampleReports[2]] == ExampleReports;
  }

  /** The three initialisers of the example, run in declaration order on a fresh context. */
  method BuildExample() returns (ctx: Context)
    ensures fresh(ctx) && ctx.Valid()
    ensures ctx.groups == ExampleGroups && ctx.passed == 0 && ctx.failed == 0
  {
    ctx := new Context();
    ExampleFirstStep();
    ctx.Register(DeclAddOk, true, true);
    assert ctx.groups == [MathAfterOne];
    ExampleSecondStep();
    ctx.Register(DeclAddBad, true, true);
    assert ctx.groups == [MathAfterTwo];
    ExampleThirdStep();
    ctx.Register(DeclSame, true, true);
  }

  /** The end-to-end run of the registry above: two tests pass, one fails, and the runner
      still returns 0. */
  method MathExample() returns (passed: int, failed: int, status: int, reports: seq<Report>)
    ensures passed == 2 && failed == 1 && status == 0
    ensures reports == ExampleReports
  {
    var ctx := BuildExample();
    status, reports := ctx.RunAll();
    ExampleReportsInOrder();
    ExampleTallies();
    passed, failed := ctx.passed, ctx.failed;
  }
}
