/** What `cunit_main` produces, as values: one per-test report in the order the
    runner visits the tests (groups from the list head, each group's tests from
    `testHead`), and the tallies it adds to `passed` and `failed`. */
module Runner {
  import opened Names
  import opened Checks
  import opened Registry

  /** The content of a per-test status line: group and test names, whether `ret`
      stayed 0, and the final `asserts` and `expects` counters. */
  datatype Report = Report(group: CString, test: CString, passed: bool, asserts: int, expects: int)

  function ReportFor(groupName: CString, t: Test): Report
  {
    var o := Run(t.routine);
    Report(groupName, t.name, o.ret == 0, o.asserts, o.expects)
  }

  /** The reports of one group's tests, head to tail. */
  function TestReports(groupName: CString, tests: seq<Test>): seq<Report>
  {
    if tests == [] then []
    else TestReports(groupName, tests[..|tests| - 1]) + [ReportFor(groupName, tests[|tests| - 1])]
  }

  /** The reports of a whole run, groups head first. */
  function Reports(groups: seq<Group>): seq<Report>
  {
    if groups == [] then []
    else Reports(groups[..|groups| - 1]) + TestReports(groups[|groups| - 1].name, groups[|groups| - 1].tests)
  }

  function PassedCount(reports: seq<Report>): nat
  {
    if reports == [] then 0
    else PassedCount(reports[..|reports| - 1]) + (if reports[|reports| - 1].passed then 1 else 0)
  }

  function FailedCount(reports: seq<Report>): nat
  {
    if reports == [] then 0
    else FailedCount(reports[..|reports| - 1]) + (if reports[|reports| - 1].passed then 0 else 1)
  }

  /** Every test is reported once, in declaration order. */
  lemma {:induction false} TestReportsAt(groupName: CString, tests: seq<Test>)
    ensures |TestReports(groupName, tests)| == |tests|
    ensures forall j :: 0 <= j < |tests| ==> TestReports(groupName, tests)[j] == ReportFor(groupName, tests[j])
  {
    if tests != [] {
      var init := tests[..|tests| - 1];
      TestReportsAt(groupName, init);
      assert tests == init + [tests[|tests| - 1]];
      forall j | 0 <= j < |init|
        ensures TestReports(groupName, tests)[j] == ReportFor(groupName, tests[j])
      {
        assert TestReports(groupName, tests)[j] == TestReports(groupName, init)[j];
      }
    }
  }

  /** One report per registered test: the run reports exactly `totalTests` tests. */
  lemma {:induction false} ReportsLength(groups: seq<Group>)
    requires forall i :: 0 <= i < |groups| ==> groups[i].testCount == |groups[i].tests|
    ensures |Reports(groups)| == SumCounts(groups)
  {
    if groups != [] {
      var init := groups[..|groups| - 1];
      var last := groups[|groups| - 1];
      assert forall k :: 0 <= k < |init| ==> init[k] == groups[k];
      ReportsLength(init);
      TestReportsAt(last.name, last.tests);
      assert groups == init + [last];
      SumCountsAppend(init, last);
      assert |Reports(groups)| == |Reports(init)| + |TestReports(last.name, last.tests)|;
    }
  }

  lemma ConcatAssociative<T>(x: seq<T>, y: seq<T>, z: seq<T>)
    ensures (x + y) + z == x + (y + z)
  {
  }

  lemma ReportsSnoc(groups: seq<Group>, g: Group)
    ensures Reports(groups + [g]) == Reports(groups) + TestReports(g.name, g.tests)
  {
    assert (groups + [g])[..|groups|] == groups;
  }

  /** Running two group lists one after the other reports the first list's tests first. */
  lemma {:induction false} ReportsSplit(a: seq<Group>, b: seq<Group>)
    ensures Reports(a + b) == Reports(a) + Reports(b)
  {
    if b == [] {
      assert a + b == a;
    } else {
      var init := b[..|b| - 1];
      var last := b[|b| - 1];
      assert b == init + [last];
      assert a + b == (a + init) + [last];
      var tail := TestReports(last.name, last.tests);
      ReportsSnoc(a + init, last);
      ReportsSnoc(init, last);
      ReportsSplit(a, init);
      calc {
        Reports(a + b);
        Reports(a + init) + tail;
        (Reports(a) + Reports(init)) + tail;
        { ConcatAssociative(Reports(a), Reports(init), tail); }
        Reports(a) + (Reports(init) + tail);
        Reports(a) + Reports(b);
      }
    }
  }

  /** A run reports the groups before group i, then group i, then the groups after it. */
  lemma {:induction false} ReportsAround(groups: seq<Group>, i: nat)
    requires i < |groups|
    ensures Reports(groups)
              == Reports(groups[..i]) + TestReports(groups[i].name, groups[i].tests) + Reports(groups[i + 1..])
  {
    var before := groups[..i];
    var g := groups[i];
    var after := groups[i + 1..];
    assert groups == (before + [g]) + after;
    ReportsSplit(before + [g], after);
    ReportsSnoc(before, g);
  }

  /** The run order: test j of group i is reported right after the tests of the groups
      nearer the head and the earlier tests of its own group. */
  lemma {:induction false} ReportAt(groups: seq<Group>, i: nat, j: nat)
    requires forall k :: 0 <= k < |groups| ==> groups[k].testCount == |groups[k].tests|
    requires i < |groups| && j < |groups[i].tests|
    ensures && 0 <= SumCounts(groups[..i])
            && SumCounts(groups[..i]) + j < |Reports(groups)|
            && Reports(groups)[SumCounts(groups[..i]) + j] == ReportFor(groups[i].name, groups[i].tests[j])
  {
    var before := groups[..i];
    var g := groups[i];
    ReportsAround(groups, i);
    TestReportsAt(g.name, g.tests);
    IndexInMiddle(Reports(before), TestReports(g.name, g.tests), Reports(groups[i + 1..]), j);
    ReportsLength(before);
    SumCountsNonNegative(before);
  }

  lemma IndexInMiddle<T>(a: seq<T>, b: seq<T>, c: seq<T>, j: nat)
    requires j < |b|
    ensures |a| + j < |a + b + c| && (a + b + c)[|a| + j] == b[j]
  {
  }

  lemma TestReportsStep(groupName: CString, tests: seq<Test>, k: nat)
    requires k < |tests|
    ensures TestReports(groupName, tests[..k + 1])
              == TestReports(groupName, tests[..k]) + [ReportFor(groupName, tests[k])]
  {
    assert tests[..k + 1][..k] == tests[..k];
  }

  lemma ReportsStep(groups: seq<Group>, k: nat)
    requires k < |groups|
    ensures Reports(groups[..k + 1]) == Reports(groups[..k]) + TestReports(groups[k].name, groups[k].tests)
  {
    assert groups[..k + 1][..k] == groups[..k];
  }

  lemma CountsStep(reports: seq<Report>, r: Report)
    ensures PassedCount(reports + [r]) == PassedCount(reports) + (if r.passed then 1 else 0)
    ensures FailedCount(reports + [r]) == FailedCount(reports) + (if r.passed then 0 else 1)
  {
    assert (reports + [r])[..|reports|] == reports;
  }

  /** The tallies of two runs one after the other add up. */
  lemma {:induction false} CountsAppend(a: seq<Report>, b: seq<Report>)
    ensures PassedCount(a + b) == PassedCount(a) + PassedCount(b)
    ensures FailedCount(a + b) == FailedCount(a) + FailedCount(b)
  {
    if b == [] {
      assert a + b == a;
    } else {
      var init := b[..|b| - 1];
      var last := b[|b| - 1];
      assert a + b == (a + init) + [last];
      CountsAppend(a, init);
      CountsStep(a + init, last);
      CountsStep(init, last);
      assert b == init + [last];
    }
  }

  /** Every reported test is counted as passed or as failed, never both. */
  lemma {:induction false} PassedPlusFailed(reports: seq<Report>)
    ensures PassedCount(reports) + FailedCount(reports) == |reports|
  {
    if reports != [] {
      PassedPlusFailed(reports[..|reports| - 1]);
    }
  }
}
