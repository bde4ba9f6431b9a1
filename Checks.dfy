/** The check macros and the per-test result accumulator (`CUnitTestResult`).

    A test routine is modelled as the sequence of checks it reaches when no
    assertion fails, each an assertion or an expectation with the data its macro
    judges. Running it against a result record increments `asserts` or `expects`
    for every check reached, sets `ret` to 1 for every failed check, and stops at
    the first failed assertion (the macro's `return`). */
module Checks {
  import opened Names

  datatype Kind = Assertion | Expectation

  /** The comparison a check makes, one alternative per check macro family. */
  datatype Condition =
    /** CUNIT_{ASSERT,EXPECT}_{TRUE,FALSE}: the integer value of the condition and the truth value expected */
    | Basic(value: int, expected: bool)
    /** CUNIT_{ASSERT,EXPECT}_{EQ,NE,LT,LE,GT,GE}: whether `v1 op v2` held; the comparison itself is not modelled */
    | Binary(holds: bool)
    /** CUNIT_{ASSERT,EXPECT}_STR{EQ,NE}: `strcmp(s1, s2) == 0` when `wantEqual`, `!= 0` otherwise */
    | StrCmp(s1: CString, s2: CString, wantEqual: bool)
    /** CUNIT_{ASSERT,EXPECT}_STRCASE{EQ,NE}: `strcasecmp` kept abstract as whether it returned 0 */
    | StrCaseCmp(equalIgnoringCase: bool, wantEqual: bool)

  datatype Check = Check(kind: Kind, cond: Condition)

  /** CUNIT_TEST_BASIC as written: `(cond) != val`, where `val` is `(1 == 1)` or `(1 != 1)`,
      so the condition's integer value is compared with 1 or 0. */
  predicate BasicFailsAsWritten(value: int, expected: bool)
  {
    value != (if expected then 1 else 0)
  }

  /** CUNIT_TEST_BASIC as evidently intended: the condition's truth value (non-zero) differs
      from the expected one. */
  predicate BasicFails(value: int, expected: bool)
  {
    (value != 0) != expected
  }

  /** `CUNIT_ASSERT_TRUE(2)` fails as written although 2 is true in C. */
  lemma BasicAsWrittenRejectsTruthyValue()
    ensures BasicFailsAsWritten(2, true) && !BasicFails(2, true)
  {
  }

  /** The corrected check passes exactly when the condition has the expected truth value,
      and agrees with the code as written whenever the condition is 0 or 1 (a C comparison
      or logical operator). */
  lemma BasicFailsMeansWrongTruth(value: int, expected: bool)
    ensures !BasicFails(value, true) <==> value != 0
    ensures !BasicFails(value, false) <==> value == 0
    ensures value == 0 || value == 1 ==> BasicFails(value, expected) == BasicFailsAsWritten(value, expected)
  {
  }

  /** Whether a check passes, judged as its macro judges it; a TRUE/FALSE check compares
      the condition's integer value with 1 or 0, as CUNIT_TEST_BASIC is written. */
  predicate Holds(c: Condition)
  {
    match c
    case Basic(value, expected) => !BasicFailsAsWritten(value, expected)
    case Binary(holds) => holds
    case StrCmp(s1, s2, wantEqual) => (s1 == s2) == wantEqual
    case StrCaseCmp(equalIgnoringCase, wantEqual) => equalIgnoringCase == wantEqual
  }

  predicate Fails(c: Check)
  {
    !Holds(c.cond)
  }

  /** A failed assertion ends the test routine. */
  predicate Aborts(c: Check)
  {
    c.kind == Assertion && Fails(c)
  }

  /** The checks that actually run: all of them up to and including the first failed
      assertion, or all of them when no assertion fails. */
  function Executed(routine: seq<Check>): (e: seq<Check>)
    ensures e <= routine
    ensures forall k :: 0 <= k < |e| - 1 ==> !Aborts(e[k])
    ensures |e| < |routine| ==> |e| > 0 && Aborts(e[|e| - 1])
  {
    if routine == [] then []
    else if Aborts(routine[0]) then [routine[0]]
    else
      var rest := Executed(routine[1..]);
      assert [routine[0]] + rest <= [routine[0]] + routine[1..];
      assert routine == [routine[0]] + routine[1..];
      [routine[0]] + rest
  }

  /** The number of checks of one kind. */
  function Count(checks: seq<Check>, kind: Kind): nat
  {
    if checks == [] then 0
    else Count(checks[..|checks| - 1], kind) + (if checks[|checks| - 1].kind == kind then 1 else 0)
  }

  predicate AnyFails(checks: seq<Check>)
  {
    exists c :: c in checks && Fails(c)
  }

  /** The final contents of a zeroed CUnitTestResult after the routine ran. */
  datatype Outcome = Outcome(ret: int, asserts: int, expects: int)

  function Run(routine: seq<Check>): (o: Outcome)
    ensures o.ret == 0 || o.ret == 1
    ensures o.ret == 0 <==> forall c :: c in Executed(routine) ==> Holds(c.cond)
    ensures o.asserts >= 0 && o.expects >= 0
    ensures o.asserts + o.expects == |Executed(routine)|
  {
    var e := Executed(routine);
    CountTotal(e);
    Outcome(if AnyFails(e) then 1 else 0, Count(e, Assertion), Count(e, Expectation))
  }

  /** Every check is counted exactly once, as an assertion or as an expectation. */
  lemma {:induction false} CountTotal(checks: seq<Check>)
    ensures Count(checks, Assertion) + Count(checks, Expectation) == |checks|
  {
    if checks != [] {
      CountTotal(checks[..|checks| - 1]);
    }
  }

  lemma ExecutedUpToAbort(routine: seq<Check>, i: nat)
    requires i < |routine| && Aborts(routine[i])
    requires forall k :: 0 <= k < i ==> !Aborts(routine[k])
    ensures Executed(routine) == routine[..i + 1]
  {
  }

  lemma ExecutedWithoutAbort(routine: seq<Check>)
    requires forall k :: 0 <= k < |routine| ==> !Aborts(routine[k])
    ensures Executed(routine) == routine
  {
  }

  /** A routine whose checks all hold passes, and every one of its checks is counted. */
  lemma AllChecksPass(routine: seq<Check>)
    requires forall c :: c in routine ==> Holds(c.cond)
    ensures Run(routine) == Outcome(0, Count(routine, Assertion), Count(routine, Expectation))
  {
    ExecutedWithoutAbort(routine);
  }

  /** `CUNIT_ASSERT_TRUE(2); CUNIT_EXPECT_TRUE(1);`: the assertion is counted, fails because
      2 is not 1, and returns before the expectation is reached. */
  lemma TruthyAssertionAborts()
    ensures Run([Check(Assertion, Basic(2, true)), Check(Expectation, Basic(1, true))]) == Outcome(1, 1, 0)
  {
    var r := [Check(Assertion, Basic(2, true)), Check(Expectation, Basic(1, true))];
    ExecutedUpToAbort(r, 0);
    assert r[..1] == [r[0]];
    assert [r[0]][..0] == [];
  }

  /** A failed assertion at position i fails the test, and no check after it is counted. */
  lemma FailedAssertionAborts(routine: seq<Check>, i: nat)
    requires i < |routine| && routine[i].kind == Assertion && !Holds(routine[i].cond)
    requires forall k :: 0 <= k < i ==> !Aborts(routine[k])
    ensures Run(routine).ret == 1
    ensures Run(routine).asserts + Run(routine).expects == i + 1
    ensures Run(routine).asserts == Count(routine[..i + 1], Assertion)
    ensures Run(routine).expects == Count(routine[..i + 1], Expectation)
  {
    ExecutedUpToAbort(routine, i);
    assert routine[i] in routine[..i + 1];
  }

  /** Failed expectations never stop the routine: every expectation is counted, and the
      test fails iff one of them failed. */
  lemma {:induction false} ExpectationsRunThrough(routine: seq<Check>)
    requires forall c :: c in routine ==> c.kind == Expectation
    ensures Executed(routine) == routine
    ensures Run(routine).asserts == 0 && Run(routine).expects == |routine|
    ensures Run(routine).ret == 1 <==> exists c :: c in routine && !Holds(c.cond)
  {
    ExecutedWithoutAbort(routine);
    NoAssertionsCounted(routine);
    CountTotal(routine);
  }

  lemma {:induction false} NoAssertionsCounted(checks: seq<Check>)
    requires forall c :: c in checks ==> c.kind == Expectation
    ensures Count(checks, Assertion) == 0
  {
    if checks != [] {
      assert checks[|checks| - 1] in checks;
      NoAssertionsCounted(checks[..|checks| - 1]);
    }
  }

  /** Running more checks after a prefix never un-runs a check of that prefix. */
  lemma {:induction false} ExecutedExtends(p: seq<Check>, q: seq<Check>)
    ensures Executed(p) <= Executed(p + q)
  {
    if p != [] {
      assert (p + q)[0] == p[0];
      if !Aborts(p[0]) {
        assert (p + q)[1..] == p[1..] + q;
        ExecutedExtends(p[1..], q);
      }
    }
  }

  /** `ret` is sticky: once a check has failed, later checks cannot make the test pass. */
  lemma FailureIsSticky(p: seq<Check>, q: seq<Check>)
    requires Run(p).ret == 1
    ensures Run(p + q).ret == 1
  {
    ExecutedExtends(p, q);
    var c :| c in Executed(p) && Fails(c);
    assert c in Executed(p + q);
  }

  /** CUnitTestResult: the record a test routine updates through its `result` pointer. */
  class TestResult {
    var ret: int
    var asserts: int
    var expects: int

    /** The `memset(&result, 0, sizeof(result))` done before each test. */
    constructor ()
      ensures ret == 0 && asserts == 0 && expects == 0
    {
      ret, asserts, expects := 0, 0, 0;
    }

    /** One check macro: count it, then on failure set `ret` and report whether the
        routine must return. */
    method Record(c: Check) returns (abort: bool)
      modifies this
      ensures c.kind == Assertion ==> asserts == old(asserts) + 1 && expects == old(expects)
      ensures c.kind == Expectation ==> expects == old(expects) + 1 && asserts == old(asserts)
      ensures ret == (if Fails(c) then 1 else old(ret))
      ensures abort == Aborts(c)
    {
      if c.kind == Assertion {
        asserts := asserts + 1;
      } else {
        expects := expects + 1;
      }
      abort := false;
      if !Holds(c.cond) {
        ret := 1;
        if c.kind == Assertion {
          abort := true;
        }
      }
    }
  }

  /** A test routine's body: its checks in order, returning at the first failed assertion. */
  method RunRoutine(routine: seq<Check>, result: TestResult)
    modifies result
    ensures result.asserts == old(result.asserts) + Count(Executed(routine), Assertion)
    ensures result.expects == old(result.expects) + Count(Executed(routine), Expectation)
    ensures result.ret == if AnyFails(Executed(routine)) then 1 else old(result.ret)
  {
    var i := 0;
    while i < |routine|
      invariant 0 <= i <= |routine|
      invariant forall k :: 0 <= k < i ==> !Aborts(routine[k])
      invariant result.asserts == old(result.asserts) + Count(routine[..i], Assertion)
      invariant result.expects == old(result.expects) + Count(routine[..i], Expectation)
      invariant result.ret == if AnyFails(routine[..i]) then 1 else old(result.ret)
    {
      var abort := result.Record(routine[i]);
      assert routine[..i + 1][..i] == routine[..i];
      assert routine[..i + 1] == routine[..i] + [routine[i]];
      if abort {
        ExecutedUpToAbort(routine, i);
        return;
      }
      i := i + 1;
    }
    ExecutedWithoutAbort(routine);
    assert routine[..i] == routine;
  }
}
